/** Pieces of the "next pieces" queue and the reserve stack (struct `Peca`). */
module Pieces {

  /** A piece: its shape letter (`nome`) and its id. */
  datatype Piece = Piece(shape: char, id: int)

  /** What `pop` hands back when the reserve stack is empty. */
  const Blank := Piece(' ', -1)

  /** The shape table of `gerarPeca`, in its order. */
  const Shapes: seq<char> := ['I', 'O', 'T', 'L']

  /**
   * The shape `gerarPeca` picks when `rand()` returned `roll`
   * (`tipos[rand() % 4]`; `rand()` never returns a negative value).
   */
  function ShapeOf(roll: nat): (c: char)
    ensures c in {'I', 'O', 'T', 'L'}
  {
    Shapes[roll % |Shapes|]
  }
}
