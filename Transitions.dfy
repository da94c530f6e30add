/**
 * The simulator's state as a value, and every operation of tetris.c as a
 * function on it. Each operation is built from the container primitives in
 * the order the C body calls them, so what it computes is exactly what the
 * code does, including where that differs from the code's own comments.
 */
module Transitions {
  import opened Pieces

  /** `Fila.capacidade`, `Pilha.capacidade` and the size of `PilhaAcoes.acoes`. */
  const QueueCapacity := 5
  const StackCapacity := 3
  const HistoryCapacity := 10

  datatype Option<T> = None | Some(value: T)

  /** `TipoAcao`: `JOGAR` and `RESERVAR`. */
  datatype ActionKind = Play | Reserve

  /** `Acao`: what was done, the piece taken off the queue front and the piece generated for it. */
  datatype Action = Action(kind: ActionKind, displaced: Piece, replacement: Piece)

  /**
   * The whole state of the program:
   * - `slots`, `front`, `back`: the queue's array `pecas[5]` and its cursors `frente`, `tras`;
   * - `reserve`: the stack's live slots `pecas[0..topo]`, base first (so `topo == |reserve| - 1`);
   * - `log`: the history's live slots `acoes[0..topo]`, oldest first;
   * - `nextId`: the counter `proximoIdPeca`.
   * Stack and history slots above `topo` are never read before being written, so they are not state.
   */
  datatype Machine = Machine(
    slots: seq<Piece>, front: int, back: int,
    reserve: seq<Piece>,
    log: seq<Action>,
    nextId: int)

  /** Shapes and ranges every reachable state has: `frente`, `tras` in [0,4], stack `topo` in [-1,2], history `topo` in [-1,9]. */
  predicate WellFormed(m: Machine) {
    && |m.slots| == QueueCapacity
    && 0 <= m.front < QueueCapacity
    && 0 <= m.back < QueueCapacity
    && |m.reserve| <= StackCapacity
    && |m.log| <= HistoryCapacity
    && m.nextId >= 0
  }

  /** The queue holds five pieces: `(tras + 1) % 5 == frente`. */
  predicate RingFull(m: Machine)
    requires WellFormed(m)
  {
    (m.back + 1) % QueueCapacity == m.front
  }

  /** The queue front to back, indexed as `exibirEstado` does: `pecas[(frente + i) % 5]`. */
  function QueueView(m: Machine): seq<Piece>
    requires WellFormed(m)
  {
    seq(QueueCapacity, i requires 0 <= i < QueueCapacity => m.slots[(m.front + i) % QueueCapacity])
  }

  /** The stack top to base, as `exibirEstado` prints it: `pecas[topo]`, ..., `pecas[0]`. */
  function StackView(m: Machine): seq<Piece>
  {
    seq(|m.reserve|, i requires 0 <= i < |m.reserve| => m.reserve[|m.reserve| - 1 - i])
  }

  // ---------------------------------------------------------------------------
  // Primitives

  /** `gerarPeca`: a piece with shape `ShapeOf(roll)` and id `proximoIdPeca++`. */
  function Generate(m: Machine, roll: nat): (r: (Piece, Machine))
    requires WellFormed(m)
    ensures WellFormed(r.1)
    ensures r.0.id == m.nextId && r.0.shape in Shapes
    ensures r.1 == m.(nextId := m.nextId + 1)
  {
    (Piece(ShapeOf(roll), m.nextId), m.(nextId := m.nextId + 1))
  }

  /** `enqueue`: advance `tras` circularly and write there; there is no fullness check. */
  function Enqueue(m: Machine, p: Piece): (r: Machine)
    requires WellFormed(m)
    ensures WellFormed(r)
    ensures r.back == (m.back + 1) % QueueCapacity && r.slots == m.slots[r.back := p]
    ensures r.(slots := m.slots, back := m.back) == m
  {
    var b := (m.back + 1) % QueueCapacity;
    m.(back := b, slots := m.slots[b := p])
  }

  /** `dequeue`: read `pecas[frente]` and advance `frente` circularly; there is no emptiness check. */
  function Dequeue(m: Machine): (r: (Piece, Machine))
    requires WellFormed(m)
    ensures WellFormed(r.1)
    ensures r.0 == QueueView(m)[0]
    ensures r.1.front == (m.front + 1) % QueueCapacity
    ensures r.1.(front := m.front) == m
  {
    (m.slots[m.front], m.(front := (m.front + 1) % QueueCapacity))
  }

  /** `push`: when `topo < capacidade - 1` the piece goes on top, otherwise nothing changes. */
  function Push(m: Machine, p: Piece): (r: Machine)
    requires WellFormed(m)
    ensures WellFormed(r)
    ensures |m.reserve| == StackCapacity ==> r == m
    ensures |m.reserve| < StackCapacity ==> StackView(r) == [p] + StackView(m) && r.(reserve := m.reserve) == m
  {
    if |m.reserve| < StackCapacity then m.(reserve := m.reserve + [p]) else m
  }

  /** `pop`: the top piece, or `{' ', -1}` and no change when the stack is empty. */
  function Pop(m: Machine): (r: (Piece, Machine))
    requires WellFormed(m)
    ensures WellFormed(r.1)
    ensures m.reserve == [] ==> r == (Blank, m)
    ensures m.reserve != [] ==>
      r.0 == StackView(m)[0] && StackView(r.1) == StackView(m)[1..] && r.1.(reserve := m.reserve) == m
  {
    if |m.reserve| > 0 then
      (m.reserve[|m.reserve| - 1], m.(reserve := m.reserve[..|m.reserve| - 1]))
    else
      (Blank, m)
  }

  /** `pushAcao`: records the action when `topo < 9`; a full history silently drops it. */
  function PushAction(m: Machine, a: Action): (r: Machine)
    requires WellFormed(m)
    ensures WellFormed(r)
    ensures |m.log| == HistoryCapacity ==> r == m
    ensures |m.log| < HistoryCapacity ==> |r.log| == |m.log| + 1 && r.log[|m.log|] == a && r.log[..|m.log|] == m.log && r.(log := m.log) == m
  {
    if |m.log| < HistoryCapacity then m.(log := m.log + [a]) else m
  }

  /** `popAcao`: the latest action, or none (the `tipo == -1` record) with no change when the history is empty. */
  function PopAction(m: Machine): (r: (Option<Action>, Machine))
    requires WellFormed(m)
    ensures WellFormed(r.1)
    ensures m.log == [] ==> r == (None, m)
    ensures m.log != [] ==> r.0 == Some(m.log[|m.log| - 1]) && r.1.log + [m.log[|m.log| - 1]] == m.log && r.1.(log := m.log) == m
  {
    if |m.log| > 0 then
      (Some(m.log[|m.log| - 1]), m.(log := m.log[..|m.log| - 1]))
    else
      (None, m)
  }

  // ---------------------------------------------------------------------------
  // The loops of `trocaMultipla` and `inverterFilaComPilha`, one step at a time

  /** `k` calls of `dequeue`, collecting the pieces in call order. */
  function DequeueMany(m: Machine, k: nat): (r: (seq<Piece>, Machine))
    requires WellFormed(m)
    ensures |r.0| == k && WellFormed(r.1)
    ensures r.1 == m.(front := (m.front + k) % QueueCapacity)
    decreases k
  {
    if k == 0 then ([], m)
    else
      var (taken, m1) := DequeueMany(m, k - 1);
      var (p, m2) := Dequeue(m1);
      (taken + [p], m2)
  }

  /** `k` calls of `pop`, collecting the pieces in call order (blanks once the stack is empty). */
  function PopMany(m: Machine, k: nat): (r: (seq<Piece>, Machine))
    requires WellFormed(m)
    ensures |r.0| == k && WellFormed(r.1)
    ensures r.1 == m.(reserve := m.reserve[..if k <= |m.reserve| then |m.reserve| - k else 0])
    decreases k
  {
    if k == 0 then ([], m)
    else
      var (taken, m1) := PopMany(m, k - 1);
      var (p, m2) := Pop(m1);
      (taken + [p], m2)
  }

  /** One call of `enqueue` per piece of `ps`, in order. */
  function EnqueueAll(m: Machine, ps: seq<Piece>): (r: Machine)
    requires WellFormed(m)
    ensures WellFormed(r)
    ensures r.back == (m.back + |ps|) % QueueCapacity
    ensures r.(slots := m.slots, back := m.back) == m
    decreases |ps|
  {
    if ps == [] then m else Enqueue(EnqueueAll(m, ps[..|ps| - 1]), ps[|ps| - 1])
  }

  /** One call of `push` per piece of `ps`, in order. */
  function PushAll(m: Machine, ps: seq<Piece>): (r: Machine)
    requires WellFormed(m)
    ensures WellFormed(r)
    ensures |m.reserve| + |ps| <= StackCapacity ==> r.reserve == m.reserve + ps
    ensures r.(reserve := m.reserve) == m
    decreases |ps|
  {
    if ps == [] then m else Push(PushAll(m, ps[..|ps| - 1]), ps[|ps| - 1])
  }

  // ---------------------------------------------------------------------------
  // Initialisation

  /** The queue `inicializarFila` builds: five generated pieces with consecutive ids from `firstId`. */
  function FreshQueue(rolls: seq<nat>, firstId: int): (q: seq<Piece>)
    requires |rolls| == QueueCapacity
  {
    seq(QueueCapacity, i requires 0 <= i < QueueCapacity => Piece(ShapeOf(rolls[i]), firstId + i))
  }

  /**
   * The state after `inicializarFila`, `inicializarPilha` and `inicializarHistorico`
   * run on a fresh program (`proximoIdPeca == 0`): `frente == 0`, `tras == 4`, both stacks empty.
   */
  function Initial(rolls: seq<nat>): (m: Machine)
    requires |rolls| == QueueCapacity
    ensures WellFormed(m) && RingFull(m)
    ensures m.reserve == [] && m.log == [] && m.nextId == QueueCapacity
  {
    Machine(FreshQueue(rolls, 0), 0, QueueCapacity - 1, [], [], QueueCapacity)
  }

  // ---------------------------------------------------------------------------
  // Operations

  /** `jogarPeca`. */
  function PlayPiece(m: Machine, roll: nat): (r: Machine)
    requires WellFormed(m)
    ensures WellFormed(r)
    ensures r.front == (m.front + 1) % QueueCapacity && r.back == (m.back + 1) % QueueCapacity
    ensures r.slots == m.slots[r.back := Piece(ShapeOf(roll), m.nextId)]
    ensures r.log == if |m.log| < HistoryCapacity
      then m.log + [Action(Play, QueueView(m)[0], Piece(ShapeOf(roll), m.nextId))]
      else m.log
    ensures r.reserve == m.reserve && r.nextId == m.nextId + 1
  {
    var displaced := m.slots[m.front];
    var (replacement, m1) := Generate(m, roll);
    var m2 := Dequeue(m1).1;
    var m3 := Enqueue(m2, replacement);
    PushAction(m3, Action(Play, displaced, replacement))
  }

  /** `reservarPeca`: nothing happens, and no id is used, when the stack is full. */
  function ReservePiece(m: Machine, roll: nat): (r: Machine)
    requires WellFormed(m)
    ensures WellFormed(r)
    ensures |m.reserve| == StackCapacity ==> r == m
    ensures |m.reserve| < StackCapacity ==>
      && r.front == (m.front + 1) % QueueCapacity && r.back == (m.back + 1) % QueueCapacity
      && r.slots == m.slots[r.back := Piece(ShapeOf(roll), m.nextId)]
      && StackView(r) == [QueueView(m)[0]] + StackView(m)
      && r.log == (if |m.log| < HistoryCapacity
        then m.log + [Action(Reserve, QueueView(m)[0], Piece(ShapeOf(roll), m.nextId))]
        else m.log)
      && r.nextId == m.nextId + 1
  {
    if |m.reserve| < StackCapacity then
      var displaced := m.slots[m.front];
      var (replacement, m1) := Generate(m, roll);
      var m2 := Dequeue(m1).1;
      var m3 := Enqueue(m2, replacement);
      var m4 := Push(m3, displaced);
      PushAction(m4, Action(Reserve, displaced, replacement))
    else
      m
  }

  /** `usarPecaReservada`: drops the stack top; nothing happens on an empty stack. */
  function UseReserved(m: Machine): (r: Machine)
    requires WellFormed(m)
    ensures WellFormed(r)
    ensures m.reserve == [] ==> r == m
    ensures m.reserve != [] ==> |r.reserve| == |m.reserve| - 1
  {
    if |m.reserve| > 0 then Pop(m).1 else m
  }

  /** `trocarPeca`: pop, dequeue, push the dequeued piece, enqueue the popped one (at the back). */
  function SwapPiece(m: Machine): (r: Machine)
    requires WellFormed(m)
    ensures WellFormed(r)
    ensures m.reserve == [] ==> r == m
    ensures |r.reserve| == |m.reserve| && r.log == m.log && r.nextId == m.nextId
    ensures m.reserve != [] ==>
      && r.front == (m.front + 1) % QueueCapacity && r.back == (m.back + 1) % QueueCapacity
      && r.slots == m.slots[r.back := StackView(m)[0]]
      && StackView(r) == [QueueView(m)[0]] + StackView(m)[1..]
  {
    if |m.reserve| > 0 then
      var (fromStack, m1) := Pop(m);
      var (fromQueue, m2) := Dequeue(m1);
      var m3 := Push(m2, fromQueue);
      Enqueue(m3, fromStack)
    else
      m
  }

  /** `trocaMultipla`: only with exactly three pieces on the stack. */
  function BulkSwap(m: Machine): (r: Machine)
    requires WellFormed(m)
    ensures WellFormed(r)
    ensures |m.reserve| != StackCapacity ==> r == m
    ensures |m.reserve| == StackCapacity ==>
      && r.front == (m.front + 3) % QueueCapacity && r.back == (m.back + 3) % QueueCapacity
      && |r.reserve| == StackCapacity
    ensures r.log == m.log && r.nextId == m.nextId
  {
    if |m.reserve| == StackCapacity then
      var (fromQueue, m1) := DequeueMany(m, StackCapacity);
      var (fromStack, m2) := PopMany(m1, StackCapacity);
      var m3 := EnqueueAll(m2, fromStack);
      PushAll(m3, [fromQueue[2], fromQueue[1], fromQueue[0]])
    else
      m
  }

  /** `BulkSwap` is its four loops run one after the other. */
  lemma BulkSwapByStages(m: Machine, q: seq<Piece>, m1: Machine, s: seq<Piece>, m2: Machine, m3: Machine, r: Machine)
    requires WellFormed(m) && |m.reserve| == StackCapacity
    requires (q, m1) == DequeueMany(m, StackCapacity)
    requires (s, m2) == PopMany(m1, StackCapacity)
    requires m3 == EnqueueAll(m2, s)
    requires r == PushAll(m3, [q[2], q[1], q[0]])
    ensures r == BulkSwap(m)
  {
  }

  /**
   * `desfazerJogada`: steps `tras` back and enqueues the displaced piece, so only
   * `pecas[tras]` is rewritten; for a reserve the stack is popped too.
   */
  function UndoMove(m: Machine): (r: Machine)
    requires WellFormed(m)
    ensures WellFormed(r)
    ensures m.log == [] ==> r == m
    ensures r.front == m.front && r.back == m.back && r.nextId == m.nextId
    ensures m.log != [] ==> r.log == m.log[..|m.log| - 1]
  {
    var (last, m1) := PopAction(m);
    match last
    case None => m1
    case Some(a) =>
      var m2 := m1.(back := (m1.back - 1 + QueueCapacity) % QueueCapacity);
      if a.kind == Play then
        Enqueue(m2, a.displaced)
      else
        var m3 := Pop(m2).1;
        Enqueue(m3, a.displaced)
  }

  /** `inverterFilaComPilha`: five dequeues, three pops, three enqueues, three pushes. */
  function Invert(m: Machine): (r: Machine)
    requires WellFormed(m)
    ensures WellFormed(r)
    ensures r.front == m.front && r.back == (m.back + StackCapacity) % QueueCapacity
    ensures |r.reserve| == StackCapacity && r.log == m.log && r.nextId == m.nextId
  {
    var (fromQueue, m1) := DequeueMany(m, QueueCapacity);
    var (fromStack, m2) := PopMany(m1, StackCapacity);
    var m3 := EnqueueAll(m2, fromStack);
    PushAll(m3, [fromQueue[2], fromQueue[1], fromQueue[0]])
  }

  /** `Invert` is its four loops run one after the other. */
  lemma InvertByStages(m: Machine, q: seq<Piece>, m1: Machine, s: seq<Piece>, m2: Machine, m3: Machine, r: Machine)
    requires WellFormed(m)
    requires (q, m1) == DequeueMany(m, QueueCapacity)
    requires (s, m2) == PopMany(m1, StackCapacity)
    requires m3 == EnqueueAll(m2, s)
    requires r == PushAll(m3, [q[2], q[1], q[0]])
    ensures r == Invert(m)
  {
  }

  /** `realizarAcao`: options 1 to 6; 0 (exit) and anything else change nothing. */
  function Dispatch(m: Machine, option: int, roll: nat): (r: Machine)
    requires WellFormed(m)
    ensures WellFormed(r)
    ensures !(1 <= option <= 6) ==> r == m
  {
    if option == 1 then PlayPiece(m, roll)
    else if option == 2 then ReservePiece(m, roll)
    else if option == 3 then UseReserved(m)
    else if option == 4 then SwapPiece(m)
    else if option == 5 then UndoMove(m)
    else if option == 6 then Invert(m)
    else m
  }
}
