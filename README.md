# Tetris Stack piece queue, in Dafny

A model of `tetris.c`, a console program for a Tetris-style piece manager.
It keeps three containers:

- a circular queue of the next five pieces (`Fila`: `pecas[5]`, `frente`, `tras`);
- a reserve stack of at most three pieces (`Pilha`: `pecas[3]`, `topo`);
- a history of at most ten play/reserve actions (`historico`) for undo.

A global counter `proximoIdPeca` numbers the generated pieces. The menu
operations are:

- play the front piece;
- reserve the front piece onto the stack;
- use the reserved top;
- swap the front with the top;
- undo the last play or reserve;
- invert the queue with the stack.

There is also a multiple swap, which the menu never calls.

The project has four modules:

- `Pieces` holds the piece record `Peca` and `gerarPeca`'s shape table.
- `Transitions` holds the program state as a value (`Machine`). Every C
  function is a function on that value, built from the container primitives in
  the order the C body calls them. The four loops of `trocaMultipla` and
  `inverterFilaComPilha` are the recursive helpers `DequeueMany`, `PopMany`,
  `EnqueueAll` and `PushAll`.
- `Properties` proves what each operation does to the queue seen front to back
  (`QueueView`, indexed as `exibirEstado` prints it) and to the stack seen top to
  base (`StackView`). This covers the places where the code differs from what its
  comments announce:
  - a swap sends the old stack top to the queue's back, not its front;
  - an undo leaves the queue rotated instead of restored;
  - an invert pads the queue with the blank pieces `pop` returns on an empty
    stack, and leaves the ring no longer full;
  - with a full history a play is not recorded, so undo replays an older action.
- `Simulator` is the program's storage as a class `Game`. Its fields are the
  queue's and stacks' arrays and cursors and the id counter. Its methods are the
  C functions, changing those fields step by step with the same loops. Each
  method's postcondition says that the state it leaves is the one `Transitions`
  computes from the state before.

`rand()` is a parameter: each generated piece takes a `roll: nat`, the value
`rand()` returned.

## Model

| member | source | states |
|---|---|---|
| `Pieces.ShapeOf` | tetris.c:121-124 | the shape picked for any `rand()` value is one of `I`, `O`, `T`, `L` |
| `Transitions.Generate` | tetris.c:121-127 | the new piece has the current counter as id and a shape from the table; only the counter changes, by one |
| `Transitions.Enqueue` | tetris.c:132-135 | `tras` moves one slot on, round the ring, and the piece is written there; every other slot and field is kept; no fullness check |
| `Transitions.Dequeue` | tetris.c:140-144 | returns the queue's front piece (first of the `exibirEstado` view) and moves `frente` one slot on, round the ring; nothing else changes; no emptiness check |
| `Transitions.Push` | tetris.c:149-155 | below capacity the piece becomes the new top over the old stack and nothing else changes; a full stack is left unchanged |
| `Transitions.Pop` | tetris.c:160-166 | a non-empty stack yields its top and keeps the rest of the stack; an empty stack yields the blank piece `{' ', -1}` and no change |
| `Transitions.PushAction` | tetris.c:171-178 | below ten entries the action is appended after the old entries; a full history silently drops the action |
| `Transitions.PopAction` | tetris.c:183-188 | a non-empty history yields its latest action and keeps the older ones; an empty history yields no action (the `tipo == -1` record) and no change |
| `Transitions.DequeueMany` | tetris.c:366-368 | `k` dequeues return `k` pieces and move only `frente`, by `k` round the ring |
| `Transitions.PopMany` | tetris.c:371-373 | `k` pops return `k` pieces and drop `min(k, size)` pieces off the stack, nothing else |
| `Transitions.EnqueueAll` | tetris.c:376-378 | enqueueing `n` pieces moves `tras` by `n` round the ring and changes only the slots |
| `Transitions.PushAll` | tetris.c:381-383 | pushes that fit append in order, and only the stack changes |
| `Transitions.Initial` | tetris.c:88-116 | start-up leaves a full ring, two empty stacks and the id counter at 5 |
| `Transitions.PlayPiece` | tetris.c:269-276 | in every state: both cursors move by one, the new piece (old counter as id) is written at the new `tras` and no other slot changes, `{JOGAR, front, new}` is appended unless the history is full, the stack is kept and one id is used |
| `Transitions.ReservePiece` | tetris.c:287-309 | with room, in every state: both cursors move by one, the new piece is written at the new `tras` and no other slot changes, the old front becomes the stack top, `{RESERVAR, front, new}` is appended unless the history is full, and one id is used; with a full stack nothing changes |
| `Transitions.UseReserved` | tetris.c:315-317 | the stack loses one piece if it has one; otherwise nothing changes |
| `Transitions.SwapPiece` | tetris.c:335-354 | with a non-empty stack, in every state: both cursors move by one, the old stack top is written at the new `tras` (the back, not the front) and no other slot changes, and the old front replaces the top; with an empty stack nothing changes; history and ids untouched |
| `Transitions.BulkSwap` | tetris.c:360-389 | only a stack of exactly three pieces triggers the exchange, which moves both cursors by three and leaves three on the stack |
| `Transitions.UndoMove` | tetris.c:401-417 | both cursors and the id counter are unchanged, the latest action is removed, and an empty history changes nothing |
| `Transitions.Invert` | tetris.c:430-452 | `frente` stays, `tras` moves by three, the stack ends with three pieces, whatever the stack held before |
| `Transitions.Dispatch` | tetris.c:238-263 | options outside 1 to 6 change nothing |
| `Properties.PopsPadWithBlanks` | tetris.c:441-443 | three pops return the stack top to base followed by blanks |
| `Properties.RingFullIffGap` | tetris.c:132-144 | the queue holds five pieces exactly when `tras` is four slots ahead of `frente` |
| `Properties.InitialQueueInOrder` | tetris.c:88-100 | after start-up the queue front to back holds ids 0 to 4 with the rolled shapes, in a full ring |
| `Properties.PopUndoesPush` | tetris.c:149-166 | pop right after a push that fits returns the piece and the old state |
| `Properties.PushUndoesPop` | tetris.c:149-166 | pushing back what was popped restores the state |
| `Properties.PopActionUndoesPushAction` | tetris.c:171-188 | `popAcao` right after a recorded `pushAcao` returns that action and the old history |
| `Properties.PushActionUndoesPopAction` | tetris.c:171-188 | recording again what was popped from the history restores it |
| `Properties.DequeueRotatesView` | tetris.c:140-144 | one dequeue, with no enqueue, turns the five-slot view `[a,b,c,d,e]` into `[b,c,d,e,a]`, whatever `tras` is |
| `Properties.DequeueManyTakesFront` | tetris.c:366-368 | the `i`-th dequeued piece is the one `i` slots past `frente` |
| `Properties.PopManyTakesTop` | tetris.c:371-373 | the `i`-th popped piece is the `i`-th from the top, or blank once the stack is empty |
| `Properties.EnqueueAllSlot` | tetris.c:376-378 | after up to five enqueues each slot holds the piece written there last, or its old piece |
| `Properties.PushAllDropsOverflow` | tetris.c:381-383 | pushes go on top in order until the stack holds three pieces, and the rest are silently dropped |
| `Properties.ShiftAndAppend` | tetris.c:273-274 | in a full ring, a dequeue then an enqueue of `p` drops the front and appends `p`, keeping the ring full |
| `Properties.PlayShiftsQueue` | tetris.c:269-275 | a play turns queue `[a,b,c,d,e]` into `[b,c,d,e,n]` with `n` the new piece, and records `{JOGAR, a, n}` unless the history is full |
| `Properties.PlayAtGapTwo` | tetris.c:269-274 | when `tras` is two slots past `frente`, a play turns the view `[a,b,c,d,e]` into `[b,c,n,e,a]` |
| `Properties.PlayAfterInvert` | tetris.c:269-274 | right after an invert from a full ring, a play turns the view `[a,b,c,d,e]` into `[b,c,n,e,a]`: the played piece stays on display |
| `Properties.ReserveMovesFrontToStack` | tetris.c:287-296 | a reserve with room shifts the queue as a play does, pushes `a` on the stack and records `{RESERVAR, a, n}` unless the history is full |
| `Properties.UseReservedDropsTop` | tetris.c:315-317 | using a reserved piece removes the stack top and changes nothing else |
| `Properties.SwapSendsTopToBack` | tetris.c:335-341 | a swap turns queue `[a,b,c,d,e]` with top `s` into `[b,c,d,e,s]` with top `a`, not `[s,b,c,d,e]` |
| `Properties.SwapTwiceRotates` | tetris.c:335-341 | two swaps give `[c,d,e,s,a]` with top `b` |
| `Properties.SwapIsNotSelfInverse` | tetris.c:335-341 | two swaps do not restore the state whenever the first and third queued pieces differ |
| `Properties.BulkSwapTradesWindows` | tetris.c:360-383 | on a full stack `[x,y,z]` (top first) and queue `[a,b,c,d,e]`, the multiple swap gives queue `[d,e,x,y,z]` and stack `[a,b,c]`, in a full ring |
| `Properties.BulkSwapKeepsGap` | tetris.c:360-389 | the multiple swap keeps the distance between the cursors in every state |
| `Properties.UndoRewritesBackSlot` | tetris.c:401-416 | undo rewrites only `pecas[tras]` with the displaced piece, keeps both cursors, and pops the stack for a reserve |
| `Properties.PlayThenUndoRotates` | tetris.c:269-275 | play then undo leaves queue `[b,c,d,e,a]`, not `[a,b,c,d,e]`, with the old stack and history |
| `Properties.ReserveThenUndoRotates` | tetris.c:287-296 | reserve then undo restores stack and history but leaves queue `[b,c,d,e,a]` |
| `Properties.FullHistoryUndoReplaysOlder` | tetris.c:171-178 | with ten recorded actions, play then undo writes the older entry's piece at the back and drops that older entry |
| `Properties.InvertRefillsStack` | tetris.c:430-452 | after an invert the stack holds the queue's first three pieces, front piece on top |
| `Properties.InvertUnderFullRing` | tetris.c:430-452 | from a full ring, invert gives queue `[s1,s2,s3,d,e]`, where `s1..s3` are the stack top to base padded with blank pieces, and the ring is no longer full |
| `Properties.InvertShiftsGap` | tetris.c:430-452 | invert adds three to the distance between the cursors, round the ring |
| `Properties.DispatchShiftsGap` | tetris.c:238-263 | every menu option keeps the distance between the cursors, except 6, which adds three |
| `Properties.OnlyInvertBreaksRing` | tetris.c:238-263 | from a full ring, an option leaves the ring full if and only if it is not 6 |
| `Simulator.Game.constructor` | tetris.c:463-473 | start-up yields the state `Initial` describes |
| `Simulator.Game.InitQueue` | tetris.c:88-100 | `frente == 0`, `tras == 4`, five fresh pieces with consecutive ids in slots 0 to 4 |
| `Simulator.Game.InitStack` | tetris.c:106-109 | the stack is empty |
| `Simulator.Game.InitHistory` | tetris.c:114-116 | the history is empty |
| `Simulator.Game.Generate` | tetris.c:121-127 | returns the piece with the old counter as id and increments the counter |
| `Simulator.Game.Enqueue` | tetris.c:132-135 | the array update matches `Transitions.Enqueue` |
| `Simulator.Game.Dequeue` | tetris.c:140-144 | the returned piece and new state match `Transitions.Dequeue` |
| `Simulator.Game.Push` | tetris.c:149-155 | matches `Transitions.Push` |
| `Simulator.Game.Pop` | tetris.c:160-166 | matches `Transitions.Pop` |
| `Simulator.Game.PushAction` | tetris.c:171-178 | matches `Transitions.PushAction` |
| `Simulator.Game.PopAction` | tetris.c:183-188 | matches `Transitions.PopAction` |
| `Simulator.Game.QueueSnapshot` | tetris.c:200-203 | the display loop reads the queue front to back, `QueueView` |
| `Simulator.Game.StackSnapshot` | tetris.c:207-213 | the display loop reads the stack top to base, `StackView` |
| `Simulator.Game.PlayPiece` | tetris.c:269-275 | matches `Transitions.PlayPiece` |
| `Simulator.Game.ReservePiece` | tetris.c:287-303 | matches `Transitions.ReservePiece` |
| `Simulator.Game.UseReserved` | tetris.c:315-323 | matches `Transitions.UseReserved` |
| `Simulator.Game.SwapPiece` | tetris.c:335-348 | matches `Transitions.SwapPiece` |
| `Simulator.Game.BulkSwap` | tetris.c:360-389 | matches `Transitions.BulkSwap` |
| `Simulator.Game.TakeWindows` | tetris.c:366-373 | the first two loops leave the dequeued and popped pieces in the buffers and the state `DequeueMany` then `PopMany` give |
| `Simulator.Game.ReturnWindows` | tetris.c:376-383 | the last two loops leave the state `EnqueueAll` then `PushAll` give |
| `Simulator.Game.DequeueInto` | tetris.c:366-368 | the dequeue loop fills the buffer and moves the queue as `DequeueMany` |
| `Simulator.Game.PopInto` | tetris.c:371-373 | the pop loop fills the buffer and shrinks the stack as `PopMany` |
| `Simulator.Game.EnqueueFrom` | tetris.c:376-378 | the enqueue loop matches `EnqueueAll` |
| `Simulator.Game.PushThreeReversed` | tetris.c:381-383 | the push loop, from index 2 down to 0, matches `PushAll` of the reversed buffer |
| `Simulator.Game.UndoMove` | tetris.c:401-417 | matches `Transitions.UndoMove` |
| `Simulator.Game.Invert` | tetris.c:430-452 | matches `Transitions.Invert` |
| `Simulator.Game.Perform` | tetris.c:238-263 | matches `Transitions.Dispatch` |

## Left out

- Console output, `menu`, `exibirEstado`'s printing and the `main` loop's `scanf` are not modelled. The display loops' reads are modelled as `QueueSnapshot` and `StackSnapshot`. The `main` loop is one `Perform` per option read.
- `rand()` and `srand(time(NULL))` are replaced by the `roll` parameter; the shape is `roll % 4` as in `rand() % 4`, with `rand()` never negative.
- `proximoIdPeca` is an unbounded integer; 32-bit signed overflow after about two billion pieces is not modelled.
- `Fila.capacidade` and `Pilha.capacidade` are the constants `QueueCapacity` (5) and `StackCapacity` (3). `inicializarFila` and `inicializarPilha` assign them and nothing changes them. `trocaMultipla`'s literal `3` is `StackCapacity`.
- C's `%` truncates toward zero. Every operand here is non-negative (`tras - 1 + capacidade` included), so it agrees with Dafny's `%`.
- Stack and history slots above `topo` are not part of `Machine`. No operation reads them before writing them.
- `popAcao`'s empty-history record `{.tipo = -1}` has its pieces zero-initialised, as for any C compound literal, and `desfazerJogada` never reads them; it is modelled as `None`.
- The struct fields of the globals and of `main`'s locals are gathered as fields of one `Game` object. Aliasing between the queue and the stack is excluded by `Valid`.
- Where the code's comments promise something the code does not do, the model follows the code, and `Properties` proves what the code does:
  - the swap does not put the piece at the front, so two swaps in a row are not self-inverse;
  - an undo does not restore the queue order after a play or a reserve;
  - an invert does not exchange the full contents;
  - `pushAcao` on a full history evicts nothing and drops the new action, so a later undo replays an older entry.
- Properties.PlayShiftsQueue: stated for a full ring. That covers every state before the first invert. In every state, `Transitions.PlayPiece` states which slot is written and what is recorded, and `PlayAfterInvert` shows the view right after an invert; the view after longer sequences off a full ring is not stated as a lemma.
- Properties.ReserveMovesFrontToStack: stated for a full ring, for the same reason. The slot written, the stack and the record hold in every state through `Transitions.ReservePiece`'s contract.
- Properties.SwapSendsTopToBack: stated for a full ring, for the same reason. Its stack half, and the slot written, hold in every state through `Transitions.SwapPiece`'s contract.
- Properties.PlayThenUndoRotates: stated for a full ring, for the same reason.
- Properties.ReserveThenUndoRotates: stated for a full ring, for the same reason.
- Properties.BulkSwapTradesWindows: stated for a full ring, for the same reason.
- Properties.InvertUnderFullRing: stated for a full ring, for the same reason.
