/**
 * The program's storage as tetris.c keeps it: the queue `Fila` and the stack
 * `Pilha` owned by `main`, and the globals `historico` and `proximoIdPeca`,
 * gathered in one object whose methods are the C functions. Each method changes
 * the arrays and cursors step by step as the C body does, and its postcondition
 * says that the abstract state it leaves is the one `Transitions` computes.
 */
module Simulator {
  import opened Pieces
  import opened Transitions

  class Game {
    /** `Fila.pecas`, `Fila.frente`, `Fila.tras`. */
    const slots: array<Piece>
    var front: int
    var back: int
    /** `Pilha.pecas`, `Pilha.topo`. */
    const reserve: array<Piece>
    var top: int
    /** `historico.acoes`, `historico.topo`. */
    const log: array<Action>
    var logTop: int
    /** `proximoIdPeca`. */
    var nextId: int

    ghost predicate Valid()
      reads this
    {
      && slots.Length == QueueCapacity
      && reserve.Length == StackCapacity
      && log.Length == HistoryCapacity
      && slots != reserve
      && 0 <= front < QueueCapacity && 0 <= back < QueueCapacity
      && -1 <= top < StackCapacity
      && -1 <= logTop < HistoryCapacity
      && nextId >= 0
    }

    /** The abstract state: all five queue slots, and the live parts of the two stacks. */
    ghost function State(): (m: Machine)
      reads this, slots, reserve, log
      requires Valid()
      ensures WellFormed(m)
    {
      Machine(slots[..], front, back, reserve[..top + 1], log[..logTop + 1], nextId)
    }

    /** `main`'s start-up: `proximoIdPeca = 0`, then the three initialisations. */
    constructor (rolls: seq<nat>)
      requires |rolls| == QueueCapacity
      ensures Valid() && State() == Initial(rolls)
    {
      slots := new Piece[QueueCapacity];
      reserve := new Piece[StackCapacity];
      log := new Action[HistoryCapacity];
      front, back, top, logTop := 0, 0, -1, -1;
      nextId := 0;
      new;
      InitQueue(rolls);
      InitStack();
      InitHistory();
    }

    /** `inicializarFila`: `frente = 0`, `tras = -1`, then five generated pieces enqueued. */
    method InitQueue(rolls: seq<nat>)
      requires |rolls| == QueueCapacity && slots.Length == QueueCapacity && nextId >= 0
      modifies this`front, this`back, this`nextId, slots
      ensures front == 0 && back == QueueCapacity - 1
      ensures nextId == old(nextId) + QueueCapacity
      ensures slots[..] == FreshQueue(rolls, old(nextId))
    {
      front := 0;
      back := -1;
      var i := 0;
      while i < QueueCapacity
        invariant 0 <= i <= QueueCapacity
        invariant front == 0 && back == i - 1 && nextId == old(nextId) + i
        invariant forall j :: 0 <= j < i ==> slots[j] == Piece(ShapeOf(rolls[j]), old(nextId) + j)
      {
        var p := Generate(rolls[i]);
        back := (back + 1) % QueueCapacity;
        slots[back] := p;
        i := i + 1;
      }
    }

    /** `inicializarPilha`. */
    method InitStack()
      modifies this`top
      ensures top == -1
    {
      top := -1;
    }

    /** `inicializarHistorico`. */
    method InitHistory()
      modifies this`logTop
      ensures logTop == -1
    {
      logTop := -1;
    }

    /** `gerarPeca`, with `roll` the value `rand()` returned. */
    method Generate(roll: nat) returns (p: Piece)
      requires nextId >= 0
      modifies this`nextId
      ensures p == Piece(ShapeOf(roll), old(nextId)) && p.shape in Shapes
      ensures nextId == old(nextId) + 1
    {
      p := Piece(ShapeOf(roll), nextId);
      nextId := nextId + 1;
    }

    /** `enqueue`. */
    method Enqueue(p: Piece)
      requires Valid()
      modifies this`back, slots
      ensures Valid() && State() == Transitions.Enqueue(old(State()), p)
    {
      back := (back + 1) % QueueCapacity;
      slots[back] := p;
    }

    /** `dequeue`. */
    method Dequeue() returns (p: Piece)
      requires Valid()
      modifies this`front
      ensures Valid() && (p, State()) == Transitions.Dequeue(old(State()))
    {
      p := slots[front];
      front := (front + 1) % QueueCapacity;
    }

    /** `push`. */
    method Push(p: Piece)
      requires Valid()
      modifies this`top, reserve
      ensures Valid() && State() == Transitions.Push(old(State()), p)
    {
      if top < StackCapacity - 1 {
        top := top + 1;
        reserve[top] := p;
        assert reserve[..top + 1] == old(reserve[..top + 1]) + [p];
      }
    }

    /** `pop`. */
    method Pop() returns (p: Piece)
      requires Valid()
      modifies this`top
      ensures Valid() && (p, State()) == Transitions.Pop(old(State()))
    {
      if top >= 0 {
        p := reserve[top];
        top := top - 1;
        assert reserve[..top + 1] == old(reserve[..top + 1])[..top + 1];
      } else {
        p := Blank;
      }
    }

    /** `pushAcao`. */
    method PushAction(kind: ActionKind, displaced: Piece, replacement: Piece)
      requires Valid()
      modifies this`logTop, log
      ensures Valid() && State() == Transitions.PushAction(old(State()), Action(kind, displaced, replacement))
    {
      if logTop < HistoryCapacity - 1 {
        logTop := logTop + 1;
        log[logTop] := Action(kind, displaced, replacement);
        assert log[..logTop + 1] == old(log[..logTop + 1]) + [Action(kind, displaced, replacement)];
      }
    }

    /** `popAcao`; `None` stands for the record with `tipo == -1`. */
    method PopAction() returns (a: Option<Action>)
      requires Valid()
      modifies this`logTop
      ensures Valid() && (a, State()) == Transitions.PopAction(old(State()))
    {
      if logTop >= 0 {
        a := Some(log[logTop]);
        logTop := logTop - 1;
        assert log[..logTop + 1] == old(log[..logTop + 1])[..logTop + 1];
      } else {
        a := None;
      }
    }

    /** `exibirEstado`'s queue loop: `pecas[(frente + i) % capacidade]` for `i` from 0 to 4. */
    method QueueSnapshot() returns (v: seq<Piece>)
      requires Valid()
      ensures v == QueueView(State())
    {
      v := [];
      var i := 0;
      while i < QueueCapacity
        invariant 0 <= i <= QueueCapacity
        invariant v == QueueView(State())[..i]
      {
        v := v + [slots[(front + i) % QueueCapacity]];
        i := i + 1;
      }
    }

    /** `exibirEstado`'s stack loop: `pecas[i]` for `i` from `topo` down to 0. */
    method StackSnapshot() returns (v: seq<Piece>)
      requires Valid()
      ensures v == StackView(State())
    {
      v := [];
      var i := top;
      while i >= 0
        invariant -1 <= i <= top
        invariant v == StackView(State())[..top - i]
      {
        v := v + [reserve[i]];
        i := i - 1;
      }
    }

    /** `jogarPeca`. */
    method PlayPiece(roll: nat)
      requires Valid()
      modifies this`front, this`back, this`nextId, this`logTop, slots, log
      ensures Valid() && State() == Transitions.PlayPiece(old(State()), roll)
    {
      var displaced := slots[front];
      var replacement := Generate(roll);
      var _ := Dequeue();
      Enqueue(replacement);
      PushAction(Play, displaced, replacement);
    }

    /** `reservarPeca`. */
    method ReservePiece(roll: nat)
      requires Valid()
      modifies this`front, this`back, this`nextId, this`top, this`logTop, slots, reserve, log
      ensures Valid() && State() == Transitions.ReservePiece(old(State()), roll)
    {
      if top < StackCapacity - 1 {
        ghost var m0 := State();
        var displaced := slots[front];
        var replacement := Generate(roll);
        assert (replacement, State()) == Transitions.Generate(m0, roll);
        var _ := Dequeue();
        Enqueue(replacement);
        ghost var m3 := State();
        Push(displaced);
        assert State() == Transitions.Push(m3, displaced);
        PushAction(Reserve, displaced, replacement);
      } else {
        assert |old(State()).reserve| == StackCapacity;
      }
    }

    /** `usarPecaReservada`. */
    method UseReserved()
      requires Valid()
      modifies this`top
      ensures Valid() && State() == Transitions.UseReserved(old(State()))
    {
      if top >= 0 {
        var _ := Pop();
      }
    }

    /** `trocarPeca`. */
    method SwapPiece()
      requires Valid()
      modifies this`front, this`back, this`top, slots, reserve
      ensures Valid() && State() == Transitions.SwapPiece(old(State()))
    {
      if top >= 0 {
        var fromStack := Pop();
        var fromQueue := Dequeue();
        Push(fromQueue);
        Enqueue(fromStack);
      }
    }

    /** `trocaMultipla`: only on a full stack; three dequeues, three pops, three enqueues, three pushes. */
    method BulkSwap()
      requires Valid()
      modifies this`front, this`back, this`top, slots, reserve
      ensures Valid() && State() == Transitions.BulkSwap(old(State()))
    {
      if top == StackCapacity - 1 {
        ghost var m0 := State();
        var fromQueue := new Piece[StackCapacity];
        var fromStack := new Piece[StackCapacity];
        assert State() == m0;
        TakeWindows(fromQueue, StackCapacity, fromStack);
        ghost var q, m1 := fromQueue[..StackCapacity], DequeueMany(m0, StackCapacity).1;
        ghost var t, m2 := fromStack[..StackCapacity], State();
        ReturnWindows(fromQueue, fromStack);
        BulkSwapByStages(m0, q, m1, t, m2, EnqueueAll(m2, t), State());
        assert State() == Transitions.BulkSwap(old(State()));
      } else {
        assert |old(State()).reserve| != StackCapacity;
        assert State() == Transitions.BulkSwap(old(State()));
      }
    }

    /** The first two loops of `trocaMultipla` and `inverterFilaComPilha`: `k` dequeues, then three pops. */
    method TakeWindows(fromQueue: array<Piece>, k: nat, fromStack: array<Piece>)
      requires Valid() && k <= fromQueue.Length && StackCapacity <= fromStack.Length
      requires fromQueue != fromStack
      requires fromQueue != slots && fromQueue != reserve && fromStack != slots && fromStack != reserve
      modifies this`front, this`top, fromQueue, fromStack
      ensures Valid()
      ensures var (q, m1) := DequeueMany(old(State()), k);
        fromQueue[..k] == q && (fromStack[..StackCapacity], State()) == PopMany(m1, StackCapacity)
    {
      DequeueInto(fromQueue, k);
      ghost var q := fromQueue[..k];
      PopInto(fromStack, StackCapacity);
      assert fromQueue[..k] == q;
    }

    /** The last two loops of `trocaMultipla` and `inverterFilaComPilha`: three enqueues, then three pushes. */
    method ReturnWindows(fromQueue: array<Piece>, fromStack: array<Piece>)
      requires Valid() && StackCapacity <= fromQueue.Length && StackCapacity <= fromStack.Length
      requires fromQueue != slots && fromQueue != reserve && fromStack != slots && fromStack != reserve
      modifies this`back, this`top, slots, reserve
      ensures Valid()
      ensures State() == PushAll(EnqueueAll(old(State()), fromStack[..StackCapacity]),
                                 [fromQueue[2], fromQueue[1], fromQueue[0]])
    {
      EnqueueFrom(fromStack, StackCapacity);
      PushThreeReversed(fromQueue);
    }

    /** The loop `temp[i] = dequeue(fila)` for `i` from 0 to `k - 1`. */
    method DequeueInto(buf: array<Piece>, k: nat)
      requires Valid() && k <= buf.Length && buf != slots && buf != reserve
      modifies this`front, buf
      ensures Valid() && (buf[..k], State()) == DequeueMany(old(State()), k)
    {
      ghost var m0 := State();
      var i := 0;
      while i < k
        invariant 0 <= i <= k && Valid()
        invariant (buf[..i], State()) == DequeueMany(m0, i)
      {
        buf[i] := Dequeue();
        assert buf[..i + 1] == buf[..i] + [buf[i]];
        i := i + 1;
      }
    }

    /** The loop `temp[i] = pop(pilha)` for `i` from 0 to `k - 1`. */
    method PopInto(buf: array<Piece>, k: nat)
      requires Valid() && k <= buf.Length && buf != slots && buf != reserve
      modifies this`top, buf
      ensures Valid() && (buf[..k], State()) == PopMany(old(State()), k)
    {
      ghost var m0 := State();
      var i := 0;
      while i < k
        invariant 0 <= i <= k && Valid()
        invariant (buf[..i], State()) == PopMany(m0, i)
      {
        buf[i] := Pop();
        assert buf[..i + 1] == buf[..i] + [buf[i]];
        i := i + 1;
      }
    }

    /** The loop `enqueue(fila, temp[i])` for `i` from 0 to `k - 1`. */
    method EnqueueFrom(buf: array<Piece>, k: nat)
      requires Valid() && k <= buf.Length && buf != slots
      modifies this`back, slots
      ensures Valid() && State() == EnqueueAll(old(State()), buf[..k])
    {
      ghost var m0 := State();
      var i := 0;
      while i < k
        invariant 0 <= i <= k && Valid()
        invariant State() == EnqueueAll(m0, buf[..i])
      {
        Enqueue(buf[i]);
        assert buf[..i + 1][..i] == buf[..i];
        i := i + 1;
      }
    }

    /** The loop `push(pilha, temp[i])` for `i` from 2 down to 0. */
    method PushThreeReversed(buf: array<Piece>)
      requires Valid() && 3 <= buf.Length && buf != reserve
      modifies this`top, reserve
      ensures Valid() && State() == PushAll(old(State()), [buf[2], buf[1], buf[0]])
    {
      ghost var m0 := State();
      ghost var order := [buf[2], buf[1], buf[0]];
      var i := 2;
      while i >= 0
        invariant -1 <= i <= 2 && Valid()
        invariant State() == PushAll(m0, order[..2 - i])
      {
        Push(buf[i]);
        assert order[..3 - i][..2 - i] == order[..2 - i];
        i := i - 1;
      }
      assert order[..3] == order;
    }

    /** `desfazerJogada`. */
    method UndoMove()
      requires Valid()
      modifies this`back, this`top, this`logTop, slots
      ensures Valid() && State() == Transitions.UndoMove(old(State()))
    {
      ghost var m0 := State();
      var last := PopAction();
      ghost var m1 := State();
      assert (last, m1) == Transitions.PopAction(m0);
      if last.Some? && last.value.kind == Play {
        back := (back - 1 + QueueCapacity) % QueueCapacity;
        ghost var m2 := State();
        assert m2 == m1.(back := (m1.back - 1 + QueueCapacity) % QueueCapacity);
        Enqueue(last.value.displaced);
        assert State() == Transitions.Enqueue(m2, last.value.displaced);
        assert Transitions.UndoMove(m0) == Transitions.Enqueue(m2, last.value.displaced);
      } else if last.Some? && last.value.kind == Reserve {
        back := (back - 1 + QueueCapacity) % QueueCapacity;
        ghost var m2 := State();
        assert m2 == m1.(back := (m1.back - 1 + QueueCapacity) % QueueCapacity);
        var _ := Pop();
        ghost var m3 := State();
        assert m3 == Transitions.Pop(m2).1;
        Enqueue(last.value.displaced);
        assert State() == Transitions.Enqueue(m3, last.value.displaced);
        assert Transitions.UndoMove(m0) == Transitions.Enqueue(m3, last.value.displaced);
      } else {
        assert m0.log == [];
      }
    }

    /** `inverterFilaComPilha`: five dequeues, three pops, three enqueues, three pushes, unconditionally. */
    method Invert()
      requires Valid()
      modifies this`front, this`back, this`top, slots, reserve
      ensures Valid() && State() == Transitions.Invert(old(State()))
    {
      ghost var m0 := State();
      var fromQueue := new Piece[QueueCapacity];
      var fromStack := new Piece[StackCapacity];
      assert State() == m0;
      TakeWindows(fromQueue, QueueCapacity, fromStack);
      ghost var q, m1 := fromQueue[..QueueCapacity], DequeueMany(m0, QueueCapacity).1;
      ghost var t, m2 := fromStack[..StackCapacity], State();
      ReturnWindows(fromQueue, fromStack);
      InvertByStages(m0, q, m1, t, m2, EnqueueAll(m2, t), State());
    }

    /** `realizarAcao`: one operation per menu option; 0 and unknown options only print. */
    method Perform(option: int, roll: nat)
      requires Valid()
      modifies this`front, this`back, this`nextId, this`top, this`logTop, slots, reserve, log
      ensures Valid() && State() == Dispatch(old(State()), option, roll)
    {
      if option == 1 {
        PlayPiece(roll);
      } else if option == 2 {
        ReservePiece(roll);
      } else if option == 3 {
        UseReserved();
      } else if option == 4 {
        SwapPiece();
      } else if option == 5 {
        UndoMove();
      } else if option == 6 {
        Invert();
      }
    }
  }
}
