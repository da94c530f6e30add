/**
 * What the operations of tetris.c do to the queue seen front to back and to the
 * stack seen top to base, including the places where the code does something
 * other than its comments announce.
 */
module Properties {
  import opened Pieces
  import opened Transitions

  /** The stack's pieces in pop order, followed by the blanks `pop` returns once it is empty. */
  function PadWithBlanks(s: seq<Piece>): (r: seq<Piece>)
    requires |s| <= StackCapacity
    ensures |r| == StackCapacity && r[..|s|] == s
    ensures forall i :: |s| <= i < StackCapacity ==> r[i] == Blank
  {
    s + seq(StackCapacity - |s|, _ => Blank)
  }

  /** Three pops return the stack top to base, then blanks once it is empty. */
  lemma PopsPadWithBlanks(m: Machine)
    requires WellFormed(m)
    ensures PopMany(m, StackCapacity).0 == PadWithBlanks(StackView(m))
  {
    var popped := PopMany(m, StackCapacity).0;
    var padded := PadWithBlanks(StackView(m));
    PopManyTakesTop(m, StackCapacity);
    forall i | 0 <= i < StackCapacity
      ensures popped[i] == padded[i]
    {
      if i < |m.reserve| {
        assert padded[..|m.reserve|][i] == padded[i];
      }
    }
  }

  /** How far `tras` is ahead of `frente` around the ring. */
  function Gap(m: Machine): (g: int)
    requires WellFormed(m)
    ensures 0 <= g < QueueCapacity
  {
    (m.back - m.front + QueueCapacity) % QueueCapacity
  }

  // ---------------------------------------------------------------------------
  // Containers

  /** The `i`-th queued piece sits `i` slots past `frente`. */
  lemma QueueViewAt(m: Machine, i: int)
    requires WellFormed(m) && 0 <= i < QueueCapacity
    ensures QueueView(m)[i] == m.slots[(m.front + i) % QueueCapacity]
  {
  }

  /** One `dequeue` moves the front piece to the end of the five-slot view, whatever `tras` is. */
  lemma DequeueRotatesView(m: Machine)
    requires WellFormed(m)
    ensures QueueView(Dequeue(m).1) == QueueView(m)[1..] + [QueueView(m)[0]]
  {
    var r := Dequeue(m).1;
    forall i | 0 <= i < QueueCapacity
      ensures QueueView(r)[i] == (QueueView(m)[1..] + [QueueView(m)[0]])[i]
    {
      RotatedAt(m, r, i);
    }
  }

  /** With `frente` one slot on and the slots untouched, position `i` is the old position `i + 1`, round the ring. */
  lemma RotatedAt(m: Machine, r: Machine, i: int)
    requires WellFormed(m) && WellFormed(r) && 0 <= i < QueueCapacity
    requires r.front == (m.front + 1) % QueueCapacity && r.slots == m.slots
    ensures QueueView(r)[i] == QueueView(m)[(i + 1) % QueueCapacity]
  {
    ShiftedPosition(m.front, 1, i);
    QueueViewAt(r, i);
    QueueViewAt(m, (i + 1) % QueueCapacity);
  }

  /** The queue is full exactly when `tras` is one slot behind `frente`. */
  lemma RingFullIffGap(m: Machine)
    requires WellFormed(m)
    ensures RingFull(m) <==> Gap(m) == QueueCapacity - 1
  {
    if m.back == QueueCapacity - 1 {
      assert (m.back + 1) % QueueCapacity == 0;
    } else {
      assert (m.back + 1) % QueueCapacity == m.back + 1;
    }
  }

  /** `inicializarFila` leaves five pieces with ids 0 to 4 front to back. */
  lemma {:induction false} InitialQueueInOrder(rolls: seq<nat>)
    requires |rolls| == QueueCapacity
    ensures RingFull(Initial(rolls))
    ensures forall i :: 0 <= i < QueueCapacity ==>
      QueueView(Initial(rolls))[i] == Piece(ShapeOf(rolls[i]), i)
  {
    var m := Initial(rolls);
    forall i | 0 <= i < QueueCapacity
      ensures QueueView(m)[i] == Piece(ShapeOf(rolls[i]), i)
    {
      assert (m.front + i) % QueueCapacity == i;
    }
  }

  /** Popping right after a push gives back the pushed piece and the old state. */
  lemma PopUndoesPush(m: Machine, p: Piece)
    requires WellFormed(m) && |m.reserve| < StackCapacity
    ensures Pop(Push(m, p)) == (p, m)
  {
    assert (m.reserve + [p])[..|m.reserve|] == m.reserve;
  }

  /** Pushing back what was just popped restores the state. */
  lemma PushUndoesPop(m: Machine)
    requires WellFormed(m) && m.reserve != []
    ensures Push(Pop(m).1, Pop(m).0) == m
  {
    var n := |m.reserve|;
    assert m.reserve[..n - 1] + [m.reserve[n - 1]] == m.reserve;
  }

  /** The history is LIFO too: `popAcao` right after `pushAcao` returns the recorded action. */
  lemma PopActionUndoesPushAction(m: Machine, a: Action)
    requires WellFormed(m) && |m.log| < HistoryCapacity
    ensures PopAction(PushAction(m, a)) == (Some(a), m)
  {
    assert (m.log + [a])[..|m.log|] == m.log;
  }

  /** Recording again what was just taken off the history restores it. */
  lemma PushActionUndoesPopAction(m: Machine)
    requires WellFormed(m) && m.log != []
    ensures PushAction(PopAction(m).1, PopAction(m).0.value) == m
  {
    var n := |m.log|;
    assert m.log[..n - 1] + [m.log[n - 1]] == m.log;
  }

  /** `k` dequeues return the pieces from `frente` on, in queue order. */
  lemma {:induction false} DequeueManyTakesFront(m: Machine, k: nat)
    requires WellFormed(m)
    ensures forall i :: 0 <= i < k ==>
      DequeueMany(m, k).0[i] == m.slots[(m.front + i) % QueueCapacity]
  {
    if k > 0 {
      DequeueManyTakesFront(m, k - 1);
    }
  }

  /** `k` pops return the stack top to base, then blanks once it is empty. */
  lemma {:induction false} PopManyTakesTop(m: Machine, k: nat)
    requires WellFormed(m)
    ensures forall i :: 0 <= i < k ==>
      PopMany(m, k).0[i] == if i < |m.reserve| then StackView(m)[i] else Blank
  {
    if k > 0 {
      PopManyTakesTop(m, k - 1);
    }
  }

  /** How many slots past `tras + 1` the slot `k` lies, going round the ring. */
  function Behind(back: int, k: int): (j: int)
    requires 0 <= back < QueueCapacity && 0 <= k < QueueCapacity
    ensures 0 <= j < QueueCapacity && (back + 1 + j) % QueueCapacity == k
  {
    (k - back - 1 + QueueCapacity) % QueueCapacity
  }

  /** Slot `(tras + 1 + j) % 5` lies `j` slots past `tras + 1`. */
  lemma BehindOf(back: int, j: int)
    requires 0 <= back < QueueCapacity && 0 <= j < QueueCapacity
    ensures Behind(back, (back + 1 + j) % QueueCapacity) == j
  {
    var k := (back + 1 + j) % QueueCapacity;
    if back + 1 + j < QueueCapacity {
      assert k == back + 1 + j;
    } else {
      assert k == back + 1 + j - QueueCapacity;
    }
  }

  /** After enqueueing up to five pieces, slot `k` holds the piece written there, or its old piece. */
  lemma {:induction false} EnqueueAllSlot(m: Machine, ps: seq<Piece>, k: int)
    requires WellFormed(m) && |ps| <= QueueCapacity && 0 <= k < QueueCapacity
    ensures EnqueueAll(m, ps).slots[k] ==
      if Behind(m.back, k) < |ps| then ps[Behind(m.back, k)] else m.slots[k]
    decreases |ps|
  {
    if ps != [] {
      var n := |ps|;
      EnqueueAllSlot(m, ps[..n - 1], k);
      var r := EnqueueAll(m, ps[..n - 1]);
      NextWrite(m.back, r.back, n);
    }
  }

  /** The `n`-th enqueue since `tras` stood at `back` writes the slot `n - 1` places past `back + 1`. */
  lemma NextWrite(back: int, cursor: int, n: int)
    requires 0 <= back < QueueCapacity && 1 <= n <= QueueCapacity
    requires cursor == (back + n - 1) % QueueCapacity
    ensures (cursor + 1) % QueueCapacity == (back + n) % QueueCapacity
    ensures Behind(back, (cursor + 1) % QueueCapacity) == n - 1
  {
    Wrap(back + n - 1);
    Wrap(cursor + 1);
    Wrap(back + n);
    BehindOf(back, n - 1);
  }

  /** In a full ring the `i`-th queued piece lies `i` slots past `tras + 1`. */
  lemma QueuePositionBehindBack(m: Machine, i: int)
    requires WellFormed(m) && RingFull(m) && 0 <= i < QueueCapacity
    ensures Behind(m.back, (m.front + i) % QueueCapacity) == i
  {
    assert (m.front + i) % QueueCapacity == (m.back + 1 + i) % QueueCapacity;
    BehindOf(m.back, i);
  }

  /** Five consecutive ring positions are distinct. */
  lemma SlotsDistinct(base: int, i: int, j: int)
    requires 0 <= base < QueueCapacity && 0 <= i < QueueCapacity && 0 <= j < QueueCapacity && i != j
    ensures (base + i) % QueueCapacity != (base + j) % QueueCapacity
  {
    Wrap(base + i);
    Wrap(base + j);
  }

  /** Pushes go on top in order until the stack holds three; the rest are dropped. */
  lemma {:induction false} PushAllDropsOverflow(m: Machine, ps: seq<Piece>)
    requires WellFormed(m)
    ensures var n := if |m.reserve| + |ps| <= StackCapacity then |m.reserve| + |ps| else StackCapacity;
      PushAll(m, ps) == m.(reserve := (m.reserve + ps)[..n])
    decreases |ps|
  {
    if ps != [] {
      var k := |ps|;
      PushAllDropsOverflow(m, ps[..k - 1]);
      var before := m.reserve + ps[..k - 1];
      assert before == (m.reserve + ps)[..|m.reserve| + k - 1];
      if |m.reserve| + k <= StackCapacity {
        assert before + [ps[k - 1]] == (m.reserve + ps)[..|m.reserve| + k];
      } else {
        assert before[..StackCapacity] == (m.reserve + ps)[..StackCapacity];
      }
    }
  }

  /** With a full ring, one dequeue then one enqueue drops the front and appends `p` at the back. */
  lemma ShiftAndAppend(m: Machine, p: Piece)
    requires WellFormed(m) && RingFull(m)
    ensures RingFull(Enqueue(Dequeue(m).1, p))
    ensures QueueView(Enqueue(Dequeue(m).1, p)) == QueueView(m)[1..] + [p]
  {
    var r := Enqueue(Dequeue(m).1, p);
    assert r.back == m.front;
    assert r.front == (m.front + 1) % QueueCapacity;
    forall i | 0 <= i < QueueCapacity
      ensures QueueView(r)[i] == (QueueView(m)[1..] + [p])[i]
    {
      assert (r.front + i) % QueueCapacity == (m.front + 1 + i) % QueueCapacity;
      if i < QueueCapacity - 1 {
        SlotsDistinct(m.front, i + 1, 0);
      } else {
        assert (m.front + 1 + i) % QueueCapacity == m.front;
      }
    }
  }

  // ---------------------------------------------------------------------------
  // Play and reserve

  /** `jogarPeca`: `[a,b,c,d,e]` becomes `[b,c,d,e,n]`; `{JOGAR, a, n}` is recorded unless the history is full. */
  lemma PlayShiftsQueue(m: Machine, roll: nat)
    requires WellFormed(m) && RingFull(m)
    ensures var r := PlayPiece(m, roll);
            var n := Piece(ShapeOf(roll), m.nextId);
      && RingFull(r)
      && QueueView(r) == QueueView(m)[1..] + [n]
      && r.reserve == m.reserve
      && r.log == (if |m.log| < HistoryCapacity then m.log + [Action(Play, QueueView(m)[0], n)] else m.log)
      && r.nextId == m.nextId + 1
  {
    var n := Piece(ShapeOf(roll), m.nextId);
    ShiftAndAppend(m.(nextId := m.nextId + 1), n);
    assert QueueView(m)[0] == m.slots[m.front];
  }

  /**
   * Off a full ring a play keeps the played piece on display: after an invert,
   * queue `[a,b,c,d,e]` becomes `[b,c,n,e,a]`, because `enqueue` writes at
   * `tras + 1`, which is no longer the slot `frente` just left.
   */
  lemma PlayAfterInvert(m: Machine, roll: nat)
    requires WellFormed(m) && RingFull(m)
    ensures var v := QueueView(Invert(m));
            var n := Piece(ShapeOf(roll), m.nextId);
      QueueView(PlayPiece(Invert(m), roll)) == [v[1], v[2], n, v[4], v[0]]
  {
    var i := Invert(m);
    InvertShiftsGap(m);
    RingFullIffGap(m);
    assert i.back == (i.front + 2) % QueueCapacity by {
      Wrap(i.front + 2);
      Wrap(i.back - i.front + QueueCapacity);
    }
    PlayAtGapTwo(i, roll);
  }

  /** A play when `tras` is two slots past `frente` writes the new piece third in the view. */
  lemma PlayAtGapTwo(m: Machine, roll: nat)
    requires WellFormed(m) && m.back == (m.front + 2) % QueueCapacity
    ensures var v := QueueView(m);
            var n := Piece(ShapeOf(roll), m.nextId);
      QueueView(PlayPiece(m, roll)) == [v[1], v[2], n, v[4], v[0]]
  {
    var r := PlayPiece(m, roll);
    var v := QueueView(m);
    var n := Piece(ShapeOf(roll), m.nextId);
    assert r.front == (m.front + 1) % QueueCapacity && r.slots == m.slots[(m.front + 3) % QueueCapacity := n] by {
      assert r.back == (m.back + 1) % QueueCapacity && r.slots == m.slots[r.back := n];
      Wrap(m.front + 2);
      Wrap(m.back + 1);
      Wrap(m.front + 3);
    }
    WriteAheadView(m, r, n);
  }

  /** The view after `frente` moved one on and slot `frente + 3` was rewritten with `n`. */
  lemma WriteAheadView(m: Machine, r: Machine, n: Piece)
    requires WellFormed(m) && WellFormed(r)
    requires r.front == (m.front + 1) % QueueCapacity
    requires r.slots == m.slots[(m.front + 3) % QueueCapacity := n]
    ensures var v := QueueView(m); QueueView(r) == [v[1], v[2], n, v[4], v[0]]
  {
    var v := QueueView(m);
    forall k | 0 <= k < QueueCapacity
      ensures QueueView(r)[k] == [v[1], v[2], n, v[4], v[0]][k]
    {
      OneWriteAhead(m, r, n, k);
    }
  }

  /** Position `k` after `frente + 1`, when only slot `frente + 3` was rewritten with `n`. */
  lemma OneWriteAhead(m: Machine, r: Machine, n: Piece, k: int)
    requires WellFormed(m) && WellFormed(r) && 0 <= k < QueueCapacity
    requires r.front == (m.front + 1) % QueueCapacity
    requires r.slots == m.slots[(m.front + 3) % QueueCapacity := n]
    ensures QueueView(r)[k] == if k == 2 then n else QueueView(m)[(1 + k) % QueueCapacity]
  {
    ShiftedPosition(m.front, 1, k);
    QueueViewAt(r, k);
    QueueViewAt(m, (1 + k) % QueueCapacity);
    Wrap(1 + k);
    if k != 2 {
      SlotsDistinct(m.front, (1 + k) % QueueCapacity, 3);
    }
  }

  /** `reservarPeca` with room: the queue moves as for a play and its old front goes on the stack. */
  lemma ReserveMovesFrontToStack(m: Machine, roll: nat)
    requires WellFormed(m) && RingFull(m) && |m.reserve| < StackCapacity
    ensures var r := ReservePiece(m, roll);
            var n := Piece(ShapeOf(roll), m.nextId);
      && RingFull(r)
      && QueueView(r) == QueueView(m)[1..] + [n]
      && StackView(r) == [QueueView(m)[0]] + StackView(m)
      && r.log == (if |m.log| < HistoryCapacity then m.log + [Action(Reserve, QueueView(m)[0], n)] else m.log)
      && r.nextId == m.nextId + 1
  {
    var n := Piece(ShapeOf(roll), m.nextId);
    ShiftAndAppend(m.(nextId := m.nextId + 1), n);
    assert QueueView(m)[0] == m.slots[m.front];
    var r := ReservePiece(m, roll);
    assert r.reserve == m.reserve + [m.slots[m.front]];
    assert StackView(r) == [QueueView(m)[0]] + StackView(m);
  }

  // ---------------------------------------------------------------------------
  // Use and swap

  /** `usarPecaReservada` consumes the stack top and touches nothing else. */
  lemma UseReservedDropsTop(m: Machine)
    requires WellFormed(m) && m.reserve != []
    ensures var r := UseReserved(m);
      && StackView(r) == StackView(m)[1..]
      && r.(reserve := m.reserve) == m
  {
    var r := UseReserved(m);
    assert StackView(r) == StackView(m)[1..];
  }

  /** `trocarPeca`: the old stack top goes to the queue BACK: `[a,b,c,d,e]` with top `s` gives `[b,c,d,e,s]` with top `a`. */
  lemma SwapSendsTopToBack(m: Machine)
    requires WellFormed(m) && RingFull(m) && m.reserve != []
    ensures var r := SwapPiece(m);
      && RingFull(r)
      && QueueView(r) == QueueView(m)[1..] + [StackView(m)[0]]
      && StackView(r) == [QueueView(m)[0]] + StackView(m)[1..]
      && r.log == m.log && r.nextId == m.nextId
  {
    var n := |m.reserve|;
    var m1 := Pop(m).1;
    ShiftAndAppend(m1, m.reserve[n - 1]);
    assert QueueView(m)[0] == m.slots[m.front];
    var r := SwapPiece(m);
    assert r.reserve == m.reserve[..n - 1] + [m.slots[m.front]];
    assert StackView(r) == [QueueView(m)[0]] + StackView(m)[1..];
  }

  /** Two swaps in a row advance the queue by two instead of restoring it. */
  lemma SwapTwiceRotates(m: Machine)
    requires WellFormed(m) && RingFull(m) && m.reserve != []
    ensures var r := SwapPiece(SwapPiece(m));
      && QueueView(r) == QueueView(m)[2..] + [StackView(m)[0], QueueView(m)[0]]
      && StackView(r) == [QueueView(m)[1]] + StackView(m)[1..]
  {
    SwapSendsTopToBack(m);
    SwapSendsTopToBack(SwapPiece(m));
  }

  /** Hence a swap is not its own inverse whenever the first and third queued pieces differ. */
  lemma SwapIsNotSelfInverse(m: Machine)
    requires WellFormed(m) && RingFull(m) && m.reserve != []
    requires QueueView(m)[0] != QueueView(m)[2]
    ensures SwapPiece(SwapPiece(m)) != m
  {
    SwapTwiceRotates(m);
    assert QueueView(SwapPiece(SwapPiece(m)))[0] == QueueView(m)[2];
  }

  // ---------------------------------------------------------------------------
  // Bulk swap

  /** `trocaMultipla` on a full stack: queue `[a,b,c,d,e]`, stack `[x,y,z]` become `[d,e,x,y,z]` and `[a,b,c]`. */
  lemma BulkSwapTradesWindows(m: Machine)
    requires WellFormed(m) && RingFull(m) && |m.reserve| == StackCapacity
    ensures var r := BulkSwap(m);
      && RingFull(r)
      && QueueView(r) == QueueView(m)[3..] + StackView(m)
      && StackView(r) == QueueView(m)[..3]
  {
    var (fromQueue, m1) := DequeueMany(m, StackCapacity);
    var (fromStack, m2) := PopMany(m1, StackCapacity);
    var m3 := EnqueueAll(m2, fromStack);
    var r := PushAll(m3, [fromQueue[2], fromQueue[1], fromQueue[0]]);
    BulkSwapByStages(m, fromQueue, m1, fromStack, m2, m3, r);
    DequeueManyTakesFront(m, StackCapacity);
    RefilledStack(m, fromQueue, m3, r);
    GapUnderShift(m, r, 3);
    RingFullIffGap(m);
    RingFullIffGap(r);
    assert fromStack == StackView(m) by {
      PopManyTakesTop(m1, StackCapacity);
    }
    BulkSwapQueue(m, m2, r);
  }

  /** Pushing the first three dequeued pieces back, third first, onto an emptied stack leaves them top first. */
  lemma RefilledStack(m: Machine, q: seq<Piece>, m3: Machine, r: Machine)
    requires WellFormed(m) && WellFormed(m3) && m3.reserve == []
    requires |q| >= 3 && forall i :: 0 <= i < 3 ==> q[i] == m.slots[(m.front + i) % QueueCapacity]
    requires r == PushAll(m3, [q[2], q[1], q[0]])
    ensures StackView(r) == QueueView(m)[..3]
  {
    assert r.reserve == [] + [q[2], q[1], q[0]];
    assert StackView(r) == [q[0], q[1], q[2]];
  }

  /** The queue half of `BulkSwapTradesWindows`: after the pops (`m2`), the stack's pieces are enqueued. */
  lemma BulkSwapQueue(m: Machine, m2: Machine, r: Machine)
    requires WellFormed(m) && RingFull(m) && |m.reserve| == StackCapacity
    requires WellFormed(m2) && m2.back == m.back && m2.slots == m.slots
    requires WellFormed(r) && r.front == (m.front + 3) % QueueCapacity
    requires r.slots == EnqueueAll(m2, StackView(m)).slots
    ensures QueueView(r) == QueueView(m)[3..] + StackView(m)
  {
    forall i | 0 <= i < QueueCapacity
      ensures QueueView(r)[i] == (QueueView(m)[3..] + StackView(m))[i]
    {
      BulkSwapQueueAt(m, m2, r, i);
    }
  }

  /** One position of `BulkSwapQueue`: the old fourth and fifth pieces, then the three enqueued ones. */
  lemma BulkSwapQueueAt(m: Machine, m2: Machine, r: Machine, i: int)
    requires WellFormed(m) && RingFull(m) && |m.reserve| == StackCapacity
    requires WellFormed(m2) && m2.back == m.back && m2.slots == m.slots
    requires WellFormed(r) && r.front == (m.front + 3) % QueueCapacity
    requires r.slots == EnqueueAll(m2, StackView(m)).slots
    requires 0 <= i < QueueCapacity
    ensures QueueView(r)[i] == (QueueView(m)[3..] + StackView(m))[i]
  {
    ThreeOn(m, r.front, i);
    EnqueueAllSlot(m2, StackView(m), (r.front + i) % QueueCapacity);
    QueueViewAt(r, i);
    if i < 2 {
      QueueViewAt(m, 3 + i);
    }
  }

  /** In a full ring, position `i` after `frente + 3` is the old position `3 + i`, which `tras` passes at step `(3 + i) % 5`. */
  lemma ThreeOn(m: Machine, front: int, i: int)
    requires WellFormed(m) && RingFull(m) && 0 <= i < QueueCapacity
    requires front == (m.front + 3) % QueueCapacity
    ensures Behind(m.back, (front + i) % QueueCapacity) == if i < 2 then 3 + i else i - 2
    ensures i < 2 ==> (m.front + (3 + i)) % QueueCapacity == (front + i) % QueueCapacity
  {
    var j := if i < 2 then 3 + i else i - 2;
    Wrap(3 + i);
    ShiftedPosition(m.front, 3, i);
    QueuePositionBehindBack(m, j);
  }

  /** Whatever the cursors, `trocaMultipla` keeps the distance between them. */
  lemma BulkSwapKeepsGap(m: Machine)
    requires WellFormed(m)
    ensures Gap(BulkSwap(m)) == Gap(m)
  {
    if |m.reserve| == StackCapacity {
      GapUnderShift(m, BulkSwap(m), 3);
    }
  }

  /** Moving both cursors by the same amount keeps the distance between them. */
  lemma GapUnderShift(m: Machine, r: Machine, d: nat)
    requires WellFormed(m) && WellFormed(r) && d < QueueCapacity
    requires r.front == (m.front + d) % QueueCapacity && r.back == (m.back + d) % QueueCapacity
    ensures Gap(r) == Gap(m)
  {
    Wrap(m.front + d);
    Wrap(m.back + d);
    Wrap(m.back - m.front + QueueCapacity);
    Wrap(r.back - r.front + QueueCapacity);
  }

  /** Position `i` after `frente` moved `d` on is position `(d + i) % 5` before. */
  lemma ShiftedPosition(front: int, d: int, i: int)
    requires 0 <= front < QueueCapacity && 0 <= d < QueueCapacity && 0 <= i < QueueCapacity
    ensures ((front + d) % QueueCapacity + i) % QueueCapacity == (front + (d + i) % QueueCapacity) % QueueCapacity
  {
    Wrap(d + i);
    Wrap(front + d);
    Wrap((front + d) % QueueCapacity + i);
    Wrap(front + (d + i) % QueueCapacity);
  }

  /** `%` on the small sums the cursors go through. */
  lemma Wrap(x: int)
    requires 0 <= x < 2 * QueueCapacity
    ensures x % QueueCapacity == if x < QueueCapacity then x else x - QueueCapacity
  {
  }

  // ---------------------------------------------------------------------------
  // Undo

  /** `desfazerJogada` keeps both cursors and rewrites only `pecas[tras]`; for a reserve it also pops. */
  lemma UndoRewritesBackSlot(m: Machine)
    requires WellFormed(m) && m.log != []
    ensures var a := m.log[|m.log| - 1];
            var r := UndoMove(m);
      && r.front == m.front && r.back == m.back
      && r.slots == m.slots[m.back := a.displaced]
      && r.log == m.log[..|m.log| - 1]
      && r.reserve == (if a.kind == Play || m.reserve == [] then m.reserve else m.reserve[..|m.reserve| - 1])
      && r.nextId == m.nextId
  {
    assert ((m.back - 1 + QueueCapacity) % QueueCapacity + 1) % QueueCapacity == m.back;
  }

  /** Play then undo brings back the same five pieces, rotated: `[b,c,d,e,a]`, and the old history. */
  lemma PlayThenUndoRotates(m: Machine, roll: nat)
    requires WellFormed(m) && RingFull(m) && |m.log| < HistoryCapacity
    ensures var r := UndoMove(PlayPiece(m, roll));
      && RingFull(r)
      && QueueView(r) == QueueView(m)[1..] + [QueueView(m)[0]]
      && r.reserve == m.reserve && r.log == m.log && r.nextId == m.nextId + 1
  {
    var p := PlayPiece(m, roll);
    PlayShiftsQueue(m, roll);
    UndoRewritesBackSlot(p);
    assert p.log[|p.log| - 1].displaced == QueueView(m)[0];
    RewriteBackSlot(p, UndoMove(p), QueueView(m)[0]);
    assert (QueueView(m)[1..] + [Piece(ShapeOf(roll), m.nextId)])[..QueueCapacity - 1] == QueueView(m)[1..];
  }

  /** Reserve then undo restores the stack and the history but leaves the queue rotated. */
  lemma ReserveThenUndoRotates(m: Machine, roll: nat)
    requires WellFormed(m) && RingFull(m) && |m.reserve| < StackCapacity && |m.log| < HistoryCapacity
    ensures var r := UndoMove(ReservePiece(m, roll));
      && RingFull(r)
      && QueueView(r) == QueueView(m)[1..] + [QueueView(m)[0]]
      && r.reserve == m.reserve && r.log == m.log && r.nextId == m.nextId + 1
  {
    var p := ReservePiece(m, roll);
    ReserveMovesFrontToStack(m, roll);
    UndoRewritesBackSlot(p);
    assert p.reserve == m.reserve + [m.slots[m.front]];
    assert p.reserve[..|p.reserve| - 1] == m.reserve;
    assert p.log[|p.log| - 1].displaced == QueueView(m)[0];
    RewriteBackSlot(p, UndoMove(p), QueueView(m)[0]);
    assert (QueueView(m)[1..] + [Piece(ShapeOf(roll), m.nextId)])[..QueueCapacity - 1] == QueueView(m)[1..];
  }

  /** With a full ring, rewriting `pecas[tras]` replaces the last queued piece and nothing else. */
  lemma RewriteBackSlot(p: Machine, r: Machine, x: Piece)
    requires WellFormed(p) && RingFull(p) && WellFormed(r)
    requires r.front == p.front && r.back == p.back && r.slots == p.slots[p.back := x]
    ensures RingFull(r)
    ensures QueueView(r) == QueueView(p)[..QueueCapacity - 1] + [x]
  {
    Wrap(p.front + QueueCapacity - 1);
    Wrap(p.back + 1);
    assert (p.front + QueueCapacity - 1) % QueueCapacity == p.back;
    forall i | 0 <= i < QueueCapacity
      ensures QueueView(r)[i] == (QueueView(p)[..QueueCapacity - 1] + [x])[i]
    {
      if i < QueueCapacity - 1 {
        SlotsDistinct(p.front, i, QueueCapacity - 1);
      }
    }
  }

  /** With a full history the play is not recorded, so undo replays the OLDER latest entry instead. */
  lemma FullHistoryUndoReplaysOlder(m: Machine, roll: nat)
    requires WellFormed(m) && RingFull(m) && |m.log| == HistoryCapacity
    ensures var a := m.log[HistoryCapacity - 1];
            var r := UndoMove(PlayPiece(m, roll));
      && QueueView(r) == QueueView(m)[1..] + [a.displaced]
      && r.log == m.log[..HistoryCapacity - 1]
  {
    var a := m.log[HistoryCapacity - 1];
    var p := PlayPiece(m, roll);
    PlayShiftsQueue(m, roll);
    UndoRewritesBackSlot(p);
    RewriteBackSlot(p, UndoMove(p), a.displaced);
    assert (QueueView(m)[1..] + [Piece(ShapeOf(roll), m.nextId)])[..QueueCapacity - 1] == QueueView(m)[1..];
  }

  // ---------------------------------------------------------------------------
  // Invert

  /** `inverterFilaComPilha` always leaves three pieces on the stack: the old first three of the queue, top first. */
  lemma InvertRefillsStack(m: Machine)
    requires WellFormed(m)
    ensures StackView(Invert(m)) == QueueView(m)[..3]
  {
    var (fromQueue, m1) := DequeueMany(m, QueueCapacity);
    var (fromStack, m2) := PopMany(m1, StackCapacity);
    var m3 := EnqueueAll(m2, fromStack);
    var r := PushAll(m3, [fromQueue[2], fromQueue[1], fromQueue[0]]);
    InvertByStages(m, fromQueue, m1, fromStack, m2, m3, r);
    DequeueManyTakesFront(m, QueueCapacity);
    RefilledStack(m, fromQueue, m3, r);
  }

  /**
   * From a full ring, invert puts the stack's pieces in pop order (blanks for missing
   * ones) in front of the old fourth and fifth pieces, and the ring is no longer full.
   */
  lemma InvertUnderFullRing(m: Machine)
    requires WellFormed(m) && RingFull(m)
    ensures var r := Invert(m);
      && !RingFull(r)
      && QueueView(r) == PadWithBlanks(StackView(m)) + QueueView(m)[3..]
  {
    var (fromQueue, m1) := DequeueMany(m, QueueCapacity);
    var (fromStack, m2) := PopMany(m1, StackCapacity);
    var m3 := EnqueueAll(m2, fromStack);
    var r := PushAll(m3, [fromQueue[2], fromQueue[1], fromQueue[0]]);
    InvertByStages(m, fromQueue, m1, fromStack, m2, m3, r);
    assert m1 == m;
    PopsPadWithBlanks(m);
    InvertQueue(m, m2, r);
    InvertShiftsGap(m);
    RingFullIffGap(m);
    RingFullIffGap(r);
  }

  /** The queue half of `InvertUnderFullRing`: after the pops (`m2`), what they returned is enqueued. */
  lemma InvertQueue(m: Machine, m2: Machine, r: Machine)
    requires WellFormed(m) && RingFull(m)
    requires WellFormed(m2) && m2.back == m.back && m2.slots == m.slots
    requires WellFormed(r) && r.front == m.front
    requires r.slots == EnqueueAll(m2, PadWithBlanks(StackView(m))).slots
    ensures QueueView(r) == PadWithBlanks(StackView(m)) + QueueView(m)[3..]
  {
    forall i | 0 <= i < QueueCapacity
      ensures QueueView(r)[i] == (PadWithBlanks(StackView(m)) + QueueView(m)[3..])[i]
    {
      InvertQueueAt(m, m2, r, i);
    }
  }

  /** One position of `InvertQueue`: the first three come from the pops, the last two stay. */
  lemma InvertQueueAt(m: Machine, m2: Machine, r: Machine, i: int)
    requires WellFormed(m) && RingFull(m)
    requires WellFormed(m2) && m2.back == m.back && m2.slots == m.slots
    requires WellFormed(r) && r.front == m.front
    requires r.slots == EnqueueAll(m2, PadWithBlanks(StackView(m))).slots
    requires 0 <= i < QueueCapacity
    ensures QueueView(r)[i] == (PadWithBlanks(StackView(m)) + QueueView(m)[3..])[i]
  {
    QueuePositionBehindBack(m, i);
    EnqueueAllSlot(m2, PadWithBlanks(StackView(m)), (m.front + i) % QueueCapacity);
    QueueViewAt(r, i);
    QueueViewAt(m, i);
  }

  // ---------------------------------------------------------------------------
  // The ring invariant across the menu

  /** Invert moves `tras` three slots on and leaves `frente`. */
  lemma InvertShiftsGap(m: Machine)
    requires WellFormed(m)
    ensures Gap(Invert(m)) == (Gap(m) + StackCapacity) % QueueCapacity
  {
    BackMoved(m, Invert(m), StackCapacity);
  }

  /** Moving `tras` alone by `d` adds `d` to the distance, round the ring. */
  lemma BackMoved(m: Machine, r: Machine, d: int)
    requires WellFormed(m) && WellFormed(r) && 0 <= d < QueueCapacity
    requires r.front == m.front && r.back == (m.back + d) % QueueCapacity
    ensures Gap(r) == (Gap(m) + d) % QueueCapacity
  {
    Wrap(m.back + d);
    Wrap(m.back - m.front + QueueCapacity);
    Wrap(r.back - m.front + QueueCapacity);
    Wrap(Gap(m) + d);
  }

  /** Every option keeps the distance between the cursors, except invert (6), which adds three. */
  lemma DispatchShiftsGap(m: Machine, option: int, roll: nat)
    requires WellFormed(m)
    ensures Gap(Dispatch(m, option, roll)) ==
      if option == 6 then (Gap(m) + StackCapacity) % QueueCapacity else Gap(m)
  {
    var r := Dispatch(m, option, roll);
    if option == 1 {
      assert r == PlayPiece(m, roll);
      GapUnderShift(m, r, 1);
    } else if option == 2 {
      assert r == ReservePiece(m, roll);
      if |m.reserve| < StackCapacity {
        GapUnderShift(m, r, 1);
      }
    } else if option == 3 {
      assert r == UseReserved(m);
    } else if option == 4 {
      assert r == SwapPiece(m);
      if m.reserve != [] {
        GapUnderShift(m, r, 1);
      }
    } else if option == 5 {
      assert r == UndoMove(m);
    } else if option == 6 {
      InvertShiftsGap(m);
    }
  }

  /** From a full ring, an option leaves the ring full if and only if it is not invert. */
  lemma OnlyInvertBreaksRing(m: Machine, option: int, roll: nat)
    requires WellFormed(m) && RingFull(m)
    ensures RingFull(Dispatch(m, option, roll)) <==> option != 6
  {
    var r := Dispatch(m, option, roll);
    DispatchShiftsGap(m, option, roll);
    RingFullIffGap(m);
    RingFullIffGap(r);
  }
}
