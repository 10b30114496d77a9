/** Every step of the inbox machine keeps the invariant, so every schedule does. */
module InboxSteps {
  import opened Wrappers
  import opened Inbox
  import opened InboxInvariant
  import opened Arith

  lemma InitKeeps<V>(cap: nat)
    requires cap >= 2
    ensures Inv(Init<V>(cap))
  {
    var s := Init<V>(cap);
    forall p: nat | p < cap
      ensures CellOk(s, p)
    {
      ModOfSum(0, p, cap);
    }
    assert s.popped == Values(s.log[..0]);
  }

  /** What the slot of a position holds, read off the window: p, or p + 1 once published. */
  lemma SlotReading<V>(s: State<V>, t: nat) returns (p: nat)
    requires Inv(s) && t <= s.tail
    ensures Freed(s) <= p < Freed(s) + s.Cap() && s.At(p) == s.At(t)
    ensures CellOk(s, p)
    ensures t < Freed(s) ==> p >= t + s.Cap()
    ensures Freed(s) <= t < Freed(s) + s.Cap() ==> p == t
    ensures t == Freed(s) + s.Cap() ==> p == t - s.Cap()
  {
    if t < Freed(s) {
      p := t + s.Cap();
      ModShift(t, s.Cap());
      while p < Freed(s)
        invariant t + s.Cap() <= p < Freed(s) + s.Cap() && p % s.Cap() == t % s.Cap()
      {
        ModShift(p, s.Cap());
        p := p + s.Cap();
      }
    } else if t < Freed(s) + s.Cap() {
      p := t;
    } else {
      p := t - s.Cap();
      ModShift(p, s.Cap());
    }
  }

  // ------------------------------------------------------- producer's steps

  lemma BeginKeeps<V>(s: State<V>, i: ProducerId, v: V)
    requires Inv(s) && s.Pc(i).Idle?
    ensures Inv(s.Goto(i, LoadTail(v)))
  {
    MoveKeeps(s, i, LoadTail(v));
  }

  predicate Claimed<V>(pc: ProducerPc<V>) {
    pc.WriteSlot? || pc.PublishSlot? || pc.LoadHead? || pc.Wake?
  }

  /** A producer that has claimed nothing may go wherever its own condition holds. */
  lemma MoveKeeps<V>(s: State<V>, i: ProducerId, pc: ProducerPc<V>)
    requires Inv(s) && !Claimed(s.Pc(i)) && !Claimed(pc)
    requires ProducerOk(s.Goto(i, pc), i)
    ensures Inv(s.Goto(i, pc))
  {
    var s' := s.Goto(i, pc);
    forall p: nat | Freed(s) <= p < Freed(s) + s.Cap()
      ensures CellOk(s', p)
    {
      assert CellOk(s, p);
    }
    forall j: ProducerId
      ensures ProducerOk(s', j)
    {
      assert ProducerOk(s, j);
    }
  }

  lemma AnswerKeeps<V>(s: State<V>, i: ProducerId, v: V, ok: bool)
    requires Inv(s)
    ensures Inv(s.Answer(i, v, ok))
  {
    var s' := s.Answer(i, v, ok);
    forall p: nat | Freed(s) <= p < Freed(s) + s.Cap()
      ensures CellOk(s', p)
    {
      assert CellOk(s, p);
    }
    forall j: ProducerId
      ensures ProducerOk(s', j)
    {
      assert ProducerOk(s, j);
    }
  }

  lemma LoadSeqKeeps<V>(s: State<V>, i: ProducerId)
    requires Inv(s) && s.Pc(i).LoadSeq?
    ensures Inv(NextProducer(Unbounded, s, i, false))
  {
    assert ProducerOk(s, i);
    var v, t := s.Pc(i).v, s.Pc(i).t;
    var p := SlotReading(s, t);
    if s.At(t).seqNo == t {
      MoveKeeps(s, i, Cas(v, t));
    } else if s.At(t).seqNo < t {
      AnswerKeeps(s, i, v, false);
      MoveKeeps(s.Answer(i, v, false), i, Idle);
    } else {
      MoveKeeps(s, i, LoadTail(v));
    }
  }

  lemma ClaimKeeps<V>(s: State<V>, i: ProducerId)
    requires Inv(s) && s.Pc(i).Cas? && s.Pc(i).t == s.tail
    ensures Inv(NextProducer(Unbounded, s, i, false))
  {
    var v, t := s.Pc(i).v, s.tail;
    var s' := NextProducer(Unbounded, s, i, false);
    assert ProducerOk(s, i);
    assert CellOk(s, t);
    forall p: nat | Freed(s) <= p < Freed(s) + s.Cap()
      ensures CellOk(s', p)
    {
      assert CellOk(s, p);
    }
    forall j: ProducerId
      ensures ProducerOk(s', j)
    {
      assert ProducerOk(s, j);
    }
    assert s'.log[..ReadCount(s)] == s.log[..ReadCount(s)];
  }

  lemma WriteKeeps<V>(s: State<V>, i: ProducerId)
    requires Inv(s) && s.Pc(i).WriteSlot?
    ensures Inv(NextProducer(Unbounded, s, i, false))
  {
    var v, t := s.Pc(i).v, s.Pc(i).t;
    assert ProducerOk(s, i);
    var c := s.At(t).(val := Some(v));
    var s' := NextProducer(Unbounded, s, i, false);
    OnlyThatPosition(s, Freed(s), t, c);
    forall p: nat | Freed(s) <= p < Freed(s) + s.Cap()
      ensures CellOk(s', p)
    {
      assert CellOk(s, p);
      assert s'.At(p) == s.SetAt(t, c).At(p);
    }
    forall j: ProducerId
      ensures ProducerOk(s', j)
    {
      assert ProducerOk(s, j);
      assert s.Pc(j).WriteSlot? || s.Pc(j).PublishSlot? ==> s'.At(s.Pc(j).t) == s.SetAt(t, c).At(s.Pc(j).t);
    }
    ConsumerKept(s, s', t, c);
  }

  /** Writing or publishing an unpublished position does not disturb what the consumer has seen. */
  lemma ConsumerKept<V>(s: State<V>, s': State<V>, t: nat, c: Slot<V>)
    requires Inv(s) && Shape(s')
    requires Freed(s) <= t < s.tail && s.At(t).seqNo == t
    requires s'.cells == s.SetAt(t, c).cells && s'.consumer == s.consumer && s'.head == s.head
    requires s'.log == s.log && s'.tail == s.tail
    ensures ConsumerOk(s')
  {
    OnlyThatPosition(s, Freed(s), t, c);
    if s.consumer.ReadSlot? || s.consumer.FreeSlot? {
      assert s.SetAt(t, c).At(s.head) == s'.At(s.head);
    }
  }

  lemma PublishKeeps<V>(s: State<V>, i: ProducerId)
    requires Inv(s) && s.Pc(i).PublishSlot?
    ensures Inv(NextProducer(Unbounded, s, i, false))
  {
    var v, t := s.Pc(i).v, s.Pc(i).t;
    assert ProducerOk(s, i);
    var c := Slot(t + 1, Some(v));
    var s' := NextProducer(Unbounded, s, i, false);
    assert s' == s.SetAt(t, c).Goto(i, LoadHead(v, t));
    assert CellsOk(s') && ProducersOk(s') by {
      PublishedCells(s, i, s', t, c);
    }
    assert ConsumerOk(s') by {
      ConsumerKept(s, s', t, c);
    }
  }

  lemma PublishedCells<V>(s: State<V>, i: ProducerId, s': State<V>, t: nat, c: Slot<V>)
    requires Inv(s) && s.Pc(i).PublishSlot? && s.Pc(i).t == t
    requires c == Slot(t + 1, Some(s.Pc(i).v)) && s' == s.SetAt(t, c).Goto(i, LoadHead(s.Pc(i).v, t))
    ensures CellsOk(s') && ProducersOk(s')
  {
    assert ProducerOk(s, i);
    assert CellOk(s, t);
    OnlyThatPosition(s, Freed(s), t, c);
    forall p: nat | Freed(s) <= p < Freed(s) + s.Cap()
      ensures CellOk(s', p)
    {
      assert CellOk(s, p);
      assert s'.At(p) == s.SetAt(t, c).At(p);
    }
    forall j: ProducerId
      ensures ProducerOk(s', j)
    {
      assert ProducerOk(s, j);
      assert s.Pc(j).WriteSlot? || s.Pc(j).PublishSlot? ==> s'.At(s.Pc(j).t) == s.SetAt(t, c).At(s.Pc(j).t);
    }
  }

  /** Leaving the claimed part of `push`: the position is published, so nothing depends on it. */
  lemma LeaveKeeps<V>(s: State<V>, i: ProducerId, pc: ProducerPc<V>)
    requires Inv(s) && (s.Pc(i).LoadHead? || s.Pc(i).Wake?) && (pc.Wake? || pc.Idle?)
    requires pc.Wake? ==> pc.t == s.Pc(i).t
    requires WakeOk(s.Goto(i, pc))
    ensures Inv(s.Goto(i, pc))
  {
    var s' := s.Goto(i, pc);
    forall p: nat | Freed(s) <= p < Freed(s) + s.Cap()
      ensures CellOk(s', p)
    {
      assert CellOk(s, p);
      assert s'.At(p) == s.At(p);
    }
    forall j: ProducerId
      ensures ProducerOk(s', j)
    {
      assert ProducerOk(s, j);
    }
  }

  lemma LoadHeadKeeps<V>(s: State<V>, i: ProducerId)
    requires Inv(s) && s.Pc(i).LoadHead?
    ensures Inv(NextProducer(Unbounded, s, i, false))
  {
    var v, t := s.Pc(i).v, s.Pc(i).t;
    assert ProducerOk(s, i);
    AnswerKeeps(s, i, v, true);
    LeaveKeeps(s.Answer(i, v, true), i, if s.head == t then Wake(v, t) else Idle);
  }

  lemma KickKeeps<V>(s: State<V>)
    requires Inv(s)
    ensures Inv(s.(eventfd := s.eventfd + 1))
  {
    var s' := s.(eventfd := s.eventfd + 1);
    forall p: nat | Freed(s) <= p < Freed(s) + s.Cap()
      ensures CellOk(s', p)
    {
      assert CellOk(s, p);
    }
    forall j: ProducerId
      ensures ProducerOk(s', j)
    {
      assert ProducerOk(s, j);
    }
  }

  lemma WakeKeeps<V>(s: State<V>, i: ProducerId)
    requires Inv(s) && s.Pc(i).Wake?
    ensures Inv(NextProducer(Unbounded, s, i, false))
  {
    KickKeeps(s);
    LeaveKeeps(s.(eventfd := s.eventfd + 1), i, Idle);
  }

  // -------------------------------------------------------- consumer's steps

  /** Consumer steps that touch neither a slot nor `head`. */
  lemma ConsumerMoveKeeps<V>(s: State<V>)
    requires Inv(s) && Enabled(s, Consumer)
    requires s.consumer.Parked? || s.consumer.ReadHead? || s.consumer.ReadSeq? || s.consumer.Dispatch?
    ensures Inv(NextConsumer(Unbounded, s))
  {
    var s' := NextConsumer(Unbounded, s);
    forall p: nat | Freed(s) <= p < Freed(s) + s.Cap()
      ensures CellOk(s', p)
    {
      assert CellOk(s, p);
      assert s'.At(p) == s.At(p);
    }
    forall j: ProducerId
      ensures ProducerOk(s', j)
    {
      assert ProducerOk(s, j);
    }
    assert CellOk(s, s.head);
  }

  lemma ReadSlotKeeps<V>(s: State<V>)
    requires Inv(s) && s.consumer.ReadSlot?
    ensures s.At(s.head).val == Some(s.log[s.head].1)
    ensures Inv(NextConsumer(Unbounded, s))
  {
    var h := s.head;
    assert CellOk(s, h);
    var c := s.At(h).(val := None);
    var s' := NextConsumer(Unbounded, s);
    OnlyThatPosition(s, Freed(s), h, c);
    forall p: nat | Freed(s) <= p < Freed(s) + s.Cap()
      ensures CellOk(s', p)
    {
      assert CellOk(s, p);
      assert s'.At(p) == s.SetAt(h, c).At(p);
    }
    forall j: ProducerId
      ensures ProducerOk(s', j)
    {
      assert ProducerOk(s, j);
      assert s.Pc(j).WriteSlot? || s.Pc(j).PublishSlot? ==> s'.At(s.Pc(j).t) == s.SetAt(h, c).At(s.Pc(j).t);
    }
    assert Values(s.log[..h + 1]) == Values(s.log[..h]) + [s.log[h].1];
  }

  lemma FreeSlotKeeps<V>(s: State<V>)
    requires Inv(s) && s.consumer.FreeSlot?
    ensures Inv(NextConsumer(Unbounded, s))
  {
    var h := s.head;
    assert CellOk(s, h);
    var c := Slot(h + s.Cap(), None);
    var s' := NextConsumer(Unbounded, s);
    assert s' == s.SetAt(h, c).(consumer := StoreHead(h, s.consumer.v));
    assert CellsOk(s') && ProducersOk(s') by {
      FreedCells(s, s', c);
    }
  }

  lemma FreedCells<V>(s: State<V>, s': State<V>, c: Slot<V>)
    requires Inv(s) && s.consumer.FreeSlot?
    requires c == Slot(s.head + s.Cap(), None)
    requires s' == s.SetAt(s.head, c).(consumer := StoreHead(s.head, s.consumer.v))
    ensures CellsOk(s') && ProducersOk(s')
  {
    var h, cap := s.head, s.Cap();
    OnlyThatPosition(s, h, h, c);
    assert CellOk(s, h);
    forall p: nat | h + 1 <= p < h + 1 + cap
      ensures CellOk(s', p)
    {
      assert s'.At(p) == s.SetAt(h, c).At(p);
      if p < h + cap {
        assert CellOk(s, p);
      } else {
        ModShift(h, cap);
      }
    }
    forall j: ProducerId
      ensures ProducerOk(s', j)
    {
      assert ProducerOk(s, j);
      assert s.Pc(j).WriteSlot? || s.Pc(j).PublishSlot? ==> s'.At(s.Pc(j).t) == s.SetAt(h, c).At(s.Pc(j).t);
    }
  }

  lemma StoreHeadKeeps<V>(s: State<V>)
    requires Inv(s) && s.consumer.StoreHead?
    ensures Inv(NextConsumer(Unbounded, s))
  {
    var s' := NextConsumer(Unbounded, s);
    forall p: nat | Freed(s) <= p < Freed(s) + s.Cap()
      ensures CellOk(s', p)
    {
      assert CellOk(s, p);
      assert s'.At(p) == s.At(p);
    }
    forall j: ProducerId
      ensures ProducerOk(s', j)
    {
      assert ProducerOk(s, j);
    }
  }

  // ---------------------------------------------------------------- any step

  lemma ProducerKeeps<V>(s: State<V>, i: ProducerId, spurious: bool)
    requires Inv(s) && !s.Pc(i).Idle?
    ensures Inv(NextProducer(Unbounded, s, i, spurious))
  {
    assert ProducerOk(s, i);
    match s.Pc(i)
    case LoadTail(v) => MoveKeeps(s, i, LoadSeq(v, s.tail));
    case LoadSeq(_, _) => LoadSeqKeeps(s, i);
    case Cas(v, t) =>
      if s.tail == t && !spurious {
        ClaimKeeps(s, i);
      } else {
        MoveKeeps(s, i, LoadSeq(v, s.tail));
      }
    case WriteSlot(_, _) => WriteKeeps(s, i);
    case PublishSlot(_, _) => PublishKeeps(s, i);
    case LoadHead(_, _) => LoadHeadKeeps(s, i);
    case Wake(_, _) => WakeKeeps(s, i);
  }

  lemma ConsumerKeeps<V>(s: State<V>)
    requires Inv(s) && Enabled(s, Consumer)
    ensures Inv(NextConsumer(Unbounded, s))
  {
    match s.consumer
    case ReadSlot(_) => ReadSlotKeeps(s);
    case FreeSlot(_, _) => FreeSlotKeeps(s);
    case StoreHead(_, _) => StoreHeadKeeps(s);
    case _ => ConsumerMoveKeeps(s);
  }

  lemma StepKeeps<V>(s: State<V>, step: Step<V>)
    requires Inv(s) && Enabled(s, step)
    ensures Inv(Next(Unbounded, s, step))
  {
    match step
    case Begin(i, v) => BeginKeeps(s, i, v);
    case Producer(i, spurious) => ProducerKeeps(s, i, spurious);
    case Consumer => ConsumerKeeps(s);
  }

  /** The invariant holds after every schedule of any number of producers and the drain task. */
  lemma {:induction false} Always<V>(cap: nat, schedule: seq<Step<V>>)
    requires cap >= 2
    ensures Inv(Exec(Unbounded, cap, schedule))
  {
    if schedule == [] {
      InitKeeps<V>(cap);
    } else {
      var before := schedule[..|schedule| - 1];
      Always(cap, before);
      var s, step := Exec(Unbounded, cap, before), schedule[|schedule| - 1];
      if Enabled(s, step) {
        StepKeeps(s, step);
      }
    }
  }

  ghost predicate Reachable<V(!new)>(cap: nat, s: State<V>) {
    exists schedule: seq<Step<V>> :: s == Exec(Unbounded, cap, schedule)
  }

  lemma ReachableInv<V(!new)>(cap: nat, s: State<V>)
    requires cap >= 2 && Reachable(cap, s)
    ensures Inv(s) && s.Cap() == cap
  {
    var schedule: seq<Step<V>> :| s == Exec(Unbounded, cap, schedule);
    Always(cap, schedule);
  }

  lemma ReachableStep<V(!new)>(cap: nat, s: State<V>, step: Step<V>)
    requires Reachable(cap, s) && Enabled(s, step)
    ensures Reachable(cap, Next(Unbounded, s, step))
  {
    var schedule: seq<Step<V>> :| s == Exec(Unbounded, cap, schedule);
    var longer := schedule + [step];
    assert longer[..|longer| - 1] == schedule;
    assert Next(Unbounded, s, step) == Exec(Unbounded, cap, longer);
  }
}
