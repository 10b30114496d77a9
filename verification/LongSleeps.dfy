/**
 How long a producer may sleep between loading the tail and using it: exactly when the wrapping ring
 still does what the unbounded one does, step by step and over whole runs, and a run where it does not.
 */
module LongSleeps {
  import opened Wrappers
  import opened Inbox
  import opened InboxInvariant
  import opened InboxSteps
  import opened InboxTheorems
  import opened FixedWidth

  /**
   A producer that slept through at least half the counter range but not all of it: with unbounded
   counters it would start over with a fresh tail, with W bits it is told the ring is full.
   */
  lemma LongSleepRefused<V>(k: nat, bits: nat, s: State<V>, i: ProducerId)
    requires 1 <= k < bits && s.Cap() == Pow2(k) && s.Pc(i).LoadSeq?
    requires Pow2(bits) <= 2 * (s.At(s.Pc(i).t).seqNo - s.Pc(i).t) < 2 * Pow2(bits)
    ensures NextProducer(Unbounded, s, i, false) == s.Goto(i, LoadTail(s.Pc(i).v))
    ensures NextProducer(Bits(bits), Wrapped(bits, s), i, false) == Wrapped(bits, s).Answer(i, s.Pc(i).v, false).Goto(i, Idle)
  {
    PcWrapped(bits, s, i);
    AtWrapped(k, bits, s, s.Pc(i).t);
    SignedDiffReversed(s.At(s.Pc(i).t).seqNo, s.Pc(i).t, bits);
  }

  /** The W-bit ring takes the wrapped image of the unbounded step. */
  ghost predicate Follows<V>(bits: nat, s: State<V>, step: Step<V>)
    requires Enabled(s, step)
  {
    Enabled(Wrapped(bits, s), step) && Next(Bits(bits), Wrapped(bits, s), step) == Wrapped(bits, Next(Unbounded, s, step))
  }

  /**
   Exactly which sleeps are harmless before the load of the slot's sequence number: those after which
   the wrapped difference still has the sign of the true one.
   */
  lemma SleepExactly<V>(k: nat, bits: nat, s: State<V>, i: ProducerId)
    requires 1 <= k < bits && s.Cap() == Pow2(k) && s.Pc(i).LoadSeq?
    ensures NextProducer(Bits(bits), Wrapped(bits, s), i, false) == Wrapped(bits, NextProducer(Unbounded, s, i, false))
            <==> SignKept(bits, s.At(s.Pc(i).t).seqNo, s.Pc(i).t)
  {
    var t := s.Pc(i).t;
    if SignKept(bits, s.At(t).seqNo, t) {
      LoadSeqRefines(k, bits, s, i);
    } else {
      WrongSign(k, bits, s, i);
    }
  }

  lemma WrongSign<V>(k: nat, bits: nat, s: State<V>, i: ProducerId)
    requires 1 <= k < bits && s.Cap() == Pow2(k) && s.Pc(i).LoadSeq?
    requires !SignKept(bits, s.At(s.Pc(i).t).seqNo, s.Pc(i).t)
    ensures NextProducer(Bits(bits), Wrapped(bits, s), i, false) != Wrapped(bits, NextProducer(Unbounded, s, i, false))
  {
    var t := s.Pc(i).t;
    PcWrapped(bits, s, i);
    AtWrapped(k, bits, s, t);
    WrappedSign(bits, s.At(t).seqNo, t);
    PcWrapped(bits, NextProducer(Unbounded, s, i, false), i);
  }

  /**
   Before the compare-exchange: those after which the shared tail has not come round to the local one.
   A tail a whole number of counter ranges ahead lets the stale claim through.
   */
  lemma ClaimExactly<V>(bits: nat, s: State<V>, i: ProducerId, spurious: bool)
    requires s.Cap() > 0 && s.Pc(i).Cas?
    ensures NextProducer(Bits(bits), Wrapped(bits, s), i, spurious) == Wrapped(bits, NextProducer(Unbounded, s, i, spurious))
            <==> spurious || EqualKept(bits, s.tail, s.Pc(i).t)
  {
    if spurious || EqualKept(bits, s.tail, s.Pc(i).t) {
      CasRefines(bits, s, i, spurious);
    } else {
      PcWrapped(bits, s, i);
      PcWrapped(bits, NextProducer(Unbounded, s, i, spurious), i);
      assert NextProducer(Bits(bits), Wrapped(bits, s), i, spurious).Pc(i).WriteSlot?;
    }
  }

  /** Before the load of the head: those after which the head has not come round to the local tail. */
  lemma WakeExactly<V>(bits: nat, s: State<V>, i: ProducerId)
    requires s.Cap() > 0 && s.Pc(i).LoadHead?
    ensures NextProducer(Bits(bits), Wrapped(bits, s), i, false) == Wrapped(bits, NextProducer(Unbounded, s, i, false))
            <==> EqualKept(bits, s.head, s.Pc(i).t)
  {
    if EqualKept(bits, s.head, s.Pc(i).t) {
      LoadHeadRefines(bits, s, i);
    } else {
      PcWrapped(bits, s, i);
      PcWrapped(bits, NextProducer(Unbounded, s, i, false), i);
      assert NextProducer(Bits(bits), Wrapped(bits, s), i, false).Pc(i).Wake?;
    }
  }

  /** Any step of the W-bit ring follows the unbounded one iff it is harmless. */
  lemma StepExactly<V>(k: nat, bits: nat, s: State<V>, step: Step<V>)
    requires 1 <= k < bits && s.Cap() == Pow2(k) && Inv(s) && Enabled(s, step)
    ensures Follows(bits, s, step) <==> Harmless(bits, s, step)
  {
    EnabledWrapped(k, bits, s, step);
    if Harmless(bits, s, step) {
      StepRefines(k, bits, s, step);
    } else {
      match s.Pc(step.i)
      case LoadSeq(_, _) => SleepExactly(k, bits, s, step.i);
      case Cas(_, _) => ClaimExactly(bits, s, step.i, step.spurious);
      case LoadHead(_, _) => WakeExactly(bits, s, step.i);
    }
  }

  /** Every step taken along the schedule is harmless when it is taken. */
  ghost predicate HarmlessRun<V>(cap: nat, bits: nat, schedule: seq<Step<V>>)
    requires cap > 0
  {
    schedule == [] ||
    var before, step := schedule[..|schedule| - 1], schedule[|schedule| - 1];
    var s := Exec(Unbounded, cap, before);
    HarmlessRun(cap, bits, before) && (Enabled(s, step) ==> Harmless(bits, s, step))
  }

  ghost predicate FollowsAt<V>(cap: nat, bits: nat, schedule: seq<Step<V>>) {
    Exec(Bits(bits), cap, schedule) == Wrapped(bits, Exec(Unbounded, cap, schedule))
  }

  ghost predicate FollowsThroughout<V>(cap: nat, bits: nat, schedule: seq<Step<V>>) {
    forall n | 0 <= n <= |schedule| :: FollowsAt(cap, bits, schedule[..n])
  }

  lemma ThroughoutLast<V>(cap: nat, bits: nat, schedule: seq<Step<V>>, step: Step<V>)
    ensures FollowsThroughout(cap, bits, schedule + [step]) <==>
            FollowsThroughout(cap, bits, schedule) && FollowsAt(cap, bits, schedule + [step])
  {
    var longer := schedule + [step];
    assert forall n | 0 <= n <= |schedule| :: longer[..n] == schedule[..n];
    assert longer[..|longer|] == longer;
  }

  lemma FollowsLast<V>(k: nat, bits: nat, schedule: seq<Step<V>>, step: Step<V>)
    requires 1 <= k < bits && FollowsAt(Pow2(k), bits, schedule)
    ensures var s := Exec(Unbounded, Pow2(k), schedule);
            FollowsAt(Pow2(k), bits, schedule + [step]) <==> (Enabled(s, step) ==> Harmless(bits, s, step))
  {
    var s := Exec(Unbounded, Pow2(k), schedule);
    assert Pow2(k) >= 2;
    assert (schedule + [step])[..|schedule|] == schedule;
    Always(Pow2(k), schedule);
    EnabledWrapped(k, bits, s, step);
    if Enabled(s, step) {
      StepExactly(k, bits, s, step);
    }
  }

  /**
   Over whole runs: the W-bit ring goes through exactly the wrapped images of the unbounded states iff
   every step taken is harmless.
   */
  lemma {:induction false} RunExactly<V>(k: nat, bits: nat, schedule: seq<Step<V>>)
    requires 1 <= k < bits
    ensures FollowsThroughout(Pow2(k), bits, schedule) <==> HarmlessRun(Pow2(k), bits, schedule)
  {
    if schedule == [] {
      InitWrapped<V>(k, bits);
    } else {
      var n := |schedule| - 1;
      var before, step := schedule[..n], schedule[n];
      RunExactly(k, bits, before);
      assert schedule == before + [step];
      ThroughoutLast(Pow2(k), bits, before, step);
      if FollowsThroughout(Pow2(k), bits, before) {
        assert before[..n] == before;
        FollowsLast(k, bits, before, step);
      }
    }
  }

  /** States some schedule of the W-bit ring reaches. */
  ghost predicate RunsTo<V(!new)>(bits: nat, cap: nat, s: State<V>) {
    exists schedule :: s == Exec(Bits(bits), cap, schedule)
  }

  lemma RunsOn<V(!new)>(bits: nat, cap: nat, s: State<V>, step: Step<V>)
    requires RunsTo(bits, cap, s) && Enabled(s, step)
    ensures RunsTo(bits, cap, Next(Bits(bits), s, step))
  {
    var schedule: seq<Step<V>> :| s == Exec(Bits(bits), cap, schedule);
    assert (schedule + [step])[..|schedule|] == schedule;
    assert Exec(Bits(bits), cap, schedule + [step]) == Next(Bits(bits), s, step);
  }

  // ------------------------------------------ two slots and two-bit counters

  lemma TwoBits()
    ensures Pow2(2) == 4
  {
    assert Pow2(1) == 2;
  }

  lemma NoDiff(x: nat)
    ensures SignedDiff(Bits(2), x, x) == 0
  {
    TwoBits();
  }

  /** What the others do leaves producer 0 and everyone but producer 1 alone. */
  ghost predicate SleepsOn<V(!new)>(s: State<V>, s': State<V>) {
    && RunsTo(2, 2, s') && s'.Cap() == 2
    && s'.Returned(0) == s.Returned(0)
    && forall i: ProducerId | i != 1 :: s'.Pc(i) == s.Pc(i)
  }

  /** Producer 1 gets as far as the slot it wants ... */
  lemma LookNext<V(!new)>(s: State<V>, v: V) returns (s': State<V>)
    requires RunsTo(2, 2, s) && s.Cap() == 2 && s.Pc(1).Idle?
    ensures SleepsOn(s, s') && s' == s.(producers := s'.producers) && s'.Pc(1) == LoadSeq(v, s.tail)
  {
    s' := s;
    RunsOn(2, 2, s', Begin(1, v));
    s' := Next(Bits(2), s', Begin(1, v));
    RunsOn(2, 2, s', Producer(1, false));
    s' := Next(Bits(2), s', Producer(1, false));
  }

  /** ... claims it ... */
  lemma ClaimNext<V(!new)>(s: State<V>, v: V) returns (s': State<V>)
    requires RunsTo(2, 2, s) && s.Cap() == 2 && s.Pc(1) == LoadSeq(v, s.tail) && s.At(s.tail).seqNo == s.tail < 4
    ensures SleepsOn(s, s') && s'.Pc(1) == WriteSlot(v, s.tail)
    ensures s' == s.(producers := s'.producers, tail := (s.tail + 1) % 4, log := s.log + [(1, v)])
  {
    TwoBits();
    NoDiff(s.tail);
    s' := s;
    RunsOn(2, 2, s', Producer(1, false));
    s' := Next(Bits(2), s', Producer(1, false));
    RunsOn(2, 2, s', Producer(1, false));
    s' := Next(Bits(2), s', Producer(1, false));
  }

  /** ... writes its value ... */
  lemma WriteNext<V(!new)>(s: State<V>, v: V, t: nat) returns (s': State<V>)
    requires RunsTo(2, 2, s) && s.Cap() == 2 && s.Pc(1) == WriteSlot(v, t)
    ensures SleepsOn(s, s') && s'.Pc(1) == PublishSlot(v, t)
    ensures s' == s.(producers := s'.producers, cells := s.cells[t % 2 := s.At(t).(val := Some(v))])
  {
    RunsOn(2, 2, s, Producer(1, false));
    s' := Next(Bits(2), s, Producer(1, false));
  }

  /** ... publishes it ... */
  lemma PublishNext<V(!new)>(s: State<V>, v: V, t: nat) returns (s': State<V>)
    requires RunsTo(2, 2, s) && s.Cap() == 2 && s.Pc(1) == PublishSlot(v, t)
    ensures SleepsOn(s, s') && s'.Pc(1) == LoadHead(v, t)
    ensures s' == s.(producers := s'.producers, cells := s.cells[t % 2 := s.At(t).(seqNo := (t + 1) % 4)])
  {
    TwoBits();
    RunsOn(2, 2, s, Producer(1, false));
    s' := Next(Bits(2), s, Producer(1, false));
  }

  /** ... and leaves, waking the drain task if it has to. */
  lemma LeaveNext<V(!new)>(s: State<V>) returns (s': State<V>)
    requires RunsTo(2, 2, s) && s.Cap() == 2 && s.Pc(1).LoadHead?
    ensures SleepsOn(s, s') && s'.Pc(1).Idle? && (s.head == s.Pc(1).t ==> s'.eventfd > 0)
    ensures s' == s.(producers := s'.producers, returned := s'.returned, eventfd := s'.eventfd)
  {
    RunsOn(2, 2, s, Producer(1, false));
    s' := Next(Bits(2), s, Producer(1, false));
    if s'.Pc(1).Wake? {
      s' := WakeNext(s');
    }
  }

  lemma WakeNext<V(!new)>(s: State<V>) returns (s': State<V>)
    requires RunsTo(2, 2, s) && s.Cap() == 2 && s.Pc(1).Wake?
    ensures SleepsOn(s, s') && s'.Pc(1).Idle? && s' == s.(producers := s'.producers, eventfd := s.eventfd + 1)
  {
    RunsOn(2, 2, s, Producer(1, false));
    s' := Next(Bits(2), s, Producer(1, false));
  }

  /** A whole push by producer 1 into a free position. */
  lemma PushNext<V(!new)>(s: State<V>, v: V) returns (s': State<V>)
    requires RunsTo(2, 2, s) && s.Cap() == 2 && s.Pc(1).Idle? && s.At(s.tail).seqNo == s.tail < 4
    ensures SleepsOn(s, s') && s'.Pc(1).Idle? && (s.head == s.tail ==> s'.eventfd > 0)
    ensures s'.cells == s.cells[s.tail % 2 := Slot((s.tail + 1) % 4, Some(v))] && s'.tail == (s.tail + 1) % 4
    ensures s'.log == s.log + [(1, v)] && s'.head == s.head && s'.consumer == s.consumer
    ensures s'.popped == s.popped && s'.dispatched == s.dispatched
  {
    s' := LookNext(s, v);
    s' := ClaimNext(s', v);
    s' := WriteNext(s', v, s.tail);
    s' := PublishNext(s', v, s.tail);
    s' := LeaveNext(s');
  }

  /** The drain task loads the head, ... */
  lemma HeadNext<V(!new)>(s: State<V>) returns (s': State<V>)
    requires RunsTo(2, 2, s) && s.Cap() == 2 && s.consumer.ReadHead?
    ensures SleepsOn(s, s') && s' == s.(consumer := ReadSeq(s.head))
  {
    RunsOn(2, 2, s, Consumer);
    s' := Next(Bits(2), s, Consumer);
  }

  /** ... finds a value there, ... */
  lemma FindNext<V(!new)>(s: State<V>) returns (s': State<V>)
    requires RunsTo(2, 2, s) && s.Cap() == 2 && s.consumer.ReadSeq? && s.At(s.consumer.h).seqNo == s.consumer.h + 1 < 4
    ensures SleepsOn(s, s') && s' == s.(consumer := ReadSlot(s.consumer.h))
  {
    var h := s.consumer.h;
    TwoBits();
    NoDiff(h + 1);
    assert Wrap(Bits(2), h + 1) == h + 1;
    RunsOn(2, 2, s, Consumer);
    s' := Next(Bits(2), s, Consumer);
  }

  /** ... takes it, ... */
  lemma TakeNext<V(!new)>(s: State<V>, x: V) returns (s': State<V>)
    requires RunsTo(2, 2, s) && s.Cap() == 2 && s.consumer.ReadSlot? && s.At(s.consumer.h).val == Some(x)
    ensures SleepsOn(s, s')
    ensures var h := s.consumer.h;
            s' == s.(cells := s.cells[h % 2 := s.At(h).(val := None)], consumer := FreeSlot(h, x), popped := s.popped + [x])
  {
    RunsOn(2, 2, s, Consumer);
    s' := Next(Bits(2), s, Consumer);
  }

  /** ... hands its slot back ... */
  lemma FreeNext<V(!new)>(s: State<V>) returns (s': State<V>)
    requires RunsTo(2, 2, s) && s.Cap() == 2 && s.consumer.FreeSlot?
    ensures var h, v := s.consumer.h, s.consumer.v;
            && SleepsOn(s, s')
            && s' == s.(cells := s.cells[h % 2 := s.At(h).(seqNo := (h + 2) % 4)], consumer := StoreHead(h, v))
  {
    TwoBits();
    RunsOn(2, 2, s, Consumer);
    s' := Next(Bits(2), s, Consumer);
  }

  lemma StoreNext<V(!new)>(s: State<V>) returns (s': State<V>)
    requires RunsTo(2, 2, s) && s.Cap() == 2 && s.consumer.StoreHead? && s.consumer.h < 3
    ensures SleepsOn(s, s') && s' == s.(head := s.consumer.h + 1, consumer := Dispatch(s.consumer.v))
  {
    TwoBits();
    RunsOn(2, 2, s, Consumer);
    s' := Next(Bits(2), s, Consumer);
  }

  /** ... and dispatches it: a whole pop. */
  lemma PopNext<V(!new)>(s: State<V>, x: V) returns (s': State<V>)
    requires RunsTo(2, 2, s) && s.Cap() == 2 && s.head < 3
    requires s.consumer.ReadHead? && s.At(s.head) == Slot(s.head + 1, Some(x))
    ensures SleepsOn(s, s') && s'.Pc(1) == s.Pc(1)
    ensures s'.cells == s.cells[s.head % 2 := Slot((s.head + 2) % 4, None)] && s'.head == s.head + 1
    ensures s'.popped == s.popped + [x] && s'.dispatched == s.dispatched + [x] && s'.consumer.ReadHead?
    ensures s'.tail == s.tail && s'.log == s.log
  {
    s' := HeadNext(s);
    s' := FindNext(s');
    s' := TakeNext(s', x);
    assert s'.At(s.head) == Slot(s.head + 1, None);
    s' := FreeNext(s');
    assert s'.cells == s.cells[s.head % 2 := Slot((s.head + 2) % 4, None)];
    s' := StoreNext(s');
    s' := DispatchNext(s');
  }

  lemma DispatchNext<V(!new)>(s: State<V>) returns (s': State<V>)
    requires RunsTo(2, 2, s) && s.Cap() == 2 && s.consumer.Dispatch?
    ensures SleepsOn(s, s') && s' == s.(dispatched := s.dispatched + [s.consumer.v], consumer := ReadHead)
  {
    RunsOn(2, 2, s, Consumer);
    s' := Next(Bits(2), s, Consumer);
  }

  // ------------------------------------------------------------ failing runs

  /** Producer 0 has loaded the tail and falls asleep. */
  lemma FallsAsleep<V(!new)>(a: V) returns (s: State<V>)
    ensures RunsTo(2, 2, s)
    ensures s == State([Slot(0, None), Slot(1, None)], 0, 0, 0, map[0 := LoadSeq(a, 0)], Parked, [], [], [], map[])
  {
    s := Init(2);
    assert Exec<V>(Bits(2), 2, []) == s;
    assert s.cells == [Slot(0, None), Slot(1, None)];
    RunsOn(2, 2, s, Begin(0, a));
    s := Next(Bits(2), s, Begin(0, a));
    RunsOn(2, 2, s, Producer(0, false));
    s := Next(Bits(2), s, Producer(0, false));
    assert s.producers == map[0 := LoadSeq(a, 0)];
  }

  /** Meanwhile one value goes through the ring. */
  lemma OneLapped<V(!new)>(s: State<V>, b: V) returns (s': State<V>)
    requires RunsTo(2, 2, s) && s.cells == [Slot(0, None), Slot(1, None)] && s.head == s.tail == 0
    requires s.consumer.Parked? && s.log == [] && s.popped == [] && s.dispatched == [] && s.Pc(1).Idle?
    ensures SleepsOn(s, s') && s'.Pc(1).Idle? && s'.cells == [Slot(2, None), Slot(1, None)]
    ensures s'.head == s'.tail == 1 && s'.consumer.ReadHead?
    ensures s'.log == [(1, b)] && s'.popped == [b] && s'.dispatched == [b]
  {
    s' := PushNext(s, b);
    RunsOn(2, 2, s', Consumer);
    s' := Next(Bits(2), s', Consumer);
    s' := PopNext(s', b);
  }

  /**
   A run in which sleeping too long goes wrong: a two-slot ring with two-bit counters is empty, and
   the producer that slept through one push and one pop is told it is full.
   */
  lemma RefusedOnEmptyRing<V(!new)>(a: V, b: V) returns (s: State<V>)
    ensures RunsTo(2, 2, s) && s.Cap() == 2
    ensures s.head == s.tail && s.dispatched == Values(s.log) && NoneMidPush(s)
    ensures s.Returned(0) == [(a, false)]
  {
    var start := FallsAsleep(a);
    var lapped := OneLapped(start, b);
    s := RefusedNext(lapped, a);
    NobodyElse(start, lapped, s);
  }

  /** The sleeper's load of its slot. */
  lemma RefusedNext<V(!new)>(s: State<V>, a: V) returns (s': State<V>)
    requires RunsTo(2, 2, s) && s.Cap() == 2 && s.Pc(0) == LoadSeq(a, 0) && s.At(0).seqNo == 2
    ensures RunsTo(2, 2, s') && s' == s.Answer(0, a, false).Goto(0, Idle)
  {
    TwoBits();
    assert SignedDiff(Bits(2), 2, 0) == -2;
    RunsOn(2, 2, s, Producer(0, false));
    s' := Next(Bits(2), s, Producer(0, false));
  }

  lemma NobodyElse<V(!new)>(start: State<V>, lapped: State<V>, s: State<V>)
    requires start.producers.Keys == {0} && SleepsOn(start, lapped) && lapped.Pc(1).Idle?
    requires s.producers == lapped.producers[0 := Idle]
    ensures NoneMidPush(s)
  {
    forall i: ProducerId
      ensures !Claimed(s.Pc(i))
    {
      assert i > 0 ==> s.Pc(i) == lapped.Pc(i);
      assert i > 1 ==> lapped.Pc(i) == start.Pc(i);
    }
  }

  /** Another value, and then the ring is filled: four claims, a whole counter range. */
  lemma RangeLapped<V(!new)>(s: State<V>, c: V, d: V, e: V) returns (s': State<V>)
    requires RunsTo(2, 2, s) && s.cells == [Slot(2, None), Slot(1, None)] && s.head == s.tail == 1
    requires s.consumer.ReadHead? && s.Pc(1).Idle?
    ensures SleepsOn(s, s') && s'.cells == [Slot(3, Some(d)), Slot(0, Some(e))]
    ensures s'.tail == 0 && s'.popped == s.popped + [c]
  {
    s' := PushNext(s, c);
    s' := PopNext(s', c);
    assert s'.cells == [Slot(2, None), Slot(3, None)];
    s' := Fill(s', d, e);
  }

  lemma Fill<V(!new)>(s: State<V>, d: V, e: V) returns (s': State<V>)
    requires RunsTo(2, 2, s) && s.cells == [Slot(2, None), Slot(3, None)] && s.tail == 2 && s.Pc(1).Idle?
    ensures SleepsOn(s, s') && s'.cells == [Slot(3, Some(d)), Slot(0, Some(e))] && s'.tail == 0 && s'.popped == s.popped
  {
    s' := PushNext(s, d);
    assert s'.cells == [Slot(3, Some(d)), Slot(3, None)];
    s' := PushNext(s', e);
  }

  /**
   A run in which a stale claim goes through: the tail has come round to the sleeping producer's, the
   ring is full, and the producer is about to overwrite a value nobody has read.
   */
  lemma StaleClaimOverwrites<V(!new)>(a: V, b: V, c: V, d: V, e: V) returns (s: State<V>)
    ensures RunsTo(2, 2, s) && s.Cap() == 2 && s.popped == [b, c]
    ensures s.Pc(0) == WriteSlot(a, 0) && s.At(0).val == Some(d)
  {
    s := FallsAsleep(a);
    NoDiff(0);
    RunsOn(2, 2, s, Producer(0, false));
    s := Next(Bits(2), s, Producer(0, false));
    assert s.Pc(0) == Cas(a, 0);
    s := OneLapped(s, b);
    s := RangeLapped(s, c, d, e);
    RunsOn(2, 2, s, Producer(0, false));
    s := Next(Bits(2), s, Producer(0, false));
  }
}
