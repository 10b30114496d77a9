/** What the inbox promises, in every state any schedule of producers and the drain task reaches. */
module InboxTheorems {
  import opened Wrappers
  import opened Inbox
  import opened InboxInvariant
  import opened InboxSteps
  import opened Arith

  // ------------------------------------------------------------- ring safety

  /**
   Nothing lost, duplicated or reordered: what came out of the slots, and what was dispatched,
   are prefixes of the claim order; the ring never holds more than `cap` claims, or `cap + 1`
   counted from `head` while the consumer is between its two stores.
   */
  lemma FifoPrefix<V(!new)>(cap: nat, s: State<V>)
    requires cap >= 2 && Reachable(cap, s)
    ensures s.popped <= Values(s.log)
    ensures s.dispatched + InHand(s.consumer) == s.popped
    ensures s.tail == |s.log|
    ensures s.head <= s.tail <= s.head + cap + (if s.consumer.StoreHead? then 1 else 0)
  {
    ReachableInv(cap, s);
  }

  /** Claims are never rewritten: no step shortens one of the three histories or changes what is in it. */
  lemma HistoriesGrow<V>(s: State<V>, step: Step<V>)
    requires Enabled(s, step)
    ensures var s' := Next(Unbounded, s, step);
            s.log <= s'.log && s.popped <= s'.popped && s.dispatched <= s'.dispatched
  {
  }

  ghost predicate Writing<V>(pc: ProducerPc<V>) {
    pc.WriteSlot? || pc.PublishSlot?
  }

  /**
   One writer per position and per slot: whoever is writing position t is the producer that
   claimed t, it writes into an empty slot, and no one else is writing the same slot.
   */
  lemma OneWriter<V(!new)>(cap: nat, s: State<V>, i: ProducerId, j: ProducerId)
    requires cap >= 2 && Reachable(cap, s) && Writing(s.Pc(i))
    ensures s.Pc(i).t < |s.log| && s.log[s.Pc(i).t] == (i, s.Pc(i).v)
    ensures s.Pc(i).WriteSlot? ==> s.Cap() > 0 && s.At(s.Pc(i).t).val == None
    ensures Writing(s.Pc(j)) && s.Pc(j).t % cap == s.Pc(i).t % cap ==> i == j
  {
    ReachableInv(cap, s);
    assert ProducerOk(s, i) && ProducerOk(s, j);
    if Writing(s.Pc(j)) && s.Pc(j).t % cap == s.Pc(i).t % cap {
      ModUnique(s.Pc(i).t, s.Pc(j).t, cap);
    }
  }

  /**
   Reads see published values: the slot the consumer is about to read holds exactly the value
   logged at `head`, published, and no producer is writing that slot or has reclaimed it.
   */
  lemma ReadsPublished<V(!new)>(cap: nat, s: State<V>, i: ProducerId)
    requires cap >= 2 && Reachable(cap, s) && s.consumer.ReadSlot?
    ensures s.head < |s.log| && s.Cap() > 0
    ensures s.At(s.consumer.h) == Slot(s.head + 1, Some(s.log[s.head].1))
    ensures Writing(s.Pc(i)) ==> s.Pc(i).t % cap != s.consumer.h % cap
    ensures |s.log| <= s.head + cap
  {
    ReachableInv(cap, s);
    ReadSlotKeeps(s);
    assert ProducerOk(s, i);
    if Writing(s.Pc(i)) && s.Pc(i).t % cap == s.head % cap {
      ModUnique(s.Pc(i).t, s.head, cap);
    }
  }

  /** The drain task only ever waits for the eventfd: it is never asked to read an empty slot. */
  lemma ConsumerNeverStuck<V(!new)>(cap: nat, s: State<V>)
    requires cap >= 2 && Reachable(cap, s)
    ensures Enabled(s, Consumer) <==> !(s.consumer.Parked? && s.eventfd == 0)
  {
    ReachableInv(cap, s);
    if s.consumer.ReadSlot? {
      ReadSlotKeeps(s);
    }
  }

  // ----------------------------------------------------------- back-pressure

  /** Position t is claimed and its value is not published yet. */
  ghost predicate UnpublishedAt<V>(s: State<V>, t: nat) {
    t < |s.log| && var pc := s.Pc(s.log[t].0); Writing(pc) && pc.t == t
  }

  /**
   `push` answers Full exactly when, at the instant of its `seq` load, the local tail is current
   and exactly `cap` claimed positions are unfreed; a stale tail is never a reason for Full.  It
   tries to claim exactly when the slot looks free: the position is unclaimed and free, or another
   producer has claimed it without publishing (and then the compare-exchange fails).
   */
  lemma FullExactly<V(!new)>(cap: nat, s: State<V>, i: ProducerId)
    requires cap >= 2 && Reachable(cap, s) && s.Pc(i).LoadSeq? && s.Cap() > 0
    ensures var t, s' := s.Pc(i).t, NextProducer(Unbounded, s, i, false);
            && (s'.Pc(i).Idle? <==> t == s.tail == Freed(s) + cap)
            && (s'.Pc(i).Cas? <==> t == s.tail < Freed(s) + cap || (t >= Freed(s) && UnpublishedAt(s, t)))
            && (s'.Pc(i).Idle? ==> s'.Returned(i) == s.Returned(i) + [(s.Pc(i).v, false)])
            && (!s'.Pc(i).Idle? ==> s'.returned == s.returned)
  {
    ReachableInv(cap, s);
    assert ProducerOk(s, i);
    var p := SlotReading(s, s.Pc(i).t);
    if s.Pc(i).t < s.tail {
      assert ProducerOk(s, s.log[s.Pc(i).t].0);
    }
  }

  // --------------------------------------------------------------- wake-ups

  /** No producer is between its claim and the end of the wake it may owe. */
  ghost predicate NoneMidPush<V>(s: State<V>) {
    forall i: ProducerId :: !Claimed(s.Pc(i))
  }

  ghost predicate Asleep<V>(s: State<V>) {
    s.consumer.Parked? && s.eventfd == 0
  }

  /** While the drain task sleeps, the producer of an undispatched front still owes its wake. */
  lemma FrontMidPush<V>(s: State<V>)
    requires Inv(s) && Asleep(s) && s.head < s.tail
    ensures !NoneMidPush(s)
  {
    assert Claimed(s.Pc(s.log[s.head].0));
  }

  lemma AsleepMeansDone<V>(s: State<V>)
    requires Inv(s) && Asleep(s) && NoneMidPush(s)
    ensures s.dispatched == Values(s.log) && s.head == s.tail
  {
    if s.head < s.tail {
      FrontMidPush(s);
    }
    assert s.log[..s.head] == s.log;
  }

  /**
   No stranded frame: when the drain task is parked on an empty eventfd and no producer is
   mid-push, everything ever accepted has been dispatched, in claim order.
   */
  lemma NoStrandedFrame<V(!new)>(cap: nat, s: State<V>)
    requires cap >= 2 && Reachable(cap, s) && Asleep(s) && NoneMidPush(s)
    ensures s.dispatched == Values(s.log)
  {
    ReachableInv(cap, s);
    AsleepMeansDone(s);
  }

  /** Consumer steps still to come before the drain task parks on an empty eventfd. */
  function Work<V>(s: State<V>): int {
    var left := 6 * (s.tail - s.head);
    var kicks := if s.eventfd > 0 then 4 else 0;
    kicks + match s.consumer
            case Parked => left
            case ReadHead => left + 2
            case ReadSeq(_) => left + 1
            case ReadSlot(_) => left
            case FreeSlot(_, _) => left - 1
            case StoreHead(_, _) => left - 2
            case Dispatch(_) => left + 3
  }

  lemma WorkShrinks<V>(s: State<V>)
    requires Inv(s) && NoneMidPush(s) && Enabled(s, Consumer)
    ensures var s' := NextConsumer(Unbounded, s);
            Inv(s') && NoneMidPush(s') && s'.log == s.log && 0 <= Work(s') < Work(s)
  {
    ConsumerKeeps(s);
    var s' := NextConsumer(Unbounded, s);
    assert forall i: ProducerId :: s'.Pc(i) == s.Pc(i);
    if s.consumer.ReadSeq? && s.head < s.tail {
      assert !Claimed(s.Pc(s.log[s.head].0));
      assert CellOk(s, s.head);
    }
  }

  /** n turns of the drain task with no producer stepping. */
  function Drain<V>(s: State<V>, n: nat): State<V>
    decreases n
  {
    if n == 0 then s
    else if Enabled(s, Consumer) then Drain(NextConsumer(Unbounded, s), n - 1)
    else s
  }

  lemma {:induction false} DrainFrom<V>(s: State<V>, n: nat)
    requires Inv(s) && NoneMidPush(s) && n >= Work(s)
    ensures Asleep(Drain(s, n)) && Drain(s, n).dispatched == Values(s.log)
    decreases n
  {
    if s.consumer.ReadSlot? {
      ReadSlotKeeps(s);
    }
    if Enabled(s, Consumer) {
      WorkShrinks(s);
      DrainFrom(NextConsumer(Unbounded, s), n - 1);
    } else {
      AsleepMeansDone(s);
    }
  }

  /**
   The drain loop terminates and leaves nothing behind: once producers are between pushes, running
   the drain task alone parks it on an empty eventfd with every accepted frame dispatched.
   */
  lemma DrainEmpties<V(!new)>(cap: nat, s: State<V>, n: nat)
    requires cap >= 2 && Reachable(cap, s) && NoneMidPush(s)
    requires n >= 6 * (s.tail - s.head) + 7
    ensures Asleep(Drain(s, n)) && Drain(s, n).dispatched == Values(s.log)
  {
    ReachableInv(cap, s);
    DrainFrom(s, n);
  }

  // ------------------------------------------------------------ the capacity

  lemma EnterAlone<V(!new)>(a: V) returns (s: State<V>)
    ensures Reachable(1, s) && s == State([Slot(0, None)], 0, 0, 0, map[0 := LoadSeq(a, 0)], Parked, [], [], [], map[])
  {
    s := Init(1);
    assert Exec<V>(Unbounded, 1, []) == s;
    ReachableStep(1, s, Begin(0, a));
    s := Next(Unbounded, s, Begin(0, a));
    ReachableStep(1, s, Producer(0, false));
    s := Next(Unbounded, s, Producer(0, false));
  }

  lemma ClaimAlone<V(!new)>(a: V) returns (s: State<V>)
    ensures Reachable(1, s) && s.cells == [Slot(0, None)] && s.tail == 1 && s.head == 0 && s.popped == []
    ensures s.producers == map[0 := WriteSlot(a, 0)]
  {
    s := EnterAlone(a);
    ReachableStep(1, s, Producer(0, false));
    s := Next(Unbounded, s, Producer(0, false));
    ReachableStep(1, s, Producer(0, false));
    s := Next(Unbounded, s, Producer(0, false));
  }

  lemma WriteAlone<V(!new)>(a: V) returns (s: State<V>)
    ensures Reachable(1, s) && s.cells == [Slot(0, Some(a))] && s.tail == 1 && s.head == 0 && s.popped == []
    ensures s.producers == map[0 := PublishSlot(a, 0)]
  {
    s := ClaimAlone(a);
    ReachableStep(1, s, Producer(0, false));
    s := Next(Unbounded, s, Producer(0, false));
  }

  lemma PushAlone<V(!new)>(a: V) returns (s: State<V>)
    ensures Reachable(1, s) && s.cells == [Slot(1, Some(a))] && s.tail == 1 && s.head == 0 && s.popped == []
    ensures s.producers == map[0 := LoadHead(a, 0)]
  {
    s := WriteAlone(a);
    ReachableStep(1, s, Producer(0, false));
    s := Next(Unbounded, s, Producer(0, false));
  }

  /**
   Why the capacity is at least 2: with one slot, "published at position 0" and "free for position 1"
   are the same number, and a second producer is let through to overwrite a value nobody has read.
   */
  lemma CapacityOneOverwrites<V(!new)>(a: V, b: V) returns (s: State<V>)
    ensures Reachable(1, s) && s.popped == []
    ensures s.Pc(1) == WriteSlot(b, 1) && s.Cap() == 1 && s.At(1).val == Some(a)
  {
    s := PushAlone(a);
    ReachableStep(1, s, Begin(1, b));
    s := Next(Unbounded, s, Begin(1, b));
    ReachableStep(1, s, Producer(1, false));
    s := Next(Unbounded, s, Producer(1, false));
    ReachableStep(1, s, Producer(1, false));
    s := Next(Unbounded, s, Producer(1, false));
    ReachableStep(1, s, Producer(1, false));
    s := Next(Unbounded, s, Producer(1, false));
  }
}
