/**
 When the eventfd is written, compared with what pops return.  A push that found the ring empty owes a
 wake; the design wants that wake written before any later pop comes back with nothing.
 */
module WakeOrder {
  import opened Wrappers
  import opened Inbox
  import opened InboxInvariant
  import opened InboxSteps
  import opened InboxTheorems

  /** Producer i owes a wake: it found its own position at the head. */
  predicate Owes<V>(s: State<V>, i: ProducerId) {
    s.Pc(i).Wake?
  }

  ghost predicate OwedAt<V>(s: State<V>, i: ProducerId) {
    Owes(s, i) ==> s.Pc(i).t <= s.head && s.Pc(i).t < |s.log| && s.log[s.Pc(i).t] == (i, s.Pc(i).v)
  }

  /** A wake is owed for a position the head has reached. */
  ghost predicate OwedOk<V>(s: State<V>) {
    forall i: ProducerId :: OwedAt(s, i)
  }

  lemma ProducerOwed<V>(s: State<V>, j: ProducerId, spurious: bool, i: ProducerId)
    requires Inv(s) && OwedAt(s, i) && !s.Pc(j).Idle?
    ensures OwedAt(NextProducer(Unbounded, s, j, spurious), i)
  {
    assert ProducerOk(s, j);
  }

  lemma StepOwed<V>(s: State<V>, step: Step<V>, i: ProducerId)
    requires Inv(s) && OwedAt(s, i) && Enabled(s, step)
    ensures OwedAt(Next(Unbounded, s, step), i)
  {
    match step
    case Begin(_, _) =>
    case Producer(j, spurious) => ProducerOwed(s, j, spurious, i);
    case Consumer =>
  }

  lemma {:induction false} AlwaysOwed<V>(cap: nat, schedule: seq<Step<V>>, i: ProducerId)
    requires cap >= 2
    ensures OwedAt(Exec(Unbounded, cap, schedule), i)
  {
    if schedule != [] {
      var before := schedule[..|schedule| - 1];
      AlwaysOwed(cap, before, i);
      Always(cap, before);
      var s, step := Exec(Unbounded, cap, before), schedule[|schedule| - 1];
      if Enabled(s, step) {
        StepOwed(s, step, i);
      }
    }
  }

  /** The drain task is about to look at the head, and its pop comes back with nothing. */
  predicate FindsNothing<V>(s: State<V>) {
    s.Cap() > 0 && s.consumer.ReadSeq? && NextConsumer(Unbounded, s).consumer.Parked?
  }

  /**
   Exactly when a pop returns nothing while producer i owes a wake: when the head has passed the
   position that wake is for and the position at the head is not published yet.
   */
  lemma NothingWhileOwed<V(!new)>(cap: nat, s: State<V>, i: ProducerId)
    requires cap >= 2 && Reachable(cap, s) && s.consumer.ReadSeq? && Owes(s, i)
    ensures FindsNothing(s) <==> s.Pc(i).t < s.head && (s.head == s.tail || UnpublishedAt(s, s.head))
  {
    ReachableInv(cap, s);
    var schedule: seq<Step<V>> :| s == Exec(Unbounded, cap, schedule);
    AlwaysOwed(cap, schedule, i);
    assert CellOk(s, s.head);
    if s.head < s.tail {
      assert ProducerOk(s, s.log[s.head].0);
    }
  }

  /**
   So no pop returns nothing between the moment a push finds the ring empty and its wake, as long as
   its frame is in the ring; a wake still owed then is for a frame that has been popped.
   */
  lemma OwedIsPopped<V(!new)>(cap: nat, s: State<V>, i: ProducerId)
    requires cap >= 2 && Reachable(cap, s) && FindsNothing(s) && Owes(s, i)
    ensures s.Pc(i).t < |s.popped| && s.popped[s.Pc(i).t] == s.Pc(i).v && s.dispatched == s.popped
  {
    ReachableInv(cap, s);
    NothingWhileOwed(cap, s, i);
    var schedule: seq<Step<V>> :| s == Exec(Unbounded, cap, schedule);
    AlwaysOwed(cap, schedule, i);
  }

  // ------------------------------------------------------------- a failing run

  /** A producer enters the empty ring, ... */
  lemma Enters<V(!new)>(a: V, b: V) returns (s: State<V>)
    ensures Reachable(2, s)
    ensures s == State([Slot(0, None), Slot(1, None)], 0, 0, 0, map[0 := LoadSeq(a, 0)], Parked, [], [], [], map[])
  {
    s := Init(2);
    assert Exec<V>(Unbounded, 2, []) == s;
    assert s.cells == [Slot(0, None), Slot(1, None)];
    ReachableStep(2, s, Begin(0, a));
    s := Next(Unbounded, s, Begin(0, a));
    ReachableStep(2, s, Producer(0, false));
    s := Next(Unbounded, s, Producer(0, false));
    assert s.producers == map[0 := LoadSeq(a, 0)];
  }

  /** ... claims the first position, ... */
  lemma Claims<V(!new)>(a: V, b: V) returns (s: State<V>)
    ensures Reachable(2, s)
    ensures s == State([Slot(0, None), Slot(1, None)], 0, 1, 0, map[0 := WriteSlot(a, 0)], Parked, [(0, a)], [], [], map[])
  {
    s := Enters(a, b);
    ReachableStep(2, s, Producer(0, false));
    s := Next(Unbounded, s, Producer(0, false));
    ReachableStep(2, s, Producer(0, false));
    s := Next(Unbounded, s, Producer(0, false));
    assert s.producers == map[0 := WriteSlot(a, 0)];
  }

  /** ... publishes its value ... */
  lemma Publishes<V(!new)>(a: V, b: V) returns (s: State<V>)
    ensures Reachable(2, s)
    ensures s == State([Slot(1, Some(a)), Slot(1, None)], 0, 1, 0, map[0 := LoadHead(a, 0)], Parked, [(0, a)], [], [], map[])
  {
    s := Claims(a, b);
    ReachableStep(2, s, Producer(0, false));
    s := Next(Unbounded, s, Producer(0, false));
    assert s.cells == [Slot(0, Some(a)), Slot(1, None)];
    ReachableStep(2, s, Producer(0, false));
    s := Next(Unbounded, s, Producer(0, false));
    assert s.cells == [Slot(1, Some(a)), Slot(1, None)];
    assert s.producers == map[0 := LoadHead(a, 0)];
  }

  /** ... and wakes the drain task, ... */
  lemma Wakes<V(!new)>(a: V, b: V) returns (s: State<V>)
    ensures Reachable(2, s)
    ensures s == State([Slot(1, Some(a)), Slot(1, None)], 0, 1, 1, map[0 := Idle], Parked, [(0, a)], [], [], map[0 := [(a, true)]])
  {
    s := Publishes(a, b);
    assert s.Returned(0) + [(a, true)] == [(a, true)];
    ReachableStep(2, s, Producer(0, false));
    s := Next(Unbounded, s, Producer(0, false));
    assert s.returned == map[0 := [(a, true)]];
    ReachableStep(2, s, Producer(0, false));
    s := Next(Unbounded, s, Producer(0, false));
    assert s.producers == map[0 := Idle];
  }

  /** ... which looks at the head, ... */
  lemma Looks<V(!new)>(a: V, b: V) returns (s: State<V>)
    ensures Reachable(2, s)
    ensures s == State([Slot(1, Some(a)), Slot(1, None)], 0, 1, 0, map[0 := Idle], ReadSlot(0), [(0, a)], [], [], map[0 := [(a, true)]])
  {
    s := Wakes(a, b);
    ReachableStep(2, s, Consumer);
    s := Next(Unbounded, s, Consumer);
    ReachableStep(2, s, Consumer);
    s := Next(Unbounded, s, Consumer);
    ReachableStep(2, s, Consumer);
    s := Next(Unbounded, s, Consumer);
  }

  /** ... takes the value ... */
  lemma Takes<V(!new)>(a: V, b: V) returns (s: State<V>)
    ensures Reachable(2, s)
    ensures s == State([Slot(2, None), Slot(1, None)], 0, 1, 0, map[0 := Idle], StoreHead(0, a), [(0, a)], [a], [], map[0 := [(a, true)]])
  {
    s := Looks(a, b);
    ReachableStep(2, s, Consumer);
    s := Next(Unbounded, s, Consumer);
    assert s.cells == [Slot(1, None), Slot(1, None)];
    ReachableStep(2, s, Consumer);
    s := Next(Unbounded, s, Consumer);
    assert s.cells == [Slot(2, None), Slot(1, None)];
  }

  /** ... and dispatches it. */
  lemma Dispatches<V(!new)>(a: V, b: V) returns (s: State<V>)
    ensures Reachable(2, s)
    ensures s == State([Slot(2, None), Slot(1, None)], 1, 1, 0, map[0 := Idle], ReadHead, [(0, a)], [a], [a], map[0 := [(a, true)]])
  {
    s := Takes(a, b);
    ReachableStep(2, s, Consumer);
    s := Next(Unbounded, s, Consumer);
    ReachableStep(2, s, Consumer);
    s := Next(Unbounded, s, Consumer);
  }

  /** It is still awake when the producer comes back, ... */
  lemma EntersAgain<V(!new)>(a: V, b: V) returns (s: State<V>)
    ensures Reachable(2, s)
    ensures s == State([Slot(2, None), Slot(1, None)], 1, 1, 0, map[0 := LoadSeq(b, 1)], ReadHead, [(0, a)], [a], [a], map[0 := [(a, true)]])
  {
    s := Dispatches(a, b);
    ReachableStep(2, s, Begin(0, b));
    s := Next(Unbounded, s, Begin(0, b));
    ReachableStep(2, s, Producer(0, false));
    s := Next(Unbounded, s, Producer(0, false));
    assert s.producers == map[0 := LoadSeq(b, 1)];
  }

  /** ... claims the next position, ... */
  lemma ClaimsAgain<V(!new)>(a: V, b: V) returns (s: State<V>)
    ensures Reachable(2, s)
    ensures s == State([Slot(2, None), Slot(1, None)], 1, 2, 0, map[0 := WriteSlot(b, 1)], ReadHead, [(0, a), (0, b)], [a], [a], map[0 := [(a, true)]])
  {
    s := EntersAgain(a, b);
    ReachableStep(2, s, Producer(0, false));
    s := Next(Unbounded, s, Producer(0, false));
    ReachableStep(2, s, Producer(0, false));
    s := Next(Unbounded, s, Producer(0, false));
    assert s.producers == map[0 := WriteSlot(b, 1)];
  }

  /** ... publishes, ... */
  lemma PublishesAgain<V(!new)>(a: V, b: V) returns (s: State<V>)
    ensures Reachable(2, s)
    ensures s == State([Slot(2, None), Slot(2, Some(b))], 1, 2, 0, map[0 := LoadHead(b, 1)], ReadHead, [(0, a), (0, b)], [a], [a], map[0 := [(a, true)]])
  {
    s := ClaimsAgain(a, b);
    ReachableStep(2, s, Producer(0, false));
    s := Next(Unbounded, s, Producer(0, false));
    assert s.cells == [Slot(2, None), Slot(1, Some(b))];
    ReachableStep(2, s, Producer(0, false));
    s := Next(Unbounded, s, Producer(0, false));
    assert s.cells == [Slot(2, None), Slot(2, Some(b))];
    assert s.producers == map[0 := LoadHead(b, 1)];
  }

  /** ... finds its position at the head and owes a wake. */
  lemma FindsItEmpty<V(!new)>(a: V, b: V) returns (s: State<V>)
    ensures Reachable(2, s)
    ensures s == State([Slot(2, None), Slot(2, Some(b))], 1, 2, 0, map[0 := Wake(b, 1)], ReadHead, [(0, a), (0, b)], [a], [a], map[0 := [(a, true), (b, true)]])
  {
    s := PublishesAgain(a, b);
    assert s.Returned(0) + [(b, true)] == [(a, true), (b, true)];
    ReachableStep(2, s, Producer(0, false));
    s := Next(Unbounded, s, Producer(0, false));
    assert s.returned == map[0 := [(a, true), (b, true)]];
    assert s.producers == map[0 := Wake(b, 1)];
  }

  /** Meanwhile the drain task looks, ... */
  lemma LooksAgain<V(!new)>(a: V, b: V) returns (s: State<V>)
    ensures Reachable(2, s)
    ensures s == State([Slot(2, None), Slot(2, Some(b))], 1, 2, 0, map[0 := Wake(b, 1)], ReadSlot(1), [(0, a), (0, b)], [a], [a], map[0 := [(a, true), (b, true)]])
  {
    s := FindsItEmpty(a, b);
    ReachableStep(2, s, Consumer);
    s := Next(Unbounded, s, Consumer);
    ReachableStep(2, s, Consumer);
    s := Next(Unbounded, s, Consumer);
  }

  /** ... takes the second value, ... */
  lemma TakesAgain<V(!new)>(a: V, b: V) returns (s: State<V>)
    ensures Reachable(2, s)
    ensures s == State([Slot(2, None), Slot(3, None)], 1, 2, 0, map[0 := Wake(b, 1)], StoreHead(1, b), [(0, a), (0, b)], [a, b], [a], map[0 := [(a, true), (b, true)]])
  {
    s := LooksAgain(a, b);
    ReachableStep(2, s, Consumer);
    s := Next(Unbounded, s, Consumer);
    assert s.cells == [Slot(2, None), Slot(2, None)];
    ReachableStep(2, s, Consumer);
    s := Next(Unbounded, s, Consumer);
    assert s.cells == [Slot(2, None), Slot(3, None)];
  }

  /** ... dispatches it ... */
  lemma DispatchesAgain<V(!new)>(a: V, b: V) returns (s: State<V>)
    ensures Reachable(2, s)
    ensures s == State([Slot(2, None), Slot(3, None)], 2, 2, 0, map[0 := Wake(b, 1)], ReadHead, [(0, a), (0, b)], [a, b], [a, b], map[0 := [(a, true), (b, true)]])
  {
    s := TakesAgain(a, b);
    ReachableStep(2, s, Consumer);
    s := Next(Unbounded, s, Consumer);
    ReachableStep(2, s, Consumer);
    s := Next(Unbounded, s, Consumer);
  }

  /**
   A run that breaks the promise: the drain task is awake, a producer publishes at the head and owes
   a wake, its value is popped, and the next pop returns nothing while the wake is still owed.
   */
  lemma NothingBeforeWake<V(!new)>(a: V, b: V) returns (s: State<V>)
    ensures Reachable(2, s) && FindsNothing(s) && Owes(s, 0)
  {
    s := DispatchesAgain(a, b);
    ReachableStep(2, s, Consumer);
    s := Next(Unbounded, s, Consumer);
  }
}
