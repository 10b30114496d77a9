/** What a push answers when its producer is the only one to move, from every state a run can reach. */
module InboxPush {
  import opened Wrappers
  import opened Inbox
  import opened InboxInvariant
  import opened InboxSteps

  /** Up to n steps of one producer, with nobody else moving. */
  function Alone<V>(s: State<V>, i: ProducerId, n: nat): State<V>
    decreases n
  {
    if n == 0 || s.Cap() == 0 || s.Pc(i).Idle? then s else Alone(NextProducer(Unbounded, s, i, false), i, n - 1)
  }

  lemma OneStep<V>(s: State<V>, i: ProducerId, n: nat)
    requires s.Cap() > 0 && !s.Pc(i).Idle? && n > 0
    ensures Alone(s, i, n) == Alone(NextProducer(Unbounded, s, i, false), i, n - 1)
  {
  }

  /** Nothing of the consumer or of another producer has changed. */
  ghost predicate OthersSame<V>(s: State<V>, s': State<V>, i: ProducerId) {
    && s'.head == s.head && s'.consumer == s.consumer && s'.popped == s.popped && s'.dispatched == s.dispatched
    && forall a: ProducerId | a != i :: s'.Pc(a) == s.Pc(a) && s'.Returned(a) == s.Returned(a)
  }

  lemma OthersStill<V>(s: State<V>, s1: State<V>, s2: State<V>, i: ProducerId)
    requires OthersSame(s, s1, i) && OthersSame(s1, s2, i)
    ensures OthersSame(s, s2, i)
  {
    forall a: ProducerId | a != i
      ensures s2.Pc(a) == s.Pc(a) && s2.Returned(a) == s.Returned(a)
    {
      assert s1.Pc(a) == s.Pc(a) && s1.Returned(a) == s.Returned(a);
    }
  }

  /** The two loads: the slot of the tail is free, or holds a position a whole capacity back. */
  lemma Loads<V>(s: State<V>, i: ProducerId, v: V) returns (s': State<V>)
    requires Inv(s) && s.Pc(i).Idle?
    ensures Alone(Next(Unbounded, s, Begin(i, v)), i, 7) == Alone(s', i, 5)
    ensures s'.cells == s.cells && s'.tail == s.tail && s'.log == s.log && s'.eventfd == s.eventfd
    ensures OthersSame(s, s', i)
    ensures s.tail < Freed(s) + s.Cap() ==> s'.Pc(i) == Cas(v, s.tail) && s'.Returned(i) == s.Returned(i)
    ensures s.tail >= Freed(s) + s.Cap() ==> s'.Pc(i).Idle? && s'.Returned(i) == s.Returned(i) + [(v, false)]
  {
    var s1 := Next(Unbounded, s, Begin(i, v));
    OneStep(s1, i, 7);
    var s2 := NextProducer(Unbounded, s1, i, false);
    assert s2.Pc(i) == LoadSeq(v, s.tail);
    OneStep(s2, i, 6);
    s' := NextProducer(Unbounded, s2, i, false);
    var p := SlotReading(s, s.tail);
    assert s2.At(s.tail) == s.At(s.tail);
  }

  /** The claim and the two stores that follow it. */
  lemma Stores<V>(s: State<V>, i: ProducerId, v: V) returns (s': State<V>)
    requires s.Cap() > 0 && s.Pc(i) == Cas(v, s.tail)
    ensures Alone(s, i, 5) == Alone(s', i, 2)
    ensures s'.cells == s.cells[s.tail % s.Cap() := Slot(s.tail + 1, Some(v))]
    ensures s'.tail == s.tail + 1 && s'.log == s.log + [(i, v)]
    ensures s'.eventfd == s.eventfd && s'.Pc(i) == LoadHead(v, s.tail) && s'.Returned(i) == s.Returned(i)
    ensures OthersSame(s, s', i)
  {
    var t := s.tail;
    OneStep(s, i, 5);
    var s1 := NextProducer(Unbounded, s, i, false);
    assert s1.Pc(i) == WriteSlot(v, t);
    OneStep(s1, i, 4);
    var s2 := NextProducer(Unbounded, s1, i, false);
    assert s2.Pc(i) == PublishSlot(v, t);
    OneStep(s2, i, 3);
    s' := NextProducer(Unbounded, s2, i, false);
  }

  /** The answer, and a wake iff the consumer has nothing else before this. */
  lemma Answers<V>(s: State<V>, i: ProducerId, v: V, t: nat) returns (s': State<V>)
    requires s.Cap() > 0 && s.Pc(i) == LoadHead(v, t)
    ensures Alone(s, i, 2) == s' && s'.Pc(i).Idle?
    ensures s'.Returned(i) == s.Returned(i) + [(v, true)]
    ensures s'.eventfd == s.eventfd + if s.head == t then 1 else 0
    ensures s'.cells == s.cells && s'.tail == s.tail && s'.log == s.log
    ensures OthersSame(s, s', i)
  {
    OneStep(s, i, 2);
    s' := NextProducer(Unbounded, s, i, false);
    if s.head == t {
      OneStep(s', i, 1);
      s' := NextProducer(Unbounded, s', i, false);
    }
  }

  /** v is claimed and published at the tail, and a wake sent iff the inbox was empty. */
  ghost predicate Pushed<V>(s: State<V>, s': State<V>, i: ProducerId, v: V)
    requires s.Cap() > 0
  {
    && s'.cells == s.cells[s.tail % s.Cap() := Slot(s.tail + 1, Some(v))]
    && s'.tail == s.tail + 1 && s'.log == s.log + [(i, v)]
    && s'.eventfd == s.eventfd + if s.head == s.tail then 1 else 0
  }

  lemma Publishes<V>(s: State<V>, s1: State<V>, i: ProducerId, v: V)
    requires s.Cap() > 0 && s1.Pc(i) == Cas(v, s1.tail) && s1.Returned(i) == s.Returned(i) && OthersSame(s, s1, i)
    requires s1.cells == s.cells && s1.tail == s.tail && s1.log == s.log && s1.eventfd == s.eventfd
    ensures var s' := Alone(s1, i, 5);
            && s'.Pc(i).Idle? && s'.Returned(i) == s.Returned(i) + [(v, true)]
            && Pushed(s, s', i, v) && OthersSame(s, s', i)
  {
    var s2 := Stores(s1, i, v);
    var s3 := Answers(s2, i, v, s.tail);
    OthersStill(s, s1, s2, i);
    OthersStill(s, s2, s3, i);
  }

  /**
   A push by itself always answers, from every reachable state and wherever the others have stopped:
   within seven steps, Ok if fewer than `cap` positions are claimed and not freed, and then the value
   is published at the tail and a wake sent iff the inbox was empty; Full otherwise, with nothing
   changed.
   */
  lemma PushAnswers<V(!new)>(cap: nat, s: State<V>, i: ProducerId, v: V)
    requires cap >= 2 && Reachable(cap, s) && s.Pc(i).Idle?
    ensures s.Cap() == cap
    ensures var s' := Alone(Next(Unbounded, s, Begin(i, v)), i, 7);
            && s'.Pc(i).Idle?
            && s'.Returned(i) == s.Returned(i) + [(v, s.tail < Freed(s) + cap)]
            && OthersSame(s, s', i)
            && if s.tail < Freed(s) + cap then Pushed(s, s', i, v)
               else s'.cells == s.cells && s'.tail == s.tail && s'.log == s.log && s'.eventfd == s.eventfd
  {
    ReachableInv(cap, s);
    var s1 := Loads(s, i, v);
    if s.tail < Freed(s) + cap {
      Publishes(s, s1, i, v);
    }
  }
}
