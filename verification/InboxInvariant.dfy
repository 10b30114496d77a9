/**
 The inductive invariant of the inbox machine with unbounded counters.

 Positions, not slots, are the unit of reasoning: position p lives in slot p % cap, and at any
 moment the slots hold exactly the window of positions [Freed, Freed + cap).  `Freed` runs one
 ahead of `head` between the consumer's two stores, because the slot is handed back first.
 */
module InboxInvariant {
  import opened Wrappers
  import opened Inbox
  import opened Arith

  function Freed<V>(s: State<V>): nat {
    if s.consumer.StoreHead? then s.head + 1 else s.head
  }

  /** Position p has been read out of its slot but the slot is not handed back yet. */
  predicate Taken<V>(s: State<V>, p: nat) {
    s.consumer.FreeSlot? && p == s.head
  }

  ghost predicate Shape<V>(s: State<V>) {
    && s.Cap() >= 2
    && |s.log| == s.tail
    && Freed(s) <= s.tail <= Freed(s) + s.Cap()
  }

  ghost predicate CellOk<V>(s: State<V>, p: nat)
    requires Shape(s)
  {
    var c := s.At(p);
    if p >= s.tail then c == Slot(p, None)
    else
      var (i, v) := s.log[p];
      || (c == Slot(p, None) && s.Pc(i) == WriteSlot(v, p))
      || (c == Slot(p, Some(v)) && s.Pc(i) == PublishSlot(v, p))
      || (c == Slot(p + 1, Some(v)) && !Taken(s, p))
      || (c == Slot(p + 1, None) && Taken(s, p))
  }

  ghost predicate CellsOk<V>(s: State<V>)
    requires Shape(s)
  {
    forall p: nat | Freed(s) <= p < Freed(s) + s.Cap() :: CellOk(s, p)
  }

  ghost predicate ProducerOk<V>(s: State<V>, i: ProducerId)
    requires Shape(s)
  {
    match s.Pc(i)
    case LoadSeq(_, t) => t <= s.tail
    case Cas(_, t) => t <= s.tail && (t == s.tail ==> s.tail < Freed(s) + s.Cap())
    case WriteSlot(v, t) => Freed(s) <= t < s.tail && s.log[t] == (i, v) && s.At(t) == Slot(t, None)
    case PublishSlot(v, t) => Freed(s) <= t < s.tail && s.log[t] == (i, v) && s.At(t) == Slot(t, Some(v))
    case LoadHead(v, t) => t < s.tail && s.log[t] == (i, v)
    case _ => true
  }

  ghost predicate ProducersOk<V>(s: State<V>)
    requires Shape(s)
  {
    forall i: ProducerId :: ProducerOk(s, i)
  }

  ghost predicate ConsumerOk<V>(s: State<V>)
    requires Shape(s)
  {
    match s.consumer
    case ReadSeq(h) => h == s.head
    case ReadSlot(h) => h == s.head < s.tail && s.At(h).seqNo == h + 1
    case FreeSlot(h, v) => h == s.head < s.tail && s.log[h].1 == v && s.At(h) == Slot(h + 1, None)
    case StoreHead(h, v) => h == s.head < s.tail && s.log[h].1 == v
    case _ => true
  }

  /** A parked drain task with nothing in its eventfd has a producer on the way to wake it. */
  ghost predicate WakeOk<V>(s: State<V>)
    requires Shape(s)
  {
    s.consumer.Parked? && s.eventfd == 0 && s.head < s.tail ==>
      var pc := s.Pc(s.log[s.head].0);
      (pc.WriteSlot? || pc.PublishSlot? || pc.LoadHead? || pc.Wake?) && pc.t == s.head
  }

  /** The part of the claim order that has been read out of slots. */
  function ReadCount<V>(s: State<V>): nat {
    if s.consumer.FreeSlot? || s.consumer.StoreHead? then s.head + 1 else s.head
  }

  function InHand<V>(pc: ConsumerPc<V>): seq<V> {
    if pc.FreeSlot? || pc.StoreHead? || pc.Dispatch? then [pc.v] else []
  }

  function Values<V>(log: seq<(ProducerId, V)>): (vs: seq<V>)
    ensures |vs| == |log|
  {
    seq(|log|, (k: nat) requires k < |log| => log[k].1)
  }

  ghost predicate HistoryOk<V>(s: State<V>) {
    && ReadCount(s) <= |s.log|
    && s.popped == Values(s.log[..ReadCount(s)])
    && s.popped == s.dispatched + InHand(s.consumer)
  }

  ghost predicate Inv<V>(s: State<V>) {
    && Shape(s)
    && CellsOk(s)
    && ProducersOk(s)
    && ConsumerOk(s)
    && WakeOk(s)
    && HistoryOk(s)
  }

  // ------------------------------------------------------------- slot windows

  /** Changing the slot of position p changes no other position of the window. */
  lemma OnlyThatPosition<V>(s: State<V>, lo: nat, p: nat, c: Slot<V>)
    requires s.Cap() > 0 && lo <= p < lo + s.Cap()
    ensures s.SetAt(p, c).At(p) == c
    ensures forall q: nat | lo <= q < lo + s.Cap() && q != p :: s.SetAt(p, c).At(q) == s.At(q)
  {
    forall q: nat | lo <= q < lo + s.Cap() && q != p
      ensures s.SetAt(p, c).At(q) == s.At(q)
    {
      if q % s.Cap() == p % s.Cap() {
        ModUnique(p, q, s.Cap());
      }
    }
  }
}
