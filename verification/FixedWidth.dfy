/**
 The code's counters are `usize` and wrap.  With a power-of-two capacity, and as long as no actor
 sleeps through half the counter range, the wrapping machine takes the same decisions and touches
 the same slots as the unbounded one, across any number of wraps.
 */
module FixedWidth {
  import opened Wrappers
  import opened Inbox
  import opened InboxInvariant
  import opened InboxSteps
  import opened InboxTheorems
  import opened Arith

  // -------------------------------------------------------------- bit masks

  /** Bitwise `&` */
  function BitAnd(x: nat, y: nat): nat {
    if x == 0 || y == 0 then 0
    else 2 * BitAnd(x / 2, y / 2) + (if x % 2 == 1 && y % 2 == 1 then 1 else 0)
  }

  lemma BitAndOnes(x: nat, m: nat)
    requires m > 0
    ensures BitAnd(x, 2 * m - 1) == 2 * BitAnd(x / 2, m - 1) + x % 2
  {
    assert (2 * m - 1) / 2 == m - 1 && (2 * m - 1) % 2 == 1;
  }

  /** Indexing with `tail & mask` is indexing modulo the capacity. */
  lemma {:induction false} MaskIsMod(x: nat, k: nat)
    ensures BitAnd(x, Pow2(k) - 1) == x % Pow2(k)
  {
    if k > 0 {
      var m := Pow2(k - 1);
      MaskIsMod(x / 2, k - 1);
      BitAndOnes(x, m);
      ModDouble(x, m);
    } else {
      assert Pow2(k) - 1 == 0;
    }
  }

  lemma {:induction false} Pow2Split(k: nat, bits: nat)
    requires k <= bits
    ensures Pow2(bits) == Pow2(bits - k) * Pow2(k)
    decreases bits - k
  {
    if k < bits {
      Pow2Split(k, bits - 1);
      Regroup(2, Pow2(bits - 1 - k), 0, Pow2(k));
    }
  }

  /** Wrapping a counter does not change the slot it names. */
  lemma SameSlot(x: nat, k: nat, bits: nat)
    requires k <= bits
    ensures (x % Pow2(bits)) % Pow2(k) == x % Pow2(k)
  {
    Pow2Split(k, bits);
    ModMod(x, Pow2(bits - k), Pow2(k));
  }

  // ------------------------------------------------------ wrapped arithmetic

  /** The signed-difference test is exact for differences below half the range ... */
  lemma SignedDiffExact(a: nat, b: nat, bits: nat)
    requires 2 * b <= 2 * a + Pow2(bits) && 2 * a < 2 * b + Pow2(bits)
    ensures SignedDiff(Bits(bits), a % Pow2(bits), b % Pow2(bits)) == a - b
  {
    var m := Pow2(bits);
    ModSub(a, b, m);
    if a >= b {
      ModOfSum(0, a - b, m);
    } else {
      ModOfSum(-1, a - b + m, m);
    }
  }

  /** ... and for no others. */
  lemma SignedDiffExactly(a: nat, b: nat, bits: nat)
    ensures SignedDiff(Bits(bits), a % Pow2(bits), b % Pow2(bits)) == a - b
            <==> 2 * b <= 2 * a + Pow2(bits) && 2 * a < 2 * b + Pow2(bits)
  {
    if 2 * b <= 2 * a + Pow2(bits) && 2 * a < 2 * b + Pow2(bits) {
      SignedDiffExact(a, b, bits);
    }
  }

  /** In the half range above, its sign is reversed. */
  lemma SignedDiffReversed(a: nat, b: nat, bits: nat)
    requires Pow2(bits) <= 2 * (a - b) < 2 * Pow2(bits)
    ensures SignedDiff(Bits(bits), a % Pow2(bits), b % Pow2(bits)) == a - b - Pow2(bits) < 0
  {
    ModSub(a, b, Pow2(bits));
    ModOfSum(0, a - b, Pow2(bits));
  }

  /** What it is for any two counters. */
  lemma SignedDiffValue(a: nat, b: nat, bits: nat)
    ensures var m := Pow2(bits);
            var d := (a - b) % m;
            SignedDiff(Bits(bits), a % m, b % m) == if 2 * d < m then d else d - m
  {
    ModSub(a, b, Pow2(bits));
  }

  lemma WrapEqual(a: nat, b: nat, m: nat)
    requires m > 0 && a < b + m && b < a + m
    ensures a % m == b % m <==> a == b
  {
    if a % m == b % m {
      ModUnique(a, b, m);
    }
  }

  // --------------------------------------------------------------- projection

  function WrapSlot<V>(m: nat, c: Slot<V>): Slot<V>
    requires m > 0
  {
    c.(seqNo := c.seqNo % m)
  }

  function WrapPc<V>(m: nat, pc: ProducerPc<V>): ProducerPc<V>
    requires m > 0
  {
    if pc.Idle? || pc.LoadTail? then pc else pc.(t := pc.t % m)
  }

  function WrapConsumer<V>(m: nat, pc: ConsumerPc<V>): ConsumerPc<V>
    requires m > 0
  {
    if pc.Parked? || pc.ReadHead? || pc.Dispatch? then pc else pc.(h := pc.h % m)
  }

  /** The state as `bits`-wide counters show it; values and histories are untouched. */
  function Wrapped<V>(bits: nat, s: State<V>): State<V> {
    var m := Pow2(bits);
    s.(cells := seq(|s.cells|, (k: nat) requires k < |s.cells| => WrapSlot(m, s.cells[k])),
       head := s.head % m,
       tail := s.tail % m,
       producers := map i | i in s.producers :: WrapPc(m, s.producers[i]),
       consumer := WrapConsumer(m, s.consumer))
  }

  /** How far the counter a producer is about to look at has moved from its local copy. */
  function Lag<V>(s: State<V>, i: ProducerId): nat
    requires s.Cap() > 0
  {
    match s.Pc(i)
    case LoadSeq(_, t) => Abs(s.At(t).seqNo - t)
    case Cas(_, t) => Abs(s.tail - t)
    case LoadHead(_, t) => Abs(s.head - t)
    case _ => 0
  }

  function Abs(x: int): nat {
    if x < 0 then -x else x
  }

  ghost predicate LagsBounded<V>(bits: nat, s: State<V>)
    requires s.Cap() > 0
  {
    forall i: ProducerId :: 2 * Lag(s, i) < Pow2(bits)
  }

  lemma AtWrapped<V>(k: nat, bits: nat, s: State<V>, x: nat)
    requires k < bits && s.Cap() == Pow2(k)
    ensures Wrapped(bits, s).At(x % Pow2(bits)) == WrapSlot(Pow2(bits), s.At(x))
  {
    SameSlot(x, k, bits);
  }

  lemma SetAtWrapped<V>(k: nat, bits: nat, s: State<V>, x: nat, c: Slot<V>)
    requires k < bits && s.Cap() == Pow2(k)
    ensures Wrapped(bits, s).SetAt(x % Pow2(bits), WrapSlot(Pow2(bits), c)) == Wrapped(bits, s.SetAt(x, c))
  {
    SameSlot(x, k, bits);
    assert Wrapped(bits, s).SetAt(x % Pow2(bits), WrapSlot(Pow2(bits), c)).cells == Wrapped(bits, s.SetAt(x, c)).cells;
  }

  lemma GotoWrapped<V>(bits: nat, s: State<V>, i: ProducerId, pc: ProducerPc<V>)
    ensures Wrapped(bits, s).Goto(i, WrapPc(Pow2(bits), pc)) == Wrapped(bits, s.Goto(i, pc))
  {
    assert Wrapped(bits, s).Goto(i, WrapPc(Pow2(bits), pc)).producers == Wrapped(bits, s.Goto(i, pc)).producers;
  }

  lemma PcWrapped<V>(bits: nat, s: State<V>, i: ProducerId)
    ensures Wrapped(bits, s).Pc(i) == WrapPc(Pow2(bits), s.Pc(i))
  {
  }

  // -------------------------------------------------------------- refinement

  /** The wrapped difference of a sequence number and a local tail has the sign of the true one. */
  predicate SignKept(bits: nat, seqNo: nat, t: nat) {
    var m := Pow2(bits);
    var d := (seqNo - t) % m;
    (seqNo > t ==> 0 < 2 * d < m) && (seqNo < t ==> m <= 2 * d)
  }

  /** A local tail is equal to a counter if they are equal wrapped. */
  predicate EqualKept(bits: nat, x: nat, t: nat) {
    x % Pow2(bits) == t % Pow2(bits) ==> x == t
  }

  /** The comparison a producer is about to make comes out the same on wrapped counters. */
  predicate Harmless<V>(bits: nat, s: State<V>, step: Step<V>)
    requires s.Cap() > 0
  {
    step.Producer? ==>
      match s.Pc(step.i)
      case LoadSeq(_, t) => SignKept(bits, s.At(t).seqNo, t)
      case Cas(_, t) => step.spurious || EqualKept(bits, s.tail, t)
      case LoadHead(_, t) => EqualKept(bits, s.head, t)
      case _ => true
  }

  /** Short lags are harmless. */
  lemma LagsHarmless<V>(bits: nat, s: State<V>, step: Step<V>)
    requires s.Cap() > 0 && LagsBounded(bits, s)
    ensures Harmless(bits, s, step)
  {
    if step.Producer? {
      var m := Pow2(bits);
      assert 2 * Lag(s, step.i) < m;
      match s.Pc(step.i)
      case LoadSeq(_, t) => SmallSign(bits, s.At(t).seqNo, t);
      case Cas(_, t) => WrapEqual(s.tail, t, m);
      case LoadHead(_, t) => WrapEqual(s.head, t, m);
      case _ =>
    }
  }

  lemma SmallSign(bits: nat, seqNo: nat, t: nat)
    requires 2 * Abs(seqNo - t) < Pow2(bits)
    ensures SignKept(bits, seqNo, t)
  {
    var m := Pow2(bits);
    if seqNo >= t {
      ModOfSum(0, seqNo - t, m);
    } else {
      ModOfSum(-1, seqNo - t + m, m);
    }
  }

  lemma LoadSeqRefines<V>(k: nat, bits: nat, s: State<V>, i: ProducerId)
    requires 1 <= k < bits && s.Cap() == Pow2(k) && s.Pc(i).LoadSeq?
    requires SignKept(bits, s.At(s.Pc(i).t).seqNo, s.Pc(i).t)
    ensures NextProducer(Bits(bits), Wrapped(bits, s), i, false)
         == Wrapped(bits, NextProducer(Unbounded, s, i, false))
  {
    var v, t := s.Pc(i).v, s.Pc(i).t;
    var seqNo := s.At(t).seqNo;
    PcWrapped(bits, s, i);
    AtWrapped(k, bits, s, t);
    WrappedSign(bits, seqNo, t);
    if seqNo == t {
      GotoWrapped(bits, s, i, Cas(v, t));
    } else if seqNo < t {
      GotoWrapped(bits, s.Answer(i, v, false), i, Idle);
    } else {
      GotoWrapped(bits, s, i, LoadTail(v));
    }
  }

  /** The sign of the wrapped difference, and when it is the true one. */
  lemma WrappedSign(bits: nat, seqNo: nat, t: nat)
    ensures var diff := SignedDiff(Bits(bits), seqNo % Pow2(bits), t % Pow2(bits));
            SignKept(bits, seqNo, t) <==> (diff < 0 <==> seqNo < t) && (diff == 0 <==> seqNo == t)
  {
    SignedDiffValue(seqNo, t, bits);
    ModOfSum(0, 0, Pow2(bits));
  }

  lemma CasRefines<V>(bits: nat, s: State<V>, i: ProducerId, spurious: bool)
    requires s.Cap() > 0 && s.Pc(i).Cas? && (spurious || EqualKept(bits, s.tail, s.Pc(i).t))
    ensures NextProducer(Bits(bits), Wrapped(bits, s), i, spurious)
         == Wrapped(bits, NextProducer(Unbounded, s, i, spurious))
  {
    var v, t := s.Pc(i).v, s.Pc(i).t;
    PcWrapped(bits, s, i);
    if s.tail == t && !spurious {
      ModAdd(t, 1, Pow2(bits));
      GotoWrapped(bits, s.(tail := t + 1, log := s.log + [(i, v)]), i, WriteSlot(v, t));
    } else {
      GotoWrapped(bits, s, i, LoadSeq(v, s.tail));
    }
  }

  lemma StoreRefines<V>(k: nat, bits: nat, s: State<V>, i: ProducerId)
    requires 1 <= k < bits && s.Cap() == Pow2(k) && (s.Pc(i).WriteSlot? || s.Pc(i).PublishSlot?)
    ensures NextProducer(Bits(bits), Wrapped(bits, s), i, false)
         == Wrapped(bits, NextProducer(Unbounded, s, i, false))
  {
    var v, t := s.Pc(i).v, s.Pc(i).t;
    PcWrapped(bits, s, i);
    AtWrapped(k, bits, s, t);
    if s.Pc(i).WriteSlot? {
      SetAtWrapped(k, bits, s, t, s.At(t).(val := Some(v)));
      GotoWrapped(bits, s.SetAt(t, s.At(t).(val := Some(v))), i, PublishSlot(v, t));
    } else {
      ModAdd(t, 1, Pow2(bits));
      SetAtWrapped(k, bits, s, t, s.At(t).(seqNo := t + 1));
      GotoWrapped(bits, s.SetAt(t, s.At(t).(seqNo := t + 1)), i, LoadHead(v, t));
    }
  }

  lemma LoadHeadRefines<V>(bits: nat, s: State<V>, i: ProducerId)
    requires s.Cap() > 0 && s.Pc(i).LoadHead? && EqualKept(bits, s.head, s.Pc(i).t)
    ensures NextProducer(Bits(bits), Wrapped(bits, s), i, false)
         == Wrapped(bits, NextProducer(Unbounded, s, i, false))
  {
    var v, t := s.Pc(i).v, s.Pc(i).t;
    PcWrapped(bits, s, i);
    GotoWrapped(bits, s.Answer(i, v, true), i, if s.head == t then Wake(v, t) else Idle);
  }

  lemma MoveRefines<V>(bits: nat, s: State<V>, i: ProducerId)
    requires s.Cap() > 0 && (s.Pc(i).LoadTail? || s.Pc(i).Wake?)
    ensures NextProducer(Bits(bits), Wrapped(bits, s), i, false)
         == Wrapped(bits, NextProducer(Unbounded, s, i, false))
  {
    PcWrapped(bits, s, i);
    if s.Pc(i).LoadTail? {
      GotoWrapped(bits, s, i, LoadSeq(s.Pc(i).v, s.tail));
    } else {
      GotoWrapped(bits, s.(eventfd := s.eventfd + 1), i, Idle);
    }
  }

  lemma ReadSeqRefines<V>(k: nat, bits: nat, s: State<V>)
    requires 1 <= k < bits && s.Cap() == Pow2(k) && Inv(s) && s.consumer.ReadSeq?
    ensures NextConsumer(Bits(bits), Wrapped(bits, s)) == Wrapped(bits, NextConsumer(Unbounded, s))
  {
    var h := s.consumer.h;
    AtWrapped(k, bits, s, h);
    ModAdd(h, 1, Pow2(bits));
    assert CellOk(s, h);
    assert Pow2(bits) >= 4 by { Pow2Split(2, bits); }
    SignedDiffExact(s.At(h).seqNo, h + 1, bits);
  }

  lemma TakeRefines<V>(k: nat, bits: nat, s: State<V>)
    requires 1 <= k < bits && s.Cap() == Pow2(k) && Enabled(s, Consumer)
    requires s.consumer.ReadSlot? || s.consumer.FreeSlot?
    ensures Enabled(Wrapped(bits, s), Consumer)
    ensures NextConsumer(Bits(bits), Wrapped(bits, s)) == Wrapped(bits, NextConsumer(Unbounded, s))
  {
    var h := s.consumer.h;
    AtWrapped(k, bits, s, h);
    if s.consumer.ReadSlot? {
      SetAtWrapped(k, bits, s, h, s.At(h).(val := None));
    } else {
      ModAdd(h, s.Cap(), Pow2(bits));
      SetAtWrapped(k, bits, s, h, s.At(h).(seqNo := h + s.Cap()));
    }
  }

  lemma ConsumerRefines<V>(k: nat, bits: nat, s: State<V>)
    requires 1 <= k < bits && s.Cap() == Pow2(k) && Inv(s) && Enabled(s, Consumer)
    ensures Enabled(Wrapped(bits, s), Consumer)
    ensures NextConsumer(Bits(bits), Wrapped(bits, s)) == Wrapped(bits, NextConsumer(Unbounded, s))
  {
    match s.consumer
    case ReadSeq(_) => ReadSeqRefines(k, bits, s);
    case ReadSlot(_) => TakeRefines(k, bits, s);
    case FreeSlot(_, _) => TakeRefines(k, bits, s);
    case StoreHead(h, v) => ModAdd(h, 1, Pow2(bits));
    case _ =>
  }

  lemma EnabledWrapped<V>(k: nat, bits: nat, s: State<V>, step: Step<V>)
    requires 1 <= k < bits && s.Cap() == Pow2(k)
    ensures Enabled(Wrapped(bits, s), step) <==> Enabled(s, step)
  {
    if step.Consumer? {
      if s.consumer.ReadSlot? {
        AtWrapped(k, bits, s, s.consumer.h);
      }
    } else {
      PcWrapped(bits, s, step.i);
    }
  }

  /** A W-bit step is enabled like the unbounded one and, if harmless, is its wrapped image. */
  lemma StepRefines<V>(k: nat, bits: nat, s: State<V>, step: Step<V>)
    requires 1 <= k < bits && s.Cap() == Pow2(k) && Inv(s) && Harmless(bits, s, step)
    ensures Enabled(Wrapped(bits, s), step) <==> Enabled(s, step)
    ensures Enabled(s, step) ==>
              Next(Bits(bits), Wrapped(bits, s), step) == Wrapped(bits, Next(Unbounded, s, step))
  {
    EnabledWrapped(k, bits, s, step);
    if Enabled(s, step) {
      match step
      case Begin(i, v) => GotoWrapped(bits, s, i, LoadTail(v));
      case Consumer => ConsumerRefines(k, bits, s);
      case Producer(i, spurious) =>
        PcWrapped(bits, s, i);
        match s.Pc(i)
        case LoadSeq(_, _) => LoadSeqRefines(k, bits, s, i);
        case Cas(_, _) => CasRefines(bits, s, i, spurious);
        case WriteSlot(_, _) => StoreRefines(k, bits, s, i);
        case PublishSlot(_, _) => StoreRefines(k, bits, s, i);
        case LoadHead(_, _) => LoadHeadRefines(bits, s, i);
        case _ => MoveRefines(bits, s, i);
    }
  }

  /**
   Fixed-width refinement, over whole runs: on every schedule along which no lag reaches half the
   counter range, the W-bit inbox goes through exactly the wrapped images of the unbounded states.
   Values, claim order, pops, dispatches and answers are therefore the same in both.
   */
  lemma {:induction false} RunRefines<V>(k: nat, bits: nat, schedule: seq<Step<V>>)
    requires 1 <= k < bits
    requires forall n | 0 <= n <= |schedule| :: LagsBounded(bits, Exec(Unbounded, Pow2(k), schedule[..n]))
    ensures Exec(Bits(bits), Pow2(k), schedule) == Wrapped(bits, Exec(Unbounded, Pow2(k), schedule))
  {
    var cap := Pow2(k);
    assert cap >= 2;
    if schedule == [] {
      InitWrapped<V>(k, bits);
    } else {
      var n := |schedule| - 1;
      var before, step := schedule[..n], schedule[n];
      forall j | 0 <= j <= n
        ensures LagsBounded(bits, Exec(Unbounded, cap, before[..j]))
      {
        assert before[..j] == schedule[..j];
      }
      RunRefines(k, bits, before);
      Always(cap, before);
      assert schedule[..n] == before;
      LagsHarmless(bits, Exec(Unbounded, cap, before), step);
      StepRefines(k, bits, Exec(Unbounded, cap, before), step);
    }
  }

  lemma InitWrapped<V>(k: nat, bits: nat)
    requires k < bits
    ensures Init<V>(Pow2(k)) == Wrapped(bits, Init<V>(Pow2(k)))
  {
    var cap, m := Pow2(k), Pow2(bits);
    assert cap <= m by {
      Pow2Split(k, bits);
      MulAtLeast(Pow2(bits - k), cap);
    }
    forall j: nat | j < cap
      ensures j % m == j
    {
      ModOfSum(0, j, m);
    }
    ModOfSum(0, 0, m);
    assert Init<V>(cap).cells == Wrapped(bits, Init<V>(cap)).cells;
  }

  /** Pops and dispatches are prefixes of the claim order, and nothing is stranded. */
  ghost predicate SafeState<V>(s: State<V>) {
    && s.popped <= Values(s.log)
    && s.dispatched <= s.popped
    && (Asleep(s) && NoneMidPush(s) ==> s.dispatched == Values(s.log))
  }

  lemma WrappedIsSafe<V>(bits: nat, s: State<V>)
    requires Inv(s)
    ensures SafeState(Wrapped(bits, s))
  {
    if Asleep(Wrapped(bits, s)) && NoneMidPush(Wrapped(bits, s)) {
      forall i: ProducerId
        ensures !Claimed(s.Pc(i))
      {
        PcWrapped(bits, s, i);
        assert !Claimed(Wrapped(bits, s).Pc(i));
      }
      AsleepMeansDone(s);
    }
  }

  /** What was proved of the unbounded ring therefore holds of the ring the code runs. */
  lemma FixedWidthSafety<V(!new)>(k: nat, bits: nat, schedule: seq<Step<V>>)
    requires 1 <= k < bits
    requires forall n | 0 <= n <= |schedule| :: LagsBounded(bits, Exec(Unbounded, Pow2(k), schedule[..n]))
    ensures SafeState(Exec(Bits(bits), Pow2(k), schedule))
  {
    RunRefines(k, bits, schedule);
    Always(Pow2(k), schedule);
    WrappedIsSafe(bits, Exec(Unbounded, Pow2(k), schedule));
  }

  /** The local tail of a producer that is about to compare it with a shared counter. */
  function Local<V>(pc: ProducerPc<V>): Option<nat> {
    if pc.LoadSeq? || pc.Cas? || pc.LoadHead? then Some(pc.t) else None
  }

  /** Lags stay bounded as long as no producer sleeps while half the counter range, less a ring, is claimed. */
  lemma ShortSleepsSuffice<V>(bits: nat, s: State<V>)
    requires Inv(s)
    requires forall i: ProducerId :: Local(s.Pc(i)).Some? ==> 2 * (s.tail - Local(s.Pc(i)).value + s.Cap()) < Pow2(bits)
    ensures LagsBounded(bits, s)
  {
    forall i: ProducerId
      ensures 2 * Lag(s, i) < Pow2(bits)
    {
      assert ProducerOk(s, i);
      if s.Pc(i).LoadSeq? {
        var p := SlotReading(s, s.Pc(i).t);
      }
      if Local(s.Pc(i)).Some? {
        assert Lag(s, i) <= s.tail - Local(s.Pc(i)).value + s.Cap();
      }
    }
  }
}
