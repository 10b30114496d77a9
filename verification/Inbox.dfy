/**
 The cross-shard inbox as a step machine (crates/aulon-core/src/shard_inbox.rs together with the
 wake protocol of crates/aulon-server/src/main.rs).

 Any number of producers push and one drain task pops.  Every atomic load, compare-exchange or
 store, every access to a slot's value and every eventfd operation is one step; steps interleave
 arbitrarily (sequential consistency).  The same machine is read at two widths: with unbounded
 counters, where the protocol is proved, and with W-bit wrapping counters, as the code runs.
 */
module Inbox {
  import opened Wrappers

  // ---------------------------------------------------------------- counters

  datatype Width = Unbounded | Bits(bits: nat)

  function Pow2(n: nat): (r: nat)
    ensures r > 0
  {
    if n == 0 then 1 else 2 * Pow2(n - 1)
  }

  /** `wrapping_add` */
  function Wrap(w: Width, x: nat): nat {
    if w.Bits? then x % Pow2(w.bits) else x
  }

  /** `a.wrapping_sub(b) as isize` */
  function SignedDiff(w: Width, a: nat, b: nat): int {
    if w.Unbounded? then a - b
    else
      var m := Pow2(w.bits);
      var d := (a - b) % m;
      if 2 * d < m then d else d - m
  }

  // ------------------------------------------------------------------- state

  /** `val` is None while the slot holds no live value (`MaybeUninit`). */
  datatype Slot<V> = Slot(seqNo: nat, val: Option<V>)

  type ProducerId = nat

  /** Where a producer is inside `push` (and the `wake` its caller may owe); `t` is its local tail. */
  datatype ProducerPc<V> =
    | Idle
    | LoadTail(v: V)
    | LoadSeq(v: V, t: nat)
    | Cas(v: V, t: nat)
    | WriteSlot(v: V, t: nat)
    | PublishSlot(v: V, t: nat)
    | LoadHead(v: V, t: nat)
    | Wake(v: V, t: nat)

  /** Where the drain task is: parked on the eventfd, inside `pop`, or dispatching a popped value. */
  datatype ConsumerPc<V> =
    | Parked
    | ReadHead
    | ReadSeq(h: nat)
    | ReadSlot(h: nat)
    | FreeSlot(h: nat, v: V)
    | StoreHead(h: nat, v: V)
    | Dispatch(v: V)

  /**
   The last four fields are history: `log` holds the pushes in claim order, `popped` what was
   read out of slots, `dispatched` what reached the local dispatch, and `returned` what each
   producer's finished pushes answered (true for Ok, false for Full).
   */
  datatype State<V> = State(
    cells: seq<Slot<V>>,
    head: nat,
    tail: nat,
    eventfd: nat,
    producers: map<ProducerId, ProducerPc<V>>,
    consumer: ConsumerPc<V>,
    log: seq<(ProducerId, V)>,
    popped: seq<V>,
    dispatched: seq<V>,
    returned: map<ProducerId, seq<(V, bool)>>)
  {
    function Cap(): nat {
      |cells|
    }

    function Pc(i: ProducerId): ProducerPc<V> {
      if i in producers then producers[i] else Idle
    }

    function Returned(i: ProducerId): seq<(V, bool)> {
      if i in returned then returned[i] else []
    }

    /** `&self.cells[x & self.mask]`, for a power-of-two capacity. */
    function At(x: nat): Slot<V>
      requires Cap() > 0
    {
      cells[x % Cap()]
    }

    function SetAt(x: nat, c: Slot<V>): State<V>
      requires Cap() > 0
    {
      this.(cells := cells[x % Cap() := c])
    }

    function Goto(i: ProducerId, pc: ProducerPc<V>): State<V> {
      this.(producers := producers[i := pc])
    }

    function Answer(i: ProducerId, v: V, ok: bool): State<V> {
      this.(returned := returned[i := Returned(i) + [(v, ok)]])
    }
  }

  function Init<V>(cap: nat): State<V> {
    State(seq(cap, (i: nat) => Slot(i, None)), 0, 0, 0, map[], Parked, [], [], [], map[])
  }

  // ------------------------------------------------------------------- steps

  /** `spurious` lets `compare_exchange_weak` fail although the value matched. */
  datatype Step<V> =
    | Begin(i: ProducerId, v: V)
    | Producer(i: ProducerId, spurious: bool)
    | Consumer

  predicate Enabled<V>(s: State<V>, step: Step<V>) {
    s.Cap() > 0 &&
    match step
    case Begin(i, _) => s.Pc(i).Idle?
    case Producer(i, _) => !s.Pc(i).Idle?
    case Consumer =>
      && (s.consumer.Parked? ==> s.eventfd > 0)
      && (s.consumer.ReadSlot? ==> s.At(s.consumer.h).val.Some?)
  }

  function Next<V>(w: Width, s: State<V>, step: Step<V>): (s': State<V>)
    requires Enabled(s, step)
    ensures s'.Cap() == s.Cap()
  {
    match step
    case Begin(i, v) => s.Goto(i, LoadTail(v))
    case Producer(i, spurious) => NextProducer(w, s, i, spurious)
    case Consumer => NextConsumer(w, s)
  }

  function NextProducer<V>(w: Width, s: State<V>, i: ProducerId, spurious: bool): (s': State<V>)
    requires s.Cap() > 0 && !s.Pc(i).Idle?
    ensures s'.Cap() == s.Cap()
  {
    match s.Pc(i)
    case LoadTail(v) => s.Goto(i, LoadSeq(v, s.tail))
    case LoadSeq(v, t) =>
      var diff := SignedDiff(w, s.At(t).seqNo, t);
      if diff == 0 then s.Goto(i, Cas(v, t))
      else if diff < 0 then s.Answer(i, v, false).Goto(i, Idle)
      else s.Goto(i, LoadTail(v))
    case Cas(v, t) =>
      if s.tail == t && !spurious then
        s.(tail := Wrap(w, t + 1), log := s.log + [(i, v)]).Goto(i, WriteSlot(v, t))
      else s.Goto(i, LoadSeq(v, s.tail))
    case WriteSlot(v, t) =>
      s.SetAt(t, s.At(t).(val := Some(v))).Goto(i, PublishSlot(v, t))
    case PublishSlot(v, t) =>
      s.SetAt(t, s.At(t).(seqNo := Wrap(w, t + 1))).Goto(i, LoadHead(v, t))
    case LoadHead(v, t) =>
      s.Answer(i, v, true).Goto(i, if s.head == t then Wake(v, t) else Idle)
    case Wake(_, _) => s.(eventfd := s.eventfd + 1).Goto(i, Idle)
  }

  function NextConsumer<V>(w: Width, s: State<V>): (s': State<V>)
    requires Enabled(s, Consumer)
    ensures s'.Cap() == s.Cap()
    ensures s'.tail == s.tail && s'.log == s.log && s'.producers == s.producers && s'.returned == s.returned
  {
    match s.consumer
    case Parked => s.(eventfd := 0, consumer := ReadHead)
    case ReadHead => s.(consumer := ReadSeq(s.head))
    case ReadSeq(h) =>
      if SignedDiff(w, s.At(h).seqNo, Wrap(w, h + 1)) == 0 then s.(consumer := ReadSlot(h))
      else s.(consumer := Parked)
    case ReadSlot(h) =>
      var v := s.At(h).val.value;
      s.SetAt(h, s.At(h).(val := None)).(consumer := FreeSlot(h, v), popped := s.popped + [v])
    case FreeSlot(h, v) =>
      s.SetAt(h, s.At(h).(seqNo := Wrap(w, h + s.Cap()))).(consumer := StoreHead(h, v))
    case StoreHead(h, v) => s.(head := Wrap(w, h + 1), consumer := Dispatch(v))
    case Dispatch(v) => s.(dispatched := s.dispatched + [v], consumer := ReadHead)
  }

  /** The state after a schedule; a step that is not enabled leaves the state alone (its actor waits). */
  function Exec<V>(w: Width, cap: nat, schedule: seq<Step<V>>): (s': State<V>)
    ensures s'.Cap() == cap
  {
    if schedule == [] then Init(cap)
    else
      var s := Exec(w, cap, schedule[..|schedule| - 1]);
      var step := schedule[|schedule| - 1];
      if Enabled(s, step) then Next(w, s, step) else s
  }
}
