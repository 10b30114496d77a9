/**
 The whole broker: the workers and inboxes of `CrossShard`, and on every shard its registrations,
 table, connections and writers.  A PUB is dispatched on the publisher's own shard when it is handled
 and on every other shard when that shard's drain task gets to it.
 */
module Broker {
  import opened Wrappers
  import opened Dispatch
  import opened Inbox
  import opened InboxInvariant
  import opened InboxSteps
  import opened InboxTheorems
  import opened InboxDelivery
  import W = Wire
  import X = CrossShard
  import Sh = Shard

  type PubFrame = X.PubFrame

  /** How many shards, how large each inbox, how large each connection's buffers. */
  datatype Config = Config(shards: nat, cap: nat, sizes: Sh.Sizes)

  datatype Broker = Broker(sys: X.System, shards: seq<Sh.State>)

  datatype BrokerStep =
    | Publish(i: nat, frame: PubFrame, selected: seq<Target>)
    | Visit(i: nat)
    | Push(i: nat, spurious: bool)
    | Drain(j: nat, selected: seq<Target>)
    | Local(i: nat, step: Sh.Step)

  function InitBroker(cfg: Config): Broker {
    Broker(X.InitSystem(cfg.shards, cfg.cap), seq(cfg.shards, _ => Sh.Init()))
  }

  /** The shard whose worker put the next frame to dispatch into the inbox. */
  function Origin(s: State<PubFrame>): nat {
    if |s.dispatched| < |s.log| then s.log[|s.dispatched|].0 else 0
  }

  /** What a step of the drain task dispatches, if anything. */
  function NextServe(s: State<PubFrame>, selected: seq<Target>): Option<Sh.Step> {
    if s.consumer.Dispatch? then Some(Sh.Serve(s.consumer.v, Origin(s), selected)) else None
  }

  /** A reader takes a PUB of at most the largest payload from its client; `selected` is what dispatch picks. */
  ghost predicate BrokerEnabled(b: Broker, step: BrokerStep) {
    match step
    case Publish(i, f, selected) =>
      && i < |b.shards|
      && X.SysEnabled(b.sys, X.Handle(i, f))
      && f.publisher in b.shards[i].reg.readers
      && Sh.PubArrived(f)
      && |f.payload| <= W.MAX_PAYLOAD_BYTES
      && (X.Publishable(f) ==> Sh.Enabled(b.shards[i], Sh.Serve(f, i, selected)))
    case Visit(i) => X.SysEnabled(b.sys, X.Visit(i))
    case Push(i, spurious) => X.SysEnabled(b.sys, X.Push(i, spurious))
    case Drain(j, selected) =>
      && j < |b.shards|
      && X.SysEnabled(b.sys, X.Drain(j))
      && var serve := NextServe(b.sys.inboxes[j], selected);
         serve.Some? ==> Sh.Enabled(b.shards[j], serve.value)
    case Local(i, st) => i < |b.shards| && !st.Serve? && Sh.Enabled(b.shards[i], st)
  }

  ghost function OnShard(b: Broker, i: nat, step: Sh.Step, sizes: Sh.Sizes): Broker
    requires i < |b.shards| && Sh.Enabled(b.shards[i], step)
  {
    b.(shards := b.shards[i := Sh.Next(b.shards[i], step, sizes)])
  }

  ghost function BrokerNext(b: Broker, step: BrokerStep, sizes: Sh.Sizes): Broker
    requires BrokerEnabled(b, step)
  {
    match step
    case Publish(i, f, selected) =>
      (if X.Publishable(f) then OnShard(b, i, Sh.Serve(f, i, selected), sizes) else b)
      .(sys := X.SysNext(b.sys, X.Handle(i, f)))
    case Visit(i) => b.(sys := X.SysNext(b.sys, X.Visit(i)))
    case Push(i, spurious) => b.(sys := X.SysNext(b.sys, X.Push(i, spurious)))
    case Drain(j, selected) =>
      var serve := NextServe(b.sys.inboxes[j], selected);
      (if serve.Some? then OnShard(b, j, serve.value, sizes) else b).(sys := X.SysNext(b.sys, X.Drain(j)))
    case Local(i, st) => OnShard(b, i, st, sizes)
  }

  /** The broker after a schedule; a step that is not enabled leaves it alone. */
  ghost function BrokerExec(cfg: Config, schedule: seq<BrokerStep>): Broker {
    if schedule == [] then InitBroker(cfg)
    else
      var b, step := BrokerExec(cfg, schedule[..|schedule| - 1]), schedule[|schedule| - 1];
      if BrokerEnabled(b, step) then BrokerNext(b, step, cfg.sizes) else b
  }

  // ----------------------------------------------------- what shards have seen

  /** The publishes a shard dispatched for worker a, in order. */
  function ServedFrom(served: seq<Sh.Service>, a: nat): seq<PubFrame> {
    if served == [] then []
    else
      var v := served[|served| - 1];
      ServedFrom(served[..|served| - 1], a) + if v.from == a then [v.frame] else []
  }

  lemma ServedAppend(served: seq<Sh.Service>, v: Sh.Service, a: nat)
    ensures ServedFrom(served + [v], a) == ServedFrom(served, a) + if v.from == a then [v.frame] else []
  {
    assert (served + [v])[..|served|] == served;
  }

  /** What the workers and inboxes say shard i has to have dispatched for worker a. */
  function Seen(sys: X.System, i: nat, a: nat): seq<PubFrame>
    requires sys.Shaped() && i < |sys.workers|
  {
    if i == a then X.Valid(sys.workers[i].handled)
    else if |sys.inboxes[i].dispatched| <= |sys.inboxes[i].log| then DispatchedFrom(sys.inboxes[i], a)
    else []
  }

  lemma SeenHandle(sys: X.System, i: nat, f: PubFrame, k: nat, a: nat)
    requires X.SysEnabled(sys, X.Handle(i, f)) && k < |sys.workers|
    ensures var sys' := X.SysNext(sys, X.Handle(i, f));
            sys'.Shaped() && |sys'.workers| == |sys.workers|
            && Seen(sys', k, a) == Seen(sys, k, a) + if k == i && a == i && X.Publishable(f) then [f] else []
  {
    X.ValidAppend(sys.workers[i].handled, f);
  }

  /** Only the drain task dispatches, and claims are not rewritten. */
  lemma ProducerSeen(s: State<PubFrame>, step: Step<PubFrame>, a: nat)
    requires Enabled(s, step) && !step.Consumer? && |s.dispatched| <= |s.log|
    ensures var s' := Next(Unbounded, s, step);
            |s'.dispatched| <= |s'.log| && DispatchedFrom(s', a) == DispatchedFrom(s, a)
  {
    var s' := Next(Unbounded, s, step);
    HistoriesGrow(s, step);
    assert s'.dispatched == s.dispatched;
    assert s'.log[..|s.dispatched|] == s.log[..|s.dispatched|];
  }

  lemma SeenVisit(sys: X.System, i: nat, k: nat, a: nat)
    requires X.SysEnabled(sys, X.Visit(i)) && k < |sys.workers| && |sys.inboxes[k].dispatched| <= |sys.inboxes[k].log|
    ensures var sys' := X.SysNext(sys, X.Visit(i));
            sys'.Shaped() && |sys'.workers| == |sys.workers| && Seen(sys', k, a) == Seen(sys, k, a)
  {
    var p := sys.workers[i].pc.peer;
    if p == k && p != i {
      ProducerSeen(sys.inboxes[k], Begin(i, sys.workers[i].pc.frame), a);
    }
  }

  lemma SeenPush(sys: X.System, i: nat, spurious: bool, k: nat, a: nat)
    requires X.SysEnabled(sys, X.Push(i, spurious)) && k < |sys.workers| && |sys.inboxes[k].dispatched| <= |sys.inboxes[k].log|
    ensures var sys' := X.SysNext(sys, X.Push(i, spurious));
            sys'.Shaped() && |sys'.workers| == |sys.workers| && Seen(sys', k, a) == Seen(sys, k, a)
  {
    var p := sys.workers[i].pc.peer;
    if p == k && !sys.inboxes[p].Pc(i).Idle? {
      ProducerSeen(sys.inboxes[k], Producer(i, spurious), a);
    }
  }

  /** A dispatched frame is the next one in the log. */
  lemma NextInLog(cap: nat, s: State<PubFrame>)
    requires cap >= 2 && Reachable(cap, s) && s.consumer.Dispatch?
    ensures |s.dispatched| < |s.log| && s.log[|s.dispatched|] == (Origin(s), s.consumer.v)
  {
    ReachableInv(cap, s);
    var n := |s.dispatched|;
    assert s.popped[n] == s.consumer.v;
    assert Values(s.log[..ReadCount(s)])[n] == s.log[n].1;
  }

  /** All a step of the drain task can do to the two histories. */
  lemma ConsumerEffect(s: State<PubFrame>)
    requires Enabled(s, Consumer)
    ensures var s' := Next(Unbounded, s, Consumer);
            s'.log == s.log && s'.dispatched == s.dispatched + if s.consumer.Dispatch? then [s.consumer.v] else []
  {
  }

  lemma OneMoreSeen(log: seq<(ProducerId, PubFrame)>, n: nat, a: nat)
    requires n < |log|
    ensures From(log[..n + 1], a) == From(log[..n], a) + if log[n].0 == a then [log[n].1] else []
  {
    assert log[..n + 1] == log[..n] + [log[n]];
    AppendFrom(log[..n], log[n], a);
  }

  lemma ConsumerSeen(cap: nat, s: State<PubFrame>, a: nat)
    requires cap >= 2 && Reachable(cap, s) && Enabled(s, Consumer)
    ensures var s' := Next(Unbounded, s, Consumer);
            && |s.dispatched| <= |s.log| && |s'.dispatched| <= |s'.log|
            && DispatchedFrom(s', a) == DispatchedFrom(s, a) +
                 if s.consumer.Dispatch? && Origin(s) == a then [s.consumer.v] else []
  {
    ConsumerEffect(s);
    Delivery(cap, s, a);
    if s.consumer.Dispatch? {
      NextInLog(cap, s);
      OneMoreSeen(s.log, |s.dispatched|, a);
    }
  }

  lemma SeenDrain(cap: nat, sys: X.System, j: nat, k: nat, a: nat)
    requires cap >= 2 && X.SysEnabled(sys, X.Drain(j)) && k < |sys.workers| && Reachable(cap, sys.inboxes[j])
    ensures var sys', s := X.SysNext(sys, X.Drain(j)), sys.inboxes[j];
            && sys'.Shaped() && |sys'.workers| == |sys.workers|
            && Seen(sys', k, a) == Seen(sys, k, a) +
                 if k == j && a != j && s.consumer.Dispatch? && Origin(s) == a then [s.consumer.v] else []
  {
    if k == j {
      ConsumerSeen(cap, sys.inboxes[j], a);
    }
  }

  // --------------------------------------------------------------- invariant

  ghost predicate LogArrived(s: State<PubFrame>) {
    forall k | 0 <= k < |s.log| :: Sh.PubArrived(s.log[k].1)
  }

  /** Every frame under way came in over the wire. */
  ghost predicate FramesArrived(sys: X.System) {
    && (forall i | 0 <= i < |sys.workers| :: !sys.workers[i].pc.Ready? ==> Sh.PubArrived(sys.workers[i].pc.frame))
    && (forall j | 0 <= j < |sys.inboxes| :: LogArrived(sys.inboxes[j]))
  }

  ghost predicate Shaped(b: Broker) {
    b.sys.Shaped() && |b.shards| == |b.sys.workers|
  }

  ghost predicate Agree(b: Broker, i: nat, a: nat)
    requires Shaped(b) && i < |b.shards|
  {
    ServedFrom(b.shards[i].served, a) == Seen(b.sys, i, a)
  }

  /** Every shard has dispatched what the workers and inboxes say, for every worker. */
  ghost predicate AllAgree(b: Broker)
    requires Shaped(b)
  {
    forall i, a | 0 <= i < |b.shards| && 0 <= a < |b.shards| :: Agree(b, i, a)
  }

  ghost predicate ShardsOk(b: Broker, sizes: Sh.Sizes) {
    forall i | 0 <= i < |b.shards| :: Sh.Inv(b.shards[i], sizes)
  }

  /** The workers and inboxes are in a state some run of theirs reaches, with frames from the wire. */
  ghost predicate SysOk(cfg: Config, sys: X.System) {
    cfg.cap >= 2 && X.SysReachable(cfg.shards, cfg.cap, sys) && FramesArrived(sys)
  }

  ghost predicate BrokerInv(cfg: Config, b: Broker) {
    Shaped(b) && |b.shards| == cfg.shards && SysOk(cfg, b.sys) && ShardsOk(b, cfg.sizes) && AllAgree(b)
  }

  lemma BrokerInitOk(cfg: Config)
    requires cfg.cap >= 2 && cfg.sizes.bufLen > 0
    ensures BrokerInv(cfg, InitBroker(cfg))
  {
    assert X.SysExec(cfg.shards, cfg.cap, []) == X.InitSystem(cfg.shards, cfg.cap);
    Sh.InitOk(cfg.sizes);
  }

  // ---------------------------------------------------- frames stay arrived

  lemma ArrivedHandle(sys: X.System, i: nat, f: PubFrame)
    requires FramesArrived(sys) && X.SysEnabled(sys, X.Handle(i, f)) && Sh.PubArrived(f)
    ensures FramesArrived(X.SysNext(sys, X.Handle(i, f)))
  {
  }

  lemma ArrivedVisit(sys: X.System, i: nat)
    requires FramesArrived(sys) && X.SysEnabled(sys, X.Visit(i))
    ensures FramesArrived(X.SysNext(sys, X.Visit(i)))
  {
    var sys' := X.SysNext(sys, X.Visit(i));
    forall j | 0 <= j < |sys'.inboxes|
      ensures LogArrived(sys'.inboxes[j])
    {
      assert LogArrived(sys.inboxes[j]);
      assert sys'.inboxes[j].log == sys.inboxes[j].log;
    }
  }

  lemma PushArrived(s: State<PubFrame>, i: nat, spurious: bool)
    requires s.Cap() > 0 && !s.Pc(i).Idle? && LogArrived(s) && Sh.PubArrived(s.Pc(i).v)
    ensures LogArrived(NextProducer(Unbounded, s, i, spurious))
  {
    X.ProducerEffect(s, i, spurious, i);
  }

  lemma ArrivedPush(sys: X.System, cap: nat, i: nat, spurious: bool)
    requires FramesArrived(sys) && X.SysInv(sys, cap) && X.SysEnabled(sys, X.Push(i, spurious))
    ensures FramesArrived(X.SysNext(sys, X.Push(i, spurious)))
  {
    var sys', p := X.SysNext(sys, X.Push(i, spurious)), sys.workers[i].pc.peer;
    assert X.LinkOk(sys, i, p) && X.InboxOk(sys, cap, p);
    assert LogArrived(sys.inboxes[p]);
    if !sys.inboxes[p].Pc(i).Idle? {
      PushArrived(sys.inboxes[p], i, spurious);
    }
    forall j | 0 <= j < |sys'.inboxes|
      ensures LogArrived(sys'.inboxes[j])
    {
      assert LogArrived(sys.inboxes[j]);
    }
  }

  lemma ArrivedDrain(sys: X.System, j: nat)
    requires FramesArrived(sys) && X.SysEnabled(sys, X.Drain(j))
    ensures FramesArrived(X.SysNext(sys, X.Drain(j)))
  {
    var sys' := X.SysNext(sys, X.Drain(j));
    forall k | 0 <= k < |sys'.inboxes|
      ensures LogArrived(sys'.inboxes[k])
    {
      assert LogArrived(sys.inboxes[k]);
      assert sys'.inboxes[k].log == sys.inboxes[k].log;
    }
  }

  // ------------------------------------------------------------------- steps

  lemma InboxFacts(cfg: Config, sys: X.System, j: nat)
    requires SysOk(cfg, sys) && j < cfg.shards
    ensures X.SysInv(sys, cfg.cap) && |sys.inboxes| == cfg.shards && Reachable(cfg.cap, sys.inboxes[j])
    ensures |sys.inboxes[j].dispatched| <= |sys.inboxes[j].log|
  {
    X.SysReachableInv(cfg.shards, cfg.cap, sys);
    assert X.InboxOk(sys, cfg.cap, j);
    Delivery(cfg.cap, sys.inboxes[j], 0);
  }

  function ServiceOf(s: Sh.State, f: PubFrame, from: nat, selected: seq<Target>): Sh.Service {
    Sh.Service(f, from, s.reg, selected)
  }

  /** One shard takes a step and the others do not. */
  lemma ShardStepOk(b: Broker, i: nat, st: Sh.Step, sizes: Sh.Sizes)
    requires ShardsOk(b, sizes) && i < |b.shards| && Sh.Enabled(b.shards[i], st)
    ensures ShardsOk(OnShard(b, i, st, sizes), sizes)
  {
    Sh.StepKeeps(b.shards[i], st, sizes);
  }

  lemma PublishAgrees(b: Broker, i: nat, f: PubFrame, selected: seq<Target>, sizes: Sh.Sizes)
    requires Shaped(b) && AllAgree(b) && BrokerEnabled(b, Publish(i, f, selected))
    ensures var b' := BrokerNext(b, Publish(i, f, selected), sizes);
            Shaped(b') && |b'.shards| == |b.shards| && AllAgree(b')
  {
    var b' := BrokerNext(b, Publish(i, f, selected), sizes);
    SeenHandle(b.sys, i, f, i, i);
    forall k, a | 0 <= k < |b'.shards| && 0 <= a < |b'.shards|
      ensures Agree(b', k, a)
    {
      assert Agree(b, k, a);
      SeenHandle(b.sys, i, f, k, a);
      ServedAppend(b.shards[i].served, ServiceOf(b.shards[i], f, i, selected), a);
    }
  }

  lemma PublishKeeps(cfg: Config, b: Broker, i: nat, f: PubFrame, selected: seq<Target>)
    requires BrokerInv(cfg, b) && BrokerEnabled(b, Publish(i, f, selected))
    ensures BrokerInv(cfg, BrokerNext(b, Publish(i, f, selected), cfg.sizes))
  {
    X.SysReachableStep(cfg.shards, cfg.cap, b.sys, X.Handle(i, f));
    ArrivedHandle(b.sys, i, f);
    PublishAgrees(b, i, f, selected, cfg.sizes);
    if X.Publishable(f) {
      ShardStepOk(b, i, Sh.Serve(f, i, selected), cfg.sizes);
    }
  }

  /** Only the workers and inboxes move, and no shard has to have dispatched more than before. */
  lemma SysMoveKeeps(cfg: Config, b: Broker, sys: X.System)
    requires BrokerInv(cfg, b) && SysOk(cfg, sys) && sys.Shaped() && |sys.workers| == |b.sys.workers|
    requires forall k, a | 0 <= k < |b.shards| && 0 <= a < |b.shards| :: Seen(sys, k, a) == Seen(b.sys, k, a)
    ensures BrokerInv(cfg, b.(sys := sys))
  {
    forall k, a | 0 <= k < |b.shards| && 0 <= a < |b.shards|
      ensures Agree(b.(sys := sys), k, a)
    {
      assert Agree(b, k, a);
    }
  }

  lemma VisitKeeps(cfg: Config, b: Broker, i: nat)
    requires BrokerInv(cfg, b) && BrokerEnabled(b, Visit(i))
    ensures BrokerInv(cfg, BrokerNext(b, Visit(i), cfg.sizes))
  {
    var sys' := X.SysNext(b.sys, X.Visit(i));
    X.SysReachableStep(cfg.shards, cfg.cap, b.sys, X.Visit(i));
    ArrivedVisit(b.sys, i);
    forall k, a | 0 <= k < |b.shards| && 0 <= a < |b.shards|
      ensures sys'.Shaped() && |sys'.workers| == |b.sys.workers| && Seen(sys', k, a) == Seen(b.sys, k, a)
    {
      InboxFacts(cfg, b.sys, k);
      SeenVisit(b.sys, i, k, a);
    }
    SysMoveKeeps(cfg, b, sys');
  }

  lemma PushKeeps(cfg: Config, b: Broker, i: nat, spurious: bool)
    requires BrokerInv(cfg, b) && BrokerEnabled(b, Push(i, spurious))
    ensures BrokerInv(cfg, BrokerNext(b, Push(i, spurious), cfg.sizes))
  {
    var sys' := X.SysNext(b.sys, X.Push(i, spurious));
    X.SysReachableStep(cfg.shards, cfg.cap, b.sys, X.Push(i, spurious));
    InboxFacts(cfg, b.sys, i);
    ArrivedPush(b.sys, cfg.cap, i, spurious);
    forall k, a | 0 <= k < |b.shards| && 0 <= a < |b.shards|
      ensures sys'.Shaped() && |sys'.workers| == |b.sys.workers| && Seen(sys', k, a) == Seen(b.sys, k, a)
    {
      InboxFacts(cfg, b.sys, k);
      SeenPush(b.sys, i, spurious, k, a);
    }
    SysMoveKeeps(cfg, b, sys');
  }

  lemma {:induction false} FromSome(log: seq<(ProducerId, PubFrame)>, k: nat, i: ProducerId)
    requires k < |log| && log[k].0 == i
    ensures From(log, i) != []
  {
    if k < |log| - 1 {
      FromSome(log[..|log| - 1], k, i);
    }
  }

  /** What a shard's drain task dispatches came from another shard's worker ... */
  lemma OriginElsewhere(cfg: Config, sys: X.System, j: nat)
    requires SysOk(cfg, sys) && j < cfg.shards && j < |sys.inboxes| && sys.inboxes[j].consumer.Dispatch?
    ensures Origin(sys.inboxes[j]) != j
  {
    var s := sys.inboxes[j];
    InboxFacts(cfg, sys, j);
    NextInLog(cfg.cap, s);
    X.NothingFromItself(cfg.shards, cfg.cap, sys, j);
    if Origin(s) == j {
      FromSome(s.log, |s.dispatched|, j);
    }
  }

  /** ... and over the wire, with a valid subject. */
  lemma OriginArrived(cfg: Config, sys: X.System, j: nat)
    requires SysOk(cfg, sys) && j < cfg.shards && j < |sys.inboxes| && sys.inboxes[j].consumer.Dispatch?
    ensures X.Publishable(sys.inboxes[j].consumer.v) && Sh.PubArrived(sys.inboxes[j].consumer.v)
  {
    var s := sys.inboxes[j];
    InboxFacts(cfg, sys, j);
    NextInLog(cfg.cap, s);
    X.OnlyValidFrames(cfg.shards, cfg.cap, sys, j, |s.dispatched|);
    assert LogArrived(s) && Sh.PubArrived(s.log[|s.dispatched|].1);
  }

  lemma DrainAgrees(cfg: Config, b: Broker, j: nat, selected: seq<Target>)
    requires Shaped(b) && AllAgree(b) && BrokerEnabled(b, Drain(j, selected)) && cfg.cap >= 2
    requires Reachable(cfg.cap, b.sys.inboxes[j])
    requires b.sys.inboxes[j].consumer.Dispatch? ==> Origin(b.sys.inboxes[j]) != j
    ensures var b' := BrokerNext(b, Drain(j, selected), cfg.sizes);
            Shaped(b') && |b'.shards| == |b.shards| && AllAgree(b')
  {
    var b', s := BrokerNext(b, Drain(j, selected), cfg.sizes), b.sys.inboxes[j];
    SeenDrain(cfg.cap, b.sys, j, j, j);
    forall k, a | 0 <= k < |b'.shards| && 0 <= a < |b'.shards|
      ensures Agree(b', k, a)
    {
      assert Agree(b, k, a);
      SeenDrain(cfg.cap, b.sys, j, k, a);
      if k == j && s.consumer.Dispatch? {
        ServedAppend(b.shards[j].served, ServiceOf(b.shards[j], s.consumer.v, Origin(s), selected), a);
      }
    }
  }

  lemma DrainKeeps(cfg: Config, b: Broker, j: nat, selected: seq<Target>)
    requires BrokerInv(cfg, b) && BrokerEnabled(b, Drain(j, selected))
    ensures BrokerInv(cfg, BrokerNext(b, Drain(j, selected), cfg.sizes))
  {
    X.SysReachableStep(cfg.shards, cfg.cap, b.sys, X.Drain(j));
    ArrivedDrain(b.sys, j);
    InboxFacts(cfg, b.sys, j);
    var serve := NextServe(b.sys.inboxes[j], selected);
    if serve.Some? {
      OriginElsewhere(cfg, b.sys, j);
      ShardStepOk(b, j, serve.value, cfg.sizes);
    }
    DrainAgrees(cfg, b, j, selected);
  }

  /** A drain task with a frame in hand can always dispatch it. */
  lemma DrainNeverBlocked(cfg: Config, b: Broker, j: nat) returns (selected: seq<Target>)
    requires BrokerInv(cfg, b) && j < cfg.shards && X.SysEnabled(b.sys, X.Drain(j))
    ensures BrokerEnabled(b, Drain(j, selected))
  {
    selected := [];
    if b.sys.inboxes[j].consumer.Dispatch? {
      OriginArrived(cfg, b.sys, j);
      selected := Sh.SomeSelection(Sh.MatchesOf(b.shards[j].reg.history, b.sys.inboxes[j].consumer.v));
    }
  }

  lemma LocalKeeps(cfg: Config, b: Broker, i: nat, st: Sh.Step)
    requires BrokerInv(cfg, b) && BrokerEnabled(b, Local(i, st))
    ensures BrokerInv(cfg, BrokerNext(b, Local(i, st), cfg.sizes))
  {
    ShardStepOk(b, i, st, cfg.sizes);
    Sh.StepEffect(b.shards[i], st, cfg.sizes);
    SameServed(b, OnShard(b, i, st, cfg.sizes));
  }

  /** A step that dispatches nothing and leaves workers and inboxes alone. */
  lemma SameServed(b: Broker, b': Broker)
    requires Shaped(b) && AllAgree(b) && b'.sys == b.sys && |b'.shards| == |b.shards|
    requires forall k | 0 <= k < |b.shards| :: b'.shards[k].served == b.shards[k].served
    ensures Shaped(b') && AllAgree(b')
  {
    forall k, a | 0 <= k < |b'.shards| && 0 <= a < |b'.shards|
      ensures Agree(b', k, a)
    {
      assert Agree(b, k, a);
    }
  }

  lemma BrokerStepKeeps(cfg: Config, b: Broker, step: BrokerStep)
    requires BrokerInv(cfg, b) && BrokerEnabled(b, step)
    ensures BrokerInv(cfg, BrokerNext(b, step, cfg.sizes))
  {
    match step
    case Publish(i, f, selected) => PublishKeeps(cfg, b, i, f, selected);
    case Visit(i) => VisitKeeps(cfg, b, i);
    case Push(i, spurious) => PushKeeps(cfg, b, i, spurious);
    case Drain(j, selected) => DrainKeeps(cfg, b, j, selected);
    case Local(i, st) => LocalKeeps(cfg, b, i, st);
  }

  /** The broker's invariant holds on every run. */
  lemma {:induction false} BrokerAlways(cfg: Config, schedule: seq<BrokerStep>)
    requires cfg.cap >= 2 && cfg.sizes.bufLen > 0
    ensures BrokerInv(cfg, BrokerExec(cfg, schedule))
  {
    if schedule == [] {
      BrokerInitOk(cfg);
    } else {
      var before, step := schedule[..|schedule| - 1], schedule[|schedule| - 1];
      BrokerAlways(cfg, before);
      if BrokerEnabled(BrokerExec(cfg, before), step) {
        BrokerStepKeeps(cfg, BrokerExec(cfg, before), step);
      }
    }
  }

  ghost predicate BrokerReachable(cfg: Config, b: Broker) {
    exists schedule :: b == BrokerExec(cfg, schedule)
  }

  lemma BrokerReachableStep(cfg: Config, b: Broker, step: BrokerStep)
    requires BrokerReachable(cfg, b) && BrokerEnabled(b, step)
    ensures BrokerReachable(cfg, BrokerNext(b, step, cfg.sizes))
  {
    var schedule :| b == BrokerExec(cfg, schedule);
    assert (schedule + [step])[..|schedule|] == schedule;
    assert BrokerExec(cfg, schedule + [step]) == BrokerNext(b, step, cfg.sizes);
  }

  lemma BrokerReachableInv(cfg: Config, b: Broker)
    requires cfg.cap >= 2 && cfg.sizes.bufLen > 0 && BrokerReachable(cfg, b)
    ensures BrokerInv(cfg, b)
  {
    var schedule :| b == BrokerExec(cfg, schedule);
    BrokerAlways(cfg, schedule);
  }
}
