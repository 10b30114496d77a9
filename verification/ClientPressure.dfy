/** Who is told of back-pressure: on every run a publisher once for each of its PUBs that some other shard refused. */
module ClientPressure {
  import opened Wrappers
  import opened Bytes
  import opened EndToEnd
  import opened ClientStream
  import opened Fanout
  import opened BackPressure
  import opened Broker
  import opened Provenance
  import opened Clients
  import opened ClientReplies
  import W = Wire
  import G = Registration
  import X = CrossShard
  import Sh = Shard

  const PRESSURE: W.Frame := W.ErrText(BACK_PRESSURE)

  // ------------------------------------------------------------------- one shard

  /** How often a connection has been told. */
  function ToldTo(s: Sh.State, t: G.TaskId): nat {
    if t in s.outs then multiset(s.outs[t].offered)[PRESSURE] else 0
  }

  predicate TellsOnShard(step: Sh.Step, t: G.TaskId) {
    step.Reply? && step.task == t && step.f == PRESSURE
  }

  lemma MsgsDontTell(fs: seq<W.Frame>, msgs: seq<W.Frame>)
    requires forall k | 0 <= k < |msgs| :: msgs[k].Msg?
    ensures multiset(fs + msgs)[PRESSURE] == multiset(fs)[PRESSURE]
  {
    assert forall k | 0 <= k < |msgs| :: msgs[k] != PRESSURE;
    assert PRESSURE !in multiset(msgs);
  }

  lemma ServeTellsNobody(s: Sh.State, step: Sh.Step, sizes: Sh.Sizes, t: G.TaskId)
    requires step.Serve?
    ensures ToldTo(Sh.Next(s, step, sizes), t) == ToldTo(s, t)
  {
    var p := Sh.PubOf(step.frame);
    DispatchKeys(s.outs, s.reg.registered, p, step.selected);
    if t in s.outs {
      var due := FramesFor(p, DueTargets(s.reg.registered, p, step.selected, t));
      DispatchEach(s.outs, s.reg.registered, p, step.selected, t);
      SendAllOffered(s.outs[t], due);
      MsgsDontTell(s.outs[t].offered, due);
    }
  }

  lemma RegisterTellsNobody(s: Sh.State, reg: G.Step, sizes: Sh.Sizes, t: G.TaskId)
    requires Sh.TasksOk(s) && G.Enabled(s.reg, reg)
    ensures ToldTo(Sh.Next(s, Sh.Register(reg), sizes), t) == ToldTo(s, t)
  {
    assert multiset(NewOut(sizes.capacity, sizes.bufLen).offered) == multiset{};
  }

  lemma ReplyTells(s: Sh.State, step: Sh.Step, sizes: Sh.Sizes, t: G.TaskId)
    requires step.Reply? && step.task in s.outs
    ensures ToldTo(Sh.Next(s, step, sizes), t) == ToldTo(s, t) + if TellsOnShard(step, t) then 1 else 0
  {
    if step.task == t {
      SendOffered(s.outs[t], step.f);
      assert multiset(s.outs[t].offered + [step.f]) == multiset(s.outs[t].offered) + multiset{step.f};
    }
  }

  lemma ToldInStep(s: Sh.State, step: Sh.Step, sizes: Sh.Sizes, t: G.TaskId)
    requires Sh.TasksOk(s) && Sh.Enabled(s, step)
    ensures ToldTo(Sh.Next(s, step, sizes), t) == ToldTo(s, t) + if TellsOnShard(step, t) then 1 else 0
  {
    match step
    case Register(reg) => RegisterTellsNobody(s, reg, sizes, t);
    case Serve(_, _, _) => ServeTellsNobody(s, step, sizes, t);
    case Reply(_, _) => ReplyTells(s, step, sizes, t);
    case _ =>
  }

  // ------------------------------------------------------------------ the broker

  /** What a step of the broker does to workers and inboxes. */
  function SysOf(st: Option<BrokerStep>): Option<X.SysStep> {
    if st.None? then None
    else
      match st.value
      case Publish(i, f, _) => Some(X.Handle(i, f))
      case Visit(i) => Some(X.Visit(i))
      case Push(i, spurious) => Some(X.Push(i, spurious))
      case Drain(j, _) => Some(X.Drain(j))
      case Local(_, _) => None
  }

  lemma SysBy(b: Broker, st: Option<BrokerStep>, sizes: Sh.Sizes)
    requires CanPerform(b, st)
    ensures var b' := Perform(b, st, sizes);
            && (SysOf(st).Some? ==> X.SysEnabled(b.sys, SysOf(st).value) && b'.sys == X.SysNext(b.sys, SysOf(st).value))
            && (SysOf(st).None? ==> b'.sys == b.sys)
  {
  }

  predicate TellsBy(st: Option<BrokerStep>, k: nat, t: G.TaskId) {
    st.Some? && st.value.Local? && st.value.i == k && TellsOnShard(st.value.step, t)
  }

  lemma TellsOn(b: Broker, st: Option<BrokerStep>, k: nat, t: G.TaskId)
    requires k < |b.sys.inboxes|
    ensures TellsBy(st, k, t) <==> StepOn(b, st, k).Some? && TellsOnShard(StepOn(b, st, k).value, t)
  {
  }

  lemma ToldBy(cfg: Config, b: Broker, st: Option<BrokerStep>, k: nat, t: G.TaskId)
    requires BrokerInv(cfg, b) && CanPerform(b, st) && k < cfg.shards
    ensures var b' := Perform(b, st, cfg.sizes);
            |b'.shards| == |b.shards| && ToldTo(b'.shards[k], t) == ToldTo(b.shards[k], t) + if TellsBy(st, k, t) then 1 else 0
  {
    TasksOn(cfg, b, k);
    PerformOn(b, st, cfg.sizes, k);
    TellsOn(b, st, k, t);
    if StepOn(b, st, k).Some? {
      ToldInStep(b.shards[k], StepOn(b, st, k).value, cfg.sizes, t);
    }
  }

  /** How many of t's PUBs its worker is through with and some other shard refused. */
  ghost function ToTell(sys: X.System, k: nat, t: G.TaskId): nat
    requires k < |sys.workers|
  {
    Refusals(sys, k, t, Done(sys, k))
  }

  lemma ToTellBy(cfg: Config, b: Broker, st: Option<BrokerStep>, k: nat, t: G.TaskId)
    requires BrokerInv(cfg, b) && CanPerform(b, st) && k < cfg.shards
    ensures var b' := Perform(b, st, cfg.sizes);
            && k < |b'.sys.workers|
            && ToTell(b'.sys, k, t) == ToTell(b.sys, k, t) + if SysOf(st).Some? && Tells(b.sys, SysOf(st).value, k, t) then 1 else 0
  {
    SysBy(b, st, cfg.sizes);
    InboxFacts(cfg, b.sys, k);
    if SysOf(st).Some? {
      RefusalsStep(b.sys, cfg.cap, SysOf(st).value, k, t);
    }
  }

  // ------------------------------------------------------------------ every run

  /** Whoever a worker is round with has a connection to be told on. */
  lemma PublisherConnected(cfg: Config, schedule: seq<NetStep>, k: nat)
    requires cfg.cap >= 2 && cfg.sizes.bufLen > 0 && k < cfg.shards
    ensures var b := NetExec(cfg, schedule).b;
            && k < |b.shards| && k < |b.sys.workers|
            && (Finishing(b.sys, k) ==> b.sys.workers[k].pc.frame.publisher in b.shards[k].outs)
  {
    var n := NetExec(cfg, schedule);
    NetAlways(cfg, schedule);
    InboxFacts(cfg, n.b.sys, k);
    if Finishing(n.b.sys, k) {
      var f := n.b.sys.workers[k].pc.frame;
      FinishSeen(n.b.sys, cfg.cap, k);
      ValidIn(n.b.sys.workers[k].handled, f);
      X.ByIn(n.b.sys.workers[k].handled, f);
      InputAlways(cfg, schedule, k, f.publisher);
      EveryFrameAnswered(cfg, schedule, k, f.publisher);
    }
  }

  /** Handling a frame, greeting and closing tell nobody, and neither does what runs in the background. */
  lemma FirstTellsNobody(n: Net, step: NetStep, sizes: Sh.Sizes, k: nat, t: G.TaskId)
    requires NetEnabled(n, step, sizes)
    ensures !TellsBy(First(step), k, t)
  {
  }

  lemma SecondTells(n: Net, step: NetStep, k: nat, t: G.TaskId)
    ensures SysOf(Second(n, step)).None?
    ensures TellsBy(Second(n, step), k, t) <==>
            && step.Other? && ReportsPressure(n.b, step.step) && step.step.i == k
            && n.b.sys.workers[k].pc.frame.publisher == t
  {
    if step.Take? && HasNext(n, step.i, step.task) {
      NotBackPressure(NextFrame(n, step.i, step.task));
    }
  }

  /** Which steps tell whom: exactly a worker's return from its round, if it saw a refusal. */
  lemma TellsWhat(n: Net, step: NetStep, sizes: Sh.Sizes, k: nat, t: G.TaskId)
    requires NetEnabled(n, step, sizes) && k < |n.b.shards| && k < |n.b.sys.workers|
    requires Finishing(n.b.sys, k) ==> n.b.sys.workers[k].pc.frame.publisher in n.b.shards[k].outs
    ensures TellsBy(Second(n, step), k, t) <==> SysOf(First(step)).Some? && Tells(n.b.sys, SysOf(First(step)).value, k, t)
  {
    SecondTells(n, step, k, t);
    OnlyOthersVisit(n, step, sizes, k);
  }

  lemma OnlyOthersVisit(n: Net, step: NetStep, sizes: Sh.Sizes, k: nat)
    requires NetEnabled(n, step, sizes)
    ensures SysOf(First(step)) == Some(X.Visit(k)) <==> step == Other(Visit(k))
  {
  }

  lemma BothTell(cfg: Config, n: Net, step: NetStep, mid: Broker, k: nat, t: G.TaskId)
    requires BrokerInv(cfg, n.b) && BrokerInv(cfg, mid) && NetEnabled(n, step, cfg.sizes) && k < cfg.shards
    requires mid == Perform(n.b, First(step), cfg.sizes)
    requires Finishing(n.b.sys, k) ==> n.b.sys.workers[k].pc.frame.publisher in n.b.shards[k].outs
    ensures var b' := Perform(mid, Second(n, step), cfg.sizes);
            var told := if TellsBy(Second(n, step), k, t) then 1 else 0;
            && k < |b'.shards| && k < |b'.sys.workers|
            && ToldTo(b'.shards[k], t) == ToldTo(n.b.shards[k], t) + told
            && ToTell(b'.sys, k, t) == ToTell(n.b.sys, k, t) + told
  {
    ToldBy(cfg, n.b, First(step), k, t);
    ToldBy(cfg, mid, Second(n, step), k, t);
    ToTellBy(cfg, n.b, First(step), k, t);
    ToTellBy(cfg, mid, Second(n, step), k, t);
    FirstTellsNobody(n, step, cfg.sizes, k, t);
    SecondTells(n, step, k, t);
    TellsWhat(n, step, cfg.sizes, k, t);
  }

  /** The broker half way through a step. */
  lemma Halfway(cfg: Config, n: Net, step: NetStep) returns (mid: Broker)
    requires BrokerReachable(cfg, n.b) && cfg.cap >= 2 && cfg.sizes.bufLen > 0 && NetEnabled(n, step, cfg.sizes)
    ensures mid == Perform(n.b, First(step), cfg.sizes) && BrokerInv(cfg, mid) && CanPerform(mid, Second(n, step))
    ensures NetNext(n, step, cfg.sizes).b == Perform(mid, Second(n, step), cfg.sizes)
  {
    mid := Perform(n.b, First(step), cfg.sizes);
    PerformKeeps(cfg, n.b, First(step));
    BrokerReachableInv(cfg, mid);
  }

  lemma {:induction false} PressureAlways(cfg: Config, schedule: seq<NetStep>, k: nat, t: G.TaskId)
    requires cfg.cap >= 2 && cfg.sizes.bufLen > 0 && k < cfg.shards
    ensures var b := NetExec(cfg, schedule).b;
            && k < |b.shards| && k < |b.sys.workers|
            && ToldTo(b.shards[k], t) == ToTell(b.sys, k, t)
  {
    if schedule != [] {
      var before, step := schedule[..|schedule| - 1], schedule[|schedule| - 1];
      var n := NetExec(cfg, before);
      PressureAlways(cfg, before, k, t);
      NetAlways(cfg, before);
      PublisherConnected(cfg, before, k);
      if NetEnabled(n, step, cfg.sizes) {
        var mid := Halfway(cfg, n, step);
        BothTell(cfg, n, step, mid, k, t);
      }
    }
  }

  /**
   Back-pressure is reported: on every run, a connection has been told of it once for each of its valid
   PUBs that some other shard's inbox refused, as far as its worker is through with them, which is all
   of them when the worker is ready; and the worker is never kept from telling it.
   */
  lemma PressureTold(cfg: Config, schedule: seq<NetStep>, k: nat, t: G.TaskId)
    requires cfg.cap >= 2 && cfg.sizes.bufLen > 0 && k < cfg.shards
    ensures var b := NetExec(cfg, schedule).b;
            && k < |b.shards| && k < |b.sys.workers|
            && var n := Done(b.sys, k);
               && (if t in b.shards[k].outs then multiset(b.shards[k].outs[t].offered)[W.ErrText(Ascii("shard back-pressure"))] else 0)
                  == Refusals(b.sys, k, t, n)
               && (b.sys.workers[k].pc.Ready? ==> n == |X.Valid(b.sys.workers[k].handled)|)
               && (Finishing(b.sys, k) && PressureSeen(b.sys, k) ==>
                     b.sys.workers[k].pc.frame.publisher in b.shards[k].outs)
  {
    PressureAlways(cfg, schedule, k, t);
    PublisherConnected(cfg, schedule, k);
  }
}
