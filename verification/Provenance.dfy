/**
 Where what is dispatched comes from: on every run, every dispatch of a shard is of a frame the worker
 it came from had handled, and was made with the table as some earlier part of the shard's history
 left it.
 */
module Provenance {
  import opened Wrappers
  import opened Bytes
  import opened TableHistory
  import opened InboxDelivery
  import opened Broker
  import opened BrokerTheorems
  import T = Trie
  import G = Registration
  import X = CrossShard
  import Sh = Shard

  // ------------------------------------------------------------ one shard's step

  /** What a step of the broker does on shard k. */
  function OnShardK(b: Broker, st: BrokerStep, k: nat): Option<Sh.Step>
    requires k < |b.sys.inboxes|
  {
    match st
    case Publish(i, f, selected) => if i == k && X.Publishable(f) then Some(Sh.Serve(f, i, selected)) else None
    case Drain(j, selected) => if j == k then NextServe(b.sys.inboxes[k], selected) else None
    case Local(i, step) => if i == k then Some(step) else None
    case _ => None
  }

  lemma ShardBy(b: Broker, st: BrokerStep, sizes: Sh.Sizes, k: nat)
    requires BrokerEnabled(b, st) && k < |b.shards| && k < |b.sys.inboxes|
    ensures var b', step := BrokerNext(b, st, sizes), OnShardK(b, st, k);
            && |b'.shards| == |b.shards|
            && (step.None? ==> b'.shards[k] == b.shards[k])
            && (step.Some? ==> Sh.Enabled(b.shards[k], step.value) && b'.shards[k] == Sh.Next(b.shards[k], step.value, sizes))
  {
  }

  // ----------------------------------------------------------------- the origins

  /** A dispatch from one of the first n shards, with a table that the history since has only added to. */
  ghost predicate Traced(v: Sh.Service, n: nat, history: seq<Op>) {
    v.from < n && v.reg.history <= history
  }

  ghost predicate AllTraced(s: Sh.State, n: nat) {
    forall k | 0 <= k < |s.served| :: Traced(s.served[k], n, s.reg.history)
  }

  lemma {:induction false} CleanupGrows(history: seq<Op>, c: T.ConnectionId, sids: G.Sids, order: seq<Bytes>)
    requires forall sid | sid in order :: sid in sids
    ensures history <= G.Cleanup(history, c, sids, order)
  {
    if order != [] {
      CleanupGrows(history, c, sids, order[..|order| - 1]);
    }
  }

  lemma HistoryKept(r: G.Registry, step: G.Step)
    requires G.Enabled(r, step)
    ensures r.history <= G.Next(r, step).history
  {
    if step.Disconnect? {
      CleanupGrows(r.history, G.IdOf(step.task), r.readers[step.task], step.order);
    }
  }

  lemma TracedLater(s: Sh.State, s': Sh.State, n: nat)
    requires AllTraced(s, n) && s.reg.history <= s'.reg.history
    requires s.served <= s'.served && |s'.served| <= |s.served| + 1
    requires |s'.served| > |s.served| ==> Traced(s'.served[|s.served|], n, s'.reg.history)
    ensures AllTraced(s', n)
  {
    forall k | 0 <= k < |s'.served|
      ensures Traced(s'.served[k], n, s'.reg.history)
    {
      if k < |s.served| {
        assert Traced(s.served[k], n, s.reg.history);
      }
    }
  }

  lemma TracedOnShard(s: Sh.State, step: Sh.Step, sizes: Sh.Sizes, n: nat)
    requires AllTraced(s, n) && Sh.Enabled(s, step) && (step.Serve? ==> step.from < n)
    ensures AllTraced(Sh.Next(s, step, sizes), n)
  {
    if step.Register? {
      HistoryKept(s.reg, step.reg);
    }
    TracedLater(s, Sh.Next(s, step, sizes), n);
  }

  lemma OriginInside(cfg: Config, sys: X.System, j: nat)
    requires SysOk(cfg, sys) && j < cfg.shards && j < |sys.inboxes| && sys.inboxes[j].consumer.Dispatch?
    ensures Origin(sys.inboxes[j]) < cfg.shards
  {
    var s := sys.inboxes[j];
    InboxFacts(cfg, sys, j);
    NextInLog(cfg.cap, s);
    if Origin(s) >= cfg.shards {
      X.NothingFromOthers(cfg.shards, cfg.cap, sys, Origin(s), j);
      FromSome(s.log, |s.dispatched|, Origin(s));
    }
  }

  lemma TracedStep(cfg: Config, b: Broker, st: BrokerStep, k: nat)
    requires BrokerInv(cfg, b) && BrokerEnabled(b, st) && k < cfg.shards && AllTraced(b.shards[k], cfg.shards)
    ensures k < |BrokerNext(b, st, cfg.sizes).shards| && AllTraced(BrokerNext(b, st, cfg.sizes).shards[k], cfg.shards)
  {
    ShardBy(b, st, cfg.sizes, k);
    var step := OnShardK(b, st, k);
    if step.Some? {
      if st.Drain? {
        OriginInside(cfg, b.sys, k);
      }
      TracedOnShard(b.shards[k], step.value, cfg.sizes, cfg.shards);
    }
  }

  lemma {:induction false} TracedAlways(cfg: Config, schedule: seq<BrokerStep>, k: nat)
    requires cfg.cap >= 2 && cfg.sizes.bufLen > 0 && k < cfg.shards
    ensures k < |BrokerExec(cfg, schedule).shards| && AllTraced(BrokerExec(cfg, schedule).shards[k], cfg.shards)
  {
    if schedule != [] {
      var before, st := schedule[..|schedule| - 1], schedule[|schedule| - 1];
      TracedAlways(cfg, before, k);
      BrokerAlways(cfg, before);
      if BrokerEnabled(BrokerExec(cfg, before), st) {
        TracedStep(cfg, BrokerExec(cfg, before), st, k);
      }
    }
  }

  // ------------------------------------------------------------ handled before

  lemma {:induction false} ServedIn(served: seq<Sh.Service>, k: nat)
    requires k < |served|
    ensures served[k].frame in ServedFrom(served, served[k].from)
  {
    if k < |served| - 1 {
      ServedIn(served[..|served| - 1], k);
    }
  }

  lemma {:induction false} ValidIn(fs: seq<PubFrame>, f: PubFrame)
    requires f in X.Valid(fs)
    ensures f in fs
  {
    if fs != [] && f in X.Valid(fs[..|fs| - 1]) {
      ValidIn(fs[..|fs| - 1], f);
    }
  }

  lemma {:induction false} AcceptedIn(answers: seq<(PubFrame, bool)>, f: PubFrame)
    requires f in Accepted(answers)
    ensures f in X.Offered(answers)
  {
    var before, last := answers[..|answers| - 1], answers[|answers| - 1];
    assert X.Offered(answers) == X.Offered(before) + [last.0];
    if f in Accepted(before) {
      AcceptedIn(before, f);
    }
  }

  /** A frame on its way into an inbox is one its worker has handled. */
  lemma InFlightHandled(cfg: Config, b: Broker, i: nat, j: nat, f: PubFrame)
    requires BrokerInv(cfg, b) && i < cfg.shards && j < cfg.shards && i != j && f in InFlight(b.sys.inboxes[j].Pc(i))
    ensures f in b.sys.workers[i].handled
  {
    InboxFacts(cfg, b.sys, j);
    assert X.LinkOk(b.sys, i, j);
    ValidIn(b.sys.workers[i].handled, f);
  }

  /** Every dispatch is of a frame the worker it came from had handled. */
  lemma DispatchHandled(cfg: Config, b: Broker, j: nat, k: nat)
    requires BrokerReachable(cfg, b) && cfg.cap >= 2 && cfg.sizes.bufLen > 0 && j < cfg.shards
    ensures j < |b.shards|
    ensures k < |b.shards[j].served| ==>
              var v := b.shards[j].served[k];
              && v.from < |b.sys.workers|
              && v.frame in b.sys.workers[v.from].handled
              && v.reg.history <= b.shards[j].reg.history
  {
    BrokerReachableInv(cfg, b);
    var schedule :| b == BrokerExec(cfg, schedule);
    TracedAlways(cfg, schedule, j);
    if k < |b.shards[j].served| {
      var v := b.shards[j].served[k];
      assert Traced(v, cfg.shards, b.shards[j].reg.history);
      ServedHandled(cfg, b, v.from, j, k);
    }
  }

  lemma ServedHandled(cfg: Config, b: Broker, i: nat, j: nat, k: nat)
    requires BrokerInv(cfg, b) && i < cfg.shards && j < cfg.shards && k < |b.shards[j].served| && b.shards[j].served[k].from == i
    ensures b.shards[j].served[k].frame in b.sys.workers[i].handled
  {
    var f, s := b.shards[j].served[k].frame, b.sys.inboxes[j];
    ServedIn(b.shards[j].served, k);
    DispatchedExactly(cfg, b, i, j);
    if i == j {
      ValidIn(b.sys.workers[i].handled, f);
    } else if f in InFlight(s.Pc(i)) {
      InFlightHandled(cfg, b, i, j, f);
    } else {
      AcceptedIn(s.Returned(i), f);
      ValidIn(b.sys.workers[i].handled, f);
    }
  }
}
