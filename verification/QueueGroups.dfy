/** Queue groups across the shards of a running broker: how often one PUB serves a group. */
module QueueGroups {
  import opened Bytes
  import opened Subject
  import opened Trie
  import opened TableHistory
  import opened Dispatch
  import opened EndToEnd
  import opened InboxDelivery
  import opened Broker
  import opened BrokerTheorems
  import X = CrossShard
  import Sh = Shard

  /** Dispatch number k of a shard is its n-th for worker a. */
  ghost predicate IsNth(served: seq<Sh.Service>, a: nat, n: nat, k: nat) {
    k < |served| && served[k].from == a && |ServedFrom(served[..k], a)| == n
  }

  lemma {:induction false} FindNth(served: seq<Sh.Service>, a: nat, n: nat) returns (k: nat)
    requires n < |ServedFrom(served, a)|
    ensures IsNth(served, a, n, k) && served[k].frame == ServedFrom(served, a)[n]
  {
    var m := |served| - 1;
    var before := served[..m];
    if n < |ServedFrom(before, a)| {
      k := FindNth(before, a, n);
      assert before[..k] == served[..k];
    } else {
      k := m;
    }
  }

  /** Where an accepted push is among the accepted ones. */
  lemma {:induction false} AcceptedAt(answers: seq<(PubFrame, bool)>, n: nat)
    requires n < |answers| && answers[n].1
    ensures var rank := |Accepted(answers[..n])|;
            rank < |Accepted(answers)| && Accepted(answers)[rank] == answers[n].0
  {
    var m := |answers| - 1;
    if n < m {
      AcceptedAt(answers[..m], n);
      assert answers[..m][..n] == answers[..n];
    }
  }

  /** Worker i's n-th valid PUB was pushed into every other inbox. */
  ghost predicate TakenByAll(b: Broker, i: nat, n: nat)
    requires Shaped(b)
  {
    forall j | 0 <= j < |b.shards| && j != i ::
      var answers := b.sys.inboxes[j].Returned(i);
      n < |answers| && answers[n].1
  }

  /** Nothing is on its way from worker i. */
  ghost predicate QuietFrom(b: Broker, i: nat)
    requires Shaped(b) && i < |b.shards|
  {
    forall j | 0 <= j < |b.shards| && j != i :: QuietBetween(b, i, j)
  }

  /** Which of worker i's dispatches on shard j is that of its n-th valid PUB. */
  function Rank(b: Broker, i: nat, j: nat, n: nat): nat
    requires b.sys.Shaped() && j < |b.sys.workers|
  {
    if i == j then n
    else
      var answers := b.sys.inboxes[j].Returned(i);
      if n <= |answers| then |Accepted(answers[..n])| else 0
  }

  /** Dispatch k of shard j is that of worker i's n-th valid PUB. */
  ghost predicate DispatchOf(b: Broker, i: nat, n: nat, j: nat, k: nat)
    requires Shaped(b) && i < |b.shards| && j < |b.shards| && n < |X.Valid(b.sys.workers[i].handled)|
  {
    && IsNth(b.shards[j].served, i, Rank(b, i, j, n), k)
    && b.shards[j].served[k].frame == X.Valid(b.sys.workers[i].handled)[n]
  }

  lemma FindDispatch(cfg: Config, b: Broker, i: nat, n: nat, j: nat) returns (k: nat)
    requires BrokerInv(cfg, b) && i < cfg.shards && j < cfg.shards && n < |X.Valid(b.sys.workers[i].handled)|
    requires QuietFrom(b, i) && TakenByAll(b, i, n)
    ensures DispatchOf(b, i, n, j, k)
  {
    DispatchedExactly(cfg, b, i, j);
    if i != j {
      var answers := b.sys.inboxes[j].Returned(i);
      assert QuietBetween(b, i, j);
      AcceptedAt(answers, n);
      assert X.Offered(answers)[n] == answers[n].0;
    }
    k := FindNth(b.shards[j].served, i, Rank(b, i, j, n));
  }

  /** The matches a dispatch found. */
  function Found(v: Sh.Service): seq<Sub> {
    if X.Publishable(v.frame) then Sh.MatchesOf(v.reg.history, v.frame) else []
  }

  /** What the dispatches `ks`, one on each shard, found and selected. */
  function FoundBy(b: Broker, ks: seq<nat>): (ms: seq<seq<Sub>>)
    requires |ks| == |b.shards| && forall j | 0 <= j < |ks| :: ks[j] < |b.shards[j].served|
    ensures |ms| == |ks|
  {
    seq(|ks|, (j: nat) requires j < |ks| => Found(b.shards[j].served[ks[j]]))
  }

  function SelectedBy(b: Broker, ks: seq<nat>): (ts: seq<seq<Target>>)
    requires |ks| == |b.shards| && forall j | 0 <= j < |ks| :: ks[j] < |b.shards[j].served|
    ensures |ts| == |ks|
  {
    seq(|ks|, (j: nat) requires j < |ks| => b.shards[j].served[ks[j]].selected)
  }

  /** The dispatches of that PUB on the first shards. */
  ghost predicate DispatchesOf(b: Broker, i: nat, n: nat, ks: seq<nat>)
    requires Shaped(b) && i < |b.shards| && n < |X.Valid(b.sys.workers[i].handled)|
  {
    |ks| <= |b.shards| && forall j | 0 <= j < |ks| :: DispatchOf(b, i, n, j, ks[j])
  }

  lemma OneMoreDispatch(b: Broker, i: nat, n: nat, ks: seq<nat>, k: nat)
    requires Shaped(b) && i < |b.shards| && n < |X.Valid(b.sys.workers[i].handled)|
    requires DispatchesOf(b, i, n, ks) && |ks| < |b.shards| && DispatchOf(b, i, n, |ks|, k)
    ensures DispatchesOf(b, i, n, ks + [k])
  {
  }

  lemma FindDispatches(cfg: Config, b: Broker, i: nat, n: nat, shards: nat) returns (ks: seq<nat>)
    requires BrokerInv(cfg, b) && i < cfg.shards && n < |X.Valid(b.sys.workers[i].handled)| && shards <= cfg.shards
    requires QuietFrom(b, i) && TakenByAll(b, i, n)
    ensures |ks| == shards && DispatchesOf(b, i, n, ks)
  {
    if shards == 0 {
      ks := [];
    } else {
      var before := FindDispatches(cfg, b, i, n, shards - 1);
      var k := FindDispatch(cfg, b, i, n, shards - 1);
      OneMoreDispatch(b, i, n, before, k);
      ks := before + [k];
    }
  }

  lemma DispatchSelects(cfg: Config, b: Broker, j: nat, k: nat)
    requires BrokerInv(cfg, b) && j < cfg.shards && k < |b.shards[j].served|
    ensures Selects(Found(b.shards[j].served[k]), b.shards[j].served[k].selected)
  {
    assert Sh.Inv(b.shards[j], cfg.sizes);
    assert Sh.ServiceOk(b.shards[j].served[k], b.shards[j].reg.ids);
  }

  /**
   One PUB and one queue group, across the whole broker: for a valid PUB that every other shard's inbox
   accepted, once nothing is on its way from its worker, every shard has dispatched it, and over all
   shards the group was served once for each shard that held a matching member when it dispatched;
   so exactly once iff exactly one shard did.
   */
  lemma GroupAcrossShards(cfg: Config, schedule: seq<BrokerStep>, i: nat, n: nat, g: Bytes) returns (ks: seq<nat>)
    requires cfg.cap >= 2 && cfg.sizes.bufLen > 0 && i < cfg.shards
    requires var b := BrokerExec(cfg, schedule);
             && Shaped(b) && |b.shards| == cfg.shards && n < |X.Valid(b.sys.workers[i].handled)|
             && QuietFrom(b, i) && TakenByAll(b, i, n)
    ensures var b := BrokerExec(cfg, schedule);
            && |ks| == cfg.shards && DispatchesOf(b, i, n, ks)
            && AllSelect(FoundBy(b, ks), SelectedBy(b, ks))
            && |Served(FoundBy(b, ks), SelectedBy(b, ks), g)| == HoldingShards(FoundBy(b, ks), g)
            && (|Served(FoundBy(b, ks), SelectedBy(b, ks), g)| == 1 <==> exists s: nat :: OnlyHolder(FoundBy(b, ks), s, g))
  {
    var b := BrokerExec(cfg, schedule);
    BrokerAlways(cfg, schedule);
    ks := FindDispatches(cfg, b, i, n, cfg.shards);
    forall j | 0 <= j < cfg.shards
      ensures Selects(FoundBy(b, ks)[j], SelectedBy(b, ks)[j])
    {
      assert DispatchOf(b, i, n, j, ks[j]);
      DispatchSelects(cfg, b, j, ks[j]);
    }
    OncePerShard(FoundBy(b, ks), SelectedBy(b, ks), g);
  }

  /** A shard holds a matching member at a dispatch iff one of its subscriptions in the group covers the subject. */
  lemma HoldsListed(v: Sh.Service, g: Bytes)
    requires X.Publishable(v.frame)
    ensures Members(Found(v), g) != [] <==> ListsGroup(Covering(Listing(v.reg.history), v.frame.subject), g)
  {
    PublisherAccepts(v.frame.subject);
    TrieServesSubjects(v.reg.history, v.frame.subject);
    GroupsInhabited(Found(v), g);
    GroupListed(Found(v), Covering(Listing(v.reg.history), v.frame.subject), g);
  }
}
