/**
 From one client's bytes to another's: whose PUB and whose SUB every MSG a client reads goes back to,
 and when every PUB has been dispatched.
 */
module ClientMessages {
  import opened Bytes
  import opened Subject
  import opened TableHistory
  import opened Dispatch
  import opened EndToEnd
  import opened ClientStream
  import opened Broker
  import opened BrokerTheorems
  import opened Provenance
  import opened Clients
  import opened ClientRecords
  import T = Trie
  import W = Wire
  import F = Fanout
  import G = Registration
  import X = CrossShard
  import Sh = Shard

  // -------------------------------------------------------------- back to a PUB

  lemma {:induction false} PubTaken(fs: seq<W.Frame>, t: G.TaskId, f: PubFrame)
    requires f in PubsOf(fs, t)
    ensures W.Pub(f.subject, f.replyTo, f.payload) in fs && |f.payload| <= 1024 * 1024
  {
    if f in PubsOf(fs[..|fs| - 1], t) {
      PubTaken(fs[..|fs| - 1], t, f);
    }
  }

  /** The frame of a dispatch is a PUB its publisher's reader took from the bytes of its client. */
  lemma DispatchPublished(cfg: Config, schedule: seq<NetStep>, j: nat, k: nat)
    requires cfg.cap >= 2 && cfg.sizes.bufLen > 0 && j < cfg.shards
    ensures var n := NetExec(cfg, schedule);
            && j < |n.b.shards|
            && (k < |n.b.shards[j].served| ==>
                  var v := n.b.shards[j].served[k];
                  && v.from < cfg.shards
                  && W.Pub(v.frame.subject, v.frame.replyTo, v.frame.payload) in n.At(v.from, v.frame.publisher).taken
                  && |v.frame.payload| <= 1024 * 1024
                  && v.reg.history <= n.b.shards[j].reg.history)
  {
    var n := NetExec(cfg, schedule);
    NetAlways(cfg, schedule);
    DispatchHandled(cfg, n.b, j, k);
    if k < |n.b.shards[j].served| {
      var v := n.b.shards[j].served[k];
      InputAlways(cfg, schedule, v.from, v.frame.publisher);
      X.ByIn(n.b.sys.workers[v.from].handled, v.frame);
      PubTaken(n.At(v.from, v.frame.publisher).taken, v.frame.publisher, v.frame);
    }
  }

  // -------------------------------------------------------------- back to a SUB

  lemma {:induction false} CoveringIn(ls: seq<Listed>, subject: Bytes, s: T.Sub) returns (l: Listed)
    requires s in Covering(ls, subject)
    ensures l in ls && l.sub == s && Covers(l.subject, subject)
  {
    if s in Covering(ls[..|ls| - 1], subject) {
      l := CoveringIn(ls[..|ls| - 1], subject, s);
    } else {
      l := ls[|ls| - 1];
    }
  }

  lemma {:induction false} UnlistIn(ls: seq<Listed>, subject: Bytes, conn: T.ConnectionId, sid: Bytes, l: Listed)
    requires l in Unlist(ls, subject, conn, sid)
    ensures l in ls
  {
    if l in Unlist(ls[..|ls| - 1], subject, conn, sid) {
      UnlistIn(ls[..|ls| - 1], subject, conn, sid, l);
    }
  }

  /** What is listed was subscribed. */
  lemma {:induction false} ListedIn(ops: seq<Op>, l: Listed)
    requires l in Listing(ops)
    ensures Subscribe(l.subject, l.sub) in ops
  {
    var before, op := ops[..|ops| - 1], ops[|ops| - 1];
    if op.Unsubscribe? {
      UnlistIn(Listing(before), op.subject, op.conn, op.sid, l);
    }
    if l in Listing(before) {
      ListedIn(before, l);
    }
  }

  lemma {:induction false} OwnedIn(history: seq<Op>, owners: seq<G.TaskId>, k: nat)
    requires |owners| == |history| && k < |history|
    ensures history[k] in OpsBy(history, owners, owners[k])
  {
    if k < |history| - 1 {
      OwnedIn(history[..|history| - 1], owners[..|history| - 1], k);
    }
  }

  lemma {:induction false} SubTaken(fs: seq<W.Frame>, c: T.ConnectionId, op: Op)
    requires op in OpsOf(fs, c) && op.Subscribe?
    ensures op.sub.conn == c && W.Sub(op.subject, op.sub.queueGroup, op.sub.sid) in fs
  {
    if op in OpsOf(fs[..|fs| - 1], c) {
      SubTaken(fs[..|fs| - 1], c, op);
    }
  }

  /** A subscription in a table's history is a SUB taken from the bytes of a client with its connection id. */
  lemma HistorySubscribed(cfg: Config, schedule: seq<NetStep>, j: nat, op: Op) returns (t: G.TaskId)
    requires j < cfg.shards && j < |NetExec(cfg, schedule).b.shards|
    requires op in NetExec(cfg, schedule).b.shards[j].reg.history && op.Subscribe?
    ensures var n := NetExec(cfg, schedule);
            && t < n.b.shards[j].reg.ids && G.IdOf(t) == op.sub.conn
            && W.Sub(op.subject, op.sub.queueGroup, op.sub.sid) in n.At(j, t).taken
  {
    var n := NetExec(cfg, schedule);
    var reg := n.b.shards[j].reg;
    RecordsAlways(cfg, schedule, j, 0);
    var k :| 0 <= k < |reg.history| && reg.history[k] == op;
    t := n.owners[j][k];
    OwnedIn(reg.history, n.owners[j], k);
    RecordsAlways(cfg, schedule, j, t);
    SubTaken(n.At(j, t).taken, G.IdOf(t), op);
  }

  // ------------------------------------------------------------- the explanation

  lemma {:induction false} MsgIn(fs: seq<W.Frame>, m: W.Frame)
    requires m in fs && m.Msg?
    ensures m in Sh.Msgs(fs)
  {
    if m in fs[..|fs| - 1] {
      MsgIn(fs[..|fs| - 1], m);
    }
  }

  lemma {:induction false} DueIn(served: seq<Sh.Service>, task: G.TaskId, m: W.Frame) returns (k: nat)
    requires m in Sh.Due(served, task)
    ensures k < |served| && m in Sh.DueFrom(served[k], task)
  {
    k := |served| - 1;
    if m in Sh.Due(served[..k], task) {
      k := DueIn(served[..k], task, m);
    }
  }

  lemma {:induction false} IdsAlways(schedule: seq<G.Step>)
    ensures F.OneIdEach(G.Exec(schedule).registered)
  {
    if schedule != [] {
      IdsAlways(schedule[..|schedule| - 1]);
    }
  }

  lemma ServiceIds(reg: G.Registry)
    requires G.Reachable(reg)
    ensures F.OneIdEach(reg.registered)
  {
    var schedule :| reg == G.Exec(schedule);
    IdsAlways(schedule);
  }

  /** A MSG due from a dispatch has its frame's fields and the sid of a listed subscription of the task's. */
  lemma DueExplained(v: Sh.Service, ids: nat, task: G.TaskId, m: W.Frame) returns (l: Listed)
    requires Sh.ServiceOk(v, ids) && m in Sh.DueFrom(v, task) && m.Msg?
    ensures m == W.Msg(v.frame.subject, m.sid, v.frame.replyTo, v.frame.payload)
    ensures PublisherSubject(v.frame.subject)
    ensures G.IdOf(task) in v.reg.registered && v.reg.registered[G.IdOf(task)] == task
    ensures l in Listing(v.reg.history) && l.sub.conn == G.IdOf(task) && l.sub.sid == m.sid && Covers(l.subject, v.frame.subject)
  {
    var matches, t := Sh.MatchesOf(v.reg.history, v.frame), Target(G.IdOf(task), m.sid);
    assert multiset(Sh.DueFrom(v, task))[m] > 0;
    ServiceIds(v.reg);
    DueExactly(v, task, m);
    PublisherAccepts(v.frame.subject);
    TrieServesSubjects(v.reg.history, v.frame.subject);
    var s := SelectedListed(matches, v.selected, Covering(Listing(v.reg.history), v.frame.subject), t);
    l := CoveringIn(Listing(v.reg.history), v.frame.subject, s);
  }

  lemma ServiceAt(cfg: Config, b: Broker, j: nat, k: nat)
    requires BrokerInv(cfg, b) && j < cfg.shards && k < |b.shards[j].served|
    ensures Sh.ServiceOk(b.shards[j].served[k], b.shards[j].reg.ids)
  {
    assert Sh.Inv(b.shards[j], cfg.sizes);
  }

  lemma DueReached(cfg: Config, b: Broker, j: nat, task: G.TaskId, m: W.Frame) returns (k: nat, l: Listed)
    requires BrokerInv(cfg, b) && j < cfg.shards && m in Sh.Due(b.shards[j].served, task) && m.Msg?
    ensures k < |b.shards[j].served|
    ensures var v := b.shards[j].served[k];
            && m == W.Msg(v.frame.subject, m.sid, v.frame.replyTo, v.frame.payload)
            && PublisherSubject(v.frame.subject)
            && G.IdOf(task) in v.reg.registered && v.reg.registered[G.IdOf(task)] == task
            && l in Listing(v.reg.history)
            && l.sub.conn == G.IdOf(task) && l.sub.sid == m.sid && Covers(l.subject, v.frame.subject)
  {
    k := DueIn(b.shards[j].served, task, m);
    var v := b.shards[j].served[k];
    ServiceAt(cfg, b, j, k);
    l := DueExplained(v, b.shards[j].reg.ids, task, m);
  }

  /** What is listed is on record where records and table agree. */
  lemma ListedRecorded(reg: G.Registry, l: Listed)
    requires l in Listing(reg.history)
    ensures G.Agrees(reg) ==>
              && l.sub.conn in reg.registered && reg.registered[l.sub.conn] in reg.readers
              && l.sub.sid in reg.readers[reg.registered[l.sub.conn]]
  {
    ListingSame(reg.history);
    var k :| 0 <= k < |Listing(reg.history)| && Listing(reg.history)[k] == l;
    assert reg.Entries()[k] in reg.Entries();
  }

  lemma SameTask(a: G.TaskId, b: G.TaskId)
    requires G.IdOf(a) == G.IdOf(b) && a < 0x1_0000_0000 && b < 0x1_0000_0000
    ensures a == b
  {
  }

  /** What a dispatch was made for, and whose PUB it was of, on record in what readers have taken. */
  ghost predicate Explained(n: Net, j: nat, task: G.TaskId, m: W.Frame, v: Sh.Service, l: Listed, t: G.TaskId)
    requires m.Msg?
  {
    && m == W.Msg(v.frame.subject, m.sid, v.frame.replyTo, v.frame.payload)
    && PublisherSubject(m.subject) && |m.payload| <= 1024 * 1024
    && W.Pub(m.subject, m.replyTo, m.payload) in n.At(v.from, v.frame.publisher).taken
    && G.IdOf(task) in v.reg.registered && v.reg.registered[G.IdOf(task)] == task
    && l in Listing(v.reg.history)
    && l.sub.conn == G.IdOf(task) && l.sub.sid == m.sid && Covers(l.subject, m.subject)
    && (G.Agrees(v.reg) ==> task in v.reg.readers && m.sid in v.reg.readers[task])
    && G.IdOf(t) == G.IdOf(task)
    && W.Sub(l.subject, l.sub.queueGroup, m.sid) in n.At(j, t).taken
  }

  /**
   Every MSG a client reads is accounted for: there is a dispatch of its shard, made while its task was
   registered, of a PUB with the same subject, reply subject and payload that some connection's reader
   took from its client's bytes; and a SUB with its sid, subscribed and not yet unsubscribed at that
   dispatch, whose subject covers the one published, that a reader with its connection id took from its
   client's bytes, which is its own reader until connection ids are used again.  Where records and table
   agree at the dispatch, as they do on careful runs, the sid was on the record of its own reader.
   */
  lemma EachMsgExplained(cfg: Config, schedule: seq<NetStep>, j: nat, task: G.TaskId, budget: nat, m: W.Frame)
    returns (k: nat, l: Listed, t: G.TaskId)
    requires cfg.cap >= 2 && cfg.sizes.bufLen >= 21 && j < cfg.shards
    requires var b := NetExec(cfg, schedule).b;
             && j < |b.shards| && task in b.shards[j].outs && budget > |b.shards[j].outs[task].offered| + 1
             && m in ReadsOf(b.shards[j].outs[task].conn.socket, budget).frames && m.Msg?
    ensures var n := NetExec(cfg, schedule);
            && k < |n.b.shards[j].served|
            && Explained(n, j, task, m, n.b.shards[j].served[k], l, t)
            && (n.b.shards[j].reg.ids <= 0x1_0000_0000 ==> t == task)
  {
    var n := NetExec(cfg, schedule);
    NetAlways(cfg, schedule);
    SubscriberReads(cfg, n.b, j, task, budget);
    MsgIn(ReadsOf(n.b.shards[j].outs[task].conn.socket, budget).frames, m);
    k, l := DueReached(cfg, n.b, j, task, m);
    DispatchPublished(cfg, schedule, j, k);
    ListedIn(n.b.shards[j].served[k].reg.history, l);
    ListedRecorded(n.b.shards[j].served[k].reg, l);
    t := HistorySubscribed(cfg, schedule, j, Subscribe(l.subject, l.sub));
    assert Sh.Inv(n.b.shards[j], cfg.sizes);
    if n.b.shards[j].reg.ids <= 0x1_0000_0000 {
      SameTask(task, t);
    }
  }

  // ------------------------------------------------------------ nothing left out

  /**
   From one client's bytes to another's: what shard j has dispatched for a connection of shard i are the
   valid PUBs that connection's client sent and its reader handled, in order: all of them if it is the
   same shard, and otherwise, once nothing is on its way, all of them iff none of its pushes into j's
   inbox was refused.  A flushed open connection of shard j has read exactly what is due to it from
   j's dispatches.
   */
  lemma ClientToClient(cfg: Config, schedule: seq<NetStep>, i: nat, t: G.TaskId, j: nat, task: G.TaskId, budget: nat)
    requires cfg.cap >= 2 && cfg.sizes.bufLen >= 21 && i < cfg.shards && j < cfg.shards
    requires var b := NetExec(cfg, schedule).b;
             && j < |b.shards| && task in b.shards[j].outs && budget > |b.shards[j].outs[task].offered| + 1
    ensures var n := NetExec(cfg, schedule);
            var b, sent := n.b, Sent(n, i, t);
            var o, done := b.shards[j].outs[task], X.By(ServedFrom(b.shards[j].served, i), t);
            && Shaped(b) && |b.shards| == cfg.shards
            && n.At(i, t).taken <= Incoming(n.At(i, t).bytes)
            && (i == j ==> done == sent)
            && (i != j && QuietBetween(b, i, j) ==> (done == sent <==> X.NoneRefused(b.sys.inboxes[j].Returned(i), t)))
            && (Flushed(o) ==> Sh.Msgs(ReadsOf(o.conn.socket, budget).frames) == Sh.Due(b.shards[j].served, task))
  {
    var b := NetExec(cfg, schedule).b;
    NetAlways(cfg, schedule);
    HandledIsSent(cfg, schedule, i, t);
    DispatchedExactly(cfg, b, i, j);
    SubscriberReads(cfg, b, j, task, budget);
    if i != j && QuietBetween(b, i, j) {
      X.AcceptedOffered(b.sys.inboxes[j].Returned(i), t);
    }
  }
}
