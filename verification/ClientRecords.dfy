/**
 What a connection's frames have made of its subscriptions, on every run: its sid map is the one its
 SUBs and UNSUBs give, and its share of the table's history is exactly their operations, with the
 unsubscribes of the cleanup once it is gone.
 */
module ClientRecords {
  import opened Wrappers
  import opened Bytes
  import opened Subject
  import opened TableHistory
  import opened Broker
  import opened Clients
  import T = Trie
  import W = Wire
  import G = Registration
  import Sh = Shard

  // ------------------------------------------------------- what frames ask for

  /** The subject each sid stands for after some frames. */
  function SidsOf(fs: seq<W.Frame>): map<Bytes, Bytes> {
    if fs == [] then map[]
    else
      var sids, f := SidsOf(fs[..|fs| - 1]), fs[|fs| - 1];
      if f.Sub? && SubscriberSubject(f.subject) then sids[f.sid := f.subject]
      else if f.Unsub? && f.maxMsgs.None? then sids - {f.sid}
      else sids
  }

  /** The operations some frames of connection c ask of the table. */
  function OpsOf(fs: seq<W.Frame>, c: T.ConnectionId): seq<Op> {
    if fs == [] then []
    else
      var before, f := fs[..|fs| - 1], fs[|fs| - 1];
      OpsOf(before, c) +
      if f.Sub? then [Subscribe(f.subject, T.Sub(c, f.sid, f.queueGroup))]
      else if f.Unsub? && f.maxMsgs.None? && f.sid in SidsOf(before) then [Unsubscribe(SidsOf(before)[f.sid], c, f.sid)]
      else []
  }

  /** The unsubscribes of a cleanup that goes through the sids in some order. */
  function Closing(sids: map<Bytes, Bytes>, c: T.ConnectionId, order: seq<Bytes>): seq<Op> {
    seq(|order|, (k: nat) requires k < |order| =>
      Unsubscribe(if order[k] in sids then sids[order[k]] else [], c, order[k]))
  }

  /** The operations of a history that belong to task t. */
  function OpsBy(history: seq<Op>, owners: seq<G.TaskId>, t: G.TaskId): seq<Op>
    requires |owners| == |history|
  {
    if history == [] then []
    else
      var k := |history| - 1;
      OpsBy(history[..k], owners[..k], t) + if owners[k] == t then [history[k]] else []
  }

  ghost predicate Closed(ops: seq<Op>, fs: seq<W.Frame>, c: T.ConnectionId, order: seq<Bytes>) {
    && (forall sid :: sid in order <==> sid in SidsOf(fs))
    && ops == OpsOf(fs, c) + Closing(SidsOf(fs), c, order)
  }

  /** The records of task t, whose reader has handled `taken`. */
  ghost predicate RecordOk(reg: G.Registry, owners: seq<G.TaskId>, t: G.TaskId, taken: seq<W.Frame>) {
    && |owners| == |reg.history|
    && (t in reg.readers ==>
          && t < reg.ids
          && reg.readers[t] == SidsOf(taken)
          && OpsBy(reg.history, owners, t) == OpsOf(taken, G.IdOf(t)))
    && (t !in reg.readers ==> exists order :: Closed(OpsBy(reg.history, owners, t), taken, G.IdOf(t), order))
    && (t >= reg.ids ==> taken == [] && OpsBy(reg.history, owners, t) == [])
  }

  // ------------------------------------------------------------ one shard's view

  lemma {:induction false} OpsByAppend(h: seq<Op>, o: seq<G.TaskId>, h2: seq<Op>, owner: G.TaskId, t: G.TaskId)
    requires |o| == |h|
    ensures OpsBy(h + h2, o + seq(|h2|, _ => owner), t) == OpsBy(h, o, t) + if owner == t then h2 else []
  {
    var more := seq(|h2|, _ => owner);
    if h2 == [] {
      assert h + h2 == h && o + more == o;
    } else {
      var k := |h2| - 1;
      OpsByAppend(h, o, h2[..k], owner, t);
      assert (h + h2)[..|h| + k] == h + h2[..k];
      assert (o + more)[..|h| + k] == o + seq(k, _ => owner);
    }
  }

  /** What a registration step adds to the history. */
  function Added(reg: G.Registry, r: G.Step): seq<Op>
    requires G.Enabled(reg, r)
  {
    match r
    case Sub(t, subject, queueGroup, sid) => [Subscribe(subject, T.Sub(G.IdOf(t), sid, queueGroup))]
    case Unsub(t, sid) => if sid in reg.readers[t] then [Unsubscribe(reg.readers[t][sid], G.IdOf(t), sid)] else []
    case Disconnect(t, order) => Closing(reg.readers[t], G.IdOf(t), order)
    case _ => []
  }

  lemma {:induction false} CleanupCloses(history: seq<Op>, c: T.ConnectionId, sids: G.Sids, order: seq<Bytes>)
    requires forall sid | sid in order :: sid in sids
    ensures G.Cleanup(history, c, sids, order) == history + Closing(sids, c, order)
  {
    if order != [] {
      CleanupCloses(history, c, sids, order[..|order| - 1]);
    }
  }

  lemma HistoryGrows(reg: G.Registry, r: G.Step)
    requires G.Enabled(reg, r)
    ensures G.Next(reg, r).history == reg.history + Added(reg, r)
  {
    if r.Disconnect? {
      CleanupCloses(reg.history, G.IdOf(r.task), reg.readers[r.task], r.order);
    }
  }

  /** Whose step it is; nobody's for an accept. */
  predicate StepOf(r: G.Step, t: G.TaskId) {
    (r.Sub? || r.Unsub? || r.Disconnect?) && r.task == t
  }

  /** What the owners become: the one who did it owns what it added. */
  function OwnersAfter(reg: G.Registry, owners: seq<G.TaskId>, r: G.Step): seq<G.TaskId>
    requires G.Enabled(reg, r)
  {
    if r.Sub? || r.Unsub? || r.Disconnect? then owners + seq(|Added(reg, r)|, _ => r.task) else owners
  }

  lemma OpsAfter(reg: G.Registry, owners: seq<G.TaskId>, r: G.Step, t: G.TaskId)
    requires G.Enabled(reg, r) && |owners| == |reg.history|
    ensures |OwnersAfter(reg, owners, r)| == |G.Next(reg, r).history|
    ensures OpsBy(G.Next(reg, r).history, OwnersAfter(reg, owners, r), t)
         == OpsBy(reg.history, owners, t) + if StepOf(r, t) then Added(reg, r) else []
  {
    HistoryGrows(reg, r);
    if r.Sub? || r.Unsub? || r.Disconnect? {
      OpsByAppend(reg.history, owners, Added(reg, r), r.task, t);
    }
  }

  /** Steps of others, accepts and refusals leave a task's records alone; an accept starts one. */
  lemma OthersRecord(reg: G.Registry, owners: seq<G.TaskId>, r: G.Step, t: G.TaskId, taken: seq<W.Frame>)
    requires RecordOk(reg, owners, t, taken) && G.Enabled(reg, r) && !StepOf(r, t)
    ensures RecordOk(G.Next(reg, r), OwnersAfter(reg, owners, r), t, taken)
  {
    OpsAfter(reg, owners, r, t);
    var ops := OpsBy(reg.history, owners, t);
    assert ops + [] == ops;
    if t !in reg.readers {
      var order :| Closed(ops, taken, G.IdOf(t), order);
      assert Closed(OpsBy(G.Next(reg, r).history, OwnersAfter(reg, owners, r), t), taken, G.IdOf(t), order);
    }
  }

  lemma SubRecord(reg: G.Registry, owners: seq<G.TaskId>, t: G.TaskId, taken: seq<W.Frame>, f: W.Frame)
    requires RecordOk(reg, owners, t, taken) && t in reg.readers && f.Sub?
    ensures var r := G.Sub(t, f.subject, f.queueGroup, f.sid);
            RecordOk(G.Next(reg, r), OwnersAfter(reg, owners, r), t, taken + [f])
  {
    OpsAfter(reg, owners, G.Sub(t, f.subject, f.queueGroup, f.sid), t);
    SubscriberAccepts(f.subject);
    assert (taken + [f])[..|taken|] == taken;
  }

  lemma UnsubRecord(reg: G.Registry, owners: seq<G.TaskId>, t: G.TaskId, taken: seq<W.Frame>, f: W.Frame)
    requires RecordOk(reg, owners, t, taken) && t in reg.readers && f.Unsub? && f.maxMsgs.None?
    ensures var r := G.Unsub(t, f.sid);
            RecordOk(G.Next(reg, r), OwnersAfter(reg, owners, r), t, taken + [f])
  {
    OpsAfter(reg, owners, G.Unsub(t, f.sid), t);
    assert (taken + [f])[..|taken|] == taken;
    assert f.sid !in SidsOf(taken) ==> SidsOf(taken) - {f.sid} == SidsOf(taken);
  }

  /** Any other frame leaves the records alone. */
  lemma FrameRecord(reg: G.Registry, owners: seq<G.TaskId>, t: G.TaskId, taken: seq<W.Frame>, f: W.Frame)
    requires RecordOk(reg, owners, t, taken) && t in reg.readers && !f.Sub? && !(f.Unsub? && f.maxMsgs.None?)
    ensures RecordOk(reg, owners, t, taken + [f])
  {
    assert (taken + [f])[..|taken|] == taken;
  }

  lemma DisconnectRecord(reg: G.Registry, owners: seq<G.TaskId>, r: G.Step, t: G.TaskId, taken: seq<W.Frame>)
    requires RecordOk(reg, owners, t, taken) && G.Enabled(reg, r) && r.Disconnect? && r.task == t
    ensures RecordOk(G.Next(reg, r), OwnersAfter(reg, owners, r), t, taken)
  {
    OpsAfter(reg, owners, r, t);
    assert Closed(OpsBy(G.Next(reg, r).history, OwnersAfter(reg, owners, r), t), taken, G.IdOf(t), r.order);
  }

  // ------------------------------------------------------------------ every run

  /** The registration step a step of the broker takes on shard k. */
  function Registers(st: Option<BrokerStep>, k: nat): Option<G.Step> {
    if st.Some? && st.value.Local? && st.value.i == k && st.value.step.Register? then Some(st.value.step.reg) else None
  }

  lemma RegistryBy(b: Broker, st: Option<BrokerStep>, sizes: Sh.Sizes, k: nat)
    requires CanPerform(b, st) && k < |b.shards|
    ensures var b' := Perform(b, st, sizes);
            && |b'.shards| == |b.shards|
            && (Registers(st, k).Some? ==>
                  && G.Enabled(b.shards[k].reg, Registers(st, k).value)
                  && b'.shards[k].reg == G.Next(b.shards[k].reg, Registers(st, k).value))
            && (Registers(st, k).None? ==> b'.shards[k].reg == b.shards[k].reg)
  {
  }

  /** The owners of shard k's operations after a step. */
  lemma OwnersBy(b: Broker, st: Option<BrokerStep>, sizes: Sh.Sizes, owners: seq<seq<G.TaskId>>, k: nat)
    requires CanPerform(b, st) && k < |b.shards| == |owners| && |owners[k]| == |b.shards[k].reg.history|
    ensures var after := Own(owners, b, Perform(b, st, sizes), OwnerOf(st));
            && |after| == |owners|
            && (Registers(st, k).Some? ==>
                  && G.Enabled(b.shards[k].reg, Registers(st, k).value)
                  && after[k] == OwnersAfter(b.shards[k].reg, owners[k], Registers(st, k).value))
            && (Registers(st, k).None? ==> after[k] == owners[k])
  {
    RegistryBy(b, st, sizes, k);
    if Registers(st, k).Some? {
      HistoryGrows(b.shards[k].reg, Registers(st, k).value);
    }
  }

  ghost predicate RecordsOk(n: Net, k: nat, t: G.TaskId) {
    && k < |n.b.shards| == |n.owners|
    && RecordOk(n.b.shards[k].reg, n.owners[k], t, n.At(k, t).taken)
  }

  /** Registry and owners of shard k after a step of the clients and the broker. */
  lemma RecordsInStep(n: Net, step: NetStep, sizes: Sh.Sizes, k: nat)
    requires NetEnabled(n, step, sizes) && k < |n.b.shards| == |n.owners|
    requires |n.owners[k]| == |n.b.shards[k].reg.history|
    ensures var n', r := NetNext(n, step, sizes), Registers(First(step), k);
            && |n'.b.shards| == |n'.owners| == |n.b.shards|
            && (r.Some? ==>
                  && G.Enabled(n.b.shards[k].reg, r.value)
                  && n'.b.shards[k].reg == G.Next(n.b.shards[k].reg, r.value)
                  && n'.owners[k] == OwnersAfter(n.b.shards[k].reg, n.owners[k], r.value))
            && (r.None? ==> n'.b.shards[k].reg == n.b.shards[k].reg && n'.owners[k] == n.owners[k])
  {
    RegistryBy(n.b, First(step), sizes, k);
    OwnersBy(n.b, First(step), sizes, n.owners, k);
    RegistryBy(Perform(n.b, First(step), sizes), Second(n, step), sizes, k);
  }

  /** Which registration step a task's own frame is. */
  lemma RegistersWhat(n: Net, step: NetStep, sizes: Sh.Sizes, k: nat, t: G.TaskId)
    requires NetEnabled(n, step, sizes)
    ensures var r := Registers(First(step), k);
            if step.Take? && (step.i, step.task) == (k, t) then
              var f := NextFrame(n, k, t);
              && t in n.b.shards[k].reg.readers
              && r == if f.Sub? then Some(G.Sub(t, f.subject, f.queueGroup, f.sid))
                      else if f.Unsub? && f.maxMsgs.None? then Some(G.Unsub(t, f.sid))
                      else None
            else r.Some? && StepOf(r.value, t) ==> r.value.Disconnect?
  {
  }

  /** A frame of the task itself. */
  lemma OwnFrame(reg: G.Registry, owners: seq<G.TaskId>, t: G.TaskId, taken: seq<W.Frame>, f: W.Frame)
    requires RecordOk(reg, owners, t, taken) && t in reg.readers
    ensures f.Sub? ==>
              var r := G.Sub(t, f.subject, f.queueGroup, f.sid);
              RecordOk(G.Next(reg, r), OwnersAfter(reg, owners, r), t, taken + [f])
    ensures f.Unsub? && f.maxMsgs.None? ==>
              var r := G.Unsub(t, f.sid);
              RecordOk(G.Next(reg, r), OwnersAfter(reg, owners, r), t, taken + [f])
    ensures !f.Sub? && !(f.Unsub? && f.maxMsgs.None?) ==> RecordOk(reg, owners, t, taken + [f])
  {
    if f.Sub? {
      SubRecord(reg, owners, t, taken, f);
    } else if f.Unsub? && f.maxMsgs.None? {
      UnsubRecord(reg, owners, t, taken, f);
    } else {
      FrameRecord(reg, owners, t, taken, f);
    }
  }

  /** A step that is no frame of the task's. */
  lemma OthersStep(reg: G.Registry, owners: seq<G.TaskId>, r: G.Step, t: G.TaskId, taken: seq<W.Frame>)
    requires RecordOk(reg, owners, t, taken) && G.Enabled(reg, r) && (StepOf(r, t) ==> r.Disconnect?)
    ensures RecordOk(G.Next(reg, r), OwnersAfter(reg, owners, r), t, taken)
  {
    if StepOf(r, t) {
      DisconnectRecord(reg, owners, r, t, taken);
    } else {
      OthersRecord(reg, owners, r, t, taken);
    }
  }

  lemma RecordsKept(n: Net, step: NetStep, sizes: Sh.Sizes, k: nat, t: G.TaskId)
    requires NetEnabled(n, step, sizes) && RecordsOk(n, k, t)
    ensures RecordsOk(NetNext(n, step, sizes), k, t)
  {
    var reg, owners, taken := n.b.shards[k].reg, n.owners[k], n.At(k, t).taken;
    RecordsInStep(n, step, sizes, k);
    InputInStep(n, step, sizes, k, t);
    RegistersWhat(n, step, sizes, k, t);
    if step.Take? && (step.i, step.task) == (k, t) {
      OwnFrame(reg, owners, t, taken, NextFrame(n, k, t));
    } else if Registers(First(step), k).Some? {
      OthersStep(reg, owners, Registers(First(step), k).value, t, taken);
    }
  }

  lemma NothingRecorded(cfg: Config, k: nat, t: G.TaskId)
    requires k < cfg.shards
    ensures RecordsOk(NetInit(cfg), k, t)
  {
    assert NetInit(cfg).At(k, t).taken == [];
    assert Closed(OpsBy([], [], t), [], G.IdOf(t), []);
  }

  lemma {:induction false} RecordsAlways(cfg: Config, schedule: seq<NetStep>, k: nat, t: G.TaskId)
    requires k < cfg.shards
    ensures RecordsOk(NetExec(cfg, schedule), k, t)
  {
    if schedule == [] {
      NothingRecorded(cfg, k, t);
    } else {
      var before, step := schedule[..|schedule| - 1], schedule[|schedule| - 1];
      RecordsAlways(cfg, before, k, t);
      if NetEnabled(NetExec(cfg, before), step, cfg.sizes) {
        RecordsKept(NetExec(cfg, before), step, cfg.sizes, k, t);
      }
    }
  }

  /**
   From a client's bytes to its subscriptions: on every run, a live reader's sid map is what the SUBs
   and UNSUBs it has handled make of the empty map, in order, and the operations of its task in the
   table's history are exactly theirs, in order.  Once the reader is gone its operations are these
   followed by one unsubscribe for every sid still on its map.
   */
  lemma RecordsAreSent(cfg: Config, schedule: seq<NetStep>, k: nat, t: G.TaskId)
    requires k < cfg.shards
    ensures var n := NetExec(cfg, schedule);
            && k < |n.b.shards| == |n.owners|
            && n.At(k, t).taken <= Incoming(n.At(k, t).bytes)
            && var reg, owners, taken := n.b.shards[k].reg, n.owners[k], n.At(k, t).taken;
               && |owners| == |reg.history|
               && (t in reg.readers ==>
                     && reg.readers[t] == SidsOf(taken)
                     && OpsBy(reg.history, owners, t) == OpsOf(taken, G.IdOf(t)))
               && (t !in reg.readers ==>
                     exists order ::
                       && (forall sid :: sid in order <==> sid in SidsOf(taken))
                       && OpsBy(reg.history, owners, t)
                          == OpsOf(taken, G.IdOf(t)) + Closing(SidsOf(taken), G.IdOf(t), order))
  {
    RecordsAlways(cfg, schedule, k, t);
    InputAlways(cfg, schedule, k, t);
    var n := NetExec(cfg, schedule);
    if t !in n.b.shards[k].reg.readers {
      var ops := OpsBy(n.b.shards[k].reg.history, n.owners[k], t);
      var order :| Closed(ops, n.At(k, t).taken, G.IdOf(t), order);
    }
  }
}
