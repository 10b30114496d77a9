/** What the broker promises, on every run of all its shards, tasks, inboxes and writers together. */
module BrokerTheorems {
  import opened Wrappers
  import opened Bytes
  import opened Subject
  import opened TableHistory
  import opened Dispatch
  import opened EndToEnd
  import opened ClientStream
  import opened InboxTheorems
  import opened InboxDelivery
  import opened Broker
  import W = Wire
  import R = Reader
  import O = Outbound
  import G = Registration
  import F = Fanout
  import X = CrossShard
  import Sh = Shard

  /** A dispatch serves the subscriptions of its moment whose subject covers the published one. */
  ghost predicate ServesList(v: Sh.Service)
    requires X.Publishable(v.frame)
  {
    Serves(Groups(Sh.MatchesOf(v.reg.history, v.frame)), v.selected, Covering(Listing(v.reg.history), v.frame.subject))
  }

  lemma EveryDispatchServes(cfg: Config, b: Broker, j: nat, k: nat)
    requires BrokerInv(cfg, b) && j < cfg.shards && k < |b.shards[j].served|
    ensures PublisherSubject(b.shards[j].served[k].frame.subject)
    ensures X.Publishable(b.shards[j].served[k].frame) && ServesList(b.shards[j].served[k])
  {
    var v := b.shards[j].served[k];
    assert Sh.Inv(b.shards[j], cfg.sizes) && Sh.ServiceOk(v, b.shards[j].reg.ids);
    PublisherAccepts(v.frame.subject);
    SelectionServesList(v.reg.history, v.frame.subject, Sh.MatchesOf(v.reg.history, v.frame), v.selected);
  }

  /** Nothing is on its way from worker i to shard j. */
  ghost predicate QuietBetween(b: Broker, i: nat, j: nat)
    requires Shaped(b) && i < |b.shards| && j < |b.shards|
  {
    b.sys.workers[i].pc.Ready? && Asleep(b.sys.inboxes[j]) && NoneMidPush(b.sys.inboxes[j])
  }

  /**
   What every shard has dispatched, on every run: for its own worker all valid PUBs, in the order they
   were handled; for another worker i an initial part of those its inbox accepted from i.  Once nothing
   is on its way, exactly those accepted, out of all valid PUBs worker i handled.
   */
  lemma DispatchedExactly(cfg: Config, b: Broker, i: nat, j: nat)
    requires BrokerInv(cfg, b) && i < cfg.shards && j < cfg.shards
    ensures var served, valid := ServedFrom(b.shards[j].served, i), X.Valid(b.sys.workers[i].handled);
            var s := b.sys.inboxes[j];
            && (i == j ==> served == valid)
            && (i != j ==> served <= Accepted(s.Returned(i)) + InFlight(s.Pc(i)) && X.Offered(s.Returned(i)) <= valid)
            && (i != j && QuietBetween(b, i, j) ==> served == Accepted(s.Returned(i)) && X.Offered(s.Returned(i)) == valid)
  {
    assert Agree(b, j, i);
    if i != j {
      X.Delivered(cfg.shards, cfg.cap, b.sys, i, j);
    }
  }

  lemma {:induction false} MsgsPrefix(a: seq<W.Frame>, b: seq<W.Frame>)
    requires a <= b
    ensures Sh.Msgs(a) <= Sh.Msgs(b)
  {
    assert b == a + b[|a|..];
    Sh.MsgsAppend(a, b[|a|..]);
  }

  lemma MsgsOfRead(taken: seq<W.Frame>, offered: seq<W.Frame>, read: seq<W.Frame>, r: O.CloseReason)
    requires taken <= offered && read <= taken + FarewellFrames(r)
    ensures Sh.Msgs(read) <= Sh.Msgs(offered)
  {
    MsgsPrefix(taken, offered);
    MsgsPrefix(read, taken + FarewellFrames(r));
    Sh.MsgsAppend(taken, FarewellFrames(r));
    assert Sh.Msgs(FarewellFrames(r)) == [];
  }

  /** An open connection whose writer has nothing left to do. */
  predicate Flushed(o: Out) {
    o.conn.reasons == [] && o.conn.writer.Parked? && o.conn.buffer.head == |o.conn.buffer.data|
  }

  /**
   What a subscriber's client reads, on every run: parsing everything on its socket it finds no
   malformed bytes, and the MSGs it finds are, in order, an initial part of those due to its
   connection from everything its shard dispatched; all of them once its open connection is flushed.
   */
  lemma SubscriberReads(cfg: Config, b: Broker, j: nat, task: G.TaskId, budget: nat)
    requires BrokerInv(cfg, b) && cfg.sizes.bufLen >= 21 && j < cfg.shards && task in b.shards[j].outs
    requires budget > |b.shards[j].outs[task].offered| + 1
    ensures var o := b.shards[j].outs[task];
            var p, due := ReadsOf(o.conn.socket, budget), Sh.Due(b.shards[j].served, task);
            && p.stop == R.Waiting
            && Sh.Msgs(p.frames) <= due
            && (Flushed(o) ==> Sh.Msgs(p.frames) == due)
  {
    var o := b.shards[j].outs[task];
    assert Sh.Inv(b.shards[j], cfg.sizes) && Sh.OutAt(b.shards[j], task, cfg.sizes);
    ClientReadsSocket(o, cfg.sizes.capacity, cfg.sizes.bufLen, budget);
    var p := ReadsOf(o.conn.socket, budget);
    if o.conn.writer.Done? {
      MsgsOfRead(TakenFrames(o), o.offered, p.frames, o.conn.reasons[0]);
    } else {
      MsgsPrefix(p.frames, o.offered);
    }
  }

  // ------------------------------------------------------------- careful runs

  /** No registration step gives out an id in use or moves a live sid to another subject. */
  ghost predicate CarefulStep(b: Broker, step: BrokerStep)
    requires BrokerEnabled(b, step)
  {
    step.Local? && step.step.Register? ==> G.Careful(b.shards[step.i].reg, step.step.reg)
  }

  /** Every step taken along the schedule is careful. */
  ghost predicate CarefulRun(cfg: Config, schedule: seq<BrokerStep>) {
    schedule == [] ||
    var before, step := schedule[..|schedule| - 1], schedule[|schedule| - 1];
    var b := BrokerExec(cfg, before);
    CarefulRun(cfg, before) && (BrokerEnabled(b, step) ==> CarefulStep(b, step))
  }

  /** On every shard connection map, records and table agree. */
  ghost predicate RegsAgree(b: Broker) {
    forall i | 0 <= i < |b.shards| :: G.Agrees(b.shards[i].reg)
  }

  ghost predicate ServicesAgree(s: Sh.State) {
    forall k | 0 <= k < |s.served| :: G.Agrees(s.served[k].reg)
  }

  /** They also did at every dispatch. */
  ghost predicate AgreedAtDispatch(b: Broker) {
    forall i | 0 <= i < |b.shards| :: ServicesAgree(b.shards[i])
  }

  lemma ShardCareful(s: Sh.State, st: Sh.Step, sizes: Sh.Sizes)
    requires Sh.Enabled(s, st) && G.Agrees(s.reg) && ServicesAgree(s)
    ensures G.Agrees(Sh.Next(s, st, sizes).reg) <==> (st.Register? ==> G.Careful(s.reg, st.reg))
    ensures ServicesAgree(Sh.Next(s, st, sizes))
  {
    Sh.StepEffect(s, st, sizes);
    if st.Register? {
      G.AgreementExactly(s.reg, st.reg);
    }
  }

  /** From agreeing shards, a step of the broker keeps the agreement iff it is careful. */
  lemma StepCareful(b: Broker, step: BrokerStep, sizes: Sh.Sizes)
    requires BrokerEnabled(b, step) && RegsAgree(b) && AgreedAtDispatch(b)
    ensures RegsAgree(BrokerNext(b, step, sizes)) <==> CarefulStep(b, step)
    ensures AgreedAtDispatch(BrokerNext(b, step, sizes))
  {
    var b' := BrokerNext(b, step, sizes);
    var at := ShardOf(b, step);
    if at.Some? {
      var (i, st) := at.value;
      assert b'.shards == b.shards[i := Sh.Next(b.shards[i], st, sizes)];
      ShardCareful(b.shards[i], st, sizes);
      assert G.Agrees(b'.shards[i].reg) <==> CarefulStep(b, step);
      assert forall k | 0 <= k < |b.shards| && k != i :: b'.shards[k] == b.shards[k];
    } else {
      assert b'.shards == b.shards;
    }
  }

  /** The shard a step is taken on, and its step there. */
  ghost function ShardOf(b: Broker, step: BrokerStep): (r: Option<(nat, Sh.Step)>)
    requires BrokerEnabled(b, step)
    ensures r.Some? ==> r.value.0 < |b.shards| && Sh.Enabled(b.shards[r.value.0], r.value.1)
  {
    match step
    case Publish(i, f, selected) => if X.Publishable(f) then Some((i, Sh.Serve(f, i, selected))) else None
    case Drain(j, selected) =>
      var serve := NextServe(b.sys.inboxes[j], selected);
      if serve.Some? then Some((j, serve.value)) else None
    case Local(i, st) => Some((i, st))
    case _ => None
  }

  /** On careful runs every shard's registry agrees now and agreed at every dispatch. */
  lemma {:induction false} CarefulAgrees(cfg: Config, schedule: seq<BrokerStep>)
    requires CarefulRun(cfg, schedule)
    ensures RegsAgree(BrokerExec(cfg, schedule)) && AgreedAtDispatch(BrokerExec(cfg, schedule))
  {
    if schedule == [] {
      G.AlwaysAgrees([]);
    } else {
      var before, step := schedule[..|schedule| - 1], schedule[|schedule| - 1];
      CarefulAgrees(cfg, before);
      if BrokerEnabled(BrokerExec(cfg, before), step) {
        StepCareful(BrokerExec(cfg, before), step, cfg.sizes);
      }
    }
  }

  ghost predicate Throughout(ok: Broker -> bool, cfg: Config, schedule: seq<BrokerStep>) {
    forall n | 0 <= n <= |schedule| :: ok(BrokerExec(cfg, schedule[..n]))
  }

  lemma ThroughoutLast(ok: Broker -> bool, cfg: Config, schedule: seq<BrokerStep>, step: BrokerStep)
    ensures Throughout(ok, cfg, schedule + [step]) <==>
            Throughout(ok, cfg, schedule) && ok(BrokerExec(cfg, schedule + [step]))
  {
    var longer := schedule + [step];
    forall n | 0 <= n <= |schedule|
      ensures BrokerExec(cfg, longer[..n]) == BrokerExec(cfg, schedule[..n])
    {
      assert longer[..n] == schedule[..n];
    }
    assert longer[..|longer|] == longer;
  }

  lemma CarefulLast(cfg: Config, schedule: seq<BrokerStep>, step: BrokerStep)
    requires CarefulRun(cfg, schedule)
    ensures RegsAgree(BrokerExec(cfg, schedule + [step])) <==> CarefulRun(cfg, schedule + [step])
  {
    CarefulAgrees(cfg, schedule);
    assert (schedule + [step])[..|schedule|] == schedule;
    if BrokerEnabled(BrokerExec(cfg, schedule), step) {
      StepCareful(BrokerExec(cfg, schedule), step, cfg.sizes);
    }
  }

  /** Over whole runs: every shard's registry agrees after every step iff every step taken was careful. */
  lemma {:induction false} CarefulExactly(cfg: Config, schedule: seq<BrokerStep>)
    ensures Throughout(b => RegsAgree(b), cfg, schedule) <==> CarefulRun(cfg, schedule)
  {
    if schedule == [] {
      CarefulAgrees(cfg, []);
    } else {
      var n := |schedule| - 1;
      var before, step := schedule[..n], schedule[n];
      CarefulExactly(cfg, before);
      assert schedule == before + [step];
      ThroughoutLast(b => RegsAgree(b), cfg, before, step);
      if CarefulRun(cfg, before) {
        CarefulLast(cfg, before, step);
      }
    }
  }

  // ----------------------------------------------------------- nobody is missed

  /** The MSG for this sid fits the buffer it is encoded in. */
  predicate MsgFits(f: PubFrame, sid: Bytes) {
    |W.Encode(W.Msg(f.subject, sid, f.replyTo, f.payload))| <= W.MAX_PAYLOAD_BYTES + 4096
  }

  /**
   What one dispatch sends to a task, said on fields: a MSG with the subject, reply subject and payload
   of the frame dispatched, if it fits, as often as the task's subscription with that sid was selected
   while the task was registered, and no other MSG.
   */
  lemma DueExactly(v: Sh.Service, task: G.TaskId, msg: W.Frame)
    requires msg.Msg? && F.OneIdEach(v.reg.registered)
    ensures var c := G.IdOf(task);
            multiset(Sh.DueFrom(v, task))[msg] ==
            if msg == W.Msg(v.frame.subject, msg.sid, v.frame.replyTo, v.frame.payload) && MsgFits(v.frame, msg.sid)
               && c in v.reg.registered && v.reg.registered[c] == task
            then multiset(v.selected)[Target(c, msg.sid)] else 0
  {
    var p, t := Sh.PubOf(v.frame), Target(G.IdOf(task), msg.sid);
    var due := F.DueTargets(v.reg.registered, p, v.selected, task);
    F.DueCount(v.reg.registered, p, v.selected, task, t);
    forall k | 0 <= k < |due|
      ensures due[k].conn == G.IdOf(task)
    {
      Sh.KeptSelected(v.selected, x => F.Reaches(v.reg.registered, p, x, task), due[k]);
    }
    FramesCount(p, due, msg, t);
  }

  lemma {:induction false} FramesCount(p: Publication, ts: seq<Target>, msg: W.Frame, t: Target)
    requires msg.Msg? && t.sid == msg.sid && forall k | 0 <= k < |ts| :: ts[k].conn == t.conn
    ensures multiset(FramesFor(p, ts))[msg] ==
            if msg == W.Msg(p.subject, msg.sid, p.replyTo, p.payload) then multiset(ts)[t] else 0
  {
    if ts != [] {
      var before, last := ts[..|ts| - 1], ts[|ts| - 1];
      FramesCount(p, before, msg, t);
      assert ts == before + [last];
      F.FramesForLast(p, before, last);
    }
  }

  /**
   A selected subscription was registered to a live task that had its sid on record, and its MSG is
   among those due to that task from this dispatch, as often as it was selected.
   */
  ghost predicate Reached(v: Sh.Service, t: Target) {
    && t.conn in v.reg.registered
    && var task := v.reg.registered[t.conn];
       && task in v.reg.readers && t.sid in v.reg.readers[task]
       && multiset(F.DueTargets(v.reg.registered, Sh.PubOf(v.frame), v.selected, task))[t] == multiset(v.selected)[t]
  }

  /** Nobody is missed: on careful runs every selected subscription whose MSG fits the scratch is reached. */
  lemma NobodyMissed(cfg: Config, schedule: seq<BrokerStep>, j: nat, k: nat, t: Target)
    requires cfg.cap >= 2 && cfg.sizes.bufLen > 0 && CarefulRun(cfg, schedule)
    requires var b := BrokerExec(cfg, schedule);
             && j < |b.shards| && k < |b.shards[j].served|
             && t in b.shards[j].served[k].selected && MsgFits(b.shards[j].served[k].frame, t.sid)
    ensures Reached(BrokerExec(cfg, schedule).shards[j].served[k], t)
  {
    var b := BrokerExec(cfg, schedule);
    var v := b.shards[j].served[k];
    BrokerAlways(cfg, schedule);
    CarefulAgrees(cfg, schedule);
    assert Sh.Inv(b.shards[j], cfg.sizes) && Sh.ServiceOk(v, b.shards[j].reg.ids) && ServicesAgree(b.shards[j]);
    F.EverySelectedReached(v.reg, Sh.PubOf(v.frame), v.selected, t);
    F.DueCount(v.reg.registered, Sh.PubOf(v.frame), v.selected, v.reg.registered[t.conn], t);
  }

  /** What is due from one dispatch is due from all of them. */
  lemma {:induction false} DueFromOne(served: seq<Sh.Service>, k: nat, task: G.TaskId, f: W.Frame)
    requires k < |served| && f in Sh.DueFrom(served[k], task)
    ensures f in Sh.Due(served, task)
  {
    if k < |served| - 1 {
      DueFromOne(served[..|served| - 1], k, task, f);
    }
  }

  /** A reached subscription's MSG is due to its task. */
  lemma ReachedIsDue(served: seq<Sh.Service>, k: nat, t: Target)
    requires k < |served| && t in served[k].selected && Reached(served[k], t)
    ensures var f := served[k].frame;
            W.Msg(f.subject, t.sid, f.replyTo, f.payload) in Sh.Due(served, served[k].reg.registered[t.conn])
  {
    var v := served[k];
    var task := v.reg.registered[t.conn];
    var due := F.DueTargets(v.reg.registered, Sh.PubOf(v.frame), v.selected, task);
    assert t in multiset(v.selected);
    assert t in multiset(due);
    var n :| 0 <= n < |due| && due[n] == t;
    assert Sh.DueFrom(v, task)[n] == MsgFor(Sh.PubOf(v.frame), t);
    DueFromOne(served, k, task, MsgFor(Sh.PubOf(v.frame), t));
  }

  // -------------------------------------------------------------- end to end

  /** What shard j has dispatched for every worker from which nothing is on its way. */
  ghost predicate DispatchedAll(b: Broker, j: nat)
    requires Shaped(b) && j < |b.shards|
  {
    && ServedFrom(b.shards[j].served, j) == X.Valid(b.sys.workers[j].handled)
    && forall i | 0 <= i < |b.shards| && i != j && QuietBetween(b, i, j) ::
         && ServedFrom(b.shards[j].served, i) == Accepted(b.sys.inboxes[j].Returned(i))
         && X.Offered(b.sys.inboxes[j].Returned(i)) == X.Valid(b.sys.workers[i].handled)
  }

  lemma AllDispatched(cfg: Config, b: Broker, j: nat)
    requires BrokerInv(cfg, b) && j < cfg.shards
    ensures DispatchedAll(b, j)
  {
    DispatchedExactly(cfg, b, j, j);
    forall i | 0 <= i < cfg.shards && i != j && QuietBetween(b, i, j)
      ensures ServedFrom(b.shards[j].served, i) == Accepted(b.sys.inboxes[j].Returned(i))
      ensures X.Offered(b.sys.inboxes[j].Returned(i)) == X.Valid(b.sys.workers[i].handled)
    {
      DispatchedExactly(cfg, b, i, j);
    }
  }

  /** Every dispatch serves its list. */
  ghost predicate AllServe(s: Sh.State) {
    forall k | 0 <= k < |s.served| ::
      PublisherSubject(s.served[k].frame.subject) && X.Publishable(s.served[k].frame) && ServesList(s.served[k])
  }

  /** A selected subscription is reached, and its MSG is among the frames given if it is this task's. */
  ghost predicate ReachedAndRead(v: Sh.Service, t: Target, task: G.TaskId, read: seq<W.Frame>) {
    && Reached(v, t)
    && (v.reg.registered[t.conn] == task ==> W.Msg(v.frame.subject, t.sid, v.frame.replyTo, v.frame.payload) in read)
  }

  /** So is every selected subscription of a dispatch whose MSG fits. */
  ghost predicate AllOf(v: Sh.Service, task: G.TaskId, read: seq<W.Frame>) {
    forall t | t in v.selected && MsgFits(v.frame, t.sid) :: ReachedAndRead(v, t, task, read)
  }

  ghost predicate AllReached(s: Sh.State, task: G.TaskId, read: seq<W.Frame>) {
    forall k | 0 <= k < |s.served| :: AllOf(s.served[k], task, read)
  }

  lemma DispatchReached(cfg: Config, schedule: seq<BrokerStep>, j: nat, k: nat, task: G.TaskId)
    requires cfg.cap >= 2 && cfg.sizes.bufLen > 0 && CarefulRun(cfg, schedule)
    requires j < |BrokerExec(cfg, schedule).shards| && k < |BrokerExec(cfg, schedule).shards[j].served|
    ensures var served := BrokerExec(cfg, schedule).shards[j].served;
            AllOf(served[k], task, Sh.Due(served, task))
  {
    var served := BrokerExec(cfg, schedule).shards[j].served;
    forall t | t in served[k].selected && MsgFits(served[k].frame, t.sid)
      ensures ReachedAndRead(served[k], t, task, Sh.Due(served, task))
    {
      NobodyMissed(cfg, schedule, j, k, t);
      ReachedIsDue(served, k, t);
    }
  }

  lemma CarefulReached(cfg: Config, schedule: seq<BrokerStep>, j: nat, task: G.TaskId)
    requires cfg.cap >= 2 && cfg.sizes.bufLen > 0 && CarefulRun(cfg, schedule) && j < |BrokerExec(cfg, schedule).shards|
    ensures var s := BrokerExec(cfg, schedule).shards[j];
            AllReached(s, task, Sh.Due(s.served, task))
  {
    forall k | 0 <= k < |BrokerExec(cfg, schedule).shards[j].served|
      ensures var served := BrokerExec(cfg, schedule).shards[j].served;
              AllOf(served[k], task, Sh.Due(served, task))
    {
      DispatchReached(cfg, schedule, j, k, task);
    }
  }

  /**
   End to end.  After every schedule, for every flushed open connection of a shard:
   its client reads exactly the MSGs due to it from its shard's dispatches; those dispatches are, for
   each worker and in order, all valid PUBs of the shard's own worker and, once nothing is on its way
   from it, all valid PUBs of every other worker that the shard's inbox did not refuse; each of them
   serves every ungrouped matching subscription of its moment once and every matching queue group
   once; and on careful runs every selected subscription belongs to a live task, and this client has
   read the MSGs of all of its own.
   */
  lemma EndToEndDelivery(cfg: Config, schedule: seq<BrokerStep>, j: nat, task: G.TaskId, budget: nat)
    requires cfg.cap >= 2 && cfg.sizes.bufLen >= 21 && j < cfg.shards
    requires var b := BrokerExec(cfg, schedule);
             && j < |b.shards| && task in b.shards[j].outs && Flushed(b.shards[j].outs[task])
             && budget > |b.shards[j].outs[task].offered| + 1
    ensures var b := BrokerExec(cfg, schedule);
            var s := b.shards[j];
            var read := Sh.Msgs(ReadsOf(s.outs[task].conn.socket, budget).frames);
            && Shaped(b) && |b.shards| == cfg.shards
            && read == Sh.Due(s.served, task)
            && DispatchedAll(b, j)
            && AllServe(s)
            && (CarefulRun(cfg, schedule) ==> AllReached(s, task, read))
  {
    var b := BrokerExec(cfg, schedule);
    BrokerAlways(cfg, schedule);
    SubscriberReads(cfg, b, j, task, budget);
    AllDispatched(cfg, b, j);
    forall k | 0 <= k < |b.shards[j].served|
      ensures PublisherSubject(b.shards[j].served[k].frame.subject)
      ensures X.Publishable(b.shards[j].served[k].frame) && ServesList(b.shards[j].served[k])
    {
      EveryDispatchServes(cfg, b, j, k);
    }
    if CarefulRun(cfg, schedule) {
      CarefulReached(cfg, schedule, j, task);
    }
  }
}
