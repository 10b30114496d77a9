/**
 One shard: its registrations and table, the connections of its tasks, and every publish it has
 dispatched, its own and those from other shards.
 */
module Shard {
  import opened Bytes
  import opened Subject
  import opened Trie
  import opened TableHistory
  import opened Outbound
  import opened Dispatch
  import opened EndToEnd
  import opened ClientStream
  import opened Fanout
  import W = Wire
  import G = Registration
  import X = CrossShard
  import Wr = Writer

  /** Sizes of an outbound buffer and of a writer's own buffer. */
  datatype Sizes = Sizes(capacity: nat, bufLen: nat)

  /** One dispatch: the publish, the shard it came from, and the shard's registry at that moment. */
  datatype Service = Service(frame: X.PubFrame, from: nat, reg: G.Registry, selected: seq<Target>)

  datatype State = State(reg: G.Registry, outs: Outs, served: seq<Service>)

  /**
   What can happen on a shard: a registration step, a dispatch, a reply to a client, a close, a turn of
   a writer.
   */
  datatype Step =
    | Register(reg: G.Step)
    | Serve(frame: X.PubFrame, from: nat, selected: seq<Target>)
    | Reply(task: G.TaskId, f: W.Frame)
    | Close(task: G.TaskId, reason: CloseReason)
    | Turn(task: G.TaskId, written: nat)

  function PubOf(f: X.PubFrame): Publication {
    Publication(f.subject, f.replyTo, f.payload)
  }

  ghost predicate PubArrived(f: X.PubFrame) {
    Arrived(W.Pub(f.subject, f.replyTo, f.payload))
  }

  /** The matches of a publish after a history of the table. */
  function MatchesOf(history: seq<Op>, f: X.PubFrame): seq<Sub>
    requires X.Publishable(f)
  {
    Walk(After(history).root, ParsePublisher(f.subject).value)
  }

  function Init(): State {
    State(G.Registry([], map[], map[], 0), map[], [])
  }

  /** SUBs and published frames came in over the wire; replies are legal and no MSGs. */
  ghost predicate Enabled(s: State, step: Step) {
    match step
    case Register(r) =>
      G.Enabled(s.reg, r) && (r.Sub? ==> Arrived(W.Sub(r.subject, r.queueGroup, r.sid)))
    case Serve(f, _, selected) =>
      X.Publishable(f) && PubArrived(f) && Selects(MatchesOf(s.reg.history, f), selected)
    case Reply(t, f) => t in s.outs && W.Legal(f) && !f.Msg?
    case Close(t, _) => t in s.outs
    case Turn(t, _) => t in s.outs
  }

  function SetOut(s: State, t: G.TaskId, o: Out): State {
    s.(outs := s.outs[t := o])
  }

  function Next(s: State, step: Step, sizes: Sizes): State
    requires step.Register? ==> G.Enabled(s.reg, step.reg)
    requires step.Reply? || step.Close? || step.Turn? ==> step.task in s.outs
  {
    match step
    case Register(r) =>
      var s' := s.(reg := G.Next(s.reg, r));
      if r.Accept? then SetOut(s', s.reg.ids, NewOut(sizes.capacity, sizes.bufLen))
      else if r.Disconnect? && r.task in s.outs then
        SetOut(s', r.task, s.outs[r.task].(conn := Do(s.outs[r.task].conn, Wr.MarkClose(PeerClosed))))
      else s'
    case Serve(f, from, selected) =>
      s.(outs := DispatchTo(s.outs, s.reg.registered, PubOf(f), selected),
         served := s.served + [Service(f, from, s.reg, selected)])
    case Reply(t, f) => SetOut(s, t, Send(s.outs[t], f))
    case Close(t, reason) => SetOut(s, t, s.outs[t].(conn := Do(s.outs[t].conn, Wr.MarkClose(reason))))
    case Turn(t, written) => SetOut(s, t, s.outs[t].(conn := Do(s.outs[t].conn, Wr.Turn(written))))
  }

  // --------------------------------------------------------------- invariant

  /** The MSGs among the frames of a connection. */
  function Msgs(fs: seq<W.Frame>): seq<W.Frame> {
    if fs == [] then []
    else
      var f := fs[|fs| - 1];
      Msgs(fs[..|fs| - 1]) + if f.Msg? then [f] else []
  }

  /** What one dispatch sends to a task. */
  function DueFrom(v: Service, task: G.TaskId): seq<W.Frame> {
    FramesFor(PubOf(v.frame), DueTargets(v.reg.registered, PubOf(v.frame), v.selected, task))
  }

  /** The MSGs due to a task from everything its shard dispatched, in order. */
  function Due(served: seq<Service>, task: G.TaskId): seq<W.Frame> {
    if served == [] then []
    else Due(served[..|served| - 1], task) + DueFrom(served[|served| - 1], task)
  }

  ghost predicate ServiceOk(v: Service, ids: nat) {
    && X.Publishable(v.frame)
    && PubArrived(v.frame)
    && G.Reachable(v.reg)
    && FromWire(v.reg.history)
    && Selects(MatchesOf(v.reg.history, v.frame), v.selected)
    && forall c | c in v.reg.registered :: v.reg.registered[c] < ids
  }

  ghost predicate ServicesOk(s: State) {
    forall k | 0 <= k < |s.served| :: ServiceOk(s.served[k], s.reg.ids)
  }

  /** Every task ever started has its connection, under the id it was given. */
  ghost predicate TasksOk(s: State) {
    && (forall t | t in s.reg.readers :: t in s.outs)
    && (forall c | c in s.reg.registered :: s.reg.registered[c] in s.outs && G.IdOf(s.reg.registered[c]) == c)
    && (forall t | t in s.outs :: t < s.reg.ids)
  }

  /** A connection has been offered exactly the MSGs due to it, besides replies. */
  ghost predicate OutAt(s: State, t: G.TaskId, sizes: Sizes)
    requires t in s.outs
  {
    OutOk(s.outs[t], sizes.capacity, sizes.bufLen) && Msgs(s.outs[t].offered) == Due(s.served, t)
  }

  ghost predicate OutsOk(s: State, sizes: Sizes) {
    forall t | t in s.outs :: OutAt(s, t, sizes)
  }

  ghost predicate Inv(s: State, sizes: Sizes) {
    && sizes.bufLen > 0
    && G.Reachable(s.reg)
    && FromWire(s.reg.history)
    && TasksOk(s)
    && ServicesOk(s)
    && OutsOk(s, sizes)
  }

  lemma InitOk(sizes: Sizes)
    requires sizes.bufLen > 0
    ensures Inv(Init(), sizes)
  {
    assert G.Exec([]) == Init().reg;
  }

  lemma {:induction false} MsgsAppend(a: seq<W.Frame>, b: seq<W.Frame>)
    ensures Msgs(a + b) == Msgs(a) + Msgs(b)
  {
    if b == [] {
      assert a + b == a;
    } else {
      assert (a + b)[..|a + b| - 1] == a + b[..|b| - 1];
      MsgsAppend(a, b[..|b| - 1]);
    }
  }

  lemma {:induction false} AllMsgs(fs: seq<W.Frame>)
    requires forall k | 0 <= k < |fs| :: fs[k].Msg?
    ensures Msgs(fs) == fs
  {
    if fs != [] {
      AllMsgs(fs[..|fs| - 1]);
    }
  }

  lemma {:induction false} DueNone(served: seq<Service>, task: G.TaskId)
    requires forall k | 0 <= k < |served| :: forall c | c in served[k].reg.registered :: served[k].reg.registered[c] < task
    ensures Due(served, task) == []
  {
    if served != [] {
      var v := served[|served| - 1];
      DueNone(served[..|served| - 1], task);
      NotRegistered(v.reg.registered, PubOf(v.frame), v.selected, task);
    }
  }

  lemma {:induction false} NotRegistered(registered: Registered, p: Publication, selected: seq<Target>, task: G.TaskId)
    requires forall c | c in registered :: registered[c] != task
    ensures DueTargets(registered, p, selected, task) == []
  {
    if selected != [] {
      NotRegistered(registered, p, selected[..|selected| - 1], task);
    }
  }

  // ------------------------------------------------------------------- steps

  lemma AppendArrived(ops: seq<Op>, op: Op)
    requires FromWire(ops) && OpArrived(op)
    ensures FromWire(ops + [op])
  {
  }

  lemma {:induction false} CleanupArrived(ops: seq<Op>, c: ConnectionId, sids: G.Sids, order: seq<Bytes>)
    requires FromWire(ops) && forall sid | sid in order :: sid in sids
    ensures FromWire(G.Cleanup(ops, c, sids, order))
  {
    if order != [] {
      var sid := order[|order| - 1];
      CleanupArrived(ops, c, sids, order[..|order| - 1]);
      AppendArrived(G.Cleanup(ops, c, sids, order[..|order| - 1]), Unsubscribe(sids[sid], c, sid));
    }
  }

  lemma RegisterArrived(r: G.Registry, step: G.Step)
    requires FromWire(r.history) && G.Enabled(r, step)
    requires step.Sub? ==> Arrived(W.Sub(step.subject, step.queueGroup, step.sid))
    ensures FromWire(G.Next(r, step).history)
  {
    match step
    case Sub(t, subject, queueGroup, sid) =>
      AppendArrived(r.history, Subscribe(subject, Trie.Sub(G.IdOf(t), sid, queueGroup)));
    case Unsub(t, sid) =>
      if sid in r.readers[t] {
        AppendArrived(r.history, Unsubscribe(r.readers[t][sid], G.IdOf(t), sid));
      }
    case Disconnect(t, order) => CleanupArrived(r.history, G.IdOf(t), r.readers[t], order);
    case _ =>
  }

  /** A step that changes one task's connection, keeping what it was offered of MSGs. */
  lemma OneOutKeeps(s: State, t: G.TaskId, o: Out, sizes: Sizes)
    requires Inv(s, sizes) && t in s.outs && OutOk(o, sizes.capacity, sizes.bufLen)
    requires Msgs(o.offered) == Msgs(s.outs[t].offered)
    ensures Inv(SetOut(s, t, o), sizes)
  {
    assert OutAt(s, t, sizes);
    forall a | a in SetOut(s, t, o).outs
      ensures OutAt(SetOut(s, t, o), a, sizes)
    {
      assert OutAt(s, a, sizes);
    }
  }

  lemma ReplyKeeps(s: State, t: G.TaskId, f: W.Frame, sizes: Sizes)
    requires Inv(s, sizes) && t in s.outs && W.Legal(f) && !f.Msg?
    ensures Inv(SetOut(s, t, Send(s.outs[t], f)), sizes)
  {
    assert OutAt(s, t, sizes);
    SendOk(s.outs[t], f, sizes.capacity, sizes.bufLen);
    MsgsAppend(s.outs[t].offered, [f]);
    assert Msgs([f]) == [];
    OneOutKeeps(s, t, Send(s.outs[t], f), sizes);
  }

  lemma ConnKeeps(s: State, t: G.TaskId, step: Wr.Step, sizes: Sizes)
    requires Inv(s, sizes) && t in s.outs && !step.Enqueue?
    ensures Inv(SetOut(s, t, s.outs[t].(conn := Do(s.outs[t].conn, step))), sizes)
  {
    assert OutAt(s, t, sizes);
    OtherOk(s.outs[t], step, sizes.capacity, sizes.bufLen);
    OneOutKeeps(s, t, s.outs[t].(conn := Do(s.outs[t].conn, step)), sizes);
  }

  lemma ServicesLater(s: State, s': State)
    requires ServicesOk(s) && s'.served == s.served && s.reg.ids <= s'.reg.ids
    ensures ServicesOk(s')
  {
    forall k | 0 <= k < |s'.served|
      ensures ServiceOk(s'.served[k], s'.reg.ids)
    {
      assert ServiceOk(s.served[k], s.reg.ids);
    }
  }

  /** Registrations change, connections do not. */
  lemma SameOutsKeeps(s: State, reg: G.Registry, sizes: Sizes)
    requires Inv(s, sizes) && G.Reachable(reg) && FromWire(reg.history) && TasksOk(s.(reg := reg)) && s.reg.ids <= reg.ids
    ensures Inv(s.(reg := reg), sizes)
  {
    var s' := s.(reg := reg);
    ServicesLater(s, s');
    forall t | t in s'.outs
      ensures OutAt(s', t, sizes)
    {
      assert OutAt(s, t, sizes);
    }
  }

  /** A new task's connection has been offered nothing, and nothing is due to it. */
  lemma NewOutsOk(s: State, s': State, sizes: Sizes)
    requires sizes.bufLen > 0 && OutsOk(s, sizes) && ServicesOk(s) && s'.served == s.served
    requires s'.outs == s.outs[s.reg.ids := NewOut(sizes.capacity, sizes.bufLen)]
    ensures OutsOk(s', sizes)
  {
    NewOutOk(sizes.capacity, sizes.bufLen);
    assert forall k | 0 <= k < |s.served| :: ServiceOk(s.served[k], s.reg.ids);
    DueNone(s.served, s.reg.ids);
    forall t | t in s'.outs
      ensures OutAt(s', t, sizes)
    {
      if t != s.reg.ids {
        assert OutAt(s, t, sizes);
      }
    }
  }

  lemma AcceptKeeps(s: State, sizes: Sizes)
    requires Inv(s, sizes)
    ensures Inv(Next(s, Register(G.Accept), sizes), sizes)
  {
    var s' := Next(s, Register(G.Accept), sizes);
    G.ReachableStep(s.reg, G.Accept);
    ServicesLater(s, s');
    NewOutsOk(s, s', sizes);
    assert TasksOk(s');
  }

  lemma RegisterKeeps(s: State, r: G.Step, sizes: Sizes)
    requires Inv(s, sizes) && Enabled(s, Register(r))
    ensures Inv(Next(s, Register(r), sizes), sizes)
  {
    if r.Accept? {
      AcceptKeeps(s, sizes);
    } else {
      G.ReachableStep(s.reg, r);
      RegisterArrived(s.reg, r);
      SameOutsKeeps(s, G.Next(s.reg, r), sizes);
      if r.Disconnect? {
        ConnKeeps(s.(reg := G.Next(s.reg, r)), r.task, Wr.MarkClose(PeerClosed), sizes);
      }
    }
  }

  lemma {:induction false} KeptSelected(ts: seq<Target>, ok: Target -> bool, t: Target)
    requires t in Keep(ts, ok)
    ensures t in ts && ok(t)
  {
    if ts != [] && t in Keep(ts[..|ts| - 1], ok) {
      KeptSelected(ts[..|ts| - 1], ok, t);
    }
  }

  lemma DueLegal(v: Service, ids: nat, task: G.TaskId)
    requires ServiceOk(v, ids)
    ensures forall k | 0 <= k < |DueFrom(v, task)| :: W.Legal(DueFrom(v, task)[k]) && DueFrom(v, task)[k].Msg?
  {
    var p := PubOf(v.frame);
    var due := DueTargets(v.reg.registered, p, v.selected, task);
    forall k | 0 <= k < |due|
      ensures W.Legal(DueFrom(v, task)[k]) && DueFrom(v, task)[k].Msg?
    {
      KeptSelected(v.selected, t => Reaches(v.reg.registered, p, t, task), due[k]);
      SelectedLegal(v.reg.history, v.frame.subject, v.selected, due[k]);
      MsgLegal(p, due[k]);
    }
  }

  /** What a dispatch does to one task's connection. */
  lemma ServeOut(s: State, v: Service, task: G.TaskId, sizes: Sizes)
    requires task in s.outs && OutAt(s, task, sizes) && ServiceOk(v, s.reg.ids)
    ensures var o := SendAll(s.outs[task], DueFrom(v, task));
            OutOk(o, sizes.capacity, sizes.bufLen) && Msgs(o.offered) == Due(s.served + [v], task)
  {
    DueLegal(v, s.reg.ids, task);
    SendAllOk(s.outs[task], DueFrom(v, task), sizes.capacity, sizes.bufLen);
    SendAllOffered(s.outs[task], DueFrom(v, task));
    MsgsAppend(s.outs[task].offered, DueFrom(v, task));
    AllMsgs(DueFrom(v, task));
    assert (s.served + [v])[..|s.served|] == s.served;
  }

  lemma OneMoreService(s: State, s': State, v: Service)
    requires ServicesOk(s) && ServiceOk(v, s.reg.ids) && s'.reg == s.reg && s'.served == s.served + [v]
    ensures ServicesOk(s')
  {
    forall k | 0 <= k < |s'.served|
      ensures ServiceOk(s'.served[k], s'.reg.ids)
    {
      if k < |s.served| {
        assert ServiceOk(s.served[k], s.reg.ids);
      }
    }
  }

  lemma ServeKeeps(s: State, f: X.PubFrame, from: nat, selected: seq<Target>, sizes: Sizes)
    requires Inv(s, sizes) && Enabled(s, Serve(f, from, selected))
    ensures Inv(Next(s, Serve(f, from, selected), sizes), sizes)
  {
    var s' := Next(s, Serve(f, from, selected), sizes);
    var v := Service(f, from, s.reg, selected);
    assert ServiceOk(v, s.reg.ids) by {
      assert forall c | c in s.reg.registered :: s.reg.registered[c] in s.outs;
    }
    OneMoreService(s, s', v);
    SameTasks(s, s', f, selected);
    ServeOuts(s, s', v, sizes);
  }

  lemma ServeOuts(s: State, s': State, v: Service, sizes: Sizes)
    requires OutsOk(s, sizes) && ServiceOk(v, s.reg.ids) && s'.served == s.served + [v]
    requires s'.outs == DispatchTo(s.outs, v.reg.registered, PubOf(v.frame), v.selected)
    ensures OutsOk(s', sizes)
  {
    DispatchKeys(s.outs, v.reg.registered, PubOf(v.frame), v.selected);
    forall t | t in s'.outs
      ensures OutAt(s', t, sizes)
    {
      assert OutAt(s, t, sizes);
      DispatchEach(s.outs, v.reg.registered, PubOf(v.frame), v.selected, t);
      ServeOut(s, v, t, sizes);
    }
  }

  lemma SameTasks(s: State, s': State, f: X.PubFrame, selected: seq<Target>)
    requires TasksOk(s) && s'.reg == s.reg && s'.outs == DispatchTo(s.outs, s.reg.registered, PubOf(f), selected)
    ensures s'.outs.Keys == s.outs.Keys && TasksOk(s')
  {
    DispatchKeys(s.outs, s.reg.registered, PubOf(f), selected);
  }

  lemma {:induction false} DispatchKeys(outs: Outs, registered: Registered, p: Publication, selected: seq<Target>)
    ensures DispatchTo(outs, registered, p, selected).Keys == outs.Keys
  {
    if selected != [] {
      DispatchKeys(outs, registered, p, selected[..|selected| - 1]);
    }
  }

  lemma StepKeeps(s: State, step: Step, sizes: Sizes)
    requires Inv(s, sizes) && Enabled(s, step)
    ensures Inv(Next(s, step, sizes), sizes)
  {
    match step
    case Register(r) => RegisterKeeps(s, r, sizes);
    case Serve(f, from, selected) => ServeKeeps(s, f, from, selected, sizes);
    case Reply(t, f) => ReplyKeeps(s, t, f, sizes);
    case Close(t, reason) => ConnKeeps(s, t, Wr.MarkClose(reason), sizes);
    case Turn(t, written) => ConnKeeps(s, t, Wr.Turn(written), sizes);
  }

  /** What a step does to the registry and to the list of dispatches. */
  lemma StepEffect(s: State, step: Step, sizes: Sizes)
    requires Enabled(s, step)
    ensures var s' := Next(s, step, sizes);
            && s'.reg == (if step.Register? then G.Next(s.reg, step.reg) else s.reg)
            && s'.served == s.served + if step.Serve? then [Service(step.frame, step.from, s.reg, step.selected)] else []
  {
  }

  // --------------------------------------------------------------- selections

  /** A dispatch is never stuck for a selection. */
  lemma SomeSelection(matches: seq<Sub>) returns (selected: seq<Target>)
    ensures Selects(matches, selected)
  {
    var plain, groups := Ungrouped(matches), Groups(matches);
    forall k | 0 <= k < |groups|
      ensures Members(matches, groups[k]) != []
    {
      GroupsInhabited(matches, groups[k]);
    }
    selected := plain + seq(|groups|, (k: nat) requires k < |groups| && Members(matches, groups[k]) != [] => Members(matches, groups[k])[0]);
  }
}
