/**
 One dispatch of one shard, onto the connections of its live tasks: who is sent what, compared with the
 outbound buffers the dispatch loop works on and with the registrations.
 */
module Fanout {
  import opened Subject
  import opened Trie
  import opened SubscriptionTable
  import opened TableHistory
  import opened Dispatch
  import opened EndToEnd
  import opened ClientStream
  import W = Wire
  import G = Registration

  type Outs = map<G.TaskId, Out>

  /** The worker's connection map. */
  type Registered = map<ConnectionId, G.TaskId>

  predicate Fits(p: Publication, t: Target) {
    |W.Encode(MsgFor(p, t))| <= EMIT_SCRATCH_CAPACITY
  }

  /** Encode into the scratch and enqueue on whatever is registered under the target's connection id. */
  function DeliverTo(outs: Outs, registered: Registered, p: Publication, t: Target): Outs {
    if Fits(p, t) && t.conn in registered && registered[t.conn] in outs then
      outs[registered[t.conn] := Send(outs[registered[t.conn]], MsgFor(p, t))]
    else outs
  }

  function DispatchTo(outs: Outs, registered: Registered, p: Publication, selected: seq<Target>): Outs {
    if selected == [] then outs
    else DeliverTo(DispatchTo(outs, registered, p, selected[..|selected| - 1]), registered, p, selected[|selected| - 1])
  }

  predicate Reaches(registered: Registered, p: Publication, t: Target, task: G.TaskId) {
    Fits(p, t) && t.conn in registered && registered[t.conn] == task
  }

  function Keep(ts: seq<Target>, ok: Target -> bool): seq<Target> {
    if ts == [] then []
    else
      var t := ts[|ts| - 1];
      Keep(ts[..|ts| - 1], ok) + if ok(t) then [t] else []
  }

  lemma {:induction false} KeepCount(ts: seq<Target>, ok: Target -> bool, t: Target)
    ensures multiset(Keep(ts, ok))[t] == if ok(t) then multiset(ts)[t] else 0
  {
    if ts != [] {
      var before, last := ts[..|ts| - 1], ts[|ts| - 1];
      KeepCount(before, ok, t);
      assert ts == before + [last];
    }
  }

  /** The selected targets a task is sent a MSG for, in order. */
  function DueTargets(registered: Registered, p: Publication, selected: seq<Target>, task: G.TaskId): seq<Target> {
    Keep(selected, t => Reaches(registered, p, t, task))
  }

  lemma FramesForLast(p: Publication, ts: seq<Target>, t: Target)
    ensures FramesFor(p, ts + [t]) == FramesFor(p, ts) + [MsgFor(p, t)]
  {
  }

  lemma SendAllLast(o: Out, fs: seq<W.Frame>, f: W.Frame)
    ensures SendAll(o, fs + [f]) == Send(SendAll(o, fs), f)
  {
    assert (fs + [f])[..|fs|] == fs;
  }

  lemma DeliverEach(outs: Outs, registered: Registered, p: Publication, t: Target, task: G.TaskId)
    requires task in outs
    ensures DeliverTo(outs, registered, p, t).Keys == outs.Keys
    ensures DeliverTo(outs, registered, p, t)[task] ==
            if Reaches(registered, p, t, task) then Send(outs[task], MsgFor(p, t)) else outs[task]
  {
  }

  /** Every task is sent exactly the MSGs due to it, in selection order. */
  lemma {:induction false} DispatchEach(outs: Outs, registered: Registered, p: Publication, selected: seq<Target>, task: G.TaskId)
    requires task in outs
    ensures DispatchTo(outs, registered, p, selected).Keys == outs.Keys
    ensures DispatchTo(outs, registered, p, selected)[task] ==
            SendAll(outs[task], FramesFor(p, DueTargets(registered, p, selected, task)))
  {
    if selected != [] {
      var before, t := selected[..|selected| - 1], selected[|selected| - 1];
      DispatchEach(outs, registered, p, before, task);
      DeliverEach(DispatchTo(outs, registered, p, before), registered, p, t, task);
      var due := DueTargets(registered, p, before, task);
      if Reaches(registered, p, t, task) {
        FramesForLast(p, due, t);
        SendAllLast(outs[task], FramesFor(p, due), MsgFor(p, t));
      } else {
        assert DueTargets(registered, p, selected, task) == due;
      }
    }
  }

  /** A task gets one MSG for each time one of its targets is selected. */
  lemma DueCount(registered: Registered, p: Publication, selected: seq<Target>, task: G.TaskId, t: Target)
    ensures multiset(DueTargets(registered, p, selected, task))[t] ==
            if Reaches(registered, p, t, task) then multiset(selected)[t] else 0
  {
    KeepCount(selected, t => Reaches(registered, p, t, task), t);
  }

  /** The outbound buffers as the dispatch loop finds them. */
  function BuffersOf(outs: Outs, registered: Registered): Connections {
    map c | c in registered && registered[c] in outs :: outs[registered[c]].conn.buffer
  }

  ghost predicate OneIdEach(registered: Registered) {
    forall c | c in registered :: G.IdOf(registered[c]) == c
  }

  lemma SendBuffer(o: Out, f: W.Frame)
    requires o.conn.buffer.head <= |o.conn.buffer.data|
    ensures Send(o, f).conn.buffer == o.conn.buffer.Enqueue(W.Encode(f)).0
    ensures Send(o, f).conn.buffer.head <= |Send(o, f).conn.buffer.data|
  {
  }

  ghost predicate Drainable(outs: Outs) {
    forall t | t in outs :: outs[t].conn.buffer.head <= |outs[t].conn.buffer.data|
  }

  lemma DeliverBuffers(outs: Outs, registered: Registered, p: Publication, t: Target)
    requires OneIdEach(registered) && Drainable(outs)
    ensures BuffersOf(DeliverTo(outs, registered, p, t), registered) ==
            DeliverOne(BuffersOf(outs, registered), MsgEncoder(p), t, EMIT_SCRATCH_CAPACITY)
    ensures Drainable(DeliverTo(outs, registered, p, t))
  {
    if Fits(p, t) && t.conn in registered && registered[t.conn] in outs {
      SendBuffer(outs[registered[t.conn]], MsgFor(p, t));
    }
  }

  /** On the buffers it is what the dispatch loop does. */
  lemma {:induction false} DispatchIsDeliverAll(outs: Outs, registered: Registered, p: Publication, selected: seq<Target>)
    requires OneIdEach(registered) && Drainable(outs)
    ensures BuffersOf(DispatchTo(outs, registered, p, selected), registered) ==
            DeliverAll(BuffersOf(outs, registered), MsgEncoder(p), selected, EMIT_SCRATCH_CAPACITY)
    ensures Drainable(DispatchTo(outs, registered, p, selected))
  {
    if selected != [] {
      var before, t := selected[..|selected| - 1], selected[|selected| - 1];
      DispatchIsDeliverAll(outs, registered, p, before);
      DeliverBuffers(DispatchTo(outs, registered, p, before), registered, p, t);
    }
  }

  /**
   While registrations and table agree, nobody selected is missed: each selected target's connection is
   registered to a live reader that has the sid on record, and that reader's task is sent the MSG.
   */
  lemma EverySelectedReached(r: G.Registry, p: Publication, selected: seq<Target>, t: Target)
    requires G.Agrees(r) && ParsePublisher(p.subject).Ok? && Fits(p, t) && t in selected
    requires Selects(Walk(After(r.history).root, ParsePublisher(p.subject).value), selected)
    ensures t.conn in r.registered && r.registered[t.conn] in r.readers && t.sid in r.readers[r.registered[t.conn]]
    ensures t in DueTargets(r.registered, p, selected, r.registered[t.conn])
  {
    var tokens := ParsePublisher(p.subject).value;
    TrieRefinesList(r.history, p.subject);
    var s := SelectedListed(Walk(After(r.history).root, tokens), selected, FlatMatch(FlatAfter(r.history), tokens), t);
    var e := MatchListed(FlatAfter(r.history), tokens, s);
    assert G.Recorded(r, e);
    DueCount(r.registered, p, selected, r.registered[t.conn], t);
    assert t in multiset(selected);
  }
}
