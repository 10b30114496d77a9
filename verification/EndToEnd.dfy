/**
 The pieces together: what a subscriber's client parses out of its connection after a publish, in terms
 of the subscriptions made and the frame published.
 */
module EndToEnd {
  import opened Wrappers
  import opened Bytes
  import opened Subject
  import opened Trie
  import opened SubscriptionTable
  import opened TableHistory
  import opened Dispatch
  import W = Wire
  import P = Parse
  import C = Codec
  import R = Reader
  import S = ClientStream
  import Wr = Writer

  // ------------------------------------------- selection and the flat list

  /** Whether a target is a group's member depends on the matches as a multiset only. */
  lemma SameMember(ms: seq<Sub>, ms': seq<Sub>, g: Bytes, t: Target)
    requires multiset(ms) == multiset(ms')
    ensures t in Members(ms, g) <==> t in Members(ms', g)
    ensures t in Members(ms, g) <==> Sub(t.conn, t.sid, Some(g)) in ms'
  {
    var s := Sub(t.conn, t.sid, Some(g));
    MembersCount(ms, g, t);
    MembersCount(ms', g, t);
    assert t in Members(ms, g) <==> t in multiset(Members(ms, g));
    assert t in Members(ms', g) <==> t in multiset(Members(ms', g));
    assert s in ms' <==> s in multiset(ms');
  }

  /** The list has a subscription in this group. */
  ghost predicate ListsGroup(listed: seq<Sub>, g: Bytes) {
    exists s :: s in listed && s.queueGroup == Some(g)
  }

  lemma GroupListed(matches: seq<Sub>, listed: seq<Sub>, g: Bytes)
    requires multiset(matches) == multiset(listed)
    ensures g in Groups(matches) <==> ListsGroup(listed, g)
  {
    GroupsInhabited(matches, g);
    if g in Groups(matches) {
      var t := Members(matches, g)[0];
      SameMember(matches, listed, g, t);
      assert Sub(t.conn, t.sid, Some(g)).queueGroup == Some(g);
    }
    if ListsGroup(listed, g) {
      var s :| s in listed && s.queueGroup == Some(g);
      SameMember(matches, listed, g, Target(s.conn, s.sid));
      assert s == Sub(s.conn, s.sid, Some(g));
    }
  }

  /** What is selected for the ungrouped subscriptions, and for each group. */
  ghost predicate PlainPart(plain: seq<Target>, listed: seq<Sub>) {
    forall t: Target :: multiset(plain)[t] == multiset(listed)[Sub(t.conn, t.sid, None)]
  }

  ghost predicate GroupPart(picked: seq<Target>, groups: seq<Bytes>, listed: seq<Sub>) {
    && |picked| == |groups|
    && (forall i, j | 0 <= i < j < |groups| :: groups[i] != groups[j])
    && (forall k | 0 <= k < |groups| :: Sub(picked[k].conn, picked[k].sid, Some(groups[k])) in listed)
    && (forall g: Bytes :: g in groups <==> ListsGroup(listed, g))
  }

  /**
   A selection serves a list of subscriptions: first every ungrouped one, as often as it is listed, then
   one listed member of each group, the groups being exactly those with a listed member, each once.
   */
  ghost predicate Serves(groups: seq<Bytes>, selected: seq<Target>, listed: seq<Sub>) {
    && |groups| <= |selected|
    && PlainPart(selected[..|selected| - |groups|], listed)
    && GroupPart(selected[|selected| - |groups|..], groups, listed)
  }

  lemma SelectionServes(matches: seq<Sub>, selected: seq<Target>, listed: seq<Sub>)
    requires multiset(matches) == multiset(listed) && Selects(matches, selected)
    ensures Serves(Groups(matches), selected, listed)
  {
    var n, groups := |Ungrouped(matches)|, Groups(matches);
    forall t: Target
      ensures multiset(selected[..n])[t] == multiset(listed)[Sub(t.conn, t.sid, None)]
    {
      UngroupedCount(matches, t);
    }
    GroupsServe(matches, selected[n..], listed);
  }

  lemma GroupsServe(matches: seq<Sub>, picked: seq<Target>, listed: seq<Sub>)
    requires multiset(matches) == multiset(listed) && |picked| == |Groups(matches)|
    requires forall k | 0 <= k < |picked| :: picked[k] in Members(matches, Groups(matches)[k])
    ensures GroupPart(picked, Groups(matches), listed)
  {
    var groups := Groups(matches);
    GroupsDistinct(matches);
    forall k | 0 <= k < |groups|
      ensures Sub(picked[k].conn, picked[k].sid, Some(groups[k])) in listed
    {
      SameMember(matches, listed, groups[k], picked[k]);
    }
    forall g: Bytes
      ensures g in groups <==> ListsGroup(listed, g)
    {
      GroupListed(matches, listed, g);
    }
  }

  /**
   Publishing serves the subscriptions: after any history, the selection for a publish covers exactly
   the ungrouped subscriptions whose subject covers the published one, each once, and for each distinct
   queue group with such a subscription exactly one of them.
   */
  lemma SelectionServesList(ops: seq<Op>, subject: Bytes, matches: seq<Sub>, selected: seq<Target>)
    requires PublisherSubject(subject) && ParsePublisher(subject).Ok?
    requires matches == Walk(After(ops).root, ParsePublisher(subject).value) && Selects(matches, selected)
    ensures Serves(Groups(matches), selected, Covering(Listing(ops), subject))
  {
    TrieServesSubjects(ops, subject);
    SelectionServes(matches, selected, Covering(Listing(ops), subject));
  }

  // -------------------------------------------------------- what came in is legal

  /** A frame some client sent. */
  ghost predicate Arrived(f: W.Frame) {
    exists buf :: P.ParseFrame(buf).Parsed? && P.ParseFrame(buf).frame == f
  }

  /** What can arrive is exactly what is legal. */
  lemma ArrivedIsLegal(f: W.Frame)
    ensures Arrived(f) <==> W.Legal(f)
  {
    if Arrived(f) {
      var buf :| P.ParseFrame(buf).Parsed? && P.ParseFrame(buf).frame == f;
      C.ParsedIsLegal(buf);
    }
    C.RoundTripExactly(f);
  }

  ghost predicate OpArrived(op: Op) {
    op.Subscribe? ==> Arrived(W.Sub(op.subject, op.sub.queueGroup, op.sub.sid))
  }

  /** Every subscribe of a history was a SUB some client sent. */
  ghost predicate FromWire(ops: seq<Op>) {
    forall k | 0 <= k < |ops| :: OpArrived(ops[k])
  }

  lemma {:induction false} EntriesLegal(ops: seq<Op>, e: Entry)
    requires FromWire(ops) && e in FlatAfter(ops)
    ensures W.TokenOk(e.sub.sid)
  {
    var before, op := ops[..|ops| - 1], ops[|ops| - 1];
    if e in FlatAfter(before) {
      EntriesLegal(before, e);
    } else if op.Subscribe? {
      assert OpArrived(ops[|ops| - 1]);
      ArrivedIsLegal(W.Sub(op.subject, op.sub.queueGroup, op.sub.sid));
    } else if ParseSubscriber(op.subject).Ok? {
      WithoutMembers(FlatAfter(before), ParseSubscriber(op.subject).value, op.conn, op.sid, e);
    }
  }

  lemma {:induction false} MatchListed(flat: seq<Entry>, tokens: seq<Bytes>, s: Sub) returns (e: Entry)
    requires s in FlatMatch(flat, tokens)
    ensures e in flat && e.sub == s
  {
    var before, last := flat[..|flat| - 1], flat[|flat| - 1];
    if s in FlatMatch(before, tokens) {
      e := MatchListed(before, tokens, s);
    } else {
      e := last;
    }
  }

  lemma {:induction false} TargetMatched(matches: seq<Sub>, g: Bytes, t: Target) returns (s: Sub)
    requires t in Ungrouped(matches) || t in Members(matches, g)
    ensures s in matches && TargetOf(s) == t
  {
    var before, last := matches[..|matches| - 1], matches[|matches| - 1];
    if t in Ungrouped(before) || t in Members(before, g) {
      s := TargetMatched(before, g, t);
    } else {
      s := last;
    }
  }

  /** Whoever is selected is listed. */
  lemma SelectedListed(matches: seq<Sub>, selected: seq<Target>, listed: seq<Sub>, t: Target) returns (s: Sub)
    requires multiset(matches) == multiset(listed) && Selects(matches, selected) && t in selected
    ensures s in listed && TargetOf(s) == t
  {
    var n, groups := |Ungrouped(matches)|, Groups(matches);
    var k :| 0 <= k < |selected| && selected[k] == t;
    if k < n {
      assert t == selected[..n][k];
      s := TargetMatched(matches, [], t);
    } else {
      assert selected[n + (k - n)] in Members(matches, groups[k - n]);
      s := TargetMatched(matches, groups[k - n], t);
    }
    assert s in multiset(matches);
  }

  /** So every selected sid is a legal token. */
  lemma SelectedLegal(ops: seq<Op>, subject: Bytes, selected: seq<Target>, t: Target)
    requires FromWire(ops) && ParsePublisher(subject).Ok?
    requires Selects(Walk(After(ops).root, ParsePublisher(subject).value), selected) && t in selected
    ensures W.TokenOk(t.sid)
  {
    var tokens := ParsePublisher(subject).value;
    TrieRefinesList(ops, subject);
    var s := SelectedListed(Walk(After(ops).root, tokens), selected, FlatMatch(FlatAfter(ops), tokens), t);
    var e := MatchListed(FlatAfter(ops), tokens, s);
    EntriesLegal(ops, e);
  }

  lemma MsgLegal(p: Publication, t: Target)
    requires Arrived(W.Pub(p.subject, p.replyTo, p.payload)) && W.TokenOk(t.sid)
    requires |W.Encode(MsgFor(p, t))| <= EMIT_SCRATCH_CAPACITY
    ensures W.Legal(MsgFor(p, t))
  {
    ArrivedIsLegal(W.Pub(p.subject, p.replyTo, p.payload));
  }

  // ------------------------------------------------------ what a client reads

  function FramesFor(p: Publication, ts: seq<Target>): (fs: seq<W.Frame>)
    ensures |fs| == |ts|
  {
    seq(|ts|, (i: nat) requires i < |ts| => MsgFor(p, ts[i]))
  }

  /** A client parsing these bytes reads these frames, and nothing is left over. */
  ghost predicate ReadsAs(bytes: Bytes, fs: seq<W.Frame>) {
    S.ReadsOf(bytes, |fs| + 1) == R.Progress(fs, [], R.Waiting)
  }

  lemma {:induction false} StreamJoins(enc: Encoder, ts: seq<Target>, es: seq<Bytes>)
    requires |es| == |ts| && forall k | 0 <= k < |ts| :: es[k] == enc(ts[k])
    ensures Stream(enc, ts) == Wr.Joined(es)
  {
    if ts != [] {
      StreamJoins(enc, ts[..|ts| - 1], es[..|es| - 1]);
    }
  }

  lemma StreamIsJoined(p: Publication, ts: seq<Target>)
    ensures Stream(MsgEncoder(p), ts) == Wr.Joined(S.Encodings(FramesFor(p, ts)))
  {
    StreamJoins(MsgEncoder(p), ts, S.Encodings(FramesFor(p, ts)));
  }

  /** A connection's share holds each target of its own that fits as often as it was selected. */
  lemma {:induction false} ShareCount(enc: Encoder, selected: seq<Target>, c: ConnectionId, room: nat, t: Target)
    ensures multiset(Share(enc, selected, c, room))[t] ==
            if t.conn == c && |enc(t)| <= room then multiset(selected)[t] else 0
  {
    if selected != [] {
      var before, last := selected[..|selected| - 1], selected[|selected| - 1];
      ShareCount(enc, before, c, room, t);
      assert selected == before + [last];
      CountLast(before, last, t);
      if last.conn == c && |enc(last)| <= room {
        CountLast(Share(enc, before, c, room), last, t);
      } else {
        assert Share(enc, selected, c, room) == Share(enc, before, c, room);
      }
    }
  }

  lemma CountLast(ts: seq<Target>, last: Target, t: Target)
    ensures multiset(ts + [last])[t] == multiset(ts)[t] + if last == t then 1 else 0
  {
  }

  lemma {:induction false} ShareFits(enc: Encoder, selected: seq<Target>, c: ConnectionId, room: nat)
    ensures forall t | t in Share(enc, selected, c, room) :: t in selected && t.conn == c && |enc(t)| <= room
  {
    if selected != [] {
      ShareFits(enc, selected[..|selected| - 1], c, room);
    }
  }

  /** The MSGs of a connection's share are legal. */
  lemma ShareLegal(ops: seq<Op>, p: Publication, selected: seq<Target>, c: ConnectionId, fs: seq<W.Frame>)
    requires FromWire(ops) && Arrived(W.Pub(p.subject, p.replyTo, p.payload)) && ParsePublisher(p.subject).Ok?
    requires Selects(Walk(After(ops).root, ParsePublisher(p.subject).value), selected)
    requires fs == FramesFor(p, Share(MsgEncoder(p), selected, c, EMIT_SCRATCH_CAPACITY))
    ensures forall k | 0 <= k < |fs| :: W.Legal(fs[k])
  {
    var share := Share(MsgEncoder(p), selected, c, EMIT_SCRATCH_CAPACITY);
    ShareFits(MsgEncoder(p), selected, c, EMIT_SCRATCH_CAPACITY);
    forall k | 0 <= k < |fs|
      ensures W.Legal(fs[k])
    {
      assert share[k] in share;
      SelectedLegal(ops, p.subject, selected, share[k]);
      MsgLegal(p, share[k]);
    }
  }

  /**
   One publish, as a subscriber's client reads it.  The published frame and every subscription came in
   over the wire.  Then, for every registered open connection with room for its share, exactly its
   share is appended to its outbound buffer, and a client parsing those bytes reads one MSG per
   selected subscription of that connection, in selection order, with the published subject, reply
   subject and payload, and nothing else.
   */
  lemma ClientReads(ops: seq<Op>, conns: Connections, p: Publication, selected: seq<Target>, c: ConnectionId)
    requires FromWire(ops) && Arrived(W.Pub(p.subject, p.replyTo, p.payload)) && ParsePublisher(p.subject).Ok?
    requires Selects(Walk(After(ops).root, ParsePublisher(p.subject).value), selected)
    requires c in conns && conns[c].close.None?
    requires |conns[c].data| + |Stream(MsgEncoder(p), Share(MsgEncoder(p), selected, c, EMIT_SCRATCH_CAPACITY))| <= conns[c].capacity
    ensures var share := Share(MsgEncoder(p), selected, c, EMIT_SCRATCH_CAPACITY);
            var after := DeliverAll(conns, MsgEncoder(p), selected, EMIT_SCRATCH_CAPACITY);
            && c in after
            && after[c].data == conns[c].data + Stream(MsgEncoder(p), share)
            && ReadsAs(Stream(MsgEncoder(p), share), FramesFor(p, share))
            && (forall k | 0 <= k < |share| :: FramesFor(p, share)[k] == W.Msg(p.subject, share[k].sid, p.replyTo, p.payload))
            && (forall t: Target :: multiset(share)[t] ==
                  if t.conn == c && |W.Encode(W.Msg(p.subject, t.sid, p.replyTo, p.payload))| <= EMIT_SCRATCH_CAPACITY
                  then multiset(selected)[t] else 0)
  {
    ShareDelivered(conns, MsgEncoder(p), selected, c);
    ShareReadsBack(ops, p, selected, c);
    forall t: Target
      ensures multiset(Share(MsgEncoder(p), selected, c, EMIT_SCRATCH_CAPACITY))[t] ==
              if t.conn == c && |W.Encode(W.Msg(p.subject, t.sid, p.replyTo, p.payload))| <= EMIT_SCRATCH_CAPACITY
              then multiset(selected)[t] else 0
    {
      ShareCount(MsgEncoder(p), selected, c, EMIT_SCRATCH_CAPACITY, t);
    }
  }

  lemma ShareDelivered(conns: Connections, enc: Encoder, selected: seq<Target>, c: ConnectionId)
    requires c in conns && conns[c].close.None?
    requires |conns[c].data| + |Stream(enc, Share(enc, selected, c, EMIT_SCRATCH_CAPACITY))| <= conns[c].capacity
    ensures var after := DeliverAll(conns, enc, selected, EMIT_SCRATCH_CAPACITY);
            c in after && after[c].data == conns[c].data + Stream(enc, Share(enc, selected, c, EMIT_SCRATCH_CAPACITY))
  {
    EachItsShare(conns, enc, selected, EMIT_SCRATCH_CAPACITY, c);
    ShareAppended(conns[c], enc, Share(enc, selected, c, EMIT_SCRATCH_CAPACITY));
  }

  lemma ShareReadsBack(ops: seq<Op>, p: Publication, selected: seq<Target>, c: ConnectionId)
    requires FromWire(ops) && Arrived(W.Pub(p.subject, p.replyTo, p.payload)) && ParsePublisher(p.subject).Ok?
    requires Selects(Walk(After(ops).root, ParsePublisher(p.subject).value), selected)
    ensures var share := Share(MsgEncoder(p), selected, c, EMIT_SCRATCH_CAPACITY);
            ReadsAs(Stream(MsgEncoder(p), share), FramesFor(p, share))
  {
    var share := Share(MsgEncoder(p), selected, c, EMIT_SCRATCH_CAPACITY);
    var fs := FramesFor(p, share);
    ShareLegal(ops, p, selected, c, fs);
    StreamIsJoined(p, share);
    JoinedReadsBack(Stream(MsgEncoder(p), share), fs);
  }

  lemma JoinedReadsBack(bytes: Bytes, fs: seq<W.Frame>)
    requires bytes == Wr.Joined(S.Encodings(fs)) && forall k | 0 <= k < |fs| :: W.Legal(fs[k])
    ensures ReadsAs(bytes, fs)
  {
    S.LegalReadsBack(fs, |fs| + 1);
  }
}
