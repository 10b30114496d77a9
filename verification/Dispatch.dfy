/**
 Local dispatch of one publish (`dispatch_local` of crates/aulon-server/src/main.rs): collect the
 matches, one bucket per queue group, then enqueue a MSG for every ungrouped match and for one member
 of each group, picked by the worker's generator.  Connections are their outbound buffers.
 */
module Dispatch {
  import opened Wrappers
  import opened Bytes
  import opened Decimal
  import opened Subject
  import opened Trie
  import opened TableHistory
  import opened Outbound
  import W = Wire
  import E = Emit
  import Prng = XorShift

  const EMIT_SCRATCH_CAPACITY: nat := W.MAX_PAYLOAD_BYTES + 4096

  datatype Target = Target(conn: ConnectionId, sid: Bytes)

  function TargetOf(s: Sub): Target {
    Target(s.conn, s.sid)
  }

  // ---------------------------------------------------------------- grouping

  /** The ungrouped matches, in order. */
  function Ungrouped(matches: seq<Sub>): seq<Target> {
    if matches == [] then []
    else
      var last := matches[|matches| - 1];
      Ungrouped(matches[..|matches| - 1]) + if last.queueGroup.None? then [TargetOf(last)] else []
  }

  /** The matches in queue group g, in order. */
  function Members(matches: seq<Sub>, g: Bytes): seq<Target> {
    if matches == [] then []
    else
      var last := matches[|matches| - 1];
      Members(matches[..|matches| - 1], g) + if last.queueGroup == Some(g) then [TargetOf(last)] else []
  }

  /** The distinct queue groups, by first appearance. */
  function Groups(matches: seq<Sub>): seq<Bytes> {
    if matches == [] then []
    else
      var before, last := Groups(matches[..|matches| - 1]), matches[|matches| - 1];
      if last.queueGroup.Some? && last.queueGroup.value !in before then before + [last.queueGroup.value] else before
  }

  lemma {:induction false} GroupsDistinct(matches: seq<Sub>)
    ensures forall i, j | 0 <= i < j < |Groups(matches)| :: Groups(matches)[i] != Groups(matches)[j]
  {
    if matches != [] {
      GroupsDistinct(matches[..|matches| - 1]);
    }
  }

  /** A group is listed exactly when it has a matching member. */
  lemma {:induction false} GroupsInhabited(matches: seq<Sub>, g: Bytes)
    ensures g in Groups(matches) <==> Members(matches, g) != []
  {
    if matches != [] {
      GroupsInhabited(matches[..|matches| - 1], g);
    }
  }

  /** Each ungrouped match is there as often as it matched ... */
  lemma {:induction false} UngroupedCount(matches: seq<Sub>, t: Target)
    ensures multiset(Ungrouped(matches))[t] == multiset(matches)[Sub(t.conn, t.sid, None)]
  {
    if matches != [] {
      var before, last := matches[..|matches| - 1], matches[|matches| - 1];
      UngroupedCount(before, t);
      assert matches == before + [last];
    }
  }

  /** ... and so is each match in a group. */
  lemma {:induction false} MembersCount(matches: seq<Sub>, g: Bytes, t: Target)
    ensures multiset(Members(matches, g))[t] == multiset(matches)[Sub(t.conn, t.sid, Some(g))]
  {
    if matches != [] {
      var before, last := matches[..|matches| - 1], matches[|matches| - 1];
      MembersCount(before, g, t);
      assert matches == before + [last];
    }
  }

  /** Every ungrouped match once and, for each distinct group, one of its matching members. */
  ghost predicate Selects(matches: seq<Sub>, selected: seq<Target>) {
    var plain, groups := Ungrouped(matches), Groups(matches);
    && |selected| == |plain| + |groups|
    && selected[..|plain|] == plain
    && forall k | 0 <= k < |groups| :: selected[|plain| + k] in Members(matches, groups[k])
  }

  datatype Bucket = Bucket(group: Bytes, members: seq<Target>)

  ghost predicate Bucketed(matches: seq<Sub>, groups: seq<Bucket>) {
    && |groups| == |Groups(matches)|
    && forall k | 0 <= k < |groups| :: groups[k].group == Groups(matches)[k] && groups[k].members == Members(matches, groups[k].group)
  }

  method FindBucket(groups: seq<Bucket>, g: Bytes) returns (r: Option<nat>)
    ensures r.Some? ==> r.value < |groups| && groups[r.value].group == g
    ensures r.None? ==> forall k | 0 <= k < |groups| :: groups[k].group != g
  {
    for k := 0 to |groups|
      invariant forall i | 0 <= i < k :: groups[i].group != g
    {
      if groups[k].group == g {
        return Some(k);
      }
    }
    r := None;
  }

  lemma AddToBucket(matches: seq<Sub>, sub: Sub, groups: seq<Bucket>, k: nat)
    requires Bucketed(matches, groups) && k < |groups| && sub.queueGroup == Some(groups[k].group)
    ensures Bucketed(matches + [sub], groups[k := groups[k].(members := groups[k].members + [TargetOf(sub)])])
  {
    assert (matches + [sub])[..|matches|] == matches;
    GroupsDistinct(matches);
    assert Groups(matches)[k] in Groups(matches);
    var groups' := groups[k := groups[k].(members := groups[k].members + [TargetOf(sub)])];
    forall i | 0 <= i < |groups|
      ensures groups'[i].group == Groups(matches)[i] && groups'[i].members == Members(matches + [sub], groups'[i].group)
    {
      assert i != k ==> Groups(matches)[i] != Groups(matches)[k];
    }
  }

  lemma AddBucket(matches: seq<Sub>, sub: Sub, groups: seq<Bucket>)
    requires Bucketed(matches, groups) && sub.queueGroup.Some?
    requires forall k | 0 <= k < |groups| :: groups[k].group != sub.queueGroup.value
    ensures Bucketed(matches + [sub], groups + [Bucket(sub.queueGroup.value, [TargetOf(sub)])])
  {
    assert (matches + [sub])[..|matches|] == matches;
    var g := sub.queueGroup.value;
    assert g !in Groups(matches);
    GroupsInhabited(matches, g);
  }

  /** The collecting callback: plain matches into one list, grouped ones into their bucket. */
  method Collect(matches: seq<Sub>) returns (plain: seq<Target>, groups: seq<Bucket>)
    ensures plain == Ungrouped(matches) && Bucketed(matches, groups)
  {
    plain, groups := [], [];
    for i := 0 to |matches|
      invariant plain == Ungrouped(matches[..i]) && Bucketed(matches[..i], groups)
    {
      var sub := matches[i];
      assert matches[..i + 1] == matches[..i] + [sub] && matches[..i + 1][..i] == matches[..i];
      if sub.queueGroup.Some? {
        var found := FindBucket(groups, sub.queueGroup.value);
        if found.Some? {
          AddToBucket(matches[..i], sub, groups, found.value);
          groups := groups[found.value := groups[found.value].(members := groups[found.value].members + [TargetOf(sub)])];
        } else {
          AddBucket(matches[..i], sub, groups);
          groups := groups + [Bucket(sub.queueGroup.value, [TargetOf(sub)])];
        }
      } else {
        plain := plain + [TargetOf(sub)];
      }
    }
    assert matches[..|matches|] == matches;
  }

  // ---------------------------------------------------------- across shards

  /** What was picked for group g; `picked[k]` is the pick for `groups[k]`. */
  function Picks(groups: seq<Bytes>, picked: seq<Target>, g: Bytes): seq<Target>
    requires |groups| == |picked|
  {
    if groups == [] then []
    else
      var n := |groups| - 1;
      Picks(groups[..n], picked[..n], g) + if groups[n] == g then [picked[n]] else []
  }

  lemma {:induction false} PickedOnce(groups: seq<Bytes>, picked: seq<Target>, g: Bytes)
    requires |groups| == |picked| && forall i, j | 0 <= i < j < |groups| :: groups[i] != groups[j]
    ensures |Picks(groups, picked, g)| == if g in groups then 1 else 0
    ensures forall t | t in Picks(groups, picked, g) :: exists k :: 0 <= k < |groups| && groups[k] == g && picked[k] == t
  {
    if groups != [] {
      var n := |groups| - 1;
      PickedOnce(groups[..n], picked[..n], g);
      assert groups == groups[..n] + [groups[n]];
      assert groups[n] == g ==> g !in groups[..n];
      forall t | t in Picks(groups, picked, g)
        ensures exists k :: 0 <= k < |groups| && groups[k] == g && picked[k] == t
      {
        if t in Picks(groups[..n], picked[..n], g) {
          var k :| 0 <= k < n && groups[..n][k] == g && picked[..n][k] == t;
          assert groups[k] == g && picked[k] == t;
        }
      }
    }
  }

  /** Whom one shard's selection serves in group g. */
  ghost function ServedIn(matches: seq<Sub>, selected: seq<Target>, g: Bytes): seq<Target>
    requires Selects(matches, selected)
  {
    Picks(Groups(matches), selected[|Ungrouped(matches)|..], g)
  }

  /** A selection serves a group once, and one of its members, iff the shard has a matching member. */
  lemma OnceHere(matches: seq<Sub>, selected: seq<Target>, g: Bytes)
    requires Selects(matches, selected)
    ensures |ServedIn(matches, selected, g)| == if Members(matches, g) != [] then 1 else 0
    ensures forall t | t in ServedIn(matches, selected, g) :: t in Members(matches, g)
  {
    var groups, picked := Groups(matches), selected[|Ungrouped(matches)|..];
    GroupsDistinct(matches);
    GroupsInhabited(matches, g);
    PickedOnce(groups, picked, g);
    forall t | t in ServedIn(matches, selected, g)
      ensures t in Members(matches, g)
    {
      var k :| 0 <= k < |groups| && groups[k] == g && picked[k] == t;
      PickIsMember(matches, selected, k);
    }
  }

  lemma PickIsMember(matches: seq<Sub>, selected: seq<Target>, k: nat)
    requires Selects(matches, selected) && k < |Groups(matches)|
    ensures selected[|Ungrouped(matches)|..][k] in Members(matches, Groups(matches)[k])
  {
  }

  /** Every shard dispatches the publish on its own: `matches[s]` and `selected[s]` are shard s's. */
  ghost predicate AllSelect(matches: seq<seq<Sub>>, selected: seq<seq<Target>>) {
    |matches| == |selected| && forall s | 0 <= s < |matches| :: Selects(matches[s], selected[s])
  }

  ghost function Served(matches: seq<seq<Sub>>, selected: seq<seq<Target>>, g: Bytes): seq<Target>
    requires AllSelect(matches, selected)
  {
    if matches == [] then []
    else
      var n := |matches| - 1;
      Served(matches[..n], selected[..n], g) + ServedIn(matches[n], selected[n], g)
  }

  predicate Holds(matches: seq<seq<Sub>>, s: nat, g: Bytes) {
    s < |matches| && Members(matches[s], g) != []
  }

  /** How many shards hold a matching member of g. */
  function HoldingShards(matches: seq<seq<Sub>>, g: Bytes): nat {
    if matches == [] then 0
    else
      var n := |matches| - 1;
      HoldingShards(matches[..n], g) + if Holds(matches, n, g) then 1 else 0
  }

  lemma {:induction false} ServedPerShard(matches: seq<seq<Sub>>, selected: seq<seq<Target>>, g: Bytes)
    requires AllSelect(matches, selected)
    ensures |Served(matches, selected, g)| == HoldingShards(matches, g)
  {
    if matches != [] {
      var n := |matches| - 1;
      ServedPerShard(matches[..n], selected[..n], g);
      OnceHere(matches[n], selected[n], g);
    }
  }

  ghost predicate OnlyHolder(matches: seq<seq<Sub>>, s: nat, g: Bytes) {
    Holds(matches, s, g) && forall s': nat | Holds(matches, s', g) :: s' == s
  }

  lemma {:induction false} NoHolder(matches: seq<seq<Sub>>, g: Bytes)
    ensures HoldingShards(matches, g) == 0 <==> forall s: nat :: !Holds(matches, s, g)
  {
    if matches != [] {
      var n := |matches| - 1;
      NoHolder(matches[..n], g);
      assert forall s: nat | s < n :: Holds(matches[..n], s, g) <==> Holds(matches, s, g);
    }
  }

  lemma {:induction false} OneHolder(matches: seq<seq<Sub>>, g: Bytes)
    ensures HoldingShards(matches, g) == 1 <==> exists s: nat :: OnlyHolder(matches, s, g)
  {
    if matches != [] {
      var n := |matches| - 1;
      OneHolder(matches[..n], g);
      NoHolder(matches[..n], g);
      assert forall s: nat | s < n :: Holds(matches[..n], s, g) <==> Holds(matches, s, g);
      assert forall s: nat | Holds(matches, s, g) :: s <= n;
      if Holds(matches, n, g) {
        assert OnlyHolder(matches, n, g) <==> HoldingShards(matches[..n], g) == 0;
      } else {
        assert forall s: nat :: OnlyHolder(matches[..n], s, g) <==> OnlyHolder(matches, s, g);
      }
    }
  }

  /**
   A queue group is served once per shard that holds a matching member, each time one of that shard's
   members; so it is served exactly once overall iff exactly one shard holds a matching member.
   */
  lemma OncePerShard(matches: seq<seq<Sub>>, selected: seq<seq<Target>>, g: Bytes)
    requires AllSelect(matches, selected)
    ensures |Served(matches, selected, g)| == HoldingShards(matches, g)
    ensures |Served(matches, selected, g)| == 1 <==> exists s: nat :: OnlyHolder(matches, s, g)
  {
    ServedPerShard(matches, selected, g);
    OneHolder(matches, g);
  }

  lemma OneMember(conn: ConnectionId, sid: Bytes, g: Bytes)
    ensures Selects([Sub(conn, sid, Some(g))], [Target(conn, sid)])
    ensures Members([Sub(conn, sid, Some(g))], g) == [Target(conn, sid)]
  {
    var matches := [Sub(conn, sid, Some(g))];
    assert matches[..0] == [];
    assert Ungrouped(matches) == [] && Groups(matches) == [g];
  }

  /** Two shards with one member each: both members get the message. */
  lemma TwoShardsServeTwice(a: Target, b: Target, g: Bytes)
    ensures var matches := [[Sub(a.conn, a.sid, Some(g))], [Sub(b.conn, b.sid, Some(g))]];
            AllSelect(matches, [[a], [b]]) && |Served(matches, [[a], [b]], g)| == 2
  {
    var matches := [[Sub(a.conn, a.sid, Some(g))], [Sub(b.conn, b.sid, Some(g))]];
    OneMember(a.conn, a.sid, g);
    OneMember(b.conn, b.sid, g);
    ServedPerShard(matches, [[a], [b]], g);
    assert Holds(matches, 1, g) && Holds(matches[..1], 0, g);
    assert matches[..1][..0] == [];
    assert HoldingShards(matches[..1], g) == 1;
  }

  // ---------------------------------------------------------------- delivery

  datatype Publication = Publication(subject: Bytes, replyTo: Option<Bytes>, payload: Bytes)

  type Connections = map<ConnectionId, Buffer>

  function MsgFor(p: Publication, t: Target): W.Frame {
    W.Msg(p.subject, t.sid, p.replyTo, p.payload)
  }

  /** The encoding each target is sent. */
  type Encoder = Target -> Bytes

  function MsgEncoder(p: Publication): Encoder {
    t => W.Encode(MsgFor(p, t))
  }

  /** Emit into a scratch of `room` bytes and enqueue; a MSG that does not fit is skipped. */
  function DeliverOne(conns: Connections, enc: Encoder, t: Target, room: nat): Connections {
    if |enc(t)| <= room && t.conn in conns then conns[t.conn := conns[t.conn].Enqueue(enc(t)).0] else conns
  }

  function DeliverAll(conns: Connections, enc: Encoder, selected: seq<Target>, room: nat): Connections {
    if selected == [] then conns
    else DeliverOne(DeliverAll(conns, enc, selected[..|selected| - 1], room), enc, selected[|selected| - 1], room)
  }

  /** The targets on connection c whose encoding fits, in order. */
  function Share(enc: Encoder, selected: seq<Target>, c: ConnectionId, room: nat): seq<Target> {
    if selected == [] then []
    else
      var t := selected[|selected| - 1];
      Share(enc, selected[..|selected| - 1], c, room) + if t.conn == c && |enc(t)| <= room then [t] else []
  }

  function EnqueueAll(b: Buffer, enc: Encoder, ts: seq<Target>): Buffer {
    if ts == [] then b else EnqueueAll(b, enc, ts[..|ts| - 1]).Enqueue(enc(ts[|ts| - 1])).0
  }

  function Stream(enc: Encoder, ts: seq<Target>): Bytes {
    if ts == [] then [] else Stream(enc, ts[..|ts| - 1]) + enc(ts[|ts| - 1])
  }

  /** Every connection gets its own share enqueued, in selection order, and nothing else. */
  lemma {:induction false} EachItsShare(conns: Connections, enc: Encoder, selected: seq<Target>, room: nat, c: ConnectionId)
    requires c in conns
    ensures DeliverAll(conns, enc, selected, room).Keys == conns.Keys
    ensures DeliverAll(conns, enc, selected, room)[c] == EnqueueAll(conns[c], enc, Share(enc, selected, c, room))
  {
    if selected != [] {
      var before, t := selected[..|selected| - 1], selected[|selected| - 1];
      EachItsShare(conns, enc, before, room, c);
      var share := Share(enc, before, c, room);
      if t.conn == c && |enc(t)| <= room {
        assert (share + [t])[..|share|] == share;
      } else {
        assert Share(enc, selected, c, room) == share;
      }
    }
  }

  /** With room for its whole share, an open connection gets exactly those bytes appended. */
  lemma {:induction false} ShareAppended(b: Buffer, enc: Encoder, ts: seq<Target>)
    requires b.close.None? && |b.data| + |Stream(enc, ts)| <= b.capacity
    ensures EnqueueAll(b, enc, ts).data == b.data + Stream(enc, ts)
    ensures EnqueueAll(b, enc, ts).close.None? && EnqueueAll(b, enc, ts).capacity == b.capacity
    ensures EnqueueAll(b, enc, ts).head == b.head
  {
    if ts == [] {
      assert b.data + [] == b.data;
    } else {
      var before, t := ts[..|ts| - 1], ts[|ts| - 1];
      ShareAppended(b, enc, before);
      assert b.data + (Stream(enc, before) + enc(t)) == (b.data + Stream(enc, before)) + enc(t);
    }
  }

  /** `enc` encodes p's MSGs, without the encoding's definition in the proofs about the loops. */
  ghost predicate Encodes(enc: Encoder, p: Publication) {
    forall t: Target :: EncodesAs(enc, p, t)
  }

  ghost predicate EncodesAs(enc: Encoder, p: Publication, t: Target) {
    enc(t) == W.Encode(W.Msg(p.subject, t.sid, p.replyTo, p.payload))
  }

  /** The encoder the model delivers with does: subject, reply subject and payload are the publication's. */
  lemma MsgEncoderEncodes(p: Publication)
    ensures Encodes(MsgEncoder(p), p)
  {
  }

  /** The worker's table, its connections' outbound buffers, and the buffer MSGs are encoded in. */
  class Worker {
    const table: SubscriptionTrie
    const scratch: array<Byte>
    var connections: Connections
    var rng: bv64

    ghost predicate Valid()
      reads this, table
    {
      table.Valid() && scratch.Length == EMIT_SCRATCH_CAPACITY && rng != 0
    }

    constructor (table: SubscriptionTrie, shard: bv64)
      requires table.Valid() && shard < 0x1_0000_0000
      ensures Valid() && this.table == table && fresh(scratch) && connections == map[] && rng == Prng.Seed(shard)
    {
      Prng.SeedNotZero(shard);
      this.table := table;
      rng := Prng.Seed(shard);
      scratch := new Byte[EMIT_SCRATCH_CAPACITY](_ => 0);
      connections := map[];
    }

    method Deliver(p: Publication, t: Target, ghost enc: Encoder)
      requires scratch.Length == EMIT_SCRATCH_CAPACITY && |p.payload| <= ISIZE_MAX && Encodes(enc, p)
      modifies this`connections, scratch
      ensures connections == DeliverOne(old(connections), enc, t, EMIT_SCRATCH_CAPACITY)
    {
      assert EncodesAs(enc, p, t);
      var n := E.EmitMsg(scratch, p.subject, t.sid, p.replyTo, p.payload);
      if n.Ok? && t.conn in connections {
        assert scratch[..n.value] == enc(t);
        connections := connections[t.conn := connections[t.conn].Enqueue(scratch[..n.value]).0];
      }
    }

    /** `pick_index`: the next draw, reduced to an index of a non-empty bucket. */
    method PickIndex(n: nat) returns (k: nat)
      requires n > 0
      modifies this`rng
      ensures rng == Prng.Step(old(rng)) && (old(rng) != 0 ==> rng != 0)
      ensures k == Prng.Reduce(rng as nat, n) && k < n
    {
      if Prng.Step(rng) == 0 {
        Prng.NeverZero(rng);
      }
      rng := Prng.Draw(rng);
      k := Prng.Reduce(rng as nat, n);
    }

    method Pick(members: seq<Target>) returns (t: Target)
      requires members != []
      modifies this`rng
      ensures t in members && (old(rng) != 0 ==> rng != 0)
    {
      var k := PickIndex(|members|);
      t := members[k];
    }

    method DeliverPlain(p: Publication, plain: seq<Target>, ghost enc: Encoder)
      requires scratch.Length == EMIT_SCRATCH_CAPACITY && |p.payload| <= ISIZE_MAX && Encodes(enc, p)
      modifies this`connections, scratch
      ensures connections == DeliverAll(old(connections), enc, plain, EMIT_SCRATCH_CAPACITY)
    {
      for i := 0 to |plain|
        invariant connections == DeliverAll(old(connections), enc, plain[..i], EMIT_SCRATCH_CAPACITY)
      {
        Deliver(p, plain[i], enc);
        assert plain[..i + 1][..i] == plain[..i];
      }
      assert plain[..|plain|] == plain;
    }

    method DeliverGroups(p: Publication, groups: seq<Bucket>, ghost done: seq<Target>, ghost start: Connections, ghost enc: Encoder)
      returns (ghost selected: seq<Target>)
      requires scratch.Length == EMIT_SCRATCH_CAPACITY && |p.payload| <= ISIZE_MAX && Encodes(enc, p)
      requires forall k | 0 <= k < |groups| :: groups[k].members != []
      requires connections == DeliverAll(start, enc, done, EMIT_SCRATCH_CAPACITY)
      modifies this, scratch
      ensures |selected| == |done| + |groups| && selected[..|done|] == done
      ensures forall k | 0 <= k < |groups| :: selected[|done| + k] in groups[k].members
      ensures connections == DeliverAll(start, enc, selected, EMIT_SCRATCH_CAPACITY)
      ensures old(rng) != 0 ==> rng != 0
    {
      selected := done;
      for k := 0 to |groups|
        invariant |selected| == |done| + k && selected[..|done|] == done
        invariant forall j | 0 <= j < k :: selected[|done| + j] in groups[j].members
        invariant connections == DeliverAll(start, enc, selected, EMIT_SCRATCH_CAPACITY)
        invariant old(rng) != 0 ==> rng != 0
      {
        var t := Pick(groups[k].members);
        Deliver(p, t, enc);
        assert (selected + [t])[..|selected|] == selected;
        selected := selected + [t];
      }
    }

    method DispatchMatches(p: Publication, matches: seq<Sub>, ghost enc: Encoder) returns (ghost selected: seq<Target>)
      requires scratch.Length == EMIT_SCRATCH_CAPACITY && |p.payload| <= ISIZE_MAX && Encodes(enc, p)
      modifies this, scratch
      ensures Selects(matches, selected)
      ensures connections == DeliverAll(old(connections), enc, selected, EMIT_SCRATCH_CAPACITY)
      ensures old(rng) != 0 ==> rng != 0
    {
      var plain, groups := Collect(matches);
      forall k | 0 <= k < |groups|
        ensures groups[k].members != []
      {
        GroupsInhabited(matches, groups[k].group);
      }
      ghost var start := connections;
      DeliverPlain(p, plain, enc);
      selected := DeliverGroups(p, groups, plain, start, enc);
    }

    /** `dispatch_local` */
    method DispatchLocal(p: Publication, ghost enc: Encoder)
      returns (r: Result<(), SubjectError>, ghost matches: seq<Sub>, ghost selected: seq<Target>)
      requires Valid() && |p.payload| <= ISIZE_MAX && Encodes(enc, p)
      modifies this, scratch
      ensures Valid()
      ensures r.Ok? <==> PublisherSubject(p.subject)
      ensures r.Err? ==> ParsePublisher(p.subject) == Err(r.error) && connections == old(connections)
      ensures r.Ok? ==> ParsePublisher(p.subject).Ok? && matches == Walk(table.root, ParsePublisher(p.subject).value)
      ensures r.Ok? ==> multiset(matches) == multiset(Covering(Listing(table.history), p.subject)) && Selects(matches, selected)
      ensures r.Ok? ==> connections == DeliverAll(old(connections), enc, selected, EMIT_SCRATCH_CAPACITY)
    {
      matches, selected := [], [];
      var found := table.ForEachMatch(p.subject);
      if found.Err? {
        return Err(found.error), [], [];
      }
      matches := found.value;
      selected := DispatchMatches(p, found.value, enc);
      r := Ok(());
    }
  }

  // ----------------------------------------------------------- scratch space

  /** The bytes of a MSG other than its payload. */
  function Overhead(subject: Bytes, sid: Bytes, replyTo: Option<Bytes>, payload: Bytes): nat {
    |subject| + |sid| + (if replyTo.Some? then |replyTo.value| + 1 else 0) + |Digits(|payload|)| + 10
  }

  lemma MsgLength(subject: Bytes, sid: Bytes, replyTo: Option<Bytes>, payload: Bytes)
    ensures |W.Encode(W.Msg(subject, sid, replyTo, payload))| == |payload| + Overhead(subject, sid, replyTo, payload)
  {
    var digits := Digits(|payload|);
    var f := W.Msg(subject, sid, replyTo, payload);
    var tail := W.Opt(replyTo) + [digits];
    E.SpacedOpt(replyTo, digits);
    E.SpacedCons(sid, tail);
    E.SpacedCons(subject, [sid] + tail);
    assert W.Fields(f) == [subject] + ([sid] + tail);
  }

  /**
   A MSG with a payload of at most 1 MiB and at most 4096 other bytes fits the scratch, so it is never
   skipped; at the largest payload the 4096 bytes are also the exact limit.
   */
  lemma ScratchFits(subject: Bytes, sid: Bytes, replyTo: Option<Bytes>, payload: Bytes)
    requires |payload| <= W.MAX_PAYLOAD_BYTES
    ensures Overhead(subject, sid, replyTo, payload) <= 4096 ==>
              |W.Encode(W.Msg(subject, sid, replyTo, payload))| <= EMIT_SCRATCH_CAPACITY
    ensures |payload| == W.MAX_PAYLOAD_BYTES ==>
              (|W.Encode(W.Msg(subject, sid, replyTo, payload))| <= EMIT_SCRATCH_CAPACITY
               <==> Overhead(subject, sid, replyTo, payload) <= 4096)
  {
    MsgLength(subject, sid, replyTo, payload);
  }
}
