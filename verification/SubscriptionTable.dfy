/**
 The trie against a flat list of (pattern, subscription) pairs under the NATS wildcard rules: what a
 walk finds, and what inserting and removing do to the list.
 */
module SubscriptionTable {
  import opened Bytes
  import opened Subject
  import opened Trie

  datatype Entry = Entry(pattern: Pattern, sub: Sub)

  // --------------------------------------------------------------- flat list

  /** The subscriptions listed under exactly this pattern, in order. */
  function Under(flat: seq<Entry>, p: Pattern): seq<Sub> {
    if flat == [] then []
    else
      var last := flat[|flat| - 1];
      Under(flat[..|flat| - 1], p) + if last.pattern == p then [last.sub] else []
  }

  predicate Targets(e: Entry, p: Pattern, conn: ConnectionId, sid: Bytes) {
    e.pattern == p && e.sub.conn == conn && e.sub.sid == sid
  }

  /** The list without the entries of (conn, sid) under p. */
  function Without(flat: seq<Entry>, p: Pattern, conn: ConnectionId, sid: Bytes): (r: seq<Entry>)
    ensures |r| <= |flat|
  {
    if flat == [] then []
    else
      var last := flat[|flat| - 1];
      Without(flat[..|flat| - 1], p, conn, sid) + if Targets(last, p, conn, sid) then [] else [last]
  }

  lemma {:induction false} WithoutMembers(flat: seq<Entry>, p: Pattern, conn: ConnectionId, sid: Bytes, e: Entry)
    ensures e in Without(flat, p, conn, sid) <==> e in flat && !Targets(e, p, conn, sid)
  {
    if flat != [] {
      WithoutMembers(flat[..|flat| - 1], p, conn, sid, e);
      assert flat == flat[..|flat| - 1] + [flat[|flat| - 1]];
    }
  }

  /** The NATS rule: `*` stands for one token, a final `>` for one or more. */
  predicate Matches(p: Pattern, tokens: seq<Bytes>) {
    var fixed := if |p| > 0 && p[|p| - 1] == Greater then |p| - 1 else |p|;
    && (if fixed < |p| then |tokens| > fixed else |tokens| == fixed)
    && forall i | 0 <= i < fixed :: p[i] == Star || p[i] == Literal(tokens[i])
  }

  function FlatMatch(flat: seq<Entry>, tokens: seq<Bytes>): seq<Sub> {
    if flat == [] then []
    else
      var last := flat[|flat| - 1];
      FlatMatch(flat[..|flat| - 1], tokens) + if Matches(last.pattern, tokens) then [last.sub] else []
  }

  // ---------------------------------------------------- matching and buckets

  /** Every pattern that matches these tokens, in the order the walk visits their buckets. */
  function Patterns(tokens: seq<Bytes>): seq<Pattern> {
    if tokens == [] then [[]]
    else
      var below := Patterns(tokens[1..]);
      [[Greater]] + Prefixed(Literal(tokens[0]), below) + Prefixed(Star, below)
  }

  function Prefixed(t: Token, ps: seq<Pattern>): (r: seq<Pattern>)
    ensures |r| == |ps| && forall i | 0 <= i < |r| :: r[i] == [t] + ps[i]
  {
    seq(|ps|, (i: nat) requires i < |ps| => [t] + ps[i])
  }

  function Buckets(n: Node, ps: seq<Pattern>): seq<Sub> {
    if ps == [] then [] else Bucket(n, ps[0]) + Buckets(n, ps[1..])
  }

  lemma {:induction false} BucketsAppend(n: Node, a: seq<Pattern>, b: seq<Pattern>)
    ensures Buckets(n, a + b) == Buckets(n, a) + Buckets(n, b)
  {
    if a == [] {
      assert a + b == b;
    } else {
      assert (a + b)[1..] == a[1..] + b;
      BucketsAppend(n, a[1..], b);
    }
  }

  lemma {:induction false} BucketsPrefixed(n: Node, t: Token, ps: seq<Pattern>)
    requires t != Greater
    ensures Buckets(n, Prefixed(t, ps)) ==
            match t
            case Star => (if n.star.Some? then Buckets(n.star.value, ps) else [])
            case Literal(b) => if b in n.children then Buckets(n.children[b], ps) else []
  {
    if ps != [] {
      assert Prefixed(t, ps)[1..] == Prefixed(t, ps[1..]);
      assert ([t] + ps[0])[1..] == ps[0];
      BucketsPrefixed(n, t, ps[1..]);
    }
  }

  /** The walk concatenates exactly the buckets of the matching patterns. */
  lemma {:induction false} WalkIsBuckets(n: Node, tokens: seq<Bytes>)
    ensures Walk(n, tokens) == Buckets(n, Patterns(tokens))
    decreases |tokens|
  {
    if tokens == [] {
      assert Buckets(n, [[]]) == n.exact;
    } else {
      var below := Patterns(tokens[1..]);
      var lit, star := Prefixed(Literal(tokens[0]), below), Prefixed(Star, below);
      BucketsAppend(n, [[Greater]] + lit, star);
      BucketsAppend(n, [[Greater]], lit);
      BucketsPrefixed(n, Literal(tokens[0]), below);
      BucketsPrefixed(n, Star, below);
      assert Buckets(n, [[Greater]]) == n.rest;
      if tokens[0] in n.children {
        WalkIsBuckets(n.children[tokens[0]], tokens[1..]);
      }
      if n.star.Some? {
        WalkIsBuckets(n.star.value, tokens[1..]);
      }
    }
  }

  /** `Patterns` lists a pattern once if it matches, never otherwise. */
  function Count(ps: seq<Pattern>, p: Pattern): nat {
    if ps == [] then 0 else (if ps[0] == p then 1 else 0) + Count(ps[1..], p)
  }

  lemma {:induction false} CountAppend(a: seq<Pattern>, b: seq<Pattern>, p: Pattern)
    ensures Count(a + b, p) == Count(a, p) + Count(b, p)
  {
    if a == [] {
      assert a + b == b;
    } else {
      assert (a + b)[1..] == a[1..] + b;
      CountAppend(a[1..], b, p);
    }
  }

  lemma {:induction false} CountPrefixed(t: Token, ps: seq<Pattern>, p: Pattern)
    ensures Count(Prefixed(t, ps), p) == if p != [] && p[0] == t then Count(ps, p[1..]) else 0
  {
    if ps != [] {
      assert Prefixed(t, ps)[1..] == Prefixed(t, ps[1..]);
      CountPrefixed(t, ps[1..], p);
      assert ([t] + ps[0])[1..] == ps[0];
      if p != [] {
        assert p == [p[0]] + p[1..];
      }
    }
  }

  lemma MatchesStep(p: Pattern, tokens: seq<Bytes>)
    requires GreaterLast(p) && p != [] && tokens != []
    ensures Matches(p, tokens) <==>
            match p[0]
            case Greater => true
            case Star => Matches(p[1..], tokens[1..])
            case Literal(b) => b == tokens[0] && Matches(p[1..], tokens[1..])
  {
    var q, rest := p[1..], tokens[1..];
    if p[0] == Greater {
      assert |p| == 1;
    } else if Matches(q, rest) && (p[0] == Star || p[0] == Literal(tokens[0])) {
      assert forall i | 0 < i < |p| :: p[i] == q[i - 1];
      assert forall i | 0 < i < |tokens| :: tokens[i] == rest[i - 1];
    }
  }

  /** On parsed subjects it is the rule stated on their bytes. */
  lemma CoversMatches(pattern: Bytes, subject: Bytes)
    requires ParseSubscriber(pattern).Ok? && ParsePublisher(subject).Ok?
    ensures Covers(pattern, subject) <==> Matches(ParseSubscriber(pattern).value, ParsePublisher(subject).value)
  {
    SubscriberAccepts(pattern);
    PublisherAccepts(subject);
    var p := ParseSubscriber(pattern).value;
    SubscriberWellFormed(pattern);
    PiecesMatch(Split(pattern), p, Split(subject));
  }

  /** A token stands for this piece. */
  predicate Tokenizes(t: Token, piece: Bytes) {
    && (t == Star <==> piece == [STAR])
    && (t == Greater <==> piece == [GREATER])
    && (t.Literal? ==> t.bytes == piece)
  }

  lemma {:induction false} PiecesMatch(ps: seq<Bytes>, p: Pattern, ss: seq<Bytes>)
    requires |ps| == |p| && GreaterLast(p) && forall i | 0 <= i < |p| :: Tokenizes(p[i], ps[i])
    ensures PiecesCover(ps, ss) <==> Matches(p, ss)
  {
    if ps != [] && ss != [] {
      assert Tokenizes(p[0], ps[0]);
      MatchesStep(p, ss);
      if p[0] == Greater {
        assert ps == [ps[0]];
      } else {
        PiecesMatch(ps[1..], p[1..], ss[1..]);
      }
    }
  }

  lemma {:induction false} PatternsOnce(tokens: seq<Bytes>, p: Pattern)
    requires GreaterLast(p)
    ensures Count(Patterns(tokens), p) == if Matches(p, tokens) then 1 else 0
    decreases |tokens|
  {
    if tokens == [] {
      assert Count([[]], p) == if p == [] then 1 else 0;
    } else {
      var below := Patterns(tokens[1..]);
      var lit, star := Prefixed(Literal(tokens[0]), below), Prefixed(Star, below);
      CountAppend([[Greater]] + lit, star, p);
      CountAppend([[Greater]], lit, p);
      CountPrefixed(Literal(tokens[0]), below, p);
      CountPrefixed(Star, below, p);
      assert Count([[Greater]], p) == if p == [Greater] then 1 else 0;
      if p != [] {
        MatchesStep(p, tokens);
        PatternsOnce(tokens[1..], p[1..]);
      }
    }
  }

  // --------------------------------------------------------------- refinement

  ghost predicate Represents(n: Node, flat: seq<Entry>) {
    && (forall p: Pattern :: Bucket(n, p) == Under(flat, p))
    && (forall e | e in flat :: WellFormed(e.pattern))
  }

  function FlatBuckets(flat: seq<Entry>, ps: seq<Pattern>): seq<Sub> {
    if ps == [] then [] else Under(flat, ps[0]) + FlatBuckets(flat, ps[1..])
  }

  lemma {:induction false} SameFlatBuckets(n: Node, flat: seq<Entry>, ps: seq<Pattern>)
    requires forall p: Pattern :: Bucket(n, p) == Under(flat, p)
    ensures Buckets(n, ps) == FlatBuckets(flat, ps)
  {
    if ps != [] {
      SameFlatBuckets(n, flat, ps[1..]);
    }
  }

  /** Adding one entry adds its subscription once per listed copy of its pattern. */
  lemma {:induction false} FlatBucketsAppend(flat: seq<Entry>, e: Entry, ps: seq<Pattern>)
    ensures multiset(FlatBuckets(flat + [e], ps)) ==
            multiset(FlatBuckets(flat, ps)) + Copies(e.sub, Count(ps, e.pattern))
  {
    assert (flat + [e])[..|flat|] == flat;
    if ps != [] {
      FlatBucketsAppend(flat, e, ps[1..]);
    }
  }

  function Copies(sub: Sub, n: nat): multiset<Sub> {
    multiset{}[sub := n]
  }

  lemma {:induction false} FlatBucketsMatch(flat: seq<Entry>, tokens: seq<Bytes>)
    requires forall e | e in flat :: WellFormed(e.pattern)
    ensures multiset(FlatBuckets(flat, Patterns(tokens))) == multiset(FlatMatch(flat, tokens))
  {
    if flat == [] {
      NothingListed(Patterns(tokens));
    } else {
      var before, last := flat[..|flat| - 1], flat[|flat| - 1];
      FlatBucketsMatch(before, tokens);
      assert flat == before + [last];
      FlatBucketsAppend(before, last, Patterns(tokens));
      PatternsOnce(tokens, last.pattern);
    }
  }

  lemma {:induction false} NothingListed(ps: seq<Pattern>)
    ensures FlatBuckets([], ps) == []
  {
    if ps != [] {
      NothingListed(ps[1..]);
    }
  }

  /** Matching the trie emits, as a multiset, exactly the listed subscriptions that match, each once. */
  lemma MatchRefines(n: Node, flat: seq<Entry>, tokens: seq<Bytes>)
    requires Represents(n, flat)
    ensures multiset(Walk(n, tokens)) == multiset(FlatMatch(flat, tokens))
  {
    WalkIsBuckets(n, tokens);
    SameFlatBuckets(n, flat, Patterns(tokens));
    FlatBucketsMatch(flat, tokens);
  }

  lemma InsertRepresents(n: Node, flat: seq<Entry>, p: Pattern, sub: Sub)
    requires Represents(n, flat) && WellFormed(p)
    ensures Represents(Insert(n, p, sub), flat + [Entry(p, sub)])
  {
    var flat' := flat + [Entry(p, sub)];
    assert flat'[..|flat|] == flat;
    forall q: Pattern
      ensures Bucket(Insert(n, p, sub), q) == Under(flat', q)
    {
      InsertBucket(n, p, sub, q);
    }
  }

  lemma RetainCons(s: Sub, rest: seq<Sub>, conn: ConnectionId, sid: Bytes)
    ensures Retain([s] + rest, conn, sid) == (if s.conn == conn && s.sid == sid then [] else [s]) + Retain(rest, conn, sid)
  {
    assert ([s] + rest)[1..] == rest;
  }

  lemma UnderAppend(flat: seq<Entry>, e: Entry, q: Pattern)
    ensures Under(flat + [e], q) == Under(flat, q) + if e.pattern == q then [e.sub] else []
  {
    assert (flat + [e])[..|flat|] == flat;
  }

  lemma {:induction false} UnderWithout(flat: seq<Entry>, p: Pattern, conn: ConnectionId, sid: Bytes, q: Pattern)
    ensures Under(Without(flat, p, conn, sid), q) ==
            if q == p then Retain(Under(flat, q), conn, sid) else Under(flat, q)
  {
    if flat != [] {
      var before, last := flat[..|flat| - 1], flat[|flat| - 1];
      UnderWithout(before, p, conn, sid, q);
      var w, u := Without(before, p, conn, sid), Under(before, q);
      if last.pattern == q {
        RetainLast(u, last.sub, conn, sid);
      }
      if Targets(last, p, conn, sid) {
        assert Without(flat, p, conn, sid) == w;
      } else {
        UnderAppend(w, last, q);
        assert Without(flat, p, conn, sid) == w + [last];
        assert last.pattern != q ==> Under(flat, q) == u && Under(w + [last], q) == Under(w, q);
      }
    }
  }

  lemma {:induction false} RetainLast(subs: seq<Sub>, sub: Sub, conn: ConnectionId, sid: Bytes)
    ensures Retain(subs + [sub], conn, sid) ==
            Retain(subs, conn, sid) + if sub.conn == conn && sub.sid == sid then [] else [sub]
  {
    if subs == [] {
      assert subs + [sub] == [sub] + [];
      RetainCons(sub, [], conn, sid);
    } else {
      var first, rest := subs[0], subs[1..];
      RetainLast(rest, sub, conn, sid);
      assert subs == [first] + rest && subs + [sub] == [first] + (rest + [sub]);
      RetainCons(first, rest, conn, sid);
      RetainCons(first, rest + [sub], conn, sid);
      var kept := if first.conn == conn && first.sid == sid then [] else [first];
      var last := if sub.conn == conn && sub.sid == sid then [] else [sub];
      SubsAssoc(kept, Retain(rest, conn, sid), last);
    }
  }

  lemma SubsAssoc(a: seq<Sub>, b: seq<Sub>, c: seq<Sub>)
    ensures a + (b + c) == a + b + c
  {
  }

  lemma RemoveRepresents(n: Node, flat: seq<Entry>, p: Pattern, conn: ConnectionId, sid: Bytes)
    requires Represents(n, flat) && WellFormed(p)
    ensures Represents(Remove(n, p, conn, sid), Without(flat, p, conn, sid))
  {
    forall q: Pattern
      ensures Bucket(Remove(n, p, conn, sid), q) == Under(Without(flat, p, conn, sid), q)
    {
      RemoveBucket(n, p, conn, sid, q);
      UnderWithout(flat, p, conn, sid, q);
    }
    forall e | e in Without(flat, p, conn, sid)
      ensures WellFormed(e.pattern)
    {
      WithoutMembers(flat, p, conn, sid, e);
    }
  }
}
