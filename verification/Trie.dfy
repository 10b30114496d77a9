/**
 The subscription trie (crates/aulon-core/src/subscription.rs).  The code's nodes are owned by their
 parents and never shared, so a node is a value here; the table that updates them is a class.
 */
module Trie {
  import opened Wrappers
  import opened Bytes
  import opened Subject

  type ConnectionId = nat

  datatype Sub = Sub(conn: ConnectionId, sid: Bytes, queueGroup: Option<Bytes>)

  datatype Node = Node(exact: seq<Sub>, rest: seq<Sub>, children: map<Bytes, Node>, star: Option<Node>) {
    predicate IsEmpty() {
      exact == [] && rest == [] && children == map[] && star == None
    }
  }

  const EMPTY := Node([], [], map[], None)

  function Child(n: Node, b: Bytes): Node {
    if b in n.children then n.children[b] else EMPTY
  }

  function StarChild(n: Node): Node {
    if n.star.Some? then n.star.value else EMPTY
  }

  /** `subscribe`: walk down, creating nodes, and push at the end (`>` goes into the parent's `rest`). */
  function Insert(n: Node, p: Pattern, sub: Sub): Node
    decreases |p|
  {
    if p == [] then n.(exact := n.exact + [sub])
    else
      match p[0]
      case Greater => n.(rest := n.rest + [sub])
      case Star => n.(star := Some(Insert(StarChild(n), p[1..], sub)))
      case Literal(b) => n.(children := n.children[b := Insert(Child(n, b), p[1..], sub)])
  }

  /** `retain` with the negated match of one (conn, sid). */
  function Retain(subs: seq<Sub>, conn: ConnectionId, sid: Bytes): seq<Sub> {
    if subs == [] then []
    else (if subs[0].conn == conn && subs[0].sid == sid then [] else [subs[0]]) + Retain(subs[1..], conn, sid)
  }

  /** `unsubscribe_walk` with `step_or_remove`: retain at the end of the path, prune on the way back. */
  function Remove(n: Node, p: Pattern, conn: ConnectionId, sid: Bytes): Node
    decreases |p|
  {
    if p == [] then n.(exact := Retain(n.exact, conn, sid))
    else
      match p[0]
      case Greater => n.(rest := Retain(n.rest, conn, sid))
      case Star =>
        if n.star.None? then n
        else
          var child := Remove(n.star.value, p[1..], conn, sid);
          n.(star := if child.IsEmpty() then None else Some(child))
      case Literal(b) =>
        if b !in n.children then n
        else
          var child := Remove(n.children[b], p[1..], conn, sid);
          n.(children := if child.IsEmpty() then n.children - {b} else n.children[b := child])
  }

  /** `walk_match`: the subscriptions handed to the callback, in order. */
  function Walk(n: Node, tokens: seq<Bytes>): seq<Sub>
    decreases |tokens|
  {
    if tokens == [] then n.exact
    else
      n.rest
      + (if tokens[0] in n.children then Walk(n.children[tokens[0]], tokens[1..]) else [])
      + (if n.star.Some? then Walk(n.star.value, tokens[1..]) else [])
  }

  // ----------------------------------------------------------------- buckets

  /** The subscriptions stored under exactly this pattern. */
  function Bucket(n: Node, p: Pattern): seq<Sub>
    decreases |p|
  {
    if p == [] then n.exact
    else
      match p[0]
      case Greater => if |p| == 1 then n.rest else []
      case Star => if n.star.Some? then Bucket(n.star.value, p[1..]) else []
      case Literal(b) => if b in n.children then Bucket(n.children[b], p[1..]) else []
  }

  lemma {:induction false} EmptyBuckets(p: Pattern)
    ensures Bucket(EMPTY, p) == []
  {
  }

  /** Inserting appends to one bucket and leaves every other as it was. */
  lemma {:induction false} InsertBucket(n: Node, p: Pattern, sub: Sub, q: Pattern)
    requires GreaterLast(p)
    ensures Bucket(Insert(n, p, sub), q) == Bucket(n, q) + if q == p then [sub] else []
    decreases |p|
  {
    if p != [] && q != [] && p[0] == q[0] {
      assert p == [p[0]] + p[1..] && q == [q[0]] + q[1..];
      match p[0]
      case Greater =>
      case Star =>
        InsertBucket(StarChild(n), p[1..], sub, q[1..]);
        EmptyBuckets(q[1..]);
      case Literal(b) =>
        InsertBucket(Child(n, b), p[1..], sub, q[1..]);
        EmptyBuckets(q[1..]);
    }
  }

  /** Removing filters one bucket and leaves every other as it was, pruning included. */
  lemma {:induction false} RemoveBucket(n: Node, p: Pattern, conn: ConnectionId, sid: Bytes, q: Pattern)
    requires GreaterLast(p)
    ensures Bucket(Remove(n, p, conn, sid), q) == if q == p then Retain(Bucket(n, q), conn, sid) else Bucket(n, q)
    decreases |p|
  {
    if p != [] && q != [] && p[0] == q[0] {
      assert p == [p[0]] + p[1..] && q == [q[0]] + q[1..];
      match p[0]
      case Greater =>
      case Star =>
        if n.star.Some? {
          RemoveBucket(n.star.value, p[1..], conn, sid, q[1..]);
          EmptyBuckets(q[1..]);
        }
      case Literal(b) =>
        if b in n.children {
          RemoveBucket(n.children[b], p[1..], conn, sid, q[1..]);
          EmptyBuckets(q[1..]);
        }
    }
  }

  // ---------------------------------------------------------- canonical tries

  ghost predicate Canonical(n: Node) {
    && (forall b | b in n.children :: Plain(b) && !n.children[b].IsEmpty() && Canonical(n.children[b]))
    && (n.star.Some? ==> !n.star.value.IsEmpty() && Canonical(n.star.value))
  }

  predicate PlainTokens(p: Pattern) {
    forall i | 0 <= i < |p| && p[i].Literal? :: Plain(p[i].bytes)
  }

  lemma {:induction false} InsertCanonical(n: Node, p: Pattern, sub: Sub)
    requires Canonical(n) && PlainTokens(p)
    ensures Canonical(Insert(n, p, sub)) && !Insert(n, p, sub).IsEmpty()
    decreases |p|
  {
    if p != [] {
      match p[0]
      case Greater =>
      case Star => InsertCanonical(StarChild(n), p[1..], sub);
      case Literal(b) =>
        InsertCanonical(Child(n, b), p[1..], sub);
        assert b in Insert(n, p, sub).children;
    }
  }

  lemma {:induction false} RemoveCanonical(n: Node, p: Pattern, conn: ConnectionId, sid: Bytes)
    requires Canonical(n)
    ensures Canonical(Remove(n, p, conn, sid))
    decreases |p|
  {
    if p != [] {
      match p[0]
      case Greater =>
      case Star =>
        if n.star.Some? {
          RemoveCanonical(n.star.value, p[1..], conn, sid);
        }
      case Literal(b) =>
        if b in n.children {
          RemoveCanonical(n.children[b], p[1..], conn, sid);
          ReplaceCanonical(n, b, Remove(n.children[b], p[1..], conn, sid));
        }
    }
  }

  lemma ReplaceCanonical(n: Node, b: Bytes, child: Node)
    requires Canonical(n) && Plain(b) && Canonical(child)
    ensures Canonical(n.(children := if child.IsEmpty() then n.children - {b} else n.children[b := child]))
  {
  }

  /** A canonical node that is not empty stores something below it. */
  lemma {:induction false} SomeBucket(n: Node) returns (p: Pattern)
    requires Canonical(n) && !n.IsEmpty()
    ensures Bucket(n, p) != []
    decreases n
  {
    if n.exact != [] {
      p := [];
    } else if n.rest != [] {
      p := [Greater];
    } else if n.star.Some? {
      var q := SomeBucket(n.star.value);
      p := [Star] + q;
    } else {
      var b :| b in n.children;
      var q := SomeBucket(n.children[b]);
      p := [Literal(b)] + q;
    }
  }

  ghost predicate SameBuckets(a: Node, b: Node) {
    forall p: Pattern :: Bucket(a, p) == Bucket(b, p)
  }

  /** The buckets determine a canonical trie completely. */
  lemma {:induction false} CanonicalUnique(a: Node, b: Node)
    requires Canonical(a) && Canonical(b) && SameBuckets(a, b)
    ensures a == b
    decreases a
  {
    SameHere(a, b);
    SameKeys(a, b);
    SameKeys(b, a);
    forall k | k in a.children
      ensures a.children[k] == b.children[k]
    {
      SameChild(a, b, k);
      CanonicalUnique(a.children[k], b.children[k]);
    }
    assert a.children == b.children;
    if a.star.Some? {
      SameStar(a, b);
      CanonicalUnique(a.star.value, b.star.value);
    }
  }

  lemma SameHere(a: Node, b: Node)
    requires SameBuckets(a, b)
    ensures a.exact == b.exact && a.rest == b.rest
  {
    assert Bucket(a, []) == Bucket(b, []) && Bucket(a, [Greater]) == Bucket(b, [Greater]);
  }

  lemma SameChild(a: Node, b: Node, k: Bytes)
    requires SameBuckets(a, b) && k in a.children && k in b.children
    ensures SameBuckets(a.children[k], b.children[k])
  {
    SameBelow(a, b, Literal(k), a.children[k], b.children[k]);
  }

  lemma SameStar(a: Node, b: Node)
    requires SameBuckets(a, b) && a.star.Some? && b.star.Some?
    ensures SameBuckets(a.star.value, b.star.value)
  {
    SameBelow(a, b, Star, a.star.value, b.star.value);
  }

  lemma SameKeys(a: Node, b: Node)
    requires Canonical(a) && SameBuckets(a, b)
    ensures a.children.Keys <= b.children.Keys
    ensures a.star.Some? ==> b.star.Some?
  {
    forall k | k in a.children
      ensures k in b.children
    {
      SameKey(a, b, k);
    }
    if a.star.Some? {
      var p := SomeBucket(a.star.value);
      assert ([Star] + p)[1..] == p;
      assert Bucket(a, [Star] + p) == Bucket(b, [Star] + p);
    }
  }

  lemma SameKey(a: Node, b: Node, k: Bytes)
    requires Canonical(a) && SameBuckets(a, b) && k in a.children
    ensures k in b.children
  {
    var p := SomeBucket(a.children[k]);
    assert ([Literal(k)] + p)[1..] == p;
    assert Bucket(a, [Literal(k)] + p) == Bucket(b, [Literal(k)] + p);
  }

  lemma SameBelow(a: Node, b: Node, t: Token, a': Node, b': Node)
    requires SameBuckets(a, b) && t != Greater
    requires forall p: Pattern :: Bucket(a, [t] + p) == Bucket(a', p) && Bucket(b, [t] + p) == Bucket(b', p)
    ensures SameBuckets(a', b')
  {
    forall p: Pattern
      ensures Bucket(a', p) == Bucket(b', p)
    {
      assert Bucket(a, [t] + p) == Bucket(b, [t] + p);
    }
  }
}
