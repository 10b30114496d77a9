/**
 `SubscriptionTrie` over whole histories: whatever was subscribed and unsubscribed, the trie agrees
 with the flat list of the same history, is canonical, and its counter is accounted for.
 */
module TableHistory {
  import opened Wrappers
  import opened Bytes
  import opened Subject
  import opened Trie
  import opened SubscriptionTable

  datatype Op =
    | Subscribe(subject: Bytes, sub: Sub)
    | Unsubscribe(subject: Bytes, conn: ConnectionId, sid: Bytes)

  datatype Table = Table(root: Node, total: int)

  /** What `unsubscribe_walk` returns: the bucket at the end of the path got shorter. */
  predicate Hits(n: Node, p: Pattern, conn: ConnectionId, sid: Bytes)
    decreases |p|
  {
    if p == [] then |Retain(n.exact, conn, sid)| != |n.exact|
    else
      match p[0]
      case Greater => |Retain(n.rest, conn, sid)| != |n.rest|
      case Star => n.star.Some? && Hits(n.star.value, p[1..], conn, sid)
      case Literal(b) => b in n.children && Hits(n.children[b], p[1..], conn, sid)
  }

  function Apply(t: Table, op: Op): Table {
    match ParseSubscriber(op.subject)
    case Err(_) => t
    case Ok(p) =>
      match op
      case Subscribe(_, sub) => Table(Insert(t.root, p, sub), t.total + 1)
      case Unsubscribe(_, conn, sid) =>
        Table(Remove(t.root, p, conn, sid), if Hits(t.root, p, conn, sid) then t.total - 1 else t.total)
  }

  function FlatApply(flat: seq<Entry>, op: Op): seq<Entry> {
    match ParseSubscriber(op.subject)
    case Err(_) => flat
    case Ok(p) =>
      match op
      case Subscribe(_, sub) => flat + [Entry(p, sub)]
      case Unsubscribe(_, conn, sid) => Without(flat, p, conn, sid)
  }

  function After(ops: seq<Op>): Table {
    if ops == [] then Table(EMPTY, 0) else Apply(After(ops[..|ops| - 1]), ops[|ops| - 1])
  }

  function FlatAfter(ops: seq<Op>): seq<Entry> {
    if ops == [] then [] else FlatApply(FlatAfter(ops[..|ops| - 1]), ops[|ops| - 1])
  }

  /** How many entries the unsubscribes of a history removed beyond the one each counted. */
  function Excess(ops: seq<Op>): nat {
    if ops == [] then 0
    else
      var before, op := ops[..|ops| - 1], ops[|ops| - 1];
      var gone := if op.Unsubscribe? then |FlatAfter(before)| - |FlatAfter(ops)| else 0;
      Excess(before) + if gone > 1 then gone - 1 else 0
  }

  // -------------------------------------------------------------- refinement

  lemma {:induction false} EveryHistory(ops: seq<Op>)
    ensures Represents(After(ops).root, FlatAfter(ops)) && Canonical(After(ops).root)
  {
    if ops == [] {
      forall p: Pattern
        ensures Bucket(EMPTY, p) == []
      {
        EmptyBuckets(p);
      }
    } else {
      var before, op := ops[..|ops| - 1], ops[|ops| - 1];
      EveryHistory(before);
      var t, flat := After(before), FlatAfter(before);
      if ParseSubscriber(op.subject).Ok? {
        SubscriberWellFormed(op.subject);
        var p := ParseSubscriber(op.subject).value;
        match op
        case Subscribe(_, sub) =>
          InsertRepresents(t.root, flat, p, sub);
          InsertCanonical(t.root, p, sub);
        case Unsubscribe(_, conn, sid) =>
          RemoveRepresents(t.root, flat, p, conn, sid);
          RemoveCanonical(t.root, p, conn, sid);
      }
    }
  }

  /**
   The trie refines the flat list: after any history, publishing to any valid subject emits exactly
   the stored subscriptions whose pattern matches, each once.
   */
  lemma TrieRefinesList(ops: seq<Op>, subject: Bytes)
    requires ParsePublisher(subject).Ok?
    ensures var tokens := ParsePublisher(subject).value;
            multiset(Walk(After(ops).root, tokens)) == multiset(FlatMatch(FlatAfter(ops), tokens))
  {
    EveryHistory(ops);
    MatchRefines(After(ops).root, FlatAfter(ops), ParsePublisher(subject).value);
  }

  /** Histories with the same entries have the very same trie, bucket order and pruning included. */
  lemma SameListSameTrie(ops: seq<Op>, ops': seq<Op>)
    requires FlatAfter(ops) == FlatAfter(ops')
    ensures After(ops).root == After(ops').root
  {
    EveryHistory(ops);
    EveryHistory(ops');
    assert SameBuckets(After(ops).root, After(ops').root);
    CanonicalUnique(After(ops).root, After(ops').root);
  }

  // ------------------------------------------------- subscriptions by subject

  /** A subscription with the subject it was made under. */
  datatype Listed = Listed(subject: Bytes, sub: Sub)

  predicate SameListed(l: Listed, subject: Bytes, conn: ConnectionId, sid: Bytes) {
    l.subject == subject && l.sub.conn == conn && l.sub.sid == sid
  }

  function Unlist(ls: seq<Listed>, subject: Bytes, conn: ConnectionId, sid: Bytes): seq<Listed> {
    if ls == [] then []
    else
      var last := ls[|ls| - 1];
      Unlist(ls[..|ls| - 1], subject, conn, sid) + if SameListed(last, subject, conn, sid) then [] else [last]
  }

  /** The subscriptions of a history, on the bytes of its subjects alone: no tokens, no trie. */
  function Listing(ops: seq<Op>): seq<Listed> {
    if ops == [] then []
    else
      var before := Listing(ops[..|ops| - 1]);
      match ops[|ops| - 1]
      case Subscribe(subject, sub) => if SubscriberSubject(subject) then before + [Listed(subject, sub)] else before
      case Unsubscribe(subject, conn, sid) => Unlist(before, subject, conn, sid)
  }

  /** Those whose subject covers a published one. */
  function Covering(ls: seq<Listed>, subject: Bytes): seq<Sub> {
    if ls == [] then []
    else
      var last := ls[|ls| - 1];
      Covering(ls[..|ls| - 1], subject) + if Covers(last.subject, subject) then [last.sub] else []
  }

  /** The same list by patterns. */
  ghost predicate SameList(ls: seq<Listed>, flat: seq<Entry>) {
    && |ls| == |flat|
    && forall k | 0 <= k < |ls| :: ParseSubscriber(ls[k].subject) == Ok(flat[k].pattern) && flat[k].sub == ls[k].sub
  }

  lemma ListedTargets(l: Listed, e: Entry, subject: Bytes, conn: ConnectionId, sid: Bytes)
    requires ParseSubscriber(l.subject) == Ok(e.pattern) && e.sub == l.sub && ParseSubscriber(subject).Ok?
    ensures SameListed(l, subject, conn, sid) <==> Targets(e, ParseSubscriber(subject).value, conn, sid)
  {
    if ParseSubscriber(subject) == Ok(e.pattern) {
      SubscriberInjective(l.subject, subject);
    }
  }

  lemma {:induction false} UnlistSame(ls: seq<Listed>, flat: seq<Entry>, subject: Bytes, conn: ConnectionId, sid: Bytes)
    requires SameList(ls, flat)
    ensures ParseSubscriber(subject).Ok? ==>
              SameList(Unlist(ls, subject, conn, sid), Without(flat, ParseSubscriber(subject).value, conn, sid))
    ensures ParseSubscriber(subject).Err? ==> Unlist(ls, subject, conn, sid) == ls
  {
    if ls != [] {
      var n := |ls| - 1;
      UnlistSame(ls[..n], flat[..n], subject, conn, sid);
      if ParseSubscriber(subject).Ok? {
        ListedTargets(ls[n], flat[n], subject, conn, sid);
      } else {
        assert ls[..n] + [ls[n]] == ls;
      }
    }
  }

  /** Patterns and subjects list the same subscriptions, after every history. */
  lemma {:induction false} ListingSame(ops: seq<Op>)
    ensures SameList(Listing(ops), FlatAfter(ops))
  {
    if ops != [] {
      var before, op := ops[..|ops| - 1], ops[|ops| - 1];
      ListingSame(before);
      match op
      case Subscribe(subject, sub) => SubscriberAccepts(subject);
      case Unsubscribe(subject, conn, sid) => UnlistSame(Listing(before), FlatAfter(before), subject, conn, sid);
    }
  }

  lemma {:induction false} CoveringSame(ls: seq<Listed>, flat: seq<Entry>, subject: Bytes)
    requires SameList(ls, flat) && ParsePublisher(subject).Ok?
    ensures Covering(ls, subject) == FlatMatch(flat, ParsePublisher(subject).value)
  {
    if ls != [] {
      var n := |ls| - 1;
      CoveringSame(ls[..n], flat[..n], subject);
      CoversMatches(ls[n].subject, subject);
    }
  }

  /**
   The trie serves the NATS rules: after any history, a publish to a subject emits exactly the
   subscriptions whose subject covers it, each once; all of it said on the bytes of the subjects.
   */
  lemma TrieServesSubjects(ops: seq<Op>, subject: Bytes)
    requires PublisherSubject(subject)
    ensures ParsePublisher(subject).Ok?
    ensures multiset(Walk(After(ops).root, ParsePublisher(subject).value)) == multiset(Covering(Listing(ops), subject))
  {
    PublisherAccepts(subject);
    TrieRefinesList(ops, subject);
    ListingSame(ops);
    CoveringSame(Listing(ops), FlatAfter(ops), subject);
  }

  // ------------------------------------------------------------- unsubscribe

  lemma {:induction false} WithoutAbsent(flat: seq<Entry>, p: Pattern, conn: ConnectionId, sid: Bytes)
    ensures (forall e | e in flat :: !Targets(e, p, conn, sid)) <==> Without(flat, p, conn, sid) == flat
    ensures Without(flat, p, conn, sid) == flat <==> |Without(flat, p, conn, sid)| == |flat|
  {
    if flat != [] {
      var before, last := flat[..|flat| - 1], flat[|flat| - 1];
      WithoutAbsent(before, p, conn, sid);
      assert flat == before + [last];
      assert last in flat;
      assert forall e | e in before :: e in flat;
    }
  }

  /** The walk reports a hit exactly when the bucket of that pattern holds the (conn, sid). */
  lemma {:induction false} HitsBucket(n: Node, p: Pattern, conn: ConnectionId, sid: Bytes)
    requires GreaterLast(p)
    ensures Hits(n, p, conn, sid) <==> |Retain(Bucket(n, p), conn, sid)| != |Bucket(n, p)|
    decreases |p|
  {
    if p != [] {
      match p[0]
      case Greater =>
      case Star =>
        if n.star.Some? {
          HitsBucket(n.star.value, p[1..], conn, sid);
        }
      case Literal(b) =>
        if b in n.children {
          HitsBucket(n.children[b], p[1..], conn, sid);
        }
    }
  }

  lemma {:induction false} RetainMembers(subs: seq<Sub>, conn: ConnectionId, sid: Bytes)
    ensures |Retain(subs, conn, sid)| <= |subs|
    ensures |Retain(subs, conn, sid)| == |subs| <==> forall s | s in subs :: !(s.conn == conn && s.sid == sid)
  {
    if subs != [] {
      RetainMembers(subs[1..], conn, sid);
      assert subs == [subs[0]] + subs[1..];
    }
  }

  lemma {:induction false} UnderMembers(flat: seq<Entry>, p: Pattern, s: Sub)
    ensures s in Under(flat, p) <==> Entry(p, s) in flat
  {
    if flat != [] {
      UnderMembers(flat[..|flat| - 1], p, s);
      assert flat == flat[..|flat| - 1] + [flat[|flat| - 1]];
    }
  }

  lemma HitsList(n: Node, flat: seq<Entry>, p: Pattern, conn: ConnectionId, sid: Bytes)
    requires Represents(n, flat) && WellFormed(p)
    ensures Hits(n, p, conn, sid) <==> exists e :: e in flat && Targets(e, p, conn, sid)
  {
    HitsBucket(n, p, conn, sid);
    RetainMembers(Under(flat, p), conn, sid);
    if Hits(n, p, conn, sid) {
      var s :| s in Under(flat, p) && s.conn == conn && s.sid == sid;
      UnderMembers(flat, p, s);
      assert Targets(Entry(p, s), p, conn, sid);
    } else if exists e :: e in flat && Targets(e, p, conn, sid) {
      var e :| e in flat && Targets(e, p, conn, sid);
      UnderMembers(flat, p, e.sub);
      assert false;
    }
  }

  /**
   Unsubscribe is local and honest: exactly the entries of (conn, sid) under exactly that subject
   disappear, every publish loses exactly those matches and no other, and the call answers true iff
   there was one.
   */
  lemma UnsubscribeLocal(ops: seq<Op>, subject: Bytes, conn: ConnectionId, sid: Bytes, e: Entry)
    requires ParseSubscriber(subject).Ok?
    ensures var p := ParseSubscriber(subject).value;
            var flat, flat' := FlatAfter(ops), FlatAfter(ops + [Unsubscribe(subject, conn, sid)]);
            && (e in flat' <==> e in flat && !Targets(e, p, conn, sid))
            && (Hits(After(ops).root, p, conn, sid) <==> exists x :: x in flat && Targets(x, p, conn, sid))
            && (Hits(After(ops).root, p, conn, sid) <==> After(ops + [Unsubscribe(subject, conn, sid)]) != After(ops))
  {
    var op := Unsubscribe(subject, conn, sid);
    var p, flat := ParseSubscriber(subject).value, FlatAfter(ops);
    var ops' := ops + [op];
    assert ops'[..|ops|] == ops;
    EveryHistory(ops);
    SubscriberWellFormed(subject);
    WithoutMembers(flat, p, conn, sid, e);
    HitsList(After(ops).root, flat, p, conn, sid);
    if !Hits(After(ops).root, p, conn, sid) {
      WithoutAbsent(flat, p, conn, sid);
      SameListSameTrie(ops, ops');
    }
  }

  ghost predicate Partitions(flat: seq<Entry>, p: Pattern, conn: ConnectionId, sid: Bytes, tokens: seq<Bytes>) {
    multiset(FlatMatch(flat, tokens)) ==
    multiset(FlatMatch(Without(flat, p, conn, sid), tokens)) + multiset(FlatMatch(Targeted(flat, p, conn, sid), tokens))
  }

  lemma {:induction false} MatchWithout(flat: seq<Entry>, p: Pattern, conn: ConnectionId, sid: Bytes, tokens: seq<Bytes>)
    ensures Partitions(flat, p, conn, sid, tokens)
  {
    if flat == [] {
      NothingToPartition(p, conn, sid, tokens);
    } else {
      var before, last := flat[..|flat| - 1], flat[|flat| - 1];
      assert flat == before + [last];
      MatchWithout(before, p, conn, sid, tokens);
      PartitionsLast(before, last, p, conn, sid, tokens);
    }
  }

  lemma NothingToPartition(p: Pattern, conn: ConnectionId, sid: Bytes, tokens: seq<Bytes>)
    ensures Partitions([], p, conn, sid, tokens)
  {
  }

  lemma PartitionsLast(flat: seq<Entry>, e: Entry, p: Pattern, conn: ConnectionId, sid: Bytes, tokens: seq<Bytes>)
    requires Partitions(flat, p, conn, sid, tokens)
    ensures Partitions(flat + [e], p, conn, sid, tokens)
  {
    var kept, gone := Without(flat, p, conn, sid), Targeted(flat, p, conn, sid);
    var more := if Matches(e.pattern, tokens) then [e.sub] else [];
    FlatMatchAppend(flat, e, tokens);
    WithoutLast(flat, e, p, conn, sid);
    SplitLast(FlatMatch(flat, tokens), FlatMatch(kept, tokens), FlatMatch(gone, tokens), more);
    if Targets(e, p, conn, sid) {
      FlatMatchAppend(gone, e, tokens);
      assert kept + [] == kept;
    } else {
      FlatMatchAppend(kept, e, tokens);
      assert gone + [] == gone;
    }
  }

  lemma SplitLast(all: seq<Sub>, kept: seq<Sub>, gone: seq<Sub>, more: seq<Sub>)
    requires multiset(all) == multiset(kept) + multiset(gone)
    ensures multiset(all + more) == multiset(kept + more) + multiset(gone) == multiset(kept) + multiset(gone + more)
  {
  }

  function Targeted(flat: seq<Entry>, p: Pattern, conn: ConnectionId, sid: Bytes): seq<Entry> {
    if flat == [] then []
    else
      var last := flat[|flat| - 1];
      Targeted(flat[..|flat| - 1], p, conn, sid) + if Targets(last, p, conn, sid) then [last] else []
  }

  lemma WithoutLast(flat: seq<Entry>, e: Entry, p: Pattern, conn: ConnectionId, sid: Bytes)
    ensures Without(flat + [e], p, conn, sid) == Without(flat, p, conn, sid) + if Targets(e, p, conn, sid) then [] else [e]
    ensures Targeted(flat + [e], p, conn, sid) == Targeted(flat, p, conn, sid) + if Targets(e, p, conn, sid) then [e] else []
  {
    assert (flat + [e])[..|flat|] == flat;
  }

  lemma FlatMatchAppend(flat: seq<Entry>, e: Entry, tokens: seq<Bytes>)
    ensures FlatMatch(flat + [e], tokens) == FlatMatch(flat, tokens) + if Matches(e.pattern, tokens) then [e.sub] else []
  {
    assert (flat + [e])[..|flat|] == flat;
  }

  /** Publishing after an unsubscribe: every match is as before, except that the removed entries are gone. */
  lemma PublishAfterUnsubscribe(ops: seq<Op>, subject: Bytes, conn: ConnectionId, sid: Bytes, published: Bytes)
    requires ParseSubscriber(subject).Ok? && ParsePublisher(published).Ok?
    ensures var tokens := ParsePublisher(published).value;
            var gone := Targeted(FlatAfter(ops), ParseSubscriber(subject).value, conn, sid);
            multiset(Walk(After(ops).root, tokens)) ==
            multiset(Walk(After(ops + [Unsubscribe(subject, conn, sid)]).root, tokens)) + multiset(FlatMatch(gone, tokens))
  {
    var ops' := ops + [Unsubscribe(subject, conn, sid)];
    assert ops'[..|ops|] == ops;
    TrieRefinesList(ops, published);
    TrieRefinesList(ops', published);
    MatchWithout(FlatAfter(ops), ParseSubscriber(subject).value, conn, sid, ParsePublisher(published).value);
  }

  /**
   Exact undo: subscribing a (conn, sid) that is not yet under that subject and unsubscribing it
   again restores the identical trie and counter.
   */
  lemma ExactUndo(ops: seq<Op>, subject: Bytes, sub: Sub)
    requires ParseSubscriber(subject).Ok?
    requires forall e | e in FlatAfter(ops) :: !Targets(e, ParseSubscriber(subject).value, sub.conn, sub.sid)
    ensures After(ops + [Subscribe(subject, sub), Unsubscribe(subject, sub.conn, sub.sid)]) == After(ops)
  {
    var on := ops + [Subscribe(subject, sub)];
    var off := on + [Unsubscribe(subject, sub.conn, sub.sid)];
    assert off == ops + [Subscribe(subject, sub), Unsubscribe(subject, sub.conn, sub.sid)];
    AfterOne(ops, Subscribe(subject, sub));
    AfterOne(on, Unsubscribe(subject, sub.conn, sub.sid));
    UndoList(FlatAfter(ops), ParseSubscriber(subject).value, sub);
    SameListSameTrie(ops, off);
    LastHits(on, ParseSubscriber(subject).value, sub, subject);
  }

  lemma AfterOne(ops: seq<Op>, op: Op)
    ensures After(ops + [op]) == Apply(After(ops), op) && FlatAfter(ops + [op]) == FlatApply(FlatAfter(ops), op)
  {
    assert (ops + [op])[..|ops|] == ops;
  }

  /** Adding a fresh entry to the list and removing it again. */
  lemma UndoList(flat: seq<Entry>, p: Pattern, sub: Sub)
    requires forall e | e in flat :: !Targets(e, p, sub.conn, sub.sid)
    ensures Without(flat + [Entry(p, sub)], p, sub.conn, sub.sid) == flat
  {
    WithoutAbsent(flat, p, sub.conn, sub.sid);
    WithoutLast(flat, Entry(p, sub), p, sub.conn, sub.sid);
  }

  /** An unsubscribe of the entry just added is a hit. */
  lemma LastHits(ops: seq<Op>, p: Pattern, sub: Sub, subject: Bytes)
    requires ParseSubscriber(subject) == Ok(p) && Entry(p, sub) in FlatAfter(ops)
    ensures Hits(After(ops).root, p, sub.conn, sub.sid)
  {
    EveryHistory(ops);
    SubscriberWellFormed(subject);
    assert Targets(Entry(p, sub), p, sub.conn, sub.sid);
    HitsList(After(ops).root, FlatAfter(ops), p, sub.conn, sub.sid);
  }

  // ------------------------------------------------------------- the counter

  /** The counter on every history: it runs ahead of the list by exactly the uncounted removals. */
  lemma {:induction false} TotalAccounted(ops: seq<Op>)
    ensures After(ops).total == |FlatAfter(ops)| + Excess(ops)
  {
    if ops != [] {
      var before, op := ops[..|ops| - 1], ops[|ops| - 1];
      TotalAccounted(before);
      EveryHistory(before);
      if op.Unsubscribe? && ParseSubscriber(op.subject).Ok? {
        SubscriberWellFormed(op.subject);
        var p := ParseSubscriber(op.subject).value;
        HitsList(After(before).root, FlatAfter(before), p, op.conn, op.sid);
        WithoutAbsent(FlatAfter(before), p, op.conn, op.sid);
      }
    }
  }

  /** No (conn, sid) is listed twice under one subject. */
  ghost predicate NoRepeat(flat: seq<Entry>) {
    forall i, j | 0 <= i < j < |flat| :: !Targets(flat[j], flat[i].pattern, flat[i].sub.conn, flat[i].sub.sid)
  }

  lemma {:induction false} WithoutOne(flat: seq<Entry>, p: Pattern, conn: ConnectionId, sid: Bytes)
    requires NoRepeat(flat)
    ensures |Without(flat, p, conn, sid)| >= |flat| - 1
  {
    if flat != [] {
      var before, last := flat[..|flat| - 1], flat[|flat| - 1];
      if Targets(last, p, conn, sid) {
        WithoutAbsent(before, p, conn, sid);
      } else {
        WithoutOne(before, p, conn, sid);
      }
    }
  }

  lemma {:induction false} WithoutAndTargeted(flat: seq<Entry>, p: Pattern, conn: ConnectionId, sid: Bytes)
    ensures |Without(flat, p, conn, sid)| + |Targeted(flat, p, conn, sid)| == |flat|
  {
    if flat != [] {
      WithoutAndTargeted(flat[..|flat| - 1], p, conn, sid);
    }
  }

  /** The unsubscribe at position n finds its (conn, sid) at most once under its subject. */
  ghost predicate FindsOne(ops: seq<Op>, n: nat)
    requires n < |ops|
  {
    ops[n].Unsubscribe? && ParseSubscriber(ops[n].subject).Ok? ==>
      |Targeted(FlatAfter(ops[..n]), ParseSubscriber(ops[n].subject).value, ops[n].conn, ops[n].sid)| <= 1
  }

  lemma {:induction false} ExcessExactly(ops: seq<Op>)
    ensures Excess(ops) == 0 <==> forall n | 0 <= n < |ops| :: FindsOne(ops, n)
  {
    if ops != [] {
      var m := |ops| - 1;
      var before, op := ops[..m], ops[m];
      ExcessExactly(before);
      forall n | 0 <= n < m
        ensures FindsOne(before, n) <==> FindsOne(ops, n)
      {
        assert before[..n] == ops[..n];
      }
      assert (forall n | 0 <= n < |ops| :: FindsOne(ops, n)) <==>
             (forall n | 0 <= n < m :: FindsOne(before, n)) && FindsOne(ops, m);
      if op.Unsubscribe? && ParseSubscriber(op.subject).Ok? {
        WithoutAndTargeted(FlatAfter(before), ParseSubscriber(op.subject).value, op.conn, op.sid);
      }
    }
  }

  /** The counter is exact iff no unsubscribe found its (conn, sid) listed more than once under its subject. */
  lemma TotalExactly(ops: seq<Op>)
    ensures After(ops).total == |FlatAfter(ops)| <==> forall n | 0 <= n < |ops| :: FindsOne(ops, n)
  {
    TotalAccounted(ops);
    ExcessExactly(ops);
  }

  /** In particular on a history that never lists a (conn, sid) twice under one subject. */
  lemma TotalExact(ops: seq<Op>)
    requires forall n | 0 <= n <= |ops| :: NoRepeat(FlatAfter(ops[..n]))
    ensures After(ops).total == |FlatAfter(ops)|
  {
    forall n | 0 <= n < |ops|
      ensures FindsOne(ops, n)
    {
      var op, flat := ops[n], FlatAfter(ops[..n]);
      if op.Unsubscribe? && ParseSubscriber(op.subject).Ok? {
        WithoutOne(flat, ParseSubscriber(op.subject).value, op.conn, op.sid);
        WithoutAndTargeted(flat, ParseSubscriber(op.subject).value, op.conn, op.sid);
      }
    }
    TotalExactly(ops);
  }

  lemma RootSubject()
    ensures ParseSubscriber([GREATER]) == Ok([Greater])
  {
    var subject: Bytes := [GREATER];
    var rest := Split(subject[1..]);
    assert subject[1..] == [] && rest == [[]] && rest[1..] == [] && [subject[0]] + rest[0] == [GREATER];
    assert Split(subject) == [[GREATER]];
    assert ClassifyAll([[GREATER]]) == [Greater];
  }

  lemma SubscribedTwice(sub: Sub)
    ensures var on := Subscribe([GREATER], sub);
            var e := Entry([Greater], sub);
            After([on, on]) == Table(Node([], [sub, sub], map[], None), 2) && FlatAfter([on, on]) == [e, e]
  {
    var on := Subscribe([GREATER], sub);
    RootSubject();
    assert [on, on][..1] == [on] && [on][..0] == [];
    assert After([on]) == Table(Node([], [sub], map[], None), 1);
    assert FlatAfter([on]) == [Entry([Greater], sub)];
  }

  lemma RemovedTwice(sub: Sub)
    ensures Retain([sub, sub], sub.conn, sub.sid) == []
    ensures var e := Entry([Greater], sub); Without([e, e], [Greater], sub.conn, sub.sid) == []
  {
    assert [sub, sub][1..] == [sub] && [sub][1..] == [];
    assert Retain([sub], sub.conn, sub.sid) == [];
    var e := Entry([Greater], sub);
    assert [e, e][..1] == [e] && [e][..0] == [];
    assert Without([e], [Greater], sub.conn, sub.sid) == [];
  }

  /** Subscribing the same (conn, sid) twice and unsubscribing once leaves the counter at 1 with nothing stored. */
  lemma TotalDrifts(sub: Sub)
    ensures var ops := [Subscribe([GREATER], sub), Subscribe([GREATER], sub)] + [Unsubscribe([GREATER], sub.conn, sub.sid)];
            After(ops) == Table(EMPTY, 1) && FlatAfter(ops) == []
  {
    var two := [Subscribe([GREATER], sub), Subscribe([GREATER], sub)];
    var ops := two + [Unsubscribe([GREATER], sub.conn, sub.sid)];
    assert ops[..2] == two;
    RootSubject();
    SubscribedTwice(sub);
    RemovedTwice(sub);
  }

  // --------------------------------------------------------------- the table

  /** The table the worker holds; `history` is what it has been asked so far. */
  class SubscriptionTrie {
    var root: Node
    var total: nat
    ghost var history: seq<Op>

    ghost predicate Valid()
      reads this
    {
      Table(root, total) == After(history)
    }

    constructor ()
      ensures Valid() && history == []
    {
      root, total, history := EMPTY, 0, [];
    }

    method Subscribe(subject: Bytes, sub: Sub) returns (r: Result<(), SubjectError>)
      requires Valid()
      modifies this
      ensures Valid() && history == old(history) + [Op.Subscribe(subject, sub)]
      ensures r.Ok? <==> SubscriberSubject(subject)
      ensures r.Err? ==> ParseSubscriber(subject) == Err(r.error) && root == old(root) && total == old(total)
    {
      ghost var op := Op.Subscribe(subject, sub);
      SubscriberAccepts(subject);
      assert (history + [op])[..|history|] == history;
      history := history + [op];
      var p :- ParseSubscriberSubject(subject);
      root := Insert(root, p, sub);
      total := total + 1;
      r := Ok(());
    }

    method Unsubscribe(subject: Bytes, conn: ConnectionId, sid: Bytes) returns (removed: bool)
      requires Valid()
      modifies this
      ensures Valid() && history == old(history) + [Op.Unsubscribe(subject, conn, sid)]
      ensures removed <==> exists e :: e in FlatAfter(old(history)) && ParseSubscriber(subject) == Ok(e.pattern)
                                     && e.sub.conn == conn && e.sub.sid == sid
      ensures !removed ==> root == old(root) && total == old(total)
    {
      ghost var op := Op.Unsubscribe(subject, conn, sid);
      ghost var flat := FlatAfter(history);
      assert (history + [op])[..|history|] == history;
      history := history + [op];
      var parsed := ParseSubscriberSubject(subject);
      if parsed.Err? {
        return false;
      }
      var p := parsed.value;
      EveryHistory(old(history));
      SubscriberWellFormed(subject);
      HitsList(root, flat, p, conn, sid);
      TotalAccounted(old(history));
      removed := Hits(root, p, conn, sid);
      if !removed {
        UnsubscribeLocal(old(history), subject, conn, sid, Entry(p, Sub(conn, sid, None)));
      } else {
        assert |flat| > 0;
      }
      root := Remove(root, p, conn, sid);
      if removed {
        total := total - 1;
      }
      if removed {
        ghost var e :| e in flat && Targets(e, p, conn, sid);
        assert ParseSubscriber(subject) == Ok(e.pattern);
      }
    }

    /** The subscriptions handed to the callback, or the error of a subject nobody may publish to. */
    method ForEachMatch(subject: Bytes) returns (r: Result<seq<Sub>, SubjectError>)
      requires Valid()
      ensures r.Ok? <==> PublisherSubject(subject)
      ensures r.Err? ==> ParsePublisher(subject) == Err(r.error)
      ensures r.Ok? ==> ParsePublisher(subject).Ok? && r.value == Walk(root, ParsePublisher(subject).value)
      ensures r.Ok? ==> multiset(r.value) == multiset(Covering(Listing(history), subject))
    {
      PublisherAccepts(subject);
      var tokens :- ParsePublisherSubject(subject);
      TrieServesSubjects(history, subject);
      r := Ok(Walk(root, tokens));
    }
  }
}
