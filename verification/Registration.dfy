/**
 Who is subscribed (`handle_frame`, accept and the cleanup of `reader_task` in
 crates/aulon-server/src/main.rs): each connection's reader keeps a map from sid to subject beside
 the worker's table, and uses it to unsubscribe; the worker keeps a map from connection id to
 connection.  The table is given by its history of operations.
 */
module Registration {
  import opened Wrappers
  import opened Bytes
  import opened Subject
  import opened Arith
  import T = Trie
  import opened SubscriptionTable
  import opened TableHistory

  type Sids = map<Bytes, Bytes>

  /** Connections numbered in the order they were given an id. */
  type TaskId = nat

  const ID_RANGE: nat := 0x1_0000_0000

  /** The id a connection goes by: the counter behind `next_id` wraps at 32 bits. */
  function IdOf(task: TaskId): T.ConnectionId {
    task % ID_RANGE
  }

  /**
   `readers` holds the live readers with their sid maps, `registered` is the worker's connection map,
   `ids` counts the ids given out so far.
   */
  datatype Registry = Registry(
    history: seq<Op>,
    readers: map<TaskId, Sids>,
    registered: map<T.ConnectionId, TaskId>,
    ids: nat)
  {
    function Entries(): seq<Entry> {
      FlatAfter(history)
    }
  }

  /** `Refuse` is an accept that finds the buffer pool empty: its id is spent and no connection starts. */
  datatype Step =
    | Accept
    | Refuse
    | Sub(task: TaskId, subject: Bytes, queueGroup: Option<Bytes>, sid: Bytes)
    | Unsub(task: TaskId, sid: Bytes)
    | Disconnect(task: TaskId, order: seq<Bytes>)

  /** A disconnecting reader goes through its sids in some order. */
  predicate Enabled(r: Registry, step: Step) {
    match step
    case Accept => true
    case Refuse => true
    case Sub(t, _, _, _) => t in r.readers
    case Unsub(t, _) => t in r.readers
    case Disconnect(t, order) =>
      && t in r.readers
      && (forall sid | sid in order :: sid in r.readers[t])
      && (forall sid | sid in r.readers[t] :: sid in order)
  }

  /** The cleanup: unsubscribe every recorded (subject, sid). */
  function Cleanup(history: seq<Op>, c: T.ConnectionId, sids: Sids, order: seq<Bytes>): seq<Op>
    requires forall sid | sid in order :: sid in sids
  {
    if order == [] then history
    else
      var sid := order[|order| - 1];
      Cleanup(history, c, sids, order[..|order| - 1]) + [Unsubscribe(sids[sid], c, sid)]
  }

  function Next(r: Registry, step: Step): Registry
    requires Enabled(r, step)
  {
    match step
    case Accept =>
      r.(readers := r.readers[r.ids := map[]], registered := r.registered[IdOf(r.ids) := r.ids], ids := r.ids + 1)
    case Refuse => r.(ids := r.ids + 1)
    case Sub(t, subject, queueGroup, sid) =>
      var h := r.history + [Subscribe(subject, T.Sub(IdOf(t), sid, queueGroup))];
      if ParseSubscriber(subject).Err? then r.(history := h)
      else r.(history := h, readers := r.readers[t := r.readers[t][sid := subject]])
    case Unsub(t, sid) =>
      if sid !in r.readers[t] then r
      else
        r.(history := r.history + [Unsubscribe(r.readers[t][sid], IdOf(t), sid)],
           readers := r.readers[t := r.readers[t] - {sid}])
    case Disconnect(t, order) =>
      r.(history := Cleanup(r.history, IdOf(t), r.readers[t], order),
         readers := r.readers - {t},
         registered := r.registered - {IdOf(t)})
  }

  // --------------------------------------------------------------- agreement

  /** Every live reader is registered under its id, and nothing else is registered. */
  ghost predicate Registered(r: Registry) {
    && (forall t | t in r.readers :: t < r.ids && IdOf(t) in r.registered && r.registered[IdOf(t)] == t)
    && (forall c | c in r.registered :: r.registered[c] in r.readers && IdOf(r.registered[c]) == c)
  }

  ghost predicate Recorded(r: Registry, e: Entry) {
    && e.sub.conn in r.registered
    && r.registered[e.sub.conn] in r.readers
    && var sids := r.readers[r.registered[e.sub.conn]];
       e.sub.sid in sids && ParseSubscriber(sids[e.sub.sid]) == Ok(e.pattern)
  }

  ghost predicate StoredAs(r: Registry, t: TaskId, sid: Bytes, e: Entry)
    requires t in r.readers && sid in r.readers[t]
  {
    e in r.Entries() && e.sub.conn == IdOf(t) && e.sub.sid == sid && ParseSubscriber(r.readers[t][sid]) == Ok(e.pattern)
  }

  ghost predicate Stored(r: Registry, t: TaskId, sid: Bytes)
    requires t in r.readers && sid in r.readers[t]
  {
    exists e :: StoredAs(r, t, sid, e)
  }

  /**
   The connection map, the readers' records and the table agree: live readers are exactly the
   registered ones, every table entry is recorded by the reader registered under its connection id,
   and every record is in the table.
   */
  ghost predicate Agrees(r: Registry) {
    && Registered(r)
    && (forall e | e in r.Entries() :: Recorded(r, e))
    && (forall t, sid | t in r.readers && sid in r.readers[t] :: Stored(r, t, sid))
  }

  /** What the agreement asks of a step, decided before it: no sid moves to another subject, no id in use is given out. */
  predicate Careful(r: Registry, step: Step)
    requires Enabled(r, step)
  {
    match step
    case Accept => IdOf(r.ids) !in r.registered
    case Sub(t, subject, _, sid) =>
      ParseSubscriber(subject).Ok? && sid in r.readers[t] ==> ParseSubscriber(r.readers[t][sid]) == ParseSubscriber(subject)
    case _ => true
  }

  lemma Appended(ops: seq<Op>, op: Op)
    ensures FlatAfter(ops + [op]) == FlatApply(FlatAfter(ops), op)
  {
    assert (ops + [op])[..|ops|] == ops;
  }

  lemma SubKeeps(r: Registry, t: TaskId, subject: Bytes, queueGroup: Option<Bytes>, sid: Bytes)
    requires Agrees(r) && t in r.readers && Careful(r, Sub(t, subject, queueGroup, sid))
    ensures Agrees(Next(r, Sub(t, subject, queueGroup, sid)))
  {
    var r' := Next(r, Sub(t, subject, queueGroup, sid));
    var sub := T.Sub(IdOf(t), sid, queueGroup);
    Appended(r.history, Subscribe(subject, sub));
    if ParseSubscriber(subject).Ok? {
      var e' := Entry(ParseSubscriber(subject).value, sub);
      forall e | e in r'.Entries()
        ensures Recorded(r', e)
      {
        assert e == e' || (e in r.Entries() && Recorded(r, e));
      }
      forall a, s | a in r'.readers && s in r'.readers[a]
        ensures Stored(r', a, s)
      {
        if a == t && s == sid {
          assert StoredAs(r', a, s, e');
        } else {
          assert Stored(r, a, s);
          var e :| StoredAs(r, a, s, e);
          assert StoredAs(r', a, s, e);
        }
      }
    } else {
      SameTable(r, r');
    }
  }

  /** Nothing changes but the bookkeeping of ids. */
  lemma SameTable(r: Registry, r': Registry)
    requires Agrees(r) && r'.Entries() == r.Entries() && r'.readers == r.readers && r'.registered == r.registered && r.ids <= r'.ids
    ensures Agrees(r')
  {
    forall e | e in r'.Entries()
      ensures Recorded(r', e)
    {
      assert Recorded(r, e);
    }
    forall a, s | a in r'.readers && s in r'.readers[a]
      ensures Stored(r', a, s)
    {
      assert Stored(r, a, s);
      var e :| StoredAs(r, a, s, e);
      assert StoredAs(r', a, s, e);
    }
  }

  lemma AcceptKeeps(r: Registry)
    requires Agrees(r) && Careful(r, Accept)
    ensures Agrees(Next(r, Accept))
  {
    var r' := Next(r, Accept);
    forall e | e in r'.Entries()
      ensures Recorded(r', e)
    {
      assert Recorded(r, e);
    }
    forall a, s | a in r'.readers && s in r'.readers[a]
      ensures Stored(r', a, s)
    {
      assert Stored(r, a, s);
      var e :| StoredAs(r, a, s, e);
      assert StoredAs(r', a, s, e);
    }
  }

  /** A live reader has the record of each entry of its connection. */
  lemma RecordedBy(r: Registry, e: Entry, t: TaskId)
    requires Agrees(r) && e in r.Entries() && t in r.readers && e.sub.conn == IdOf(t)
    ensures e.sub.sid in r.readers[t] && ParseSubscriber(r.readers[t][e.sub.sid]) == Ok(e.pattern)
  {
    assert Recorded(r, e);
  }

  /** UNSUB removes exactly the entries of that sid of that connection. */
  lemma UnsubCleans(r: Registry, t: TaskId, sid: Bytes, e: Entry)
    requires Agrees(r) && t in r.readers
    ensures e in Next(r, Unsub(t, sid)).Entries() <==> e in r.Entries() && !(e.sub.conn == IdOf(t) && e.sub.sid == sid)
  {
    if e in r.Entries() && e.sub.conn == IdOf(t) {
      RecordedBy(r, e, t);
    }
    if sid in r.readers[t] {
      assert Stored(r, t, sid);
      Appended(r.history, Unsubscribe(r.readers[t][sid], IdOf(t), sid));
      WithoutMembers(r.Entries(), ParseSubscriber(r.readers[t][sid]).value, IdOf(t), sid, e);
    }
  }

  lemma UnsubKeeps(r: Registry, t: TaskId, sid: Bytes)
    requires Agrees(r) && t in r.readers
    ensures Agrees(Next(r, Unsub(t, sid)))
  {
    var r' := Next(r, Unsub(t, sid));
    forall e | e in r'.Entries()
      ensures Recorded(r', e)
    {
      UnsubCleans(r, t, sid, e);
      assert Recorded(r, e);
    }
    forall a, s | a in r'.readers && s in r'.readers[a]
      ensures Stored(r', a, s)
    {
      assert Stored(r, a, s);
      var e :| StoredAs(r, a, s, e);
      UnsubCleans(r, t, sid, e);
      assert StoredAs(r', a, s, e);
    }
  }

  /** An entry survives the cleanup unless it is (pattern, conn, sid) of one of the sids gone through. */
  ghost predicate Cleaned(c: T.ConnectionId, sids: Sids, order: seq<Bytes>, e: Entry)
    requires forall sid | sid in order :: sid in sids
  {
    e.sub.conn == c && e.sub.sid in order && ParseSubscriber(sids[e.sub.sid]) == Ok(e.pattern)
  }

  lemma {:induction false} CleanupMembers(history: seq<Op>, c: T.ConnectionId, sids: Sids, order: seq<Bytes>, e: Entry)
    requires forall sid | sid in order :: sid in sids
    ensures e in FlatAfter(Cleanup(history, c, sids, order)) <==> e in FlatAfter(history) && !Cleaned(c, sids, order, e)
  {
    if order != [] {
      var before, sid := order[..|order| - 1], order[|order| - 1];
      assert order == before + [sid];
      CleanupMembers(history, c, sids, before, e);
      var done := Cleanup(history, c, sids, before);
      Appended(done, Unsubscribe(sids[sid], c, sid));
      if ParseSubscriber(sids[sid]).Ok? {
        WithoutMembers(FlatAfter(done), ParseSubscriber(sids[sid]).value, c, sid, e);
      }
    }
  }

  /** Reader exit leaves none of the connection's entries and touches nobody else's. */
  lemma DisconnectCleans(r: Registry, t: TaskId, order: seq<Bytes>, e: Entry)
    requires Agrees(r) && Enabled(r, Disconnect(t, order))
    ensures e in Next(r, Disconnect(t, order)).Entries() <==> e in r.Entries() && e.sub.conn != IdOf(t)
  {
    CleanupMembers(r.history, IdOf(t), r.readers[t], order, e);
    if e in r.Entries() && e.sub.conn == IdOf(t) {
      RecordedBy(r, e, t);
    }
  }

  lemma DisconnectKeeps(r: Registry, t: TaskId, order: seq<Bytes>)
    requires Agrees(r) && Enabled(r, Disconnect(t, order))
    ensures Agrees(Next(r, Disconnect(t, order)))
  {
    var r' := Next(r, Disconnect(t, order));
    forall e | e in r'.Entries()
      ensures Recorded(r', e)
    {
      DisconnectCleans(r, t, order, e);
      assert Recorded(r, e);
    }
    forall a, s | a in r'.readers && s in r'.readers[a]
      ensures Stored(r', a, s)
    {
      assert Stored(r, a, s);
      var e :| StoredAs(r, a, s, e);
      DisconnectCleans(r, t, order, e);
      assert StoredAs(r', a, s, e);
    }
  }

  lemma CarefulKeeps(r: Registry, step: Step)
    requires Agrees(r) && Enabled(r, step) && Careful(r, step)
    ensures Agrees(Next(r, step))
  {
    match step
    case Accept => AcceptKeeps(r);
    case Refuse => SameTable(r, Next(r, Refuse));
    case Sub(t, subject, queueGroup, sid) => SubKeeps(r, t, subject, queueGroup, sid);
    case Unsub(t, sid) => UnsubKeeps(r, t, sid);
    case Disconnect(t, order) => DisconnectKeeps(r, t, order);
  }

  // ------------------------------------------------- exactly when it is kept

  /** Giving out an id in use takes the registration away from the reader that had it. */
  lemma ReuseBreaks(r: Registry)
    requires Agrees(r) && !Careful(r, Accept)
    ensures !Registered(Next(r, Accept))
  {
    var first := r.registered[IdOf(r.ids)];
    var r' := Next(r, Accept);
    assert first in r'.readers && r'.registered[IdOf(first)] == r.ids != first;
  }

  /** Moving a sid leaves its old entry without a record. */
  lemma MoveBreaks(r: Registry, t: TaskId, subject: Bytes, queueGroup: Option<Bytes>, sid: Bytes)
    requires Agrees(r) && t in r.readers && !Careful(r, Sub(t, subject, queueGroup, sid))
    ensures !Agrees(Next(r, Sub(t, subject, queueGroup, sid)))
  {
    assert Stored(r, t, sid);
    var e :| StoredAs(r, t, sid, e);
    var r' := Next(r, Sub(t, subject, queueGroup, sid));
    Appended(r.history, Subscribe(subject, T.Sub(IdOf(t), sid, queueGroup)));
    assert e in r'.Entries() && !Recorded(r', e);
  }

  /** Registration agreement, step by step: a step from an agreeing state keeps the agreement iff it is careful. */
  lemma AgreementExactly(r: Registry, step: Step)
    requires Agrees(r) && Enabled(r, step)
    ensures Agrees(Next(r, step)) <==> Careful(r, step)
  {
    if Careful(r, step) {
      CarefulKeeps(r, step);
    } else if step.Accept? {
      ReuseBreaks(r);
    } else {
      MoveBreaks(r, step.task, step.subject, step.queueGroup, step.sid);
    }
  }

  /** A live sid re-SUBbed under another subject outlives its connection in the table. */
  lemma ResubscribedLeaks(r: Registry, t: TaskId, subject: Bytes, queueGroup: Option<Bytes>, sid: Bytes, order: seq<Bytes>)
    requires Agrees(r) && t in r.readers && !Careful(r, Sub(t, subject, queueGroup, sid))
    requires Enabled(Next(r, Sub(t, subject, queueGroup, sid)), Disconnect(t, order))
    ensures var gone := Next(Next(r, Sub(t, subject, queueGroup, sid)), Disconnect(t, order));
            IdOf(t) !in gone.registered && exists e :: e in gone.Entries() && e.sub.conn == IdOf(t) && e.sub.sid == sid
  {
    assert Stored(r, t, sid);
    var e :| StoredAs(r, t, sid, e);
    Appended(r.history, Subscribe(subject, T.Sub(IdOf(t), sid, queueGroup)));
    var r' := Next(r, Sub(t, subject, queueGroup, sid));
    assert e in r'.Entries();
    CleanupMembers(r'.history, IdOf(t), r'.readers[t], order, e);
    assert e in Next(r', Disconnect(t, order)).Entries();
  }

  /**
   A connection given an id in use is unregistered when the id's first owner leaves, although it is
   live and its subscriptions, here one made after it was accepted, stay in the table.
   */
  lemma ReusedIdUnregisters(r: Registry, subject: Bytes, queueGroup: Option<Bytes>, sid: Bytes, order: seq<Bytes>)
    requires Agrees(r) && !Careful(r, Accept) && ParseSubscriber(subject).Ok?
    requires Enabled(Next(Next(r, Accept), Sub(r.ids, subject, queueGroup, sid)), Disconnect(r.registered[IdOf(r.ids)], order))
    requires sid !in order
    ensures var gone := Next(Next(Next(r, Accept), Sub(r.ids, subject, queueGroup, sid)), Disconnect(r.registered[IdOf(r.ids)], order));
            && r.ids in gone.readers && IdOf(r.ids) !in gone.registered
            && Entry(ParseSubscriber(subject).value, T.Sub(IdOf(r.ids), sid, queueGroup)) in gone.Entries()
  {
    var first, sub := r.registered[IdOf(r.ids)], T.Sub(IdOf(r.ids), sid, queueGroup);
    var r' := Next(r, Accept);
    var r'' := Next(r', Sub(r.ids, subject, queueGroup, sid));
    Appended(r'.history, Subscribe(subject, sub));
    CleanupMembers(r''.history, IdOf(first), r''.readers[first], order, Entry(ParseSubscriber(subject).value, sub));
  }

  // -------------------------------------------------------------------- runs

  function Exec(schedule: seq<Step>): Registry {
    if schedule == [] then Registry([], map[], map[], 0)
    else
      var r, step := Exec(schedule[..|schedule| - 1]), schedule[|schedule| - 1];
      if Enabled(r, step) then Next(r, step) else r
  }

  lemma ExecLast(schedule: seq<Step>, step: Step)
    ensures Exec(schedule + [step]) == if Enabled(Exec(schedule), step) then Next(Exec(schedule), step) else Exec(schedule)
  {
    assert (schedule + [step])[..|schedule|] == schedule;
  }

  ghost predicate Reachable(r: Registry) {
    exists schedule :: r == Exec(schedule)
  }

  lemma ReachableStep(r: Registry, step: Step)
    requires Reachable(r) && Enabled(r, step)
    ensures Reachable(Next(r, step))
  {
    var schedule :| r == Exec(schedule);
    ExecLast(schedule, step);
  }

  /** Every step taken along the schedule is careful. */
  predicate CarefulRun(schedule: seq<Step>) {
    schedule == [] ||
    var before, step := schedule[..|schedule| - 1], schedule[|schedule| - 1];
    CarefulRun(before) && (Enabled(Exec(before), step) ==> Careful(Exec(before), step))
  }

  /**
   Registration agreement on runs: while no live sid is re-SUBbed under another subject and no id in
   use is given out, connection map, reverse maps and table agree, every entry's connection is
   registered, and disconnected connections have no entries.
   */
  lemma {:induction false} AlwaysAgrees(schedule: seq<Step>)
    requires CarefulRun(schedule)
    ensures Agrees(Exec(schedule))
    ensures forall e | e in Exec(schedule).Entries() :: e.sub.conn in Exec(schedule).registered
  {
    if schedule != [] {
      var before, step := schedule[..|schedule| - 1], schedule[|schedule| - 1];
      AlwaysAgrees(before);
      if Enabled(Exec(before), step) {
        CarefulKeeps(Exec(before), step);
      }
    }
    forall e | e in Exec(schedule).Entries()
      ensures e.sub.conn in Exec(schedule).registered
    {
      assert Recorded(Exec(schedule), e);
    }
  }

  ghost predicate Throughout(ok: Registry -> bool, schedule: seq<Step>) {
    forall n | 0 <= n <= |schedule| :: ok(Exec(schedule[..n]))
  }

  lemma ThroughoutLast(ok: Registry -> bool, schedule: seq<Step>, step: Step)
    ensures Throughout(ok, schedule + [step]) <==> Throughout(ok, schedule) && ok(Exec(schedule + [step]))
  {
    var longer := schedule + [step];
    forall n | 0 <= n <= |schedule|
      ensures Exec(longer[..n]) == Exec(schedule[..n])
    {
      assert longer[..n] == schedule[..n];
    }
    assert longer[..|longer|] == longer;
  }

  ghost predicate AgreesThroughout(schedule: seq<Step>) {
    Throughout(r => Agrees(r), schedule)
  }

  lemma CarefulLast(schedule: seq<Step>, step: Step)
    requires Agrees(Exec(schedule))
    ensures Agrees(Exec(schedule + [step])) <==> (Enabled(Exec(schedule), step) ==> Careful(Exec(schedule), step))
  {
    ExecLast(schedule, step);
    if Enabled(Exec(schedule), step) {
      AgreementExactly(Exec(schedule), step);
    }
  }

  /** Over whole runs: maps and table agree after every step iff every step taken was careful. */
  lemma {:induction false} RunsExactly(schedule: seq<Step>)
    ensures AgreesThroughout(schedule) <==> CarefulRun(schedule)
  {
    if schedule == [] {
      AlwaysAgrees([]);
    } else {
      var n := |schedule| - 1;
      var before, step := schedule[..n], schedule[n];
      RunsExactly(before);
      assert schedule == before + [step];
      ThroughoutLast(r => Agrees(r), before, step);
      if AgreesThroughout(before) {
        assert before[..n] == before;
        CarefulLast(before, step);
      }
    }
  }

  /** How many ids a schedule gives out. */
  function IdsGiven(schedule: seq<Step>): nat {
    if schedule == [] then 0
    else
      var step := schedule[|schedule| - 1];
      IdsGiven(schedule[..|schedule| - 1]) + if step.Accept? || step.Refuse? then 1 else 0
  }

  /** No SUB taken along the schedule moves a live sid to another subject. */
  predicate NoSidMoves(schedule: seq<Step>) {
    schedule == [] ||
    var before, step := schedule[..|schedule| - 1], schedule[|schedule| - 1];
    NoSidMoves(before) && (step.Sub? && Enabled(Exec(before), step) ==> Careful(Exec(before), step))
  }

  /** Live readers and registrations are of ids given out already. */
  lemma {:induction false} IdsCount(schedule: seq<Step>)
    ensures Exec(schedule).ids == IdsGiven(schedule)
    ensures forall c | c in Exec(schedule).registered :: Exec(schedule).registered[c] < Exec(schedule).ids
    ensures forall c | c in Exec(schedule).registered :: c == IdOf(Exec(schedule).registered[c])
  {
    if schedule != [] {
      IdsCount(schedule[..|schedule| - 1]);
    }
  }

  /**
   The agreement for every run a worker has before its ids wrap: with at most 2^32 ids given out and
   no live sid moved to another subject, every step is careful, and maps and table agree.
   */
  lemma {:induction false} AgreesBeforeWrap(schedule: seq<Step>)
    requires IdsGiven(schedule) <= ID_RANGE && NoSidMoves(schedule)
    ensures CarefulRun(schedule) && Agrees(Exec(schedule))
  {
    if schedule != [] {
      var before, step := schedule[..|schedule| - 1], schedule[|schedule| - 1];
      AgreesBeforeWrap(before);
      IdsCount(before);
    }
    AlwaysAgrees(schedule);
  }

  // ------------------------------------------------------------- failing runs

  /** One connection, accepted and subscribed to `>` under a sid. */
  lemma FirstSub(sid: Bytes)
    ensures var r := Exec([Accept] + [Sub(0, [GREATER], None, sid)]);
            && r == Registry([Subscribe([GREATER], T.Sub(0, sid, None))], map[0 := map[sid := [GREATER]]], map[0 := 0], 1)
            && r.Entries() == [Entry([Greater], T.Sub(0, sid, None))]
  {
    ExecLast([], Accept);
    assert [] + [Accept] == [Accept];
    assert Exec([Accept]) == Registry([], map[0 := map[]], map[0 := 0], 1);
    ExecLast([Accept], Sub(0, [GREATER], None, sid));
    RootSubject();
    Appended([], Subscribe([GREATER], T.Sub(0, sid, None)));
    assert [] + [Subscribe([GREATER], T.Sub(0, sid, None))] == [Subscribe([GREATER], T.Sub(0, sid, None))];
  }

  /** The shortest run that breaks the promise: SUB `>` 1, SUB `*` 1, disconnect; the first entry stays. */
  lemma MovedSidRun(sid: Bytes)
    ensures var gone := Exec([Accept] + [Sub(0, [GREATER], None, sid)] + [Sub(0, [STAR], None, sid)] + [Disconnect(0, [sid])]);
            && gone.readers == map[] && gone.registered == map[]
            && Entry([Greater], T.Sub(0, sid, None)) in gone.Entries()
  {
    var two := [Accept] + [Sub(0, [GREATER], None, sid)];
    FirstSub(sid);
    StarSubject();
    MoveSid(two, sid, [GREATER], [STAR]);
    LeaveAfterMove(two + [Sub(0, [STAR], None, sid)], sid, [STAR]);
  }

  /** One live connection with one sid, recorded under the given subject; its first entry is in the table. */
  ghost predicate OneSid(r: Registry, sid: Bytes, subject: Bytes) {
    && r.readers.Keys == {0} && r.readers[0].Keys == {sid} && r.readers[0][sid] == subject
    && r.registered.Keys == {0}
    && Entry([Greater], T.Sub(0, sid, None)) in r.Entries()
  }

  lemma EntryStays(r: Registry, t: TaskId, subject: Bytes, sid: Bytes, e: Entry)
    requires t in r.readers && e in r.Entries()
    ensures e in Next(r, Sub(t, subject, None, sid)).Entries()
  {
    Appended(r.history, Subscribe(subject, T.Sub(IdOf(t), sid, None)));
  }

  lemma MoveSid(schedule: seq<Step>, sid: Bytes, from: Bytes, to: Bytes)
    requires OneSid(Exec(schedule), sid, from) && ParseSubscriber(to).Ok?
    ensures OneSid(Exec(schedule + [Sub(0, to, None, sid)]), sid, to)
  {
    var r := Exec(schedule);
    ExecLast(schedule, Sub(0, to, None, sid));
    EntryStays(r, 0, to, sid, Entry([Greater], T.Sub(0, sid, None)));
  }

  lemma LeaveAfterMove(schedule: seq<Step>, sid: Bytes, subject: Bytes)
    requires OneSid(Exec(schedule), sid, subject) && ParseSubscriber(subject) != Ok([Greater])
    ensures var gone := Exec(schedule + [Disconnect(0, [sid])]);
            && gone.readers == map[] && gone.registered == map[]
            && Entry([Greater], T.Sub(0, sid, None)) in gone.Entries()
  {
    var r := Exec(schedule);
    ExecLast(schedule, Disconnect(0, [sid]));
    CleanupMembers(r.history, 0, r.readers[0], [sid], Entry([Greater], T.Sub(0, sid, None)));
  }

  lemma StarSubject()
    ensures ParseSubscriber([STAR]) == Ok([Star])
  {
    var subject: Bytes := [STAR];
    var rest := Split(subject[1..]);
    assert subject[1..] == [] && rest == [[]] && rest[1..] == [] && [subject[0]] + rest[0] == [STAR];
    assert Split(subject) == [[STAR]];
    assert ClassifyAll([[STAR]]) == [Star];
  }

  function Accepts(n: nat): seq<Step> {
    if n == 0 then [] else Accepts(n - 1) + [Accept]
  }

  /** The first n connections are live and have no subscriptions. */
  ghost predicate AllIdle(r: Registry, n: nat) {
    && r.history == [] && r.ids == n
    && forall t: TaskId | t < n :: t in r.readers && r.readers[t] == map[]
  }

  lemma {:induction false} ManyAccepted(n: nat)
    ensures AllIdle(Exec(Accepts(n)), n)
  {
    if n > 0 {
      ManyAccepted(n - 1);
      ExecLast(Accepts(n - 1), Accept);
    }
  }

  /**
   A run in which the ids wrap: 2^32 + 1 connections are accepted, the last one shares its id with the
   first; it subscribes, the first one leaves, and the last one is live, subscribed and unregistered.
   */
  lemma WrappedIdRun(sid: Bytes)
    ensures var gone := Exec(Accepts(ID_RANGE + 1) + [Sub(ID_RANGE, [GREATER], None, sid)] + [Disconnect(0, [])]);
            && ID_RANGE in gone.readers && IdOf(ID_RANGE) !in gone.registered
            && Entry([Greater], T.Sub(IdOf(ID_RANGE), sid, None)) in gone.Entries()
  {
    var many := Accepts(ID_RANGE + 1);
    ManyAccepted(ID_RANGE + 1);
    ExecLast(many, Sub(ID_RANGE, [GREATER], None, sid));
    ExecLast(many + [Sub(ID_RANGE, [GREATER], None, sid)], Disconnect(0, []));
    RootSubject();
    Appended([], Subscribe([GREATER], T.Sub(IdOf(ID_RANGE), sid, None)));
  }

  // ---------------------------------------------------------------- the tasks

  /** The identity of a connection's shared state; `task` is its number without wrap-around. */
  class Connection {
    const id: T.ConnectionId
    ghost const task: TaskId

    constructor (id: T.ConnectionId, ghost task: TaskId)
      ensures this.id == id && this.task == task
    {
      this.id, this.task := id, task;
    }
  }

  /** The worker's part: its table, its connection map and its id counter. */
  class WorkerState {
    const table: SubscriptionTrie
    var connections: map<T.ConnectionId, Connection>
    var nextConnId: nat
    ghost var ids: nat

    ghost predicate Valid()
      reads this, table
    {
      table.Valid() && nextConnId == IdOf(ids)
    }

    ghost function View(readers: map<TaskId, Sids>): Registry
      reads this, table
    {
      Registry(table.history, readers, map c | c in connections :: connections[c].task, ids)
    }

    constructor (table: SubscriptionTrie)
      requires table.Valid()
      ensures Valid() && this.table == table && View(map[]) == Registry(table.history, map[], map[], 0)
    {
      this.table := table;
      connections, nextConnId, ids := map[], 0, 0;
    }

    /** `next_id`: the counter wraps, whatever is registered. */
    method NextId() returns (id: T.ConnectionId)
      requires Valid()
      modifies this
      ensures Valid() && id == IdOf(old(ids)) && ids == old(ids) + 1 && connections == old(connections)
    {
      id := nextConnId;
      nextConnId := (id + 1) % ID_RANGE;
      ModAdd(ids, 1, ID_RANGE);
      ids := ids + 1;
    }

    /** One turn of the accept loop; `pooled` says whether the pool had both buffers. */
    method Admit(pooled: bool, ghost readers: map<TaskId, Sids>) returns (state: Option<Connection>)
      requires Valid()
      modifies this
      ensures Valid() && (state.Some? <==> pooled)
      ensures pooled ==> state.value.task == old(ids) && state.value.id == IdOf(old(ids))
      ensures pooled ==> View(readers[old(ids) := map[]]) == Next(old(View(readers)), Accept)
      ensures !pooled ==> View(readers) == Next(old(View(readers)), Refuse)
    {
      ghost var task := ids;
      var id := NextId();
      if !pooled {
        return None;
      }
      var c := new Connection(id, task);
      connections := connections[id := c];
      state := Some(c);
    }
  }

  /** One reader task: its connection, its sid map and the worker. */
  class ReaderTask {
    const state: Connection
    const worker: WorkerState
    var subscriptions: Sids

    ghost predicate Valid()
      reads this, worker, worker.table
    {
      worker.Valid() && state.id == IdOf(state.task)
    }

    /** The registry with the other readers as given. */
    ghost function View(others: map<TaskId, Sids>): Registry
      reads this, worker, worker.table
    {
      worker.View(others[state.task := subscriptions])
    }

    constructor (state: Connection, worker: WorkerState)
      requires worker.Valid() && state.id == IdOf(state.task)
      ensures Valid() && this.state == state && this.worker == worker && subscriptions == map[]
    {
      this.state, this.worker, subscriptions := state, worker, map[];
    }

    /** The SUB branch of `handle_frame`; the error, if any, goes back to the client. */
    method HandleSub(subject: Bytes, queueGroup: Option<Bytes>, sid: Bytes, ghost others: map<TaskId, Sids>)
      returns (error: Option<SubjectError>)
      requires Valid()
      modifies this, worker.table
      ensures Valid()
      ensures View(others) == Next(old(View(others)), Sub(state.task, subject, queueGroup, sid))
      ensures error == match ParseSubscriber(subject) case Ok(_) => None case Err(e) => Some(e)
    {
      var r := worker.table.Subscribe(subject, T.Sub(state.id, sid, queueGroup));
      if r.Err? {
        return Some(r.error);
      }
      ghost var before := old(View(others));
      subscriptions := subscriptions[sid := subject];
      assert before.readers[state.task := subscriptions] == others[state.task := subscriptions];
      error := None;
    }

    /** The UNSUB branch; a message count is refused and changes nothing. */
    method HandleUnsub(sid: Bytes, maxMsgs: Option<nat>, ghost others: map<TaskId, Sids>) returns (supported: bool)
      requires Valid()
      modifies this, worker.table
      ensures Valid() && (supported <==> maxMsgs.None?)
      ensures View(others) == if supported then Next(old(View(others)), Unsub(state.task, sid)) else old(View(others))
    {
      if maxMsgs.Some? {
        return false;
      }
      if sid in subscriptions {
        var subject := subscriptions[sid];
        ghost var before := View(others);
        subscriptions := subscriptions - {sid};
        var _ := worker.table.Unsubscribe(subject, state.id, sid);
        assert before.readers[state.task := subscriptions] == others[state.task := subscriptions];
      }
      supported := true;
    }

    /** The unsubscribes at reader exit, in whatever order the map yields the sids. */
    method UnsubscribeAll() returns (ghost order: seq<Bytes>)
      requires Valid()
      modifies worker.table
      ensures Valid()
      ensures (forall sid | sid in order :: sid in subscriptions) && (forall sid | sid in subscriptions :: sid in order)
      ensures worker.table.history == Cleanup(old(worker.table.history), state.id, subscriptions, order)
    {
      order := [];
      var left := subscriptions.Keys;
      while left != {}
        invariant Valid() && left <= subscriptions.Keys
        invariant forall sid | sid in order :: sid in subscriptions
        invariant forall sid | sid in subscriptions :: sid in order || sid in left
        invariant worker.table.history == Cleanup(old(worker.table.history), state.id, subscriptions, order)
        decreases left
      {
        var sid :| sid in left;
        var _ := worker.table.Unsubscribe(subscriptions[sid], state.id, sid);
        assert (order + [sid])[..|order|] == order;
        order := order + [sid];
        left := left - {sid};
      }
    }

    /** The cleanup at reader exit: whatever is registered under this id goes. */
    method Exit(ghost others: map<TaskId, Sids>) returns (ghost order: seq<Bytes>)
      requires Valid()
      modifies worker, worker.table
      ensures Valid()
      ensures Enabled(old(View(others)), Disconnect(state.task, order))
      ensures worker.View(others - {state.task}) == Next(old(View(others)), Disconnect(state.task, order))
    {
      ghost var before := View(others);
      order := UnsubscribeAll();
      worker.connections := worker.connections - {state.id};
      assert before.readers - {state.task} == others - {state.task};
    }
  }
}
