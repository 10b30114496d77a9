/**
 Publishing across shards (`handle_pub` and `drain_task` of crates/aulon-server/src/main.rs): one
 worker per shard; a worker validates each PUB and pushes a valid one into every other shard's inbox
 in index order, one push at a time.  All workers and drain tasks interleave at the grain of the
 inbox machine.
 */
module CrossShard {
  import opened Wrappers
  import opened Bytes
  import opened Subject
  import opened Inbox
  import opened InboxSteps
  import opened InboxTheorems
  import opened InboxDelivery

  /** One PUB; `publisher` names the connection it came in on. */
  datatype PubFrame = PubFrame(publisher: nat, subject: Bytes, replyTo: Option<Bytes>, payload: Bytes)

  /** The local dispatch did not answer with an error, so the frame goes on to the peers. */
  predicate Publishable(f: PubFrame) {
    ParsePublisher(f.subject).Ok?
  }

  lemma PublishableExactly(f: PubFrame)
    ensures Publishable(f) <==> PublisherSubject(f.subject)
  {
    PublisherAccepts(f.subject);
  }

  /** A worker is ready, or on its way round the peers with one frame. */
  datatype WorkerPc = Ready | Visiting(frame: PubFrame, peer: nat) | Pushing(frame: PubFrame, peer: nat)

  /** `handled` lists every PUB the worker was given, valid or not. */
  datatype Worker = Worker(pc: WorkerPc, handled: seq<PubFrame>)

  datatype System = System(workers: seq<Worker>, inboxes: seq<State<PubFrame>>) {
    predicate Shaped() {
      |workers| == |inboxes|
    }

    function Goto(i: nat, pc: WorkerPc): System
      requires i < |workers|
    {
      this.(workers := workers[i := workers[i].(pc := pc)])
    }
  }

  datatype SysStep = Handle(i: nat, frame: PubFrame) | Visit(i: nat) | Push(i: nat, spurious: bool) | Drain(j: nat)

  function InitSystem(shards: nat, cap: nat): System {
    System(seq(shards, _ => Worker(Ready, [])), seq(shards, _ => Init(cap)))
  }

  predicate SysEnabled(sys: System, step: SysStep) {
    && sys.Shaped()
    && match step
       case Handle(i, _) => i < |sys.workers| && sys.workers[i].pc.Ready?
       case Visit(i) =>
         && i < |sys.workers|
         && sys.workers[i].pc.Visiting?
         && var j := sys.workers[i].pc.peer;
            j < |sys.inboxes| && j != i ==> Enabled(sys.inboxes[j], Begin(i, sys.workers[i].pc.frame))
       case Push(i, spurious) =>
         && i < |sys.workers|
         && sys.workers[i].pc.Pushing?
         && var j := sys.workers[i].pc.peer;
            j < |sys.inboxes| && (sys.inboxes[j].Pc(i).Idle? || Enabled(sys.inboxes[j], Producer(i, spurious)))
       case Drain(j) => j < |sys.inboxes| && Enabled(sys.inboxes[j], Consumer)
  }

  function InboxStep(sys: System, j: nat, step: Step<PubFrame>): System
    requires j < |sys.inboxes| && Enabled(sys.inboxes[j], step)
  {
    sys.(inboxes := sys.inboxes[j := Next(Unbounded, sys.inboxes[j], step)])
  }

  function SysNext(sys: System, step: SysStep): System
    requires SysEnabled(sys, step)
  {
    match step
    case Handle(i, f) =>
      var w := sys.workers[i];
      sys.(workers := sys.workers[i := Worker(if Publishable(f) then Visiting(f, 0) else Ready, w.handled + [f])])
    case Visit(i) =>
      var Visiting(f, j) := sys.workers[i].pc;
      if j >= |sys.inboxes| then sys.Goto(i, Ready)
      else if j == i then sys.Goto(i, Visiting(f, j + 1))
      else InboxStep(sys, j, Begin(i, f)).Goto(i, Pushing(f, j))
    case Push(i, spurious) =>
      var Pushing(f, j) := sys.workers[i].pc;
      if sys.inboxes[j].Pc(i).Idle? then sys.Goto(i, Visiting(f, j + 1))
      else InboxStep(sys, j, Producer(i, spurious))
    case Drain(j) => InboxStep(sys, j, Consumer)
  }

  function SysExec(shards: nat, cap: nat, schedule: seq<SysStep>): System {
    if schedule == [] then InitSystem(shards, cap)
    else
      var sys, step := SysExec(shards, cap, schedule[..|schedule| - 1]), schedule[|schedule| - 1];
      if SysEnabled(sys, step) then SysNext(sys, step) else sys
  }

  // --------------------------------------------------------------- invariant

  /** The PUBs among those handled whose subject may be published to, in order. */
  function Valid(fs: seq<PubFrame>): seq<PubFrame> {
    if fs == [] then []
    else
      var last := fs[|fs| - 1];
      Valid(fs[..|fs| - 1]) + if PublisherSubject(last.subject) then [last] else []
  }

  function Offered<V>(answers: seq<(V, bool)>): (vs: seq<V>)
    ensures |vs| == |answers|
  {
    seq(|answers|, (k: nat) requires k < |answers| => answers[k].0)
  }

  /** Worker i still owes inbox j an answer for its current frame. */
  predicate Owes(sys: System, i: nat, j: nat)
    requires sys.Shaped() && i < |sys.workers| && j < |sys.inboxes|
  {
    match sys.workers[i].pc
    case Ready => false
    case Visiting(_, p) => j >= p
    case Pushing(_, p) => j > p || (j == p && !sys.inboxes[j].Pc(i).Idle? && !sys.inboxes[j].Pc(i).Wake?)
  }

  /** What inbox j has answered to worker i is what worker i has handled, less the frame it still owes. */
  ghost predicate LinkOk(sys: System, i: nat, j: nat)
    requires sys.Shaped() && i < |sys.workers| && j < |sys.inboxes|
  {
    var w, s := sys.workers[i], sys.inboxes[j];
    var valid := Valid(w.handled);
    && (!w.pc.Ready? ==> valid != [] && valid[|valid| - 1] == w.pc.frame && Publishable(w.pc.frame))
    && (i != j ==> Offered(s.Returned(i)) == if Owes(sys, i, j) && valid != [] then valid[..|valid| - 1] else valid)
    && (i == j ==> s.Returned(i) == [])
    && (if w.pc.Pushing? && w.pc.peer == j && i != j then s.Pc(i).Idle? || s.Pc(i).v == w.pc.frame else s.Pc(i).Idle?)
  }

  /** Nobody but the first n producers has ever pushed. */
  ghost predicate OnlyFrom(s: State<PubFrame>, n: nat) {
    forall i: nat | i >= n :: s.Pc(i).Idle? && s.Returned(i) == []
  }

  ghost predicate InboxOk(sys: System, cap: nat, j: nat)
    requires j < |sys.inboxes|
  {
    && Reachable(cap, sys.inboxes[j])
    && (forall k | 0 <= k < |sys.inboxes[j].log| :: Publishable(sys.inboxes[j].log[k].1))
    && OnlyFrom(sys.inboxes[j], |sys.workers|)
  }

  ghost predicate SysInv(sys: System, cap: nat) {
    && sys.Shaped()
    && cap >= 2
    && (forall j | 0 <= j < |sys.inboxes| :: InboxOk(sys, cap, j))
    && (forall i, j | 0 <= i < |sys.workers| && 0 <= j < |sys.inboxes| :: LinkOk(sys, i, j))
  }

  lemma ValidAppend(fs: seq<PubFrame>, f: PubFrame)
    ensures Valid(fs + [f]) == Valid(fs) + if Publishable(f) then [f] else []
  {
    PublishableExactly(f);
    assert (fs + [f])[..|fs|] == fs;
  }

  lemma InitOk(shards: nat, cap: nat)
    requires cap >= 2
    ensures SysInv(InitSystem(shards, cap), cap)
  {
    assert Exec(Unbounded, cap, []) == Init<PubFrame>(cap);
    assert Reachable(cap, Init<PubFrame>(cap));
  }

  /** All a producer's step can do to its inbox, as the other parties see it. */
  lemma ProducerEffect(s: State<PubFrame>, i: nat, spurious: bool, k: nat)
    requires s.Cap() > 0 && !s.Pc(i).Idle?
    ensures var s', v := NextProducer(Unbounded, s, i, spurious), s.Pc(i).v;
            && (k != i ==> s'.Pc(k) == s.Pc(k) && s'.Returned(k) == s.Returned(k))
            && (s'.Pc(i).Idle? || s'.Pc(i).v == v)
            && (s'.log == s.log || s'.log == s.log + [(i, v)])
            && (!s.Pc(i).Wake? && (s'.Pc(i).Idle? || s'.Pc(i).Wake?) ==>
                  exists ok :: s'.Returned(i) == s.Returned(i) + [(v, ok)])
            && (s.Pc(i).Wake? || !(s'.Pc(i).Idle? || s'.Pc(i).Wake?) ==> s'.Returned(i) == s.Returned(i))
            && (s.Pc(i).Wake? ==> s'.Pc(i).Idle?)
  {
    var s', v := NextProducer(Unbounded, s, i, spurious), s.Pc(i).v;
    if s.Pc(i).LoadSeq? && s'.Pc(i).Idle? {
      assert s'.Returned(i) == s.Returned(i) + [(v, false)];
    } else if s.Pc(i).LoadHead? {
      assert s'.Returned(i) == s.Returned(i) + [(v, true)];
    }
  }

  lemma OfferedAppend(answers: seq<(PubFrame, bool)>, v: PubFrame, ok: bool)
    ensures Offered(answers + [(v, ok)]) == Offered(answers) + [v]
  {
  }

  // ------------------------------------------------------------------- steps

  /** A worker moves on without touching an inbox. */
  lemma MoveOnKeeps(sys: System, cap: nat, i: nat, pc: WorkerPc)
    requires SysInv(sys, cap) && i < |sys.workers|
    requires forall j | 0 <= j < |sys.inboxes| :: LinkOk(sys.Goto(i, pc), i, j)
    ensures SysInv(sys.Goto(i, pc), cap)
  {
    var sys' := sys.Goto(i, pc);
    forall j | 0 <= j < |sys.inboxes|
      ensures InboxOk(sys', cap, j)
    {
      assert InboxOk(sys, cap, j);
    }
    forall a, j | 0 <= a < |sys.workers| && 0 <= j < |sys.inboxes|
      ensures LinkOk(sys', a, j)
    {
      assert LinkOk(sys, a, j);
    }
  }

  lemma VisitMovesOn(sys: System, cap: nat, i: nat)
    requires SysInv(sys, cap) && SysEnabled(sys, Visit(i))
    requires sys.workers[i].pc.peer >= |sys.inboxes| || sys.workers[i].pc.peer == i
    ensures SysInv(SysNext(sys, Visit(i)), cap)
  {
    var Visiting(f, p) := sys.workers[i].pc;
    var pc := if p >= |sys.inboxes| then Ready else Visiting(f, p + 1);
    forall j | 0 <= j < |sys.inboxes|
      ensures LinkOk(sys.Goto(i, pc), i, j)
    {
      assert LinkOk(sys, i, j);
    }
    MoveOnKeeps(sys, cap, i, pc);
  }

  lemma PushReturns(sys: System, cap: nat, i: nat, spurious: bool)
    requires SysInv(sys, cap) && SysEnabled(sys, Push(i, spurious))
    requires sys.inboxes[sys.workers[i].pc.peer].Pc(i).Idle?
    ensures SysInv(SysNext(sys, Push(i, spurious)), cap)
  {
    var Pushing(f, p) := sys.workers[i].pc;
    var pc := Visiting(f, p + 1);
    forall j | 0 <= j < |sys.inboxes|
      ensures LinkOk(sys.Goto(i, pc), i, j)
    {
      assert LinkOk(sys, i, j);
    }
    MoveOnKeeps(sys, cap, i, pc);
  }

  /** One inbox changes; the links to every other inbox stay as they were. */
  lemma OtherInboxes(sys: System, sys': System, cap: nat, j: nat)
    requires SysInv(sys, cap) && j < |sys.inboxes| && sys'.Shaped()
    requires |sys'.workers| == |sys.workers|
    requires forall k | 0 <= k < |sys.inboxes| && k != j :: sys'.inboxes[k] == sys.inboxes[k]
    ensures forall k | 0 <= k < |sys.inboxes| && k != j :: InboxOk(sys', cap, k)
  {
    forall k | 0 <= k < |sys.inboxes| && k != j
      ensures InboxOk(sys', cap, k)
    {
      assert InboxOk(sys, cap, k);
    }
  }

  lemma LinkUnchanged(sys: System, sys': System, a: nat, j: nat)
    requires sys.Shaped() && sys'.Shaped() && |sys'.workers| == |sys.workers|
    requires a < |sys.workers| && j < |sys.inboxes| && LinkOk(sys, a, j)
    requires sys'.workers[a] == sys.workers[a]
    requires sys'.inboxes[j].Pc(a) == sys.inboxes[j].Pc(a) && sys'.inboxes[j].Returned(a) == sys.inboxes[j].Returned(a)
    ensures LinkOk(sys', a, j)
  {
  }

  lemma HandledLink(sys: System, i: nat, f: PubFrame, j: nat)
    requires SysEnabled(sys, Handle(i, f)) && j < |sys.inboxes| && LinkOk(sys, i, j)
    ensures LinkOk(SysNext(sys, Handle(i, f)), i, j)
  {
    var valid, sys' := Valid(sys.workers[i].handled), SysNext(sys, Handle(i, f));
    ValidAppend(sys.workers[i].handled, f);
    if Publishable(f) {
      assert Valid(sys'.workers[i].handled) == valid + [f];
      assert (valid + [f])[..|valid|] == valid;
      assert Owes(sys', i, j);
    } else {
      assert Valid(sys'.workers[i].handled) == valid;
    }
  }

  lemma HandleKeeps(sys: System, cap: nat, i: nat, f: PubFrame)
    requires SysInv(sys, cap) && SysEnabled(sys, Handle(i, f))
    ensures SysInv(SysNext(sys, Handle(i, f)), cap)
  {
    var sys' := SysNext(sys, Handle(i, f));
    forall j | 0 <= j < |sys.inboxes|
      ensures InboxOk(sys', cap, j)
    {
      assert InboxOk(sys, cap, j);
    }
    forall a, j | 0 <= a < |sys.workers| && 0 <= j < |sys.inboxes|
      ensures LinkOk(sys', a, j)
    {
      assert LinkOk(sys, a, j);
      if a == i {
        HandledLink(sys, i, f, j);
      } else {
        LinkUnchanged(sys, sys', a, j);
      }
    }
  }

  lemma BegunLink(sys: System, i: nat, j: nat)
    requires sys.Shaped() && SysEnabled(sys, Visit(i)) && j < |sys.inboxes| && LinkOk(sys, i, j)
    requires sys.workers[i].pc.peer < |sys.inboxes| && sys.workers[i].pc.peer != i
    ensures LinkOk(SysNext(sys, Visit(i)), i, j)
  {
  }

  lemma BeginKeeps(sys: System, cap: nat, i: nat)
    requires SysInv(sys, cap) && SysEnabled(sys, Visit(i))
    requires sys.workers[i].pc.peer < |sys.inboxes| && sys.workers[i].pc.peer != i
    ensures SysInv(SysNext(sys, Visit(i)), cap)
  {
    var Visiting(f, p) := sys.workers[i].pc;
    var sys' := SysNext(sys, Visit(i));
    assert InboxOk(sys, cap, p);
    ReachableStep(cap, sys.inboxes[p], Begin(i, f));
    OtherInboxes(sys, sys', cap, p);
    assert InboxOk(sys', cap, p) by {
      assert forall k: nat | k >= |sys.workers| :: sys'.inboxes[p].Pc(k) == sys.inboxes[p].Pc(k);
    }
    forall a, j | 0 <= a < |sys.workers| && 0 <= j < |sys.inboxes|
      ensures LinkOk(sys', a, j)
    {
      assert LinkOk(sys, a, j);
      if a == i {
        BegunLink(sys, i, j);
      } else {
        LinkUnchanged(sys, sys', a, j);
      }
    }
  }

  lemma PushKeeps(sys: System, cap: nat, i: nat, spurious: bool)
    requires SysInv(sys, cap) && SysEnabled(sys, Push(i, spurious))
    requires !sys.inboxes[sys.workers[i].pc.peer].Pc(i).Idle?
    ensures SysInv(SysNext(sys, Push(i, spurious)), cap)
  {
    var p := sys.workers[i].pc.peer;
    var sys' := SysNext(sys, Push(i, spurious));
    OtherInboxes(sys, sys', cap, p);
    PushedInboxOk(sys, cap, i, spurious);
    forall a, j | 0 <= a < |sys.workers| && 0 <= j < |sys.inboxes|
      ensures LinkOk(sys', a, j)
    {
      assert LinkOk(sys, a, j);
      if a == i && j == p {
        PushedLink(sys, i, spurious);
      } else {
        ProducerEffect(sys.inboxes[p], i, spurious, a);
        LinkUnchanged(sys, sys', a, j);
      }
    }
  }

  lemma PushedInboxOk(sys: System, cap: nat, i: nat, spurious: bool)
    requires SysInv(sys, cap) && SysEnabled(sys, Push(i, spurious))
    requires !sys.inboxes[sys.workers[i].pc.peer].Pc(i).Idle?
    ensures InboxOk(SysNext(sys, Push(i, spurious)), cap, sys.workers[i].pc.peer)
  {
    var p := sys.workers[i].pc.peer;
    var s := sys.inboxes[p];
    var s' := NextProducer(Unbounded, s, i, spurious);
    assert InboxOk(sys, cap, p) && LinkOk(sys, i, p);
    ReachableStep(cap, s, Producer(i, spurious));
    forall k: nat | k >= |sys.workers|
      ensures s'.Pc(k).Idle? && s'.Returned(k) == []
    {
      assert s.Pc(k).Idle? && s.Returned(k) == [];
      ProducerEffect(s, i, spurious, k);
    }
    ProducerEffect(s, i, spurious, i);
  }

  lemma PushedLink(sys: System, i: nat, spurious: bool)
    requires SysEnabled(sys, Push(i, spurious)) && LinkOk(sys, i, sys.workers[i].pc.peer)
    requires !sys.inboxes[sys.workers[i].pc.peer].Pc(i).Idle?
    ensures LinkOk(SysNext(sys, Push(i, spurious)), i, sys.workers[i].pc.peer)
  {
    var p := sys.workers[i].pc.peer;
    var s := sys.inboxes[p];
    var s' := NextProducer(Unbounded, s, i, spurious);
    ProducerEffect(s, i, spurious, i);
    var valid := Valid(sys.workers[i].handled);
    if s'.Returned(i) != s.Returned(i) {
      var ok :| s'.Returned(i) == s.Returned(i) + [(s.Pc(i).v, ok)];
      OfferedAppend(s.Returned(i), s.Pc(i).v, ok);
      LastOffered(valid, s.Pc(i).v);
    }
  }

  lemma LastOffered(valid: seq<PubFrame>, f: PubFrame)
    requires valid != [] && valid[|valid| - 1] == f
    ensures valid == valid[..|valid| - 1] + [f]
  {
  }

  lemma DrainOnlyFrom(s: State<PubFrame>, n: nat)
    requires OnlyFrom(s, n) && Enabled(s, Consumer)
    ensures OnlyFrom(NextConsumer(Unbounded, s), n)
  {
    forall k: nat | k >= n
      ensures NextConsumer(Unbounded, s).Pc(k).Idle? && NextConsumer(Unbounded, s).Returned(k) == []
    {
      assert s.Pc(k).Idle? && s.Returned(k) == [];
    }
  }

  lemma DrainKeeps(sys: System, cap: nat, j: nat)
    requires SysInv(sys, cap) && SysEnabled(sys, Drain(j))
    ensures SysInv(SysNext(sys, Drain(j)), cap)
  {
    var sys' := SysNext(sys, Drain(j));
    assert InboxOk(sys, cap, j);
    ReachableStep(cap, sys.inboxes[j], Consumer);
    OtherInboxes(sys, sys', cap, j);
    DrainOnlyFrom(sys.inboxes[j], |sys.workers|);
    forall a, k | 0 <= a < |sys.workers| && 0 <= k < |sys.inboxes|
      ensures LinkOk(sys', a, k)
    {
      assert LinkOk(sys, a, k);
      LinkUnchanged(sys, sys', a, k);
    }
  }

  lemma SysStepKeeps(sys: System, cap: nat, step: SysStep)
    requires SysInv(sys, cap) && SysEnabled(sys, step)
    ensures SysInv(SysNext(sys, step), cap)
  {
    match step
    case Handle(i, f) => HandleKeeps(sys, cap, i, f);
    case Visit(i) =>
      if sys.workers[i].pc.peer >= |sys.inboxes| || sys.workers[i].pc.peer == i {
        VisitMovesOn(sys, cap, i);
      } else {
        BeginKeeps(sys, cap, i);
      }
    case Push(i, spurious) =>
      if sys.inboxes[sys.workers[i].pc.peer].Pc(i).Idle? {
        PushReturns(sys, cap, i, spurious);
      } else {
        PushKeeps(sys, cap, i, spurious);
      }
    case Drain(j) => DrainKeeps(sys, cap, j);
  }

  lemma {:induction false} SysAlways(shards: nat, cap: nat, schedule: seq<SysStep>)
    requires cap >= 2
    ensures SysInv(SysExec(shards, cap, schedule), cap) && |SysExec(shards, cap, schedule).workers| == shards
  {
    if schedule == [] {
      InitOk(shards, cap);
    } else {
      var before, step := schedule[..|schedule| - 1], schedule[|schedule| - 1];
      SysAlways(shards, cap, before);
      if SysEnabled(SysExec(shards, cap, before), step) {
        SysStepKeeps(SysExec(shards, cap, before), cap, step);
      }
    }
  }

  // ----------------------------------------------------------------- theorems

  ghost predicate SysReachable(shards: nat, cap: nat, sys: System) {
    exists schedule :: sys == SysExec(shards, cap, schedule)
  }

  lemma SysReachableInv(shards: nat, cap: nat, sys: System)
    requires cap >= 2 && SysReachable(shards, cap, sys)
    ensures SysInv(sys, cap) && |sys.workers| == |sys.inboxes| == shards
  {
    var schedule :| sys == SysExec(shards, cap, schedule);
    SysAlways(shards, cap, schedule);
  }

  lemma SysReachableStep(shards: nat, cap: nat, sys: System, step: SysStep)
    requires SysReachable(shards, cap, sys) && SysEnabled(sys, step)
    ensures SysReachable(shards, cap, SysNext(sys, step))
  {
    var schedule :| sys == SysExec(shards, cap, schedule);
    assert (schedule + [step])[..|schedule|] == schedule;
    assert SysExec(shards, cap, schedule + [step]) == SysNext(sys, step);
  }

  /** No frame with an invalid subject is ever in any inbox. */
  lemma OnlyValidFrames(shards: nat, cap: nat, sys: System, j: nat, k: nat)
    requires cap >= 2 && SysReachable(shards, cap, sys) && j < shards
    ensures j < |sys.inboxes|
    ensures k < |sys.inboxes[j].log| ==> Publishable(sys.inboxes[j].log[k].1) && PublisherSubject(sys.inboxes[j].log[k].1.subject)
  {
    SysReachableInv(shards, cap, sys);
    assert InboxOk(sys, cap, j);
    if k < |sys.inboxes[j].log| {
      PublishableExactly(sys.inboxes[j].log[k].1);
    }
  }

  /** The frames of one publishing connection. */
  function By(fs: seq<PubFrame>, publisher: nat): seq<PubFrame> {
    if fs == [] then []
    else
      var last := fs[|fs| - 1];
      By(fs[..|fs| - 1], publisher) + if last.publisher == publisher then [last] else []
  }

  lemma {:induction false} ByPrefix(a: seq<PubFrame>, b: seq<PubFrame>, publisher: nat)
    requires a <= b
    ensures By(a, publisher) <= By(b, publisher)
    decreases |b|
  {
    if |a| < |b| {
      ByPrefix(a, b[..|b| - 1], publisher);
    } else {
      assert a == b;
    }
  }

  /**
   Cross-shard delivery.  For two different shards i and j, on every run: what inbox j has answered to
   worker i are the valid PUBs worker i handled, in order and each once, except perhaps the one under
   way; what shard j dispatched from worker i is an initial part of those it accepted plus the one in
   flight.  When worker i is ready, nobody is mid-push and shard j sleeps, shard j has dispatched
   exactly the valid PUBs whose push was not refused.
   */
  lemma Delivered(shards: nat, cap: nat, sys: System, i: nat, j: nat)
    requires cap >= 2 && SysReachable(shards, cap, sys) && i < shards && j < shards && i != j
    ensures |sys.workers| == |sys.inboxes| == shards
    ensures var valid, s := Valid(sys.workers[i].handled), sys.inboxes[j];
            && |s.dispatched| <= |s.log|
            && Offered(s.Returned(i)) <= valid
            && |valid| <= |Offered(s.Returned(i))| + 1
            && (sys.workers[i].pc.Ready? ==> Offered(s.Returned(i)) == valid)
            && DispatchedFrom(s, i) <= Accepted(s.Returned(i)) + InFlight(s.Pc(i))
            && (Asleep(s) && NoneMidPush(s) ==> DispatchedFrom(s, i) == Accepted(s.Returned(i)))
  {
    SysReachableInv(shards, cap, sys);
    assert InboxOk(sys, cap, j);
    Delivery(cap, sys.inboxes[j], i);
    assert LinkOk(sys, i, j);
  }

  lemma ByAppend(fs: seq<PubFrame>, f: PubFrame, publisher: nat)
    ensures By(fs + [f], publisher) == By(fs, publisher) + if f.publisher == publisher then [f] else []
  {
    assert (fs + [f])[..|fs|] == fs;
  }

  lemma {:induction false} ByIn(fs: seq<PubFrame>, f: PubFrame)
    requires f in fs
    ensures f in By(fs, f.publisher)
  {
    if f in fs[..|fs| - 1] {
      ByIn(fs[..|fs| - 1], f);
    }
  }

  /** Every push of this publisher's frames was accepted. */
  ghost predicate NoneRefused(answers: seq<(PubFrame, bool)>, publisher: nat) {
    forall k | 0 <= k < |answers| :: answers[k].0.publisher == publisher ==> answers[k].1
  }

  /** What the accepted frames of one publisher are to all its offered ones. */
  ghost predicate AcceptedPart(answers: seq<(PubFrame, bool)>, publisher: nat) {
    var taken, given := By(Accepted(answers), publisher), By(Offered(answers), publisher);
    |taken| <= |given| && (taken == given <==> NoneRefused(answers, publisher))
  }

  lemma AcceptedPartLast(answers: seq<(PubFrame, bool)>, a: (PubFrame, bool), publisher: nat)
    requires AcceptedPart(answers, publisher)
    ensures AcceptedPart(answers + [a], publisher)
  {
    var taken, given := By(Accepted(answers), publisher), By(Offered(answers), publisher);
    var longer := answers + [a];
    AppendAccepted(answers, a);
    OfferedAppend(answers, a.0, a.1);
    ByAppend(Offered(answers), a.0, publisher);
    assert NoneRefused(longer, publisher) <==> NoneRefused(answers, publisher) && (a.0.publisher == publisher ==> a.1) by {
      assert longer[|answers|] == a;
      assert forall k | 0 <= k < |answers| :: longer[k] == answers[k];
    }
    var mine := if a.0.publisher == publisher then [a.0] else [];
    assert By(Offered(longer), publisher) == given + mine;
    assert By(Accepted(longer), publisher) == if a.1 then taken + mine else taken by {
      if a.1 {
        ByAppend(Accepted(answers), a.0, publisher);
      } else {
        assert Accepted(answers) + [] == Accepted(answers);
      }
    }
    SameEnd(taken, given, mine);
  }

  lemma SameEnd(a: seq<PubFrame>, b: seq<PubFrame>, c: seq<PubFrame>)
    ensures a + c == b + c <==> a == b
  {
    if a + c == b + c {
      assert a == (a + c)[..|a|] && b == (b + c)[..|b|];
    }
  }

  lemma {:induction false} AcceptedOffered(answers: seq<(PubFrame, bool)>, publisher: nat)
    ensures AcceptedPart(answers, publisher)
  {
    if answers != [] {
      var before, a := answers[..|answers| - 1], answers[|answers| - 1];
      assert answers == before + [a];
      AcceptedOffered(before, publisher);
      AcceptedPartLast(before, a, publisher);
    }
  }

  /**
   The same for every single connection publishing through worker i: its frames are dispatched in the
   order it published them, as far as shard j accepted them; and once worker i is ready and shard j is
   quiet, all its valid PUBs have been dispatched iff none of them was refused.
   */
  lemma DeliveredPerConnection(shards: nat, cap: nat, sys: System, i: nat, j: nat, publisher: nat)
    requires cap >= 2 && SysReachable(shards, cap, sys) && i < shards && j < shards && i != j
    ensures |sys.workers| == |sys.inboxes| == shards && |sys.inboxes[j].dispatched| <= |sys.inboxes[j].log|
    ensures var valid, s := Valid(sys.workers[i].handled), sys.inboxes[j];
            var answers := s.Returned(i);
            && By(DispatchedFrom(s, i), publisher) <= By(Accepted(answers) + InFlight(s.Pc(i)), publisher)
            && By(Offered(answers), publisher) <= By(valid, publisher)
            && (Asleep(s) && NoneMidPush(s) ==> By(DispatchedFrom(s, i), publisher) == By(Accepted(answers), publisher))
            && (sys.workers[i].pc.Ready? && Asleep(s) && NoneMidPush(s) ==>
                  (By(DispatchedFrom(s, i), publisher) == By(valid, publisher) <==> NoneRefused(answers, publisher)))
  {
    Delivered(shards, cap, sys, i, j);
    var s := sys.inboxes[j];
    ByPrefix(DispatchedFrom(s, i), Accepted(s.Returned(i)) + InFlight(s.Pc(i)), publisher);
    ByPrefix(Offered(s.Returned(i)), Valid(sys.workers[i].handled), publisher);
    AcceptedOffered(s.Returned(i), publisher);
  }

  /** A worker never pushes into its own shard's inbox. */
  lemma NothingFromItself(shards: nat, cap: nat, sys: System, i: nat)
    requires cap >= 2 && SysReachable(shards, cap, sys) && i < shards
    ensures i < |sys.inboxes| && From(sys.inboxes[i].log, i) == []
  {
    SysReachableInv(shards, cap, sys);
    assert InboxOk(sys, cap, i) && LinkOk(sys, i, i);
    var s := sys.inboxes[i];
    var schedule: seq<Step<PubFrame>> :| s == Exec(Unbounded, cap, schedule);
    AlwaysAnswers(cap, schedule, i);
  }

  /** Only workers push. */
  lemma NothingFromOthers(shards: nat, cap: nat, sys: System, i: nat, j: nat)
    requires cap >= 2 && SysReachable(shards, cap, sys) && i >= shards && j < shards
    ensures j < |sys.inboxes| && From(sys.inboxes[j].log, i) == []
  {
    SysReachableInv(shards, cap, sys);
    var s := sys.inboxes[j];
    assert InboxOk(sys, cap, j) && s.Pc(i).Idle? && s.Returned(i) == [];
    var schedule: seq<Step<PubFrame>> :| s == Exec(Unbounded, cap, schedule);
    AlwaysAnswers(cap, schedule, i);
  }
}
