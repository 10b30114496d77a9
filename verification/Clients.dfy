/**
 The broker with its clients' bytes: every connection's reader parses what its client sent and handles
 the frames one after another, each by the branch of `handle_frame` it belongs to.
 */
module Clients {
  import opened Wrappers
  import opened Bytes
  import opened Subject
  import opened Outbound
  import opened ClientStream
  import opened BackPressure
  import opened Broker
  import W = Wire
  import P = Parse
  import R = Reader
  import G = Registration
  import X = CrossShard
  import Sh = Shard

  /** What a client has sent, the frames of it its reader has handled, and the greeting, once it has been sent one. */
  datatype Input = Input(bytes: Bytes, taken: seq<W.Frame>, greeting: Option<Bytes>)

  /**
   The broker and the inputs of its connections, by shard and task.  `owners` is history: for every
   shard, whose reader performed each operation of its table.
   */
  datatype Net = Net(b: Broker, inputs: map<(nat, G.TaskId), Input>, owners: seq<seq<G.TaskId>>) {
    function At(i: nat, t: G.TaskId): Input {
      if (i, t) in inputs then inputs[(i, t)] else Input([], [], None)
    }

    function SetAt(i: nat, t: G.TaskId, input: Input): Net {
      this.(inputs := inputs[(i, t) := input])
    }
  }

  /**
   A reader greets its client, bytes arrive, the reader handles a frame (`act` is what that does to the
   broker, beside the reply), or finds bytes that are no frame and closes.
   */
  datatype NetStep =
    | Greet(i: nat, task: G.TaskId, options: Bytes)
    | Receive(i: nat, task: G.TaskId, bytes: Bytes)
    | Take(i: nat, task: G.TaskId, act: Option<BrokerStep>)
    | Reject(i: nat, task: G.TaskId)
    | Other(step: BrokerStep)

  /** All frames in some bytes, in order, up to an error. */
  ghost function Incoming(bytes: Bytes): seq<W.Frame> {
    ReadsOf(bytes, |bytes| + 1).frames
  }

  // ------------------------------------------------------------ handle_frame

  const BACK_PRESSURE: Bytes := Ascii("shard back-pressure")

  /** `subject_error_text` */
  function ErrorText(e: SubjectError): Bytes {
    match e
    case Empty => Ascii("empty subject")
    case EmptyToken => Ascii("empty token in subject")
    case WildcardInPublish => Ascii("wildcard not allowed in publish subject")
    case InvalidGreaterPosition => Ascii("`>` must be the last token")
  }

  function Complaint<T>(r: Result<T, SubjectError>): Option<W.Frame> {
    match r
    case Ok(_) => None
    case Err(e) => Some(W.ErrText(ErrorText(e)))
  }

  /** What goes straight back to the client for a frame. */
  function ReplyTo(f: W.Frame): Option<W.Frame> {
    match f
    case Connect(_) => None
    case Pong => None
    case Ping => Some(W.Pong)
    case Sub(subject, _, _) => Complaint(ParseSubscriber(subject))
    case Unsub(_, maxMsgs) => if maxMsgs.Some? then Some(W.ErrText(Ascii("UNSUB max_msgs not supported in v1"))) else None
    case Pub(subject, _, payload) =>
      if |payload| > W.MAX_PAYLOAD_BYTES then Some(W.ErrText(Ascii("maximum payload exceeded")))
      else Complaint(ParsePublisher(subject))
    case _ => Some(W.ErrText(Ascii("unexpected verb")))
  }

  function PubFrameOf(f: W.Frame, t: G.TaskId): PubFrame
    requires f.Pub?
  {
    X.PubFrame(t, f.subject, f.replyTo, f.payload)
  }

  /** A PUB the broker takes. */
  predicate Publishes(f: W.Frame) {
    f.Pub? && |f.payload| <= W.MAX_PAYLOAD_BYTES
  }

  /** What handling a frame of task t on shard i does to table and inboxes. */
  predicate Handles(f: W.Frame, i: nat, t: G.TaskId, act: Option<BrokerStep>) {
    match f
    case Pub(_, _, _) =>
      if Publishes(f) then act.Some? && act.value.Publish? && act.value.i == i && act.value.frame == PubFrameOf(f, t)
      else act == None
    case Sub(subject, queueGroup, sid) => act == Some(Local(i, Sh.Register(G.Sub(t, subject, queueGroup, sid))))
    case Unsub(sid, maxMsgs) => act == if maxMsgs.None? then Some(Local(i, Sh.Register(G.Unsub(t, sid)))) else None
    case _ => act == None
  }

  /** A step no client's bytes are the cause of. */
  predicate Background(step: BrokerStep) {
    && !step.Publish?
    && (step.Local? ==>
          && (step.step.Register? ==> !step.step.reg.Sub? && !step.step.reg.Unsub?)
          && !step.step.Reply? && !step.step.Close?)
  }

  // ------------------------------------------------------------------- steps

  ghost predicate Live(n: Net, i: nat, t: G.TaskId) {
    i < |n.b.shards| && t in n.b.shards[i].reg.readers
  }

  /** The next frame of a connection; nothing is read before the greeting. */
  ghost predicate HasNext(n: Net, i: nat, t: G.TaskId) {
    && Live(n, i, t)
    && n.At(i, t).greeting.Some?
    && |n.At(i, t).taken| < |Incoming(n.At(i, t).bytes)|
  }

  /** What is left of some bytes after their first m frames. */
  ghost function Unread(bytes: Bytes, m: nat): Bytes {
    if m == 0 then bytes else ReadsOf(bytes, m).rest
  }

  /** After m frames there is a malformed one, or more than a frame may have. */
  ghost predicate BadAfter(bytes: Bytes, m: nat) {
    P.ParseFrame(Unread(bytes, m)).Failed? || |Unread(bytes, m)| > R.MAX_FRAME_SIZE
  }

  ghost function NextFrame(n: Net, i: nat, t: G.TaskId): W.Frame
    requires HasNext(n, i, t)
  {
    Incoming(n.At(i, t).bytes)[|n.At(i, t).taken|]
  }

  /** A worker returns from the other shards, some of which refused its frame: it tells the publisher. */
  ghost predicate ReportsPressure(b: Broker, st: BrokerStep) {
    && st.Visit? && st.i < |b.shards|
    && Finishing(b.sys, st.i) && PressureSeen(b.sys, st.i)
    && b.sys.workers[st.i].pc.frame.publisher in b.shards[st.i].outs
  }

  /** The broker's own steps in a step: what handling does, then the reply or the report. */
  ghost function First(step: NetStep): Option<BrokerStep> {
    match step
    case Greet(i, t, options) => Some(Local(i, Sh.Reply(t, W.Info(options))))
    case Receive(_, _, _) => None
    case Take(_, _, act) => act
    case Reject(i, t) => Some(Local(i, Sh.Close(t, ProtocolError)))
    case Other(st) => Some(st)
  }

  ghost function Second(n: Net, step: NetStep): Option<BrokerStep> {
    if step.Take? && HasNext(n, step.i, step.task) && ReplyTo(NextFrame(n, step.i, step.task)).Some? then
      Some(Local(step.i, Sh.Reply(step.task, ReplyTo(NextFrame(n, step.i, step.task)).value)))
    else if step.Other? && ReportsPressure(n.b, step.step) then
      Some(Local(step.step.i, Sh.Reply(n.b.sys.workers[step.step.i].pc.frame.publisher, W.ErrText(BACK_PRESSURE))))
    else None
  }

  ghost predicate CanPerform(b: Broker, st: Option<BrokerStep>) {
    st.Some? ==> BrokerEnabled(b, st.value)
  }

  ghost function Perform(b: Broker, st: Option<BrokerStep>, sizes: Sh.Sizes): Broker
    requires CanPerform(b, st)
  {
    if st.Some? then BrokerNext(b, st.value, sizes) else b
  }

  ghost predicate NetEnabled(n: Net, step: NetStep, sizes: Sh.Sizes) {
    && match step {
         case Greet(i, t, _) => Live(n, i, t) && n.At(i, t).greeting.None?
         case Receive(i, t, _) => Live(n, i, t)
         case Take(i, t, act) => HasNext(n, i, t) && Handles(NextFrame(n, i, t), i, t, act)
         case Reject(i, t) => Live(n, i, t) && n.At(i, t).greeting.Some? && BadAfter(n.At(i, t).bytes, |n.At(i, t).taken|)
         case Other(st) => Background(st)
       }
    && CanPerform(n.b, First(step))
    && CanPerform(Perform(n.b, First(step), sizes), Second(n, step))
  }

  /** Whose operations a step adds to which table. */
  function OwnerOf(st: Option<BrokerStep>): Option<(nat, G.TaskId)> {
    if st.Some? && st.value.Local? && st.value.step.Register? then
      var r := st.value.step.reg;
      if r.Sub? || r.Unsub? || r.Disconnect? then Some((st.value.i, r.task)) else None
    else None
  }

  /** One owner for every operation added. */
  function Own(owners: seq<seq<G.TaskId>>, b: Broker, b': Broker, owner: Option<(nat, G.TaskId)>): seq<seq<G.TaskId>> {
    if owner.Some? && owner.value.0 < |owners| && owner.value.0 < |b.shards| && owner.value.0 < |b'.shards| then
      var (i, t) := owner.value;
      var before, after := |b.shards[i].reg.history|, |b'.shards[i].reg.history|;
      if before < after then owners[i := owners[i] + seq(after - before, _ => t)] else owners
    else owners
  }

  ghost function NetNext(n: Net, step: NetStep, sizes: Sh.Sizes): Net
    requires NetEnabled(n, step, sizes)
  {
    var mid := Perform(n.b, First(step), sizes);
    var n' := Net(Perform(mid, Second(n, step), sizes), n.inputs, Own(n.owners, n.b, mid, OwnerOf(First(step))));
    match step
    case Greet(i, t, options) => n'.SetAt(i, t, n.At(i, t).(greeting := Some(options)))
    case Receive(i, t, bytes) => n'.SetAt(i, t, n.At(i, t).(bytes := n.At(i, t).bytes + bytes))
    case Take(i, t, _) => n'.SetAt(i, t, n.At(i, t).(taken := n.At(i, t).taken + [NextFrame(n, i, t)]))
    case _ => n'
  }

  ghost function NetInit(cfg: Config): Net {
    Net(InitBroker(cfg), map[], seq(cfg.shards, _ => []))
  }

  ghost function NetExec(cfg: Config, schedule: seq<NetStep>): Net {
    if schedule == [] then NetInit(cfg)
    else
      var n, step := NetExec(cfg, schedule[..|schedule| - 1]), schedule[|schedule| - 1];
      if NetEnabled(n, step, cfg.sizes) then NetNext(n, step, cfg.sizes) else n
  }

  // ----------------------------------------------------------- incoming frames

  lemma {:induction false} MoreBudget(parse: Bytes -> P.Outcome, stream: Bytes, budget: nat, more: nat)
    requires R.StreamParser(parse) && 0 < budget <= more
    ensures R.Frames(parse, stream, budget).frames <= R.Frames(parse, stream, more).frames
    decreases |stream|
  {
    if parse(stream).Parsed? && budget > 1 {
      MoreBudget(parse, stream[parse(stream).consumed..], budget - 1, more - 1);
    }
  }

  lemma MoreBytes(parse: Bytes -> P.Outcome, a: Bytes, b: Bytes)
    requires R.StreamParser(parse)
    ensures R.Frames(parse, a, |a| + 1).frames <= R.Frames(parse, a + b, |a + b| + 1).frames
  {
    R.SplitPrefix(parse, a, b, |a| + 1);
    MoreBudget(parse, a + b, |a| + 1, |a + b| + 1);
    PrefixOfPrefix(R.Frames(parse, a, |a| + 1).frames, R.Frames(parse, a + b, |a| + 1).frames,
                   R.Frames(parse, a + b, |a + b| + 1).frames);
  }

  /** More bytes only add frames. */
  lemma IncomingGrows(a: Bytes, b: Bytes)
    ensures Incoming(a) <= Incoming(a + b)
  {
    R.FramesAreStreamed();
    MoreBytes(P.ParseFrame, a, b);
  }

  lemma FeedTakes(parse: Bytes -> P.Outcome, accum: Bytes, chunks: seq<R.Chunk>, budget: nat, bytes: Bytes)
    requires R.StreamParser(parse) && budget > 0 && bytes == accum + R.Flatten(chunks)
    ensures R.Feed(parse, accum, chunks, budget).frames <= R.Frames(parse, bytes, |bytes| + 1).frames
  {
    R.FeedPrefix(parse, accum, chunks, budget);
    AllTaken(parse, R.Feed(parse, accum, chunks, budget).frames, bytes, budget);
  }

  lemma NothingBefore(bytes: Bytes)
    ensures bytes == [] + bytes
  {
  }

  lemma AllTaken(parse: Bytes -> P.Outcome, taken: seq<W.Frame>, bytes: Bytes, budget: nat)
    requires R.StreamParser(parse) && budget > 0 && taken <= R.Frames(parse, bytes, budget).frames
    ensures taken <= R.Frames(parse, bytes, |bytes| + 1).frames
  {
    AnyBudget(parse, bytes, budget);
    PrefixOfPrefix(taken, R.Frames(parse, bytes, budget).frames, R.Frames(parse, bytes, |bytes| + 1).frames);
  }

  lemma PrefixOfPrefix(a: seq<W.Frame>, b: seq<W.Frame>, c: seq<W.Frame>)
    requires a <= b <= c
    ensures a <= c
  {
  }

  lemma AnyBudget(parse: Bytes -> P.Outcome, bytes: Bytes, budget: nat)
    requires R.StreamParser(parse) && budget > 0
    ensures R.Frames(parse, bytes, budget).frames <= R.Frames(parse, bytes, |bytes| + 1).frames
  {
    if budget <= |bytes| + 1 {
      MoreBudget(parse, bytes, budget, |bytes| + 1);
    } else {
      EnoughBudget(parse, bytes, |bytes| + 1, budget);
    }
  }

  /** What the reader loop handles, in whatever chunks the bytes arrive, is an initial part of them. */
  lemma ReaderTakes(chunks: seq<R.Chunk>, budget: nat)
    requires budget > 0
    ensures R.StreamParser(P.ParseFrame)
    ensures R.Feed(P.ParseFrame, [], chunks, budget).frames <= Incoming(R.Flatten(chunks))
  {
    R.FramesAreStreamed();
    NothingBefore(R.Flatten(chunks));
    FeedTakes(P.ParseFrame, [], chunks, budget, R.Flatten(chunks));
  }

  /** Every frame takes a byte, so one more than the bytes is budget enough. */
  lemma {:induction false} EnoughBudget(parse: Bytes -> P.Outcome, stream: Bytes, budget: nat, more: nat)
    requires R.StreamParser(parse) && |stream| < budget <= more
    ensures R.Frames(parse, stream, more) == R.Frames(parse, stream, budget)
    decreases |stream|
  {
    if parse(stream).Parsed? {
      EnoughBudget(parse, stream[parse(stream).consumed..], budget - 1, more - 1);
    }
  }

  // ---------------------------------------------------------- the broker inside

  lemma PerformKeeps(cfg: Config, b: Broker, st: Option<BrokerStep>)
    requires BrokerReachable(cfg, b) && CanPerform(b, st)
    ensures BrokerReachable(cfg, Perform(b, st, cfg.sizes))
  {
    if st.Some? {
      BrokerReachableStep(cfg, b, st.value);
    }
  }

  /** Whatever the clients send, the broker inside does what it can do by itself. */
  lemma {:induction false} NetAlways(cfg: Config, schedule: seq<NetStep>)
    requires cfg.cap >= 2 && cfg.sizes.bufLen > 0
    ensures BrokerReachable(cfg, NetExec(cfg, schedule).b) && BrokerInv(cfg, NetExec(cfg, schedule).b)
  {
    if schedule == [] {
      assert BrokerExec(cfg, []) == InitBroker(cfg);
    } else {
      var before, step := schedule[..|schedule| - 1], schedule[|schedule| - 1];
      var n := NetExec(cfg, before);
      NetAlways(cfg, before);
      if NetEnabled(n, step, cfg.sizes) {
        PerformKeeps(cfg, n.b, First(step));
        PerformKeeps(cfg, Perform(n.b, First(step), cfg.sizes), Second(n, step));
      }
    }
    BrokerReachableInv(cfg, NetExec(cfg, schedule).b);
  }

  // ----------------------------------------------------------- publishes handled

  /** The PUBs among the frames of a task that are not too large, as its worker is given them. */
  function PubsOf(fs: seq<W.Frame>, t: G.TaskId): seq<PubFrame> {
    if fs == [] then []
    else
      var f := fs[|fs| - 1];
      PubsOf(fs[..|fs| - 1], t) +
      if f.Pub? && |f.payload| <= 1024 * 1024 then [X.PubFrame(t, f.subject, f.replyTo, f.payload)] else []
  }

  lemma PubsAppend(fs: seq<W.Frame>, f: W.Frame, t: G.TaskId)
    ensures PubsOf(fs + [f], t) == PubsOf(fs, t) + if Publishes(f) then [PubFrameOf(f, t)] else []
  {
    assert (fs + [f])[..|fs|] == fs;
  }

  /** The reader of a task has handled an initial part of what its client sent, and its worker its PUBs. */
  ghost predicate InputOk(n: Net, i: nat, t: G.TaskId)
    requires i < |n.b.sys.workers|
  {
    var input := n.At(i, t);
    input.taken <= Incoming(input.bytes) && X.By(n.b.sys.workers[i].handled, t) == PubsOf(input.taken, t)
  }

  /** What a step of the broker adds to what worker k has handled. */
  function Adds(st: Option<BrokerStep>, k: nat): seq<PubFrame> {
    if st.Some? && st.value.Publish? && st.value.i == k then [st.value.frame] else []
  }

  lemma HandledBy(b: Broker, st: Option<BrokerStep>, sizes: Sh.Sizes, k: nat)
    requires CanPerform(b, st) && k < |b.sys.workers|
    ensures var b' := Perform(b, st, sizes);
            |b'.sys.workers| == |b.sys.workers| && b'.sys.workers[k].handled == b.sys.workers[k].handled + Adds(st, k)
  {
    assert b.sys.workers[k].handled + [] == b.sys.workers[k].handled;
  }

  lemma HandledInStep(n: Net, step: NetStep, sizes: Sh.Sizes, k: nat)
    requires NetEnabled(n, step, sizes) && k < |n.b.sys.workers|
    ensures var n' := NetNext(n, step, sizes);
            && |n'.b.sys.workers| == |n.b.sys.workers|
            && n'.b.sys.workers[k].handled == n.b.sys.workers[k].handled + Adds(First(step), k)
  {
    HandledBy(n.b, First(step), sizes, k);
    HandledBy(Perform(n.b, First(step), sizes), Second(n, step), sizes, k);
    var handled := n.b.sys.workers[k].handled + Adds(First(step), k);
    assert handled + [] == handled;
  }

  lemma NextTaken(taken: seq<W.Frame>, incoming: seq<W.Frame>)
    requires taken <= incoming && |taken| < |incoming|
    ensures taken + [incoming[|taken|]] <= incoming
  {
  }

  lemma MineHandled(handled: seq<PubFrame>, taken: seq<W.Frame>, f: W.Frame, t: G.TaskId)
    requires X.By(handled, t) == PubsOf(taken, t)
    ensures X.By(handled + (if Publishes(f) then [PubFrameOf(f, t)] else []), t) == PubsOf(taken + [f], t)
  {
    PubsAppend(taken, f, t);
    if Publishes(f) {
      X.ByAppend(handled, PubFrameOf(f, t), t);
    } else {
      assert handled + [] == handled;
    }
  }

  /** Everyone but the task whose frame is handled. */
  lemma OthersHandled(handled: seq<PubFrame>, added: seq<PubFrame>, t: G.TaskId)
    requires |added| <= 1 && forall f | f in added :: f.publisher != t
    ensures X.By(handled + added, t) == X.By(handled, t)
  {
    if added == [] {
      assert handled + added == handled;
    } else {
      assert added == [added[0]] && added[0] in added;
      X.ByAppend(handled, added[0], t);
    }
  }

  /** What happens to the input of task a on shard k. */
  lemma InputInStep(n: Net, step: NetStep, sizes: Sh.Sizes, k: nat, a: G.TaskId)
    requires NetEnabled(n, step, sizes)
    ensures var before, after := n.At(k, a), NetNext(n, step, sizes).At(k, a);
            if step.Take? && (step.i, step.task) == (k, a) then
              after == before.(taken := before.taken + [NextFrame(n, k, a)])
            else if step.Receive? && (step.i, step.task) == (k, a) then
              after == before.(bytes := before.bytes + step.bytes)
            else if step.Greet? && (step.i, step.task) == (k, a) then
              after == before.(greeting := Some(step.options))
            else after == before
  {
  }

  /** Whose frames a step handles. */
  lemma AddsWhat(n: Net, step: NetStep, sizes: Sh.Sizes, k: nat, a: G.TaskId)
    requires NetEnabled(n, step, sizes)
    ensures if step.Take? && (step.i, step.task) == (k, a) then
              Adds(First(step), k) == if Publishes(NextFrame(n, k, a)) then [PubFrameOf(NextFrame(n, k, a), a)] else []
            else |Adds(First(step), k)| <= 1 && forall f | f in Adds(First(step), k) :: f.publisher != a
  {
  }

  lemma TakerInput(n: Net, n': Net, k: nat, a: G.TaskId, f: W.Frame)
    requires k < |n.b.sys.workers| == |n'.b.sys.workers| && InputOk(n, k, a) && |n.At(k, a).taken| < |Incoming(n.At(k, a).bytes)|
    requires f == Incoming(n.At(k, a).bytes)[|n.At(k, a).taken|]
    requires n'.At(k, a) == n.At(k, a).(taken := n.At(k, a).taken + [f])
    requires n'.b.sys.workers[k].handled
          == n.b.sys.workers[k].handled + if Publishes(f) then [PubFrameOf(f, a)] else []
    ensures InputOk(n', k, a)
  {
    NextTaken(n.At(k, a).taken, Incoming(n.At(k, a).bytes));
    MineHandled(n.b.sys.workers[k].handled, n.At(k, a).taken, f, a);
  }

  lemma OthersInput(n: Net, n': Net, k: nat, a: G.TaskId, bytes: Bytes, added: seq<PubFrame>)
    requires k < |n.b.sys.workers| == |n'.b.sys.workers| && InputOk(n, k, a)
    requires n'.At(k, a).bytes == n.At(k, a).bytes + bytes && n'.At(k, a).taken == n.At(k, a).taken
    requires n'.b.sys.workers[k].handled == n.b.sys.workers[k].handled + added
    requires |added| <= 1 && forall f | f in added :: f.publisher != a
    ensures InputOk(n', k, a)
  {
    IncomingGrows(n.At(k, a).bytes, bytes);
    OthersHandled(n.b.sys.workers[k].handled, added, a);
  }

  lemma InputKept(n: Net, step: NetStep, sizes: Sh.Sizes, k: nat, a: G.TaskId)
    requires NetEnabled(n, step, sizes) && k < |n.b.sys.workers| && InputOk(n, k, a)
    ensures k < |NetNext(n, step, sizes).b.sys.workers| && InputOk(NetNext(n, step, sizes), k, a)
  {
    var n' := NetNext(n, step, sizes);
    HandledInStep(n, step, sizes, k);
    InputInStep(n, step, sizes, k, a);
    AddsWhat(n, step, sizes, k, a);
    if step.Take? && (step.i, step.task) == (k, a) {
      TakerInput(n, n', k, a, NextFrame(n, k, a));
    } else {
      var bytes := if step.Receive? && (step.i, step.task) == (k, a) then step.bytes else [];
      assert n.At(k, a).bytes + [] == n.At(k, a).bytes;
      OthersInput(n, n', k, a, bytes, Adds(First(step), k));
    }
  }

  lemma {:induction false} InputAlways(cfg: Config, schedule: seq<NetStep>, k: nat, a: G.TaskId)
    requires k < cfg.shards
    ensures k < |NetExec(cfg, schedule).b.sys.workers| && InputOk(NetExec(cfg, schedule), k, a)
  {
    if schedule == [] {
      assert NetInit(cfg).At(k, a) == Input([], [], None);
    } else {
      var before, step := schedule[..|schedule| - 1], schedule[|schedule| - 1];
      InputAlways(cfg, before, k, a);
      if NetEnabled(NetExec(cfg, before), step, cfg.sizes) {
        InputKept(NetExec(cfg, before), step, cfg.sizes, k, a);
      }
    }
  }

  lemma {:induction false} ByValid(fs: seq<PubFrame>, publisher: nat)
    ensures X.By(X.Valid(fs), publisher) == X.Valid(X.By(fs, publisher))
  {
    if fs != [] {
      var before, f := fs[..|fs| - 1], fs[|fs| - 1];
      var valid, mine := X.Valid(before), X.By(before, publisher);
      ByValid(before, publisher);
      X.ByAppend(valid, f, publisher);
      X.ValidAppend(mine, f);
      assert X.Valid(fs) == if X.Publishable(f) then valid + [f] else valid;
      assert X.By(fs, publisher) == if f.publisher == publisher then mine + [f] else mine;
    }
  }

  /** The PUBs of a connection its reader has handled that may be published, in order. */
  function Sent(n: Net, i: nat, t: G.TaskId): seq<PubFrame> {
    X.Valid(PubsOf(n.At(i, t).taken, t))
  }

  /**
   From a client's bytes to the publishes handled: on every run, what a connection's reader has handled
   is an initial part of the frames in the bytes its client sent, and what its worker has handled for
   it is exactly the PUBs among those that are not too large, in order, the valid ones among them being
   those to a subject that may be published to.
   */
  lemma HandledIsSent(cfg: Config, schedule: seq<NetStep>, i: nat, t: G.TaskId)
    requires i < cfg.shards
    ensures var n := NetExec(cfg, schedule);
            && i < |n.b.sys.workers|
            && n.At(i, t).taken <= Incoming(n.At(i, t).bytes)
            && X.By(n.b.sys.workers[i].handled, t) == PubsOf(n.At(i, t).taken, t)
            && X.By(X.Valid(n.b.sys.workers[i].handled), t) == Sent(n, i, t)
  {
    InputAlways(cfg, schedule, i, t);
    ByValid(NetExec(cfg, schedule).b.sys.workers[i].handled, t);
  }

  // ------------------------------------------------------------- never blocked

  lemma PlainText(s: string)
    requires forall k | 0 <= k < |s| :: s[k] != '\r'
    ensures W.NoCrlf(Ascii(s))
  {
  }

  lemma ComplaintPlain(e: SubjectError)
    ensures W.NoCrlf(ErrorText(e))
  {
    match e
    case Empty => PlainText("empty subject");
    case EmptyToken => PlainText("empty token in subject");
    case WildcardInPublish => PlainText("wildcard not allowed in publish subject");
    case InvalidGreaterPosition => PlainText("`>` must be the last token");
  }

  lemma RefusalPlain()
    ensures W.NoCrlf(Ascii("UNSUB max_msgs not supported in v1"))
    ensures W.NoCrlf(Ascii("maximum payload exceeded"))
    ensures W.NoCrlf(Ascii("unexpected verb"))
  {
    PlainText("UNSUB max_msgs not supported in v1");
    PlainText("maximum payload exceeded");
    PlainText("unexpected verb");
  }

  /** Every reply is a frame the protocol can carry, and no MSG. */
  lemma ReplyLegal(f: W.Frame)
    ensures ReplyTo(f).Some? ==> W.Legal(ReplyTo(f).value) && !ReplyTo(f).value.Msg?
  {
    RefusalPlain();
    if f.Sub? && ParseSubscriber(f.subject).Err? {
      ComplaintPlain(ParseSubscriber(f.subject).error);
    }
    if f.Pub? && ParsePublisher(f.subject).Err? {
      ComplaintPlain(ParsePublisher(f.subject).error);
    }
  }
}
