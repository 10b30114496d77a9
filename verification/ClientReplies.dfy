/**
 What goes straight back to a client: on every run, the greeting, PONGs and error replies a connection
 has been offered are one greeting and then exactly the replies to the frames its reader has handled,
 in order.
 */
module ClientReplies {
  import opened Wrappers
  import opened Bytes
  import opened Subject
  import opened Broker
  import opened Provenance
  import opened Clients
  import opened ClientStream
  import opened Dispatch
  import opened EndToEnd
  import opened Fanout
  import W = Wire
  import P = Parse
  import R = Reader
  import G = Registration
  import X = CrossShard
  import Sh = Shard

  /** The greeting or a reply to one frame, as opposed to word of back-pressure. */
  predicate IsAnswer(f: W.Frame) {
    f.Info? || f.Pong? || (f.ErrText? && f.message != BACK_PRESSURE)
  }

  function Answers(fs: seq<W.Frame>): seq<W.Frame> {
    if fs == [] then []
    else
      var f := fs[|fs| - 1];
      Answers(fs[..|fs| - 1]) + if IsAnswer(f) then [f] else []
  }

  /** The replies to some frames, in order. */
  function Replies(fs: seq<W.Frame>): seq<W.Frame> {
    if fs == [] then []
    else
      var r := ReplyTo(fs[|fs| - 1]);
      Replies(fs[..|fs| - 1]) + if r.Some? then [r.value] else []
  }

  lemma OneMoreAnswer(fs: seq<W.Frame>, f: W.Frame)
    ensures Answers(fs + [f]) == Answers(fs) + if IsAnswer(f) then [f] else []
  {
    assert (fs + [f])[..|fs|] == fs;
  }

  lemma {:induction false} MsgsNoAnswers(fs: seq<W.Frame>, msgs: seq<W.Frame>)
    requires forall k | 0 <= k < |msgs| :: msgs[k].Msg?
    ensures Answers(fs + msgs) == Answers(fs)
  {
    if msgs == [] {
      assert fs + msgs == fs;
    } else {
      var before := msgs[..|msgs| - 1];
      MsgsNoAnswers(fs, before);
      OneMoreAnswer(fs + before, msgs[|msgs| - 1]);
      assert fs + msgs == fs + before + [msgs[|msgs| - 1]];
    }
  }

  /** The reply a step of a shard gives task t. */
  function Answered(step: Sh.Step, t: G.TaskId): seq<W.Frame> {
    if step.Reply? && step.task == t && IsAnswer(step.f) then [step.f] else []
  }

  lemma ServeNoAnswer(s: Sh.State, step: Sh.Step, sizes: Sh.Sizes, t: G.TaskId)
    requires step.Serve? && t in s.outs
    ensures var s' := Sh.Next(s, step, sizes);
            s'.outs.Keys == s.outs.Keys && Answers(s'.outs[t].offered) == Answers(s.outs[t].offered)
  {
    var p := Sh.PubOf(step.frame);
    var due := FramesFor(p, DueTargets(s.reg.registered, p, step.selected, t));
    DispatchEach(s.outs, s.reg.registered, p, step.selected, t);
    SendAllOffered(s.outs[t], due);
    MsgsNoAnswers(s.outs[t].offered, due);
  }

  /** Only a reply step answers a task. */
  lemma AnswersOnShard(s: Sh.State, step: Sh.Step, sizes: Sh.Sizes, t: G.TaskId)
    requires Sh.Enabled(s, step) && Sh.TasksOk(s) && t in s.outs
    ensures var s' := Sh.Next(s, step, sizes);
            t in s'.outs && Answers(s'.outs[t].offered) == Answers(s.outs[t].offered) + Answered(step, t)
  {
    var answers := Answers(s.outs[t].offered);
    assert answers + [] == answers;
    if step.Serve? {
      ServeNoAnswer(s, step, sizes, t);
    } else if step.Reply? && step.task == t {
      SendOffered(s.outs[t], step.f);
      OneMoreAnswer(s.outs[t].offered, step.f);
    }
  }

  lemma {:induction false} DispatchKeys(outs: Outs, registered: Registered, p: Publication, selected: seq<Target>)
    ensures DispatchTo(outs, registered, p, selected).Keys == outs.Keys
  {
    if selected != [] {
      DispatchKeys(outs, registered, p, selected[..|selected| - 1]);
    }
  }

  /** The answers a connection has been offered; none before it starts. */
  function AnswersTo(s: Sh.State, t: G.TaskId): seq<W.Frame> {
    if t in s.outs then Answers(s.outs[t].offered) else []
  }

  lemma NewOnShard(s: Sh.State, step: Sh.Step, sizes: Sh.Sizes, t: G.TaskId)
    requires Sh.Enabled(s, step) && t !in s.outs
    ensures AnswersTo(Sh.Next(s, step, sizes), t) == [] && Answered(step, t) == []
  {
    if step.Serve? {
      DispatchKeys(s.outs, s.reg.registered, Sh.PubOf(step.frame), step.selected);
    }
  }

  lemma AnswersInStep(s: Sh.State, step: Sh.Step, sizes: Sh.Sizes, t: G.TaskId)
    requires Sh.Enabled(s, step) && Sh.TasksOk(s)
    ensures AnswersTo(Sh.Next(s, step, sizes), t) == AnswersTo(s, t) + Answered(step, t)
  {
    if t in s.outs {
      AnswersOnShard(s, step, sizes, t);
    } else {
      NewOnShard(s, step, sizes, t);
    }
  }

  // ------------------------------------------------------------------ every run

  /** What a step of the broker, if any, does on shard k. */
  function StepOn(b: Broker, st: Option<BrokerStep>, k: nat): Option<Sh.Step>
    requires k < |b.sys.inboxes|
  {
    if st.Some? then OnShardK(b, st.value, k) else None
  }

  lemma PerformOn(b: Broker, st: Option<BrokerStep>, sizes: Sh.Sizes, k: nat)
    requires CanPerform(b, st) && k < |b.shards| && k < |b.sys.inboxes|
    ensures var b', step := Perform(b, st, sizes), StepOn(b, st, k);
            && |b'.shards| == |b.shards|
            && (step.None? ==> b'.shards[k] == b.shards[k])
            && (step.Some? ==> Sh.Enabled(b.shards[k], step.value) && b'.shards[k] == Sh.Next(b.shards[k], step.value, sizes))
  {
    if st.Some? {
      ShardBy(b, st.value, sizes, k);
    }
  }

  /** The reply a step of the broker gives task t of shard k. */
  function AnsweredBy(st: Option<BrokerStep>, k: nat, t: G.TaskId): seq<W.Frame> {
    if st.Some? && st.value.Local? && st.value.i == k then Answered(st.value.step, t) else []
  }

  lemma AnswerOnShard(b: Broker, st: Option<BrokerStep>, k: nat, t: G.TaskId)
    requires k < |b.sys.inboxes|
    ensures AnsweredBy(st, k, t) == if StepOn(b, st, k).Some? then Answered(StepOn(b, st, k).value, t) else []
  {
  }

  lemma TasksOn(cfg: Config, b: Broker, k: nat)
    requires BrokerInv(cfg, b) && k < cfg.shards
    ensures k < |b.shards| && k < |b.sys.inboxes| && Sh.TasksOk(b.shards[k])
  {
    assert Sh.Inv(b.shards[k], cfg.sizes);
  }

  lemma NoMore(fs: seq<W.Frame>)
    ensures fs + [] == fs
  {
  }

  lemma AnswersBy(cfg: Config, b: Broker, st: Option<BrokerStep>, k: nat, t: G.TaskId)
    requires BrokerInv(cfg, b) && CanPerform(b, st) && k < cfg.shards
    ensures var b' := Perform(b, st, cfg.sizes);
            |b'.shards| == |b.shards| && AnswersTo(b'.shards[k], t) == AnswersTo(b.shards[k], t) + AnsweredBy(st, k, t)
  {
    TasksOn(cfg, b, k);
    PerformOn(b, st, cfg.sizes, k);
    AnswerOnShard(b, st, k, t);
    var step := StepOn(b, st, k);
    if step.Some? {
      AnswersInStep(b.shards[k], step.value, cfg.sizes, t);
    } else {
      NoMore(AnswersTo(b.shards[k], t));
    }
  }

  lemma NotBackPressure(f: W.Frame)
    ensures ReplyTo(f).Some? ==> IsAnswer(ReplyTo(f).value)
  {
    assert |BACK_PRESSURE| == 19;
  }

  /** What a step answers task t of shard k: a greeting, or the reply to the frame of it that is handled. */
  ghost function AnsweredIn(n: Net, step: NetStep, k: nat, t: G.TaskId): seq<W.Frame>
    requires step.Take? ==> HasNext(n, step.i, step.task)
  {
    if step.Greet? && (step.i, step.task) == (k, t) then [W.Info(step.options)]
    else if step.Take? && (step.i, step.task) == (k, t) && ReplyTo(NextFrame(n, k, t)).Some? then
      [ReplyTo(NextFrame(n, k, t)).value]
    else []
  }

  lemma AnsweredExactly(n: Net, step: NetStep, sizes: Sh.Sizes, k: nat, t: G.TaskId)
    requires NetEnabled(n, step, sizes)
    ensures AnsweredBy(First(step), k, t) + AnsweredBy(Second(n, step), k, t) == AnsweredIn(n, step, k, t)
  {
    if step.Take? {
      NotBackPressure(NextFrame(n, step.i, step.task));
    }
  }

  lemma Together(a: seq<W.Frame>, b: seq<W.Frame>, c: seq<W.Frame>)
    ensures a + b + c == a + (b + c)
  {
  }

  /** What a step of the clients and the broker answers task t of shard k. */
  lemma AnswersOfStep(cfg: Config, n: Net, step: NetStep, k: nat, t: G.TaskId)
    requires BrokerReachable(cfg, n.b) && cfg.cap >= 2 && cfg.sizes.bufLen > 0 && NetEnabled(n, step, cfg.sizes) && k < cfg.shards
    ensures var n' := NetNext(n, step, cfg.sizes);
            && k < |n.b.shards| == |n'.b.shards|
            && AnswersTo(n'.b.shards[k], t) == AnswersTo(n.b.shards[k], t) + AnsweredIn(n, step, k, t)
  {
    var mid := Perform(n.b, First(step), cfg.sizes);
    PerformKeeps(cfg, n.b, First(step));
    BrokerReachableInv(cfg, n.b);
    BrokerReachableInv(cfg, mid);
    AnswersBy(cfg, n.b, First(step), k, t);
    AnswersBy(cfg, mid, Second(n, step), k, t);
    AnsweredExactly(n, step, cfg.sizes, k, t);
    Together(AnswersTo(n.b.shards[k], t), AnsweredBy(First(step), k, t), AnsweredBy(Second(n, step), k, t));
  }

  /** The greeting of a connection, once sent. */
  function Greeting(input: Input): seq<W.Frame> {
    if input.greeting.Some? then [W.Info(input.greeting.value)] else []
  }

  /** Greeted first, then replied to, frame by frame. */
  ghost predicate RepliesOk(n: Net, k: nat, t: G.TaskId) {
    && k < |n.b.shards|
    && AnswersTo(n.b.shards[k], t) == Greeting(n.At(k, t)) + Replies(n.At(k, t).taken)
    && (n.At(k, t).taken != [] ==> n.At(k, t).greeting.Some?)
  }

  lemma OneMoreReply(taken: seq<W.Frame>, f: W.Frame)
    ensures Replies(taken + [f]) == Replies(taken) + if ReplyTo(f).Some? then [ReplyTo(f).value] else []
  {
    assert (taken + [f])[..|taken|] == taken;
  }

  /** The same, said of the states before and after. */
  lemma AnswersFit(before: Input, after: Input, answers: seq<W.Frame>, added: seq<W.Frame>)
    requires answers == Greeting(before) + Replies(before.taken) && (before.taken != [] ==> before.greeting.Some?)
    requires || (after.taken == before.taken && after.greeting == before.greeting && added == [])
             || (before.greeting.None? && after.greeting.Some? && after.taken == before.taken
                 && added == [W.Info(after.greeting.value)])
             || (before.greeting.Some? && after.greeting == before.greeting && |after.taken| == |before.taken| + 1
                 && after.taken == before.taken + [after.taken[|before.taken|]]
                 && added == var r := ReplyTo(after.taken[|before.taken|]); if r.Some? then [r.value] else [])
    ensures answers + added == Greeting(after) + Replies(after.taken) && (after.taken != [] ==> after.greeting.Some?)
  {
    NoMore(answers);
    if before.greeting.None? {
      NoMore(Greeting(after));
    } else if |after.taken| == |before.taken| + 1 {
      OneMoreReply(before.taken, after.taken[|before.taken|]);
      Together(Greeting(before), Replies(before.taken), added);
    }
  }

  lemma RepliesKept(cfg: Config, n: Net, step: NetStep, k: nat, t: G.TaskId)
    requires BrokerReachable(cfg, n.b) && cfg.cap >= 2 && cfg.sizes.bufLen > 0 && k < cfg.shards
    requires NetEnabled(n, step, cfg.sizes) && RepliesOk(n, k, t)
    ensures RepliesOk(NetNext(n, step, cfg.sizes), k, t)
  {
    AnswersOfStep(cfg, n, step, k, t);
    InputInStep(n, step, cfg.sizes, k, t);
    AnswersFit(n.At(k, t), NetNext(n, step, cfg.sizes).At(k, t), AnswersTo(n.b.shards[k], t), AnsweredIn(n, step, k, t));
  }

  /**
   Everything asked is answered and nothing else: on every run, a connection's reader takes no frame
   before its client has been greeted, and the INFOs, PONGs and error replies the connection has been
   offered are that one greeting and the replies to the frames its reader has handled, in their order.
   */
  lemma {:induction false} EveryFrameAnswered(cfg: Config, schedule: seq<NetStep>, k: nat, t: G.TaskId)
    requires cfg.cap >= 2 && cfg.sizes.bufLen > 0 && k < cfg.shards
    ensures var n := NetExec(cfg, schedule);
            var input := n.At(k, t);
            && k < |n.b.shards|
            && input.taken <= Incoming(input.bytes)
            && (input.taken != [] ==> input.greeting.Some?)
            && (if t in n.b.shards[k].outs then Answers(n.b.shards[k].outs[t].offered) else [])
               == (if input.greeting.Some? then [W.Info(input.greeting.value)] else []) + Replies(input.taken)
  {
    InputAlways(cfg, schedule, k, t);
    if schedule == [] {
      assert NetInit(cfg).At(k, t) == Input([], [], None);
    } else {
      var before, step := schedule[..|schedule| - 1], schedule[|schedule| - 1];
      EveryFrameAnswered(cfg, before, k, t);
      NetAlways(cfg, before);
      if NetEnabled(NetExec(cfg, before), step, cfg.sizes) {
        RepliesKept(cfg, NetExec(cfg, before), step, k, t);
      }
    }
  }

  // ------------------------------------------------------------ which reply

  /** The first piece that is empty or a wildcard. */
  function FirstOf(pieces: seq<Bytes>): Bytes {
    if pieces == [] then []
    else if pieces[0] == [] || pieces[0] == [STAR] || pieces[0] == [GREATER] then pieces[0]
    else FirstOf(pieces[1..])
  }

  lemma {:induction false} FirstAt(pieces: seq<Bytes>, i: nat)
    requires i < |pieces| && !PlainPiece(pieces[i]) && forall j | 0 <= j < i :: PlainPiece(pieces[j])
    ensures FirstOf(pieces) == pieces[i]
  {
    if i > 0 {
      assert PlainPiece(pieces[0]);
      FirstAt(pieces[1..], i - 1);
    }
  }

  lemma SubReply(f: W.Frame)
    requires f.Sub?
    ensures ReplyTo(f) == None <==> SubscriberSubject(f.subject)
    ensures f.subject == [] ==> ReplyTo(f) == Some(W.ErrText(Ascii("empty subject")))
    ensures f.subject != [] && [] in Split(f.subject) ==> ReplyTo(f) == Some(W.ErrText(Ascii("empty token in subject")))
    ensures f.subject != [] && [] !in Split(f.subject) && !SubscriberSubject(f.subject) ==>
              ReplyTo(f) == Some(W.ErrText(Ascii("`>` must be the last token")))
  {
    SubscriberAccepts(f.subject);
  }

  lemma PubReply(f: W.Frame)
    requires f.Pub? && |f.payload| <= 1024 * 1024
    ensures ReplyTo(f) == None <==> PublisherSubject(f.subject)
    ensures f.subject == [] ==> ReplyTo(f) == Some(W.ErrText(Ascii("empty subject")))
    ensures f.subject != [] && !PublisherSubject(f.subject) ==>
              ReplyTo(f) == Some(W.ErrText(Ascii(if FirstOf(Split(f.subject)) == [] then "empty token in subject"
                                                 else "wildcard not allowed in publish subject")))
  {
    PublisherAccepts(f.subject);
    if !PublisherSubject(f.subject) {
      var i := PublisherRejects(f.subject);
      if f.subject != [] {
        FirstAt(Split(f.subject), i);
      }
    }
  }

  /** Which reply each frame gets. */
  lemma ReplyExactly(f: W.Frame)
    ensures f.Ping? ==> ReplyTo(f) == Some(W.Pong)
    ensures f.Connect? || f.Pong? ==> ReplyTo(f) == None
    ensures f.Msg? || f.Info? || f.OkAck? || f.ErrText? ==> ReplyTo(f) == Some(W.ErrText(Ascii("unexpected verb")))
    ensures f.Unsub? ==>
              ReplyTo(f) == if f.maxMsgs.None? then None
                            else Some(W.ErrText(Ascii("UNSUB max_msgs not supported in v1")))
    ensures f.Sub? ==>
              && (ReplyTo(f) == None <==> SubscriberSubject(f.subject))
              && (f.subject == [] ==> ReplyTo(f) == Some(W.ErrText(Ascii("empty subject"))))
              && (f.subject != [] && [] in Split(f.subject) ==> ReplyTo(f) == Some(W.ErrText(Ascii("empty token in subject"))))
              && (f.subject != [] && [] !in Split(f.subject) && !SubscriberSubject(f.subject) ==>
                    ReplyTo(f) == Some(W.ErrText(Ascii("`>` must be the last token"))))
    ensures f.Pub? && |f.payload| > 1024 * 1024 ==> ReplyTo(f) == Some(W.ErrText(Ascii("maximum payload exceeded")))
    ensures f.Pub? && |f.payload| <= 1024 * 1024 ==>
              && (ReplyTo(f) == None <==> PublisherSubject(f.subject))
              && (f.subject == [] ==> ReplyTo(f) == Some(W.ErrText(Ascii("empty subject"))))
              && (f.subject != [] && !PublisherSubject(f.subject) ==>
                    ReplyTo(f) == Some(W.ErrText(Ascii(if FirstOf(Split(f.subject)) == [] then "empty token in subject"
                                                       else "wildcard not allowed in publish subject"))))
  {
    if f.Sub? {
      SubReply(f);
    } else if f.Pub? && |f.payload| <= 1024 * 1024 {
      PubReply(f);
    }
  }

  // ------------------------------------------------------------ never blocked

  lemma {:induction false} FramesParsed(parse: Bytes -> P.Outcome, stream: Bytes, budget: nat, k: nat) returns (buf: Bytes)
    requires R.StreamParser(parse) && budget > 0 && k < |R.Frames(parse, stream, budget).frames|
    ensures parse(buf).Parsed? && parse(buf).frame == R.Frames(parse, stream, budget).frames[k]
    decreases k
  {
    buf := stream;
    if k > 0 {
      buf := FramesParsed(parse, stream[parse(stream).consumed..], budget - 1, k - 1);
    }
  }

  lemma IncomingArrived(bytes: Bytes, k: nat)
    requires k < |Incoming(bytes)|
    ensures Arrived(Incoming(bytes)[k])
  {
    R.FramesAreStreamed();
    var buf := FramesParsed(P.ParseFrame, bytes, |bytes| + 1, k);
  }

  lemma PublishPossible(cfg: Config, b: Broker, i: nat, f: PubFrame) returns (selected: seq<Target>)
    requires BrokerInv(cfg, b) && i < cfg.shards && b.sys.workers[i].pc.Ready? && f.publisher in b.shards[i].reg.readers
    requires Sh.PubArrived(f) && |f.payload| <= W.MAX_PAYLOAD_BYTES
    ensures BrokerEnabled(b, Publish(i, f, selected))
  {
    selected := [];
    if X.Publishable(f) {
      selected := Sh.SomeSelection(Sh.MatchesOf(b.shards[i].reg.history, f));
    }
  }

  lemma RegisterPossible(cfg: Config, b: Broker, i: nat, r: G.Step)
    requires BrokerInv(cfg, b) && i < cfg.shards && (r.Sub? || r.Unsub?) && r.task in b.shards[i].reg.readers
    requires r.Sub? ==> Arrived(W.Sub(r.subject, r.queueGroup, r.sid))
    ensures BrokerEnabled(b, Local(i, Sh.Register(r)))
  {
  }

  /** What handling a frame does can be done whenever the worker is free. */
  lemma ActPossible(cfg: Config, b: Broker, i: nat, t: G.TaskId, f: W.Frame) returns (act: Option<BrokerStep>)
    requires BrokerInv(cfg, b) && i < cfg.shards && b.sys.workers[i].pc.Ready? && t in b.shards[i].reg.readers && Arrived(f)
    ensures Handles(f, i, t, act) && CanPerform(b, act)
  {
    match f
    case Pub(_, _, _) =>
      act := None;
      if Publishes(f) {
        var selected := PublishPossible(cfg, b, i, PubFrameOf(f, t));
        act := Some(Publish(i, PubFrameOf(f, t), selected));
      }
    case Sub(subject, queueGroup, sid) =>
      RegisterPossible(cfg, b, i, G.Sub(t, subject, queueGroup, sid));
      act := Some(Local(i, Sh.Register(G.Sub(t, subject, queueGroup, sid))));
    case Unsub(sid, maxMsgs) =>
      RegisterPossible(cfg, b, i, G.Unsub(t, sid));
      act := if maxMsgs.None? then Some(Local(i, Sh.Register(G.Unsub(t, sid)))) else None;
    case _ => act := None;
  }

  lemma ReplyPossible(cfg: Config, b: Broker, act: Option<BrokerStep>, i: nat, t: G.TaskId, f: W.Frame)
    requires BrokerInv(cfg, b) && i < cfg.shards && t in b.shards[i].reg.readers && CanPerform(b, act) && ReplyTo(f).Some?
    ensures BrokerEnabled(Perform(b, act, cfg.sizes), Local(i, Sh.Reply(t, ReplyTo(f).value)))
  {
    TasksOn(cfg, b, i);
    ReplyLegal(f);
    PerformOn(b, act, cfg.sizes, i);
    if StepOn(b, act, i).Some? {
      AnswersOnShard(b.shards[i], StepOn(b, act, i).value, cfg.sizes, t);
    }
  }

  lemma SecondPossible(cfg: Config, n: Net, i: nat, t: G.TaskId, act: Option<BrokerStep>)
    requires BrokerInv(cfg, n.b) && HasNext(n, i, t) && CanPerform(n.b, act)
    ensures CanPerform(Perform(n.b, act, cfg.sizes), Second(n, Take(i, t, act)))
  {
    if ReplyTo(NextFrame(n, i, t)).Some? {
      ReplyPossible(cfg, n.b, act, i, t, NextFrame(n, i, t));
    }
  }

  /** Whatever arrives is handled: a live reader's next frame can be taken whenever its worker is free. */
  lemma TakeNeverBlocked(cfg: Config, n: Net, i: nat, t: G.TaskId) returns (act: Option<BrokerStep>)
    requires BrokerInv(cfg, n.b) && HasNext(n, i, t) && n.b.sys.workers[i].pc.Ready?
    ensures NetEnabled(n, Take(i, t, act), cfg.sizes)
  {
    var f := NextFrame(n, i, t);
    IncomingArrived(n.At(i, t).bytes, |n.At(i, t).taken|);
    act := ActPossible(cfg, n.b, i, t, f);
    SecondPossible(cfg, n, i, t, act);
  }
}
