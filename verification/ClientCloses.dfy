/** Why connections close: which reasons a connection has been given on every run, and what its client did. */
module ClientCloses {
  import opened Wrappers
  import opened Bytes
  import opened Outbound
  import opened EndToEnd
  import opened ClientStream
  import opened Fanout
  import opened Broker
  import opened Clients
  import opened ClientReplies
  import W = Wire
  import C = Codec
  import P = Parse
  import R = Reader
  import G = Registration
  import Sh = Shard
  import Wr = Writer

  // -------------------------------------------------------------- one connection

  /** An enqueue gives no reason but being slow. */
  lemma SendReasons(o: Out, f: W.Frame, r: CloseReason)
    requires r != SlowConsumer
    ensures r in Send(o, f).conn.reasons <==> r in o.conn.reasons
  {
  }

  lemma {:induction false} SendAllReasons(o: Out, fs: seq<W.Frame>, r: CloseReason)
    requires r != SlowConsumer
    ensures r in SendAll(o, fs).conn.reasons <==> r in o.conn.reasons
  {
    if fs != [] {
      SendAllReasons(o, fs[..|fs| - 1], r);
      SendReasons(SendAll(o, fs[..|fs| - 1]), fs[|fs| - 1], r);
    }
  }

  lemma CloseReasons(o: Out, reason: CloseReason, r: CloseReason)
    requires Wr.Inv(o.conn)
    ensures r in Do(o.conn, Wr.MarkClose(reason)).reasons <==> r in o.conn.reasons || r == reason
  {
  }

  lemma TurnReasons(o: Out, written: nat)
    ensures Do(o.conn, Wr.Turn(written)).reasons == o.conn.reasons
  {
  }

  // ------------------------------------------------------------------- one shard

  /** Which reason a step of a shard gives task t, if any. */
  function Gives(step: Sh.Step, t: G.TaskId): Option<CloseReason> {
    if step.Close? && step.task == t then Some(step.reason)
    else if step.Register? && step.reg.Disconnect? && step.reg.task == t then Some(PeerClosed)
    else None
  }

  predicate Given(s: Sh.State, t: G.TaskId, r: CloseReason) {
    t in s.outs && r in s.outs[t].conn.reasons
  }

  lemma ServeGives(s: Sh.State, step: Sh.Step, sizes: Sh.Sizes, t: G.TaskId, r: CloseReason)
    requires step.Serve? && r != SlowConsumer
    ensures Given(Sh.Next(s, step, sizes), t, r) <==> Given(s, t, r)
  {
    var p := Sh.PubOf(step.frame);
    DispatchKeys(s.outs, s.reg.registered, p, step.selected);
    if t in s.outs {
      DispatchEach(s.outs, s.reg.registered, p, step.selected, t);
      SendAllReasons(s.outs[t], FramesFor(p, DueTargets(s.reg.registered, p, step.selected, t)), r);
    }
  }

  lemma ConnOk(s: Sh.State, sizes: Sh.Sizes, t: G.TaskId)
    requires Sh.Inv(s, sizes) && t in s.outs
    ensures Wr.Inv(s.outs[t].conn)
  {
    assert Sh.OutAt(s, t, sizes);
    Wr.ReachableInv(sizes.capacity, sizes.bufLen, s.outs[t].conn);
  }

  lemma RegisterGives(s: Sh.State, reg: G.Step, sizes: Sh.Sizes, t: G.TaskId, r: CloseReason)
    requires Sh.TasksOk(s) && G.Enabled(s.reg, reg) && (t in s.outs ==> Wr.Inv(s.outs[t].conn))
    ensures Given(Sh.Next(s, Sh.Register(reg), sizes), t, r) <==> Given(s, t, r) || Gives(Sh.Register(reg), t) == Some(r)
  {
    if reg.Disconnect? && reg.task == t {
      CloseReasons(s.outs[t], PeerClosed, r);
    }
  }

  lemma ConnGives(s: Sh.State, step: Sh.Step, sizes: Sh.Sizes, t: G.TaskId, r: CloseReason)
    requires (step.Close? || step.Turn? || step.Reply?) && step.task in s.outs && r != SlowConsumer
    requires t in s.outs ==> Wr.Inv(s.outs[t].conn)
    ensures Given(Sh.Next(s, step, sizes), t, r) <==> Given(s, t, r) || Gives(step, t) == Some(r)
  {
    if step.task == t {
      match step
      case Reply(_, f) => SendReasons(s.outs[t], f, r);
      case Close(_, reason) => CloseReasons(s.outs[t], reason, r);
      case Turn(_, written) => TurnReasons(s.outs[t], written);
    }
  }

  /** Apart from being slow, a connection is given exactly the reasons of closes and of its reader's exit. */
  lemma GivenInStep(s: Sh.State, step: Sh.Step, sizes: Sh.Sizes, t: G.TaskId, r: CloseReason)
    requires Sh.Inv(s, sizes) && Sh.Enabled(s, step) && r != SlowConsumer
    ensures Given(Sh.Next(s, step, sizes), t, r) <==> Given(s, t, r) || Gives(step, t) == Some(r)
  {
    if t in s.outs {
      ConnOk(s, sizes, t);
    }
    if step.Serve? {
      ServeGives(s, step, sizes, t, r);
    } else if step.Register? {
      RegisterGives(s, step.reg, sizes, t, r);
    } else {
      ConnGives(s, step, sizes, t, r);
    }
  }

  /** Who has left: started once and no longer reading. */
  predicate Left(s: Sh.State, t: G.TaskId) {
    t in s.outs && t !in s.reg.readers
  }

  lemma LeftInStep(s: Sh.State, step: Sh.Step, sizes: Sh.Sizes, t: G.TaskId)
    requires Sh.TasksOk(s) && Sh.Enabled(s, step)
    ensures Left(Sh.Next(s, step, sizes), t) <==>
            Left(s, t) || (step.Register? && step.reg.Disconnect? && step.reg.task == t)
  {
    if step.Serve? {
      DispatchKeys(s.outs, s.reg.registered, Sh.PubOf(step.frame), step.selected);
    }
  }

  // ----------------------------------------------------------- bytes stay bad

  lemma {:induction false} NotClosedSame(parse: Bytes -> P.Outcome, stream: Bytes, budget: nat, more: nat)
    requires R.StreamParser(parse) && 0 < budget <= more && R.Frames(parse, stream, budget).stop != R.Closed
    ensures R.Frames(parse, stream, more) == R.Frames(parse, stream, budget)
    decreases |stream|
  {
    if parse(stream).Parsed? {
      NotClosedSame(parse, stream[parse(stream).consumed..], budget - 1, more - 1);
    }
  }

  lemma UnreadGrows(bytes: Bytes, more: Bytes, m: nat)
    requires m <= |Incoming(bytes)|
    ensures Unread(bytes + more, m) == Unread(bytes, m) + more
  {
    R.FramesAreStreamed();
    if m > 0 {
      if R.Frames(P.ParseFrame, bytes, m).stop != R.Closed {
        if m <= |bytes| + 1 {
          NotClosedSame(P.ParseFrame, bytes, m, |bytes| + 1);
        }
      }
      R.FramesSplit(P.ParseFrame, bytes, more, m);
    }
  }

  /** What is malformed or too long stays so, whatever comes after it. */
  lemma BadStays(bytes: Bytes, more: Bytes, m: nat)
    requires m <= |Incoming(bytes)| && BadAfter(bytes, m)
    ensures BadAfter(bytes + more, m)
  {
    UnreadGrows(bytes, more, m);
    if P.ParseFrame(Unread(bytes, m)).Failed? {
      C.Stable(Unread(bytes, m), more);
    }
  }

  // ------------------------------------------------------------------ every run

  /** Among the frames it handled there is a place from which its bytes are bad. */
  ghost predicate SentBad(input: Input) {
    exists m: nat :: m <= |input.taken| && BadAfter(input.bytes, m)
  }

  ghost predicate ClosesOk(n: Net, k: nat, t: G.TaskId) {
    && k < |n.b.shards|
    && (Given(n.b.shards[k], t, PeerClosed) <==> Left(n.b.shards[k], t))
    && (Given(n.b.shards[k], t, ProtocolError) ==> SentBad(n.At(k, t)))
  }

  /** What a step of the broker gives task t of shard k. */
  function GivesBy(st: Option<BrokerStep>, k: nat, t: G.TaskId): Option<CloseReason> {
    if st.Some? && st.value.Local? && st.value.i == k then Gives(st.value.step, t) else None
  }

  lemma GivesOn(b: Broker, st: Option<BrokerStep>, k: nat, t: G.TaskId)
    requires k < |b.sys.inboxes|
    ensures GivesBy(st, k, t) == if StepOn(b, st, k).Some? then Gives(StepOn(b, st, k).value, t) else None
  {
  }

  lemma GivenBy(cfg: Config, b: Broker, st: Option<BrokerStep>, k: nat, t: G.TaskId, r: CloseReason)
    requires BrokerInv(cfg, b) && CanPerform(b, st) && k < cfg.shards && r != SlowConsumer
    ensures var b' := Perform(b, st, cfg.sizes);
            && |b'.shards| == |b.shards|
            && (Given(b'.shards[k], t, r) <==> Given(b.shards[k], t, r) || GivesBy(st, k, t) == Some(r))
  {
    TasksOn(cfg, b, k);
    PerformOn(b, st, cfg.sizes, k);
    GivesOn(b, st, k, t);
    if StepOn(b, st, k).Some? {
      InvOn(cfg, b, k);
      GivenInStep(b.shards[k], StepOn(b, st, k).value, cfg.sizes, t, r);
    }
  }

  lemma InvOn(cfg: Config, b: Broker, k: nat)
    requires BrokerInv(cfg, b) && k < cfg.shards
    ensures Sh.Inv(b.shards[k], cfg.sizes)
  {
  }

  /** Nobody else lets a reader leave. */
  predicate LeavesBy(st: Option<BrokerStep>, k: nat, t: G.TaskId) {
    && st.Some? && st.value.Local? && st.value.i == k
    && st.value.step.Register? && st.value.step.reg.Disconnect? && st.value.step.reg.task == t
  }

  lemma LeavesOn(b: Broker, st: Option<BrokerStep>, k: nat, t: G.TaskId)
    requires k < |b.sys.inboxes|
    ensures LeavesBy(st, k, t) <==>
            var step := StepOn(b, st, k);
            step.Some? && step.value.Register? && step.value.reg.Disconnect? && step.value.reg.task == t
  {
  }

  lemma LeftBy(cfg: Config, b: Broker, st: Option<BrokerStep>, k: nat, t: G.TaskId)
    requires BrokerInv(cfg, b) && CanPerform(b, st) && k < cfg.shards
    ensures var b' := Perform(b, st, cfg.sizes);
            |b'.shards| == |b.shards| && (Left(b'.shards[k], t) <==> Left(b.shards[k], t) || LeavesBy(st, k, t))
  {
    TasksOn(cfg, b, k);
    PerformOn(b, st, cfg.sizes, k);
    LeavesOn(b, st, k, t);
    if StepOn(b, st, k).Some? {
      LeftInStep(b.shards[k], StepOn(b, st, k).value, cfg.sizes, t);
    }
  }

  /** A reply or a report gives no reason. */
  lemma SecondGives(n: Net, step: NetStep, k: nat, t: G.TaskId)
    ensures GivesBy(Second(n, step), k, t) == None && !LeavesBy(Second(n, step), k, t)
  {
  }

  /** Only bytes that are no frame are an error ... */
  lemma ErrorGiven(n: Net, step: NetStep, sizes: Sh.Sizes, k: nat, t: G.TaskId)
    requires NetEnabled(n, step, sizes) && GivesBy(First(step), k, t) == Some(ProtocolError)
    ensures BadAfter(n.At(k, t).bytes, |n.At(k, t).taken|)
  {
  }

  /** ... and only a reader's exit lets the peer close. */
  lemma PeerGiven(n: Net, step: NetStep, sizes: Sh.Sizes, k: nat, t: G.TaskId)
    requires NetEnabled(n, step, sizes)
    ensures GivesBy(First(step), k, t) == Some(PeerClosed) <==> LeavesBy(First(step), k, t)
  {
  }

  lemma ReasonsInStep(cfg: Config, n: Net, step: NetStep, k: nat, t: G.TaskId, r: CloseReason)
    requires BrokerReachable(cfg, n.b) && cfg.cap >= 2 && cfg.sizes.bufLen > 0 && k < cfg.shards
    requires NetEnabled(n, step, cfg.sizes) && r != SlowConsumer
    ensures var n' := NetNext(n, step, cfg.sizes);
            && k < |n.b.shards| == |n'.b.shards|
            && (Given(n'.b.shards[k], t, r) <==> Given(n.b.shards[k], t, r) || GivesBy(First(step), k, t) == Some(r))
            && (Left(n'.b.shards[k], t) <==> Left(n.b.shards[k], t) || LeavesBy(First(step), k, t))
  {
    var mid := Perform(n.b, First(step), cfg.sizes);
    PerformKeeps(cfg, n.b, First(step));
    BrokerReachableInv(cfg, n.b);
    BrokerReachableInv(cfg, mid);
    GivenBy(cfg, n.b, First(step), k, t, r);
    GivenBy(cfg, mid, Second(n, step), k, t, r);
    LeftBy(cfg, n.b, First(step), k, t);
    LeftBy(cfg, mid, Second(n, step), k, t);
    SecondGives(n, step, k, t);
  }

  lemma SentBadStays(before: Input, after: Input, more: Bytes)
    requires SentBad(before) && before.taken <= Incoming(before.bytes)
    requires after.bytes == before.bytes + more && |after.taken| >= |before.taken|
    ensures SentBad(after)
  {
    var m: nat :| m <= |before.taken| && BadAfter(before.bytes, m);
    BadStays(before.bytes, more, m);
  }

  lemma InputGrows(n: Net, step: NetStep, sizes: Sh.Sizes, k: nat, t: G.TaskId) returns (more: Bytes)
    requires NetEnabled(n, step, sizes)
    ensures var before, after := n.At(k, t), NetNext(n, step, sizes).At(k, t);
            after.bytes == before.bytes + more && |after.taken| >= |before.taken|
  {
    InputInStep(n, step, sizes, k, t);
    more := if step.Receive? && (step.i, step.task) == (k, t) then step.bytes else [];
  }

  lemma ClosesKept(cfg: Config, n: Net, step: NetStep, k: nat, t: G.TaskId)
    requires BrokerReachable(cfg, n.b) && cfg.cap >= 2 && cfg.sizes.bufLen > 0 && k < cfg.shards
    requires NetEnabled(n, step, cfg.sizes) && ClosesOk(n, k, t) && n.At(k, t).taken <= Incoming(n.At(k, t).bytes)
    ensures ClosesOk(NetNext(n, step, cfg.sizes), k, t)
  {
    ReasonsInStep(cfg, n, step, k, t, PeerClosed);
    ReasonsInStep(cfg, n, step, k, t, ProtocolError);
    PeerGiven(n, step, cfg.sizes, k, t);
    if GivesBy(First(step), k, t) == Some(ProtocolError) {
      ErrorGiven(n, step, cfg.sizes, k, t);
    }
    var more := InputGrows(n, step, cfg.sizes, k, t);
    if Given(NetNext(n, step, cfg.sizes).b.shards[k], t, ProtocolError) {
      SentBadStays(n.At(k, t), NetNext(n, step, cfg.sizes).At(k, t), more);
    }
  }

  /**
   Why a connection closes, on every run: it has been told the peer closed exactly when its reader has
   left, and that there was a protocol error only if its client's bytes, from some frame on that its
   reader had come to, are malformed or more than a frame may have.  Otherwise it is slow.
   */
  lemma {:induction false} WhyClosed(cfg: Config, schedule: seq<NetStep>, k: nat, t: G.TaskId)
    requires cfg.cap >= 2 && cfg.sizes.bufLen > 0 && k < cfg.shards
    ensures var n := NetExec(cfg, schedule);
            && k < |n.b.shards|
            && (t in n.b.shards[k].outs ==>
                  var reasons := n.b.shards[k].outs[t].conn.reasons;
                  && (PeerClosed in reasons <==> t !in n.b.shards[k].reg.readers)
                  && (ProtocolError in reasons ==>
                        exists m: nat :: m <= |n.At(k, t).taken| && BadAfter(n.At(k, t).bytes, m)))
            && ClosesOk(n, k, t)
  {
    if schedule != [] {
      var before, step := schedule[..|schedule| - 1], schedule[|schedule| - 1];
      WhyClosed(cfg, before, k, t);
      NetAlways(cfg, before);
      InputAlways(cfg, before, k, t);
      if NetEnabled(NetExec(cfg, before), step, cfg.sizes) {
        ClosesKept(cfg, NetExec(cfg, before), step, k, t);
      }
    }
  }
}
