/**
 A connection's writer task against everyone who enqueues (crates/aulon-server/src/main.rs).  The
 tasks are cooperative: what runs between two awaits is one step.  The writer waits for a notify
 permit, drains, writes, and on a pending close sends its `-ERR` and exits.
 */
module Writer {
  import opened Wrappers
  import opened Bytes
  import W = Wire
  import opened Outbound

  datatype WriterPc = Parked | Writing(chunk: Bytes) | WritingErr(text: Bytes) | Done | Broken

  /**
   `bufLen` is the length of the writer's own buffer.  The last four fields are history: bytes on the
   socket, accepted enqueues, every reason given for closing, and the bytes accepted since the
   buffer was last drained completely.
   */
  datatype Conn = Conn(
    buffer: Buffer,
    writer: WriterPc,
    bufLen: nat,
    socket: Bytes,
    accepted: seq<Bytes>,
    reasons: seq<CloseReason>,
    sinceDrain: nat)

  /** `written` says how many of the bytes offered to the socket went out; fewer than all is a failure. */
  datatype Step = Enqueue(bytes: Bytes) | MarkClose(reason: CloseReason) | Turn(written: nat)

  function Init(capacity: nat, bufLen: nat): Conn {
    Conn(Fresh(capacity), Parked, bufLen, [], [], [], 0)
  }

  function Joined(parts: seq<Bytes>): Bytes {
    if parts == [] then [] else Joined(parts[..|parts| - 1]) + parts[|parts| - 1]
  }

  /** The `-ERR` frame for a close reason, if it has a text that fits the writer's buffer. */
  function Farewell(r: CloseReason, bufLen: nat): Bytes {
    match CloseText(r)
    case None => []
    case Some(text) =>
      var enc := W.Encode(W.ErrText(text));
      if |enc| <= bufLen then enc else []
  }

  /** In a buffer of 21 bytes or more every close reason with a text gets its whole `-ERR` frame. */
  lemma FarewellWhole(r: CloseReason, bufLen: nat)
    requires bufLen >= 21
    ensures Farewell(r, bufLen) == if CloseText(r).Some? then W.Encode(W.ErrText(CloseText(r).value)) else []
  {
    if CloseText(r).Some? {
      var f := W.ErrText(CloseText(r).value);
      assert W.Spaced(W.Fields(f)) == f.message;
    }
  }

  predicate Enabled(c: Conn, step: Step) {
    && c.buffer.head <= |c.buffer.data|
    && (step.Turn? ==>
          match c.writer
          case Parked => c.buffer.permit
          case Writing(_) => true
          case WritingErr(_) => true
          case _ => false)
  }

  /** The writer after a wake or a finished write, up to its next await. */
  function Proceed(c: Conn): Conn
    requires c.buffer.head <= |c.buffer.data|
  {
    var (b, chunk) := c.buffer.Drain(c.bufLen);
    var c' := c.(buffer := b, sinceDrain := if b.data == [] then 0 else c.sinceDrain);
    if chunk != [] then c'.(writer := Writing(chunk))
    else
      match b.close
      case None => c'.(writer := Parked)
      case Some(r) =>
        var enc := Farewell(r, c.bufLen);
        c'.(writer := if enc == [] then Done else WritingErr(enc))
  }

  function Next(c: Conn, step: Step): Conn
    requires Enabled(c, step)
  {
    match step
    case Enqueue(bytes) =>
      var (b, outcome) := c.buffer.Enqueue(bytes);
      (match outcome
       case Accepted => c.(buffer := b, accepted := c.accepted + [bytes], sinceDrain := c.sinceDrain + |bytes|)
       case SlowConsumerClosed => c.(buffer := b, reasons := c.reasons + [SlowConsumer])
       case AlreadyClosing => c)
    case MarkClose(reason) => c.(buffer := c.buffer.MarkClose(reason), reasons := c.reasons + [reason])
    case Turn(written) =>
      match c.writer
      case Parked => Proceed(c.(buffer := c.buffer.(permit := false)))
      case Writing(chunk) =>
        if written >= |chunk| then Proceed(c.(socket := c.socket + chunk))
        else c.(socket := c.socket + chunk[..written], writer := Broken)
      case WritingErr(text) =>
        c.(socket := c.socket + (if written >= |text| then text else text[..written]), writer := Done)
  }

  // --------------------------------------------------------------- invariant

  function InFlight(c: Conn): Bytes {
    if c.writer.Writing? then c.writer.chunk else []
  }

  /** What is on the socket, on its way, or pending is what was accepted, in order. */
  ghost predicate StreamOk(c: Conn)
    requires c.buffer.Valid()
  {
    match c.writer
    case Broken => c.socket <= Joined(c.accepted)
    case WritingErr(text) =>
      c.socket == Joined(c.accepted) && c.buffer.Pending() == [] && ExitOk(c) && text == Farewell(c.reasons[0], c.bufLen)
    case Done =>
      && ExitOk(c)
      && c.buffer.Pending() == []
      && Joined(c.accepted) <= c.socket <= Joined(c.accepted) + Farewell(c.reasons[0], c.bufLen)
    case _ => Joined(c.accepted) == c.socket + InFlight(c) + c.buffer.Pending()
  }

  ghost predicate ExitOk(c: Conn) {
    c.reasons != []
  }

  /** The first reason given is the one kept. */
  ghost predicate ReasonOk(c: Conn) {
    c.buffer.close == if c.reasons == [] then None else Some(c.reasons[0])
  }

  /** A parked writer with something to do has a permit waiting for it. */
  ghost predicate WakeOk(c: Conn)
    requires c.buffer.Valid()
  {
    c.writer.Parked? && (c.buffer.Pending() != [] || c.buffer.close.Some?) ==> c.buffer.permit
  }

  ghost predicate Inv(c: Conn) {
    && c.buffer.Valid()
    && c.bufLen > 0
    && |c.buffer.data| == c.sinceDrain
    && ReasonOk(c)
    && WakeOk(c)
    && StreamOk(c)
  }

  lemma JoinedAppend(parts: seq<Bytes>, b: Bytes)
    ensures Joined(parts + [b]) == Joined(parts) + b
  {
    assert (parts + [b])[..|parts|] == parts;
  }

  lemma AcceptKeeps(c: Conn, bytes: Bytes)
    requires Inv(c) && c.buffer.Enqueue(bytes).1 == Accepted
    ensures Inv(Next(c, Enqueue(bytes)))
  {
    JoinedAppend(c.accepted, bytes);
    var c' := Next(c, Enqueue(bytes));
    assert c'.buffer.Pending() == c.buffer.Pending() + bytes;
    if !c.writer.Broken? {
      assert c.socket + InFlight(c) + (c.buffer.Pending() + bytes) == (c.socket + InFlight(c) + c.buffer.Pending()) + bytes;
    }
  }

  lemma EnqueueKeeps(c: Conn, bytes: Bytes)
    requires Inv(c)
    ensures Inv(Next(c, Enqueue(bytes)))
  {
    match c.buffer.Enqueue(bytes).1
    case Accepted => AcceptKeeps(c, bytes);
    case SlowConsumerClosed =>
    case AlreadyClosing =>
  }

  lemma MarkCloseKeeps(c: Conn, reason: CloseReason)
    requires Inv(c)
    ensures Inv(Next(c, MarkClose(reason)))
  {
  }

  /** The writer's own part: it goes on from a state whose stream is the socket and what is pending. */
  lemma ProceedKeeps(c: Conn)
    requires c.buffer.Valid() && c.bufLen > 0 && |c.buffer.data| == c.sinceDrain && ReasonOk(c)
    requires Joined(c.accepted) == c.socket + c.buffer.Pending()
    ensures Inv(Proceed(c))
  {
    DrainSplits(c.buffer, c.bufLen);
    var (b, chunk) := c.buffer.Drain(c.bufLen);
    assert c.socket + (chunk + b.Pending()) == c.socket + chunk + b.Pending();
    if chunk == [] {
      assert c.buffer.Pending() == [];
    }
  }

  lemma TurnKeeps(c: Conn, written: nat)
    requires Inv(c) && Enabled(c, Turn(written))
    ensures Inv(Next(c, Turn(written)))
  {
    match c.writer
    case Parked =>
      var woken := c.(buffer := c.buffer.(permit := false));
      assert c.socket + [] + c.buffer.Pending() == c.socket + woken.buffer.Pending();
      ProceedKeeps(woken);
    case Writing(chunk) =>
      if written >= |chunk| {
        ProceedKeeps(c.(socket := c.socket + chunk));
      } else {
        assert c.socket + chunk[..written] <= c.socket + chunk <= Joined(c.accepted);
      }
    case WritingErr(text) =>
  }

  lemma StepKeeps(c: Conn, step: Step)
    requires Inv(c) && Enabled(c, step)
    ensures Inv(Next(c, step))
  {
    match step
    case Enqueue(bytes) => EnqueueKeeps(c, bytes);
    case MarkClose(reason) => MarkCloseKeeps(c, reason);
    case Turn(written) => TurnKeeps(c, written);
  }

  // -------------------------------------------------------------------- runs

  /** The connection after a schedule; a step that is not enabled leaves it alone. */
  function Exec(capacity: nat, bufLen: nat, schedule: seq<Step>): Conn {
    if schedule == [] then Init(capacity, bufLen)
    else
      var c, step := Exec(capacity, bufLen, schedule[..|schedule| - 1]), schedule[|schedule| - 1];
      if Enabled(c, step) then Next(c, step) else c
  }

  lemma StepFixes(c: Conn, step: Step)
    requires Inv(c) && Enabled(c, step)
    ensures Next(c, step).bufLen == c.bufLen && Next(c, step).buffer.capacity == c.buffer.capacity
  {
    DrainSplits(c.buffer, c.bufLen);
  }

  lemma {:induction false} Always(capacity: nat, bufLen: nat, schedule: seq<Step>)
    requires bufLen > 0
    ensures var c := Exec(capacity, bufLen, schedule);
            Inv(c) && c.bufLen == bufLen && c.buffer.capacity == capacity
  {
    if schedule != [] {
      var before, step := schedule[..|schedule| - 1], schedule[|schedule| - 1];
      Always(capacity, bufLen, before);
      var c := Exec(capacity, bufLen, before);
      if Enabled(c, step) {
        StepKeeps(c, step);
        StepFixes(c, step);
      }
    }
  }

  ghost predicate Reachable(capacity: nat, bufLen: nat, c: Conn) {
    exists schedule :: c == Exec(capacity, bufLen, schedule)
  }

  lemma ReachableStep(capacity: nat, bufLen: nat, c: Conn, step: Step)
    requires Reachable(capacity, bufLen, c) && Enabled(c, step)
    ensures Reachable(capacity, bufLen, Next(c, step))
  {
    var schedule :| c == Exec(capacity, bufLen, schedule);
    assert (schedule + [step])[..|schedule|] == schedule;
    assert Exec(capacity, bufLen, schedule + [step]) == Next(c, step);
  }

  lemma ReachableInv(capacity: nat, bufLen: nat, c: Conn)
    requires bufLen > 0 && Reachable(capacity, bufLen, c)
    ensures Inv(c) && c.bufLen == bufLen && c.buffer.capacity == capacity
  {
    var schedule :| c == Exec(capacity, bufLen, schedule);
    Always(capacity, bufLen, schedule);
  }

  /**
   Socket stream integrity: on every run the socket carries an initial part of the accepted enqueues
   joined in order; once the writer has exited by itself, all of them are out, followed by at most
   the `-ERR` of the first reason given, whole if that write succeeded.
   */
  lemma SocketStream(capacity: nat, bufLen: nat, c: Conn)
    requires bufLen > 0 && Reachable(capacity, bufLen, c)
    ensures !c.writer.Done? ==> c.socket <= Joined(c.accepted)
    ensures c.writer.Parked? || c.writer.Writing? ==>
              c.buffer.head <= |c.buffer.data| && Joined(c.accepted) == c.socket + InFlight(c) + c.buffer.Pending()
    ensures c.writer.Done? ==>
              && c.reasons != []
              && Joined(c.accepted) <= c.socket <= Joined(c.accepted) + Farewell(c.reasons[0], bufLen)
  {
    ReachableInv(capacity, bufLen, c);
  }

  /**
   Slow consumers: an enqueue on an open connection closes it exactly when the bytes accepted since
   the buffer was last empty, plus the new ones, exceed the capacity; otherwise it is accepted.
   */
  lemma SlowConsumerExactly(capacity: nat, bufLen: nat, c: Conn, bytes: Bytes)
    requires bufLen > 0 && Reachable(capacity, bufLen, c)
    ensures Enabled(c, Enqueue(bytes))
    ensures var c' := Next(c, Enqueue(bytes));
            && (c.reasons == [] ==>
                  && (c'.buffer.close == Some(SlowConsumer) <==> c.sinceDrain + |bytes| > capacity)
                  && (c'.accepted == c.accepted + [bytes] <==> c.sinceDrain + |bytes| <= capacity))
            && (c.reasons != [] ==> c' == c)
  {
    ReachableInv(capacity, bufLen, c);
    if c.reasons == [] && c.sinceDrain + |bytes| > capacity {
      assert |c.accepted + [bytes]| != |c.accepted|;
    }
  }

  /** The writer never sleeps on work. */
  lemma WriterNeverSleepsOnWork(capacity: nat, bufLen: nat, c: Conn)
    requires bufLen > 0 && Reachable(capacity, bufLen, c) && c.writer.Parked?
    ensures c.buffer.head <= |c.buffer.data|
    ensures c.buffer.Pending() != [] || c.buffer.close.Some? ==> Enabled(c, Turn(0))
  {
    ReachableInv(capacity, bufLen, c);
  }

  // ----------------------------------------------------------------- closing

  /** Turns left before a closing writer exits. */
  function TurnsLeft(c: Conn): nat
    requires c.buffer.Valid()
  {
    match c.writer
    case Parked => 2 * |c.buffer.Pending()| + 3
    case Writing(_) => 2 * |c.buffer.Pending()| + 2
    case WritingErr(_) => 1
    case _ => 0
  }

  /** Once closing, nothing is accepted any more and every turn of the writer brings its exit nearer. */
  lemma ClosingTurn(c: Conn, written: nat)
    requires Inv(c) && c.buffer.close.Some? && !c.writer.Done? && !c.writer.Broken?
    ensures Enabled(c, Turn(written))
    ensures var c' := Next(c, Turn(written));
            Inv(c') && c'.buffer.close == c.buffer.close && c'.accepted == c.accepted && TurnsLeft(c') < TurnsLeft(c)
  {
    TurnKeeps(c, written);
    DrainSplits(c.buffer, c.bufLen);
  }

  lemma ClosedStep(c: Conn, step: Step)
    requires Inv(c) && c.reasons != [] && Enabled(c, step)
    ensures Next(c, step).accepted == c.accepted && Next(c, step).reasons[..1] == c.reasons[..1]
  {
  }

  /** Closing is for good: whatever happens after the first reason, nothing more is accepted and that reason stays. */
  lemma {:induction false} ClosedForGood(capacity: nat, bufLen: nat, schedule: seq<Step>, more: seq<Step>)
    requires bufLen > 0 && Exec(capacity, bufLen, schedule).reasons != []
    ensures var c, c' := Exec(capacity, bufLen, schedule), Exec(capacity, bufLen, schedule + more);
            c'.accepted == c.accepted && c'.reasons != [] && c'.reasons[0] == c.reasons[0]
  {
    if more == [] {
      assert schedule + more == schedule;
    } else {
      var before, step := schedule + more[..|more| - 1], more[|more| - 1];
      assert (schedule + more)[..|schedule + more| - 1] == before;
      ClosedForGood(capacity, bufLen, schedule, more[..|more| - 1]);
      Always(capacity, bufLen, before);
      var c := Exec(capacity, bufLen, before);
      if Enabled(c, step) {
        ClosedStep(c, step);
        assert Next(c, step).reasons[..1][0] == c.reasons[..1][0];
      }
    }
  }

  /** A turn whose write, if any, succeeds. */
  function FullTurn(c: Conn): Step {
    Turn(|InFlight(c)| + if c.writer.WritingErr? then |c.writer.text| else 0)
  }

  lemma FullTurnFixes(c: Conn)
    requires Inv(c) && Enabled(c, FullTurn(c))
    ensures var c' := Next(c, FullTurn(c));
            c'.reasons == c.reasons && c'.accepted == c.accepted && c'.bufLen == c.bufLen && !c'.writer.Broken?
  {
  }

  /** Leaving with a successful last write. */
  lemma FullTurnExits(c: Conn)
    requires Inv(c) && Enabled(c, FullTurn(c)) && Next(c, FullTurn(c)).writer.Done?
    ensures c.reasons != []
    ensures Next(c, FullTurn(c)).socket == Joined(c.accepted) + Farewell(c.reasons[0], c.bufLen)
  {
    TurnKeeps(c, FullTurn(c).written);
  }

  ghost predicate Turns(c: Conn, c': Conn) {
    Enabled(c, FullTurn(c)) && c' == Next(c, FullTurn(c))
  }

  /** A run of the writer alone with every write successful. */
  ghost predicate WriterRun(run: seq<Conn>) {
    |run| > 0 && forall k | 0 <= k < |run| - 1 :: Turns(run[k], run[k + 1])
  }

  lemma RunCons(c: Conn, run: seq<Conn>)
    requires WriterRun(run) && Turns(c, run[0])
    ensures WriterRun([c] + run)
  {
    var longer := [c] + run;
    forall k | 0 <= k < |longer| - 1
      ensures Turns(longer[k], longer[k + 1])
    {
      if k > 0 {
        assert Turns(run[k - 1], run[k]);
      }
    }
  }

  ghost predicate ExitedWith(c: Conn, stream: Bytes) {
    c.writer.Done? && c.socket == stream
  }

  /** Everything accepted, then the farewell of the first reason. */
  function FinalStream(c: Conn): Bytes
    requires c.reasons != []
  {
    Joined(c.accepted) + Farewell(c.reasons[0], c.bufLen)
  }

  /** One successful turn of a closing writer. */
  lemma ClosingAdvances(c: Conn) returns (c': Conn)
    requires Inv(c) && c.buffer.close.Some? && !c.writer.Done? && !c.writer.Broken?
    ensures Inv(c') && Turns(c, c') && TurnsLeft(c') < TurnsLeft(c)
    ensures c'.buffer.close.Some? && !c'.writer.Broken?
    ensures c.reasons != [] && c'.reasons != [] && FinalStream(c') == FinalStream(c)
    ensures c'.writer.Done? ==> ExitedWith(c', FinalStream(c))
  {
    ClosingTurn(c, FullTurn(c).written);
    FullTurnFixes(c);
    c' := Next(c, FullTurn(c));
    if c'.writer.Done? {
      FullTurnExits(c);
    }
  }

  /**
   A closing connection finishes: with successful writes the writer exits after at most `TurnsLeft`
   turns, having sent everything accepted and then the farewell of the first reason.
   */
  lemma {:induction false} ClosingFinishes(c: Conn) returns (run: seq<Conn>)
    requires Inv(c) && c.buffer.close.Some? && !c.writer.Done? && !c.writer.Broken?
    ensures WriterRun(run) && run[0] == c && |run| - 1 <= TurnsLeft(c)
    ensures c.reasons != [] && ExitedWith(run[|run| - 1], FinalStream(c))
    decreases TurnsLeft(c)
  {
    var c' := ClosingAdvances(c);
    var later := [c'];
    if !c'.writer.Done? {
      later := ClosingFinishes(c');
    }
    RunCons(c, later);
    run := [c] + later;
  }
}
