/**
 One connection from the frames offered to it to the frames its client reads: enqueues of encoded
 frames, the writer task, the socket, and a client parsing the whole byte stream.
 */
module ClientStream {
  import opened Bytes
  import opened Wire
  import opened Outbound
  import P = Parse
  import C = Codec
  import R = Reader
  import Wr = Writer

  /** A connection with every frame some task tried to enqueue on it, in order. */
  datatype Out = Out(conn: Wr.Conn, offered: seq<Frame>)

  function NewOut(capacity: nat, bufLen: nat): Out {
    Out(Wr.Init(capacity, bufLen), [])
  }

  function Do(c: Wr.Conn, step: Wr.Step): Wr.Conn {
    if Wr.Enabled(c, step) then Wr.Next(c, step) else c
  }

  /** Encode a frame and enqueue it; a closed or overfull connection does not take it. */
  function Send(o: Out, f: Frame): Out {
    Out(Do(o.conn, Wr.Enqueue(Encode(f))), o.offered + [f])
  }

  function SendAll(o: Out, fs: seq<Frame>): Out {
    if fs == [] then o else Send(SendAll(o, fs[..|fs| - 1]), fs[|fs| - 1])
  }

  function Encodings(fs: seq<Frame>): (es: seq<Bytes>)
    ensures |es| == |fs|
  {
    seq(|fs|, (k: nat) requires k < |fs| => Encode(fs[k]))
  }

  /**
   The accepted enqueues are the encodings of the first offered frames, of all of them while no reason
   to close has been given, and every offered frame is legal.
   */
  ghost predicate Matching(o: Out) {
    var n := |o.conn.accepted|;
    && n <= |o.offered|
    && o.conn.accepted == Encodings(o.offered[..n])
    && (o.conn.reasons == [] ==> n == |o.offered|)
    && forall k | 0 <= k < |o.offered| :: Legal(o.offered[k])
  }

  ghost predicate OutOk(o: Out, capacity: nat, bufLen: nat) {
    bufLen > 0 && Wr.Reachable(capacity, bufLen, o.conn) && Matching(o)
  }

  lemma NewOutOk(capacity: nat, bufLen: nat)
    requires bufLen > 0
    ensures OutOk(NewOut(capacity, bufLen), capacity, bufLen)
  {
    assert Wr.Exec(capacity, bufLen, []) == Wr.Init(capacity, bufLen);
  }

  lemma EncodingsLast(fs: seq<Frame>, f: Frame)
    ensures Encodings(fs + [f]) == Encodings(fs) + [Encode(f)]
  {
  }

  lemma DoReachable(capacity: nat, bufLen: nat, c: Wr.Conn, step: Wr.Step)
    requires Wr.Reachable(capacity, bufLen, c)
    ensures Wr.Reachable(capacity, bufLen, Do(c, step))
  {
    if Wr.Enabled(c, step) {
      Wr.ReachableStep(capacity, bufLen, c, step);
    }
  }

  /** What an enqueue does to the histories. */
  lemma EnqueueEffect(c: Wr.Conn, bytes: Bytes)
    requires Wr.Inv(c)
    ensures var c' := Do(c, Wr.Enqueue(bytes));
            if c'.reasons == [] then c.reasons == [] && c'.accepted == c.accepted + [bytes]
            else c'.accepted == c.accepted
  {
  }

  lemma SendOk(o: Out, f: Frame, capacity: nat, bufLen: nat)
    requires OutOk(o, capacity, bufLen) && Legal(f)
    ensures OutOk(Send(o, f), capacity, bufLen)
  {
    var n, o' := |o.conn.accepted|, Send(o, f);
    DoReachable(capacity, bufLen, o.conn, Wr.Enqueue(Encode(f)));
    Wr.ReachableInv(capacity, bufLen, o.conn);
    EnqueueEffect(o.conn, Encode(f));
    if o'.conn.reasons == [] {
      assert o.offered[..n] == o.offered && o'.offered[..n + 1] == o'.offered;
      EncodingsLast(o.offered, f);
    } else {
      assert o'.offered[..n] == o.offered[..n];
    }
  }

  lemma {:induction false} SendAllOffered(o: Out, fs: seq<Frame>)
    ensures SendAll(o, fs).offered == o.offered + fs
  {
    if fs == [] {
      assert o.offered + [] == o.offered;
    } else {
      var before, f := fs[..|fs| - 1], fs[|fs| - 1];
      SendAllOffered(o, before);
      SendOffered(SendAll(o, before), f);
      assert fs == before + [f];
      Assoc(o.offered, before, [f]);
    }
  }

  lemma SendOffered(o: Out, f: Frame)
    ensures Send(o, f).offered == o.offered + [f]
  {
  }

  lemma Assoc(a: seq<Frame>, b: seq<Frame>, c: seq<Frame>)
    ensures a + (b + c) == a + b + c
  {
  }

  lemma {:induction false} SendAllOk(o: Out, fs: seq<Frame>, capacity: nat, bufLen: nat)
    requires OutOk(o, capacity, bufLen) && forall k | 0 <= k < |fs| :: Legal(fs[k])
    ensures OutOk(SendAll(o, fs), capacity, bufLen)
  {
    if fs != [] {
      var before, f := fs[..|fs| - 1], fs[|fs| - 1];
      SendAllOk(o, before, capacity, bufLen);
      var o' := SendAll(o, before);
      SendOk(o', f, capacity, bufLen);
      assert SendAll(o, fs) == Send(o', f);
    }
  }

  lemma OtherEffect(c: Wr.Conn, step: Wr.Step)
    requires Wr.Inv(c) && !step.Enqueue?
    ensures Do(c, step).accepted == c.accepted && (Do(c, step).reasons == [] ==> c.reasons == [])
  {
  }

  /** Closing and the writer's turns. */
  lemma OtherOk(o: Out, step: Wr.Step, capacity: nat, bufLen: nat)
    requires OutOk(o, capacity, bufLen) && !step.Enqueue?
    ensures OutOk(o.(conn := Do(o.conn, step)), capacity, bufLen)
  {
    DoReachable(capacity, bufLen, o.conn, step);
    Wr.ReachableInv(capacity, bufLen, o.conn);
    OtherEffect(o.conn, step);
  }

  // -------------------------------------------------------------- the client

  /** One more encoding after a stream that reads back. */
  lemma OneMoreFrame(parse: Bytes -> P.Outcome, s: Bytes, fs: seq<Frame>, e: Bytes, f: Frame, budget: nat)
    requires R.StreamParser(parse) && parse([]) == P.NeedMore && budget > |fs| + 1
    requires R.Frames(parse, s, budget) == R.Progress(fs, [], R.Waiting)
    requires parse(e) == P.Parsed(f, |e|)
    ensures R.Frames(parse, s + e, budget) == R.Progress(fs + [f], [], R.Waiting)
  {
    R.FramesSplit(parse, s, e, budget);
    assert [] + e == e && e[|e|..] == [];
    R.FramesHead(parse, e, budget - |fs|, []);
    assert R.Frames(parse, e, budget - |fs|) == R.Progress([f], [], R.Waiting) by {
      assert [f] + [] == [f];
    }
  }

  /** Encodings, one after another, read back as their frames with nothing left over. */
  lemma {:induction false} StreamReadsBack(parse: Bytes -> P.Outcome, es: seq<Bytes>, fs: seq<Frame>, budget: nat)
    requires R.StreamParser(parse) && parse([]) == P.NeedMore && budget > |fs| == |es|
    requires forall k | 0 <= k < |es| :: parse(es[k]) == P.Parsed(fs[k], |es[k]|)
    ensures R.Frames(parse, Wr.Joined(es), budget) == R.Progress(fs, [], R.Waiting)
  {
    if es != [] {
      var n := |es| - 1;
      StreamReadsBack(parse, es[..n], fs[..n], budget);
      OneMoreFrame(parse, Wr.Joined(es[..n]), fs[..n], es[n], fs[n], budget);
      assert fs[..n] + [fs[n]] == fs;
    }
  }

  /** An initial part of a stream that reads back reads as an initial part of its frames. */
  lemma PartReadsBack(parse: Bytes -> P.Outcome, part: Bytes, stream: Bytes, fs: seq<Frame>, budget: nat)
    requires R.StreamParser(parse) && budget > 0 && part <= stream
    requires R.Frames(parse, stream, budget) == R.Progress(fs, [], R.Waiting)
    ensures R.Frames(parse, part, budget).stop == R.Waiting && R.Frames(parse, part, budget).frames <= fs
  {
    assert stream == part + stream[|part|..];
    R.FramesSplit(parse, part, stream[|part|..], budget);
  }

  /** What reads back after a stream that reads back is more frames. */
  lemma MoreReadsBack(parse: Bytes -> P.Outcome, stream: Bytes, longer: Bytes, fs: seq<Frame>, budget: nat)
    requires R.StreamParser(parse) && budget > 0 && stream <= longer
    requires R.Frames(parse, stream, budget) == R.Progress(fs, [], R.Waiting)
    ensures fs <= R.Frames(parse, longer, budget).frames
  {
    assert longer == stream + longer[|stream|..];
    R.FramesSplit(parse, stream, longer[|stream|..], budget);
  }

  lemma LegalParses(f: Frame)
    requires Legal(f)
    ensures P.ParseFrame(Encode(f)) == P.Parsed(f, |Encode(f)|)
  {
    C.RoundTripExactly(f);
  }

  /** The frames a client parses out of bytes. */
  ghost function ReadsOf(bytes: Bytes, budget: nat): R.Progress
    requires budget > 0
  {
    R.FramesAreStreamed();
    R.Frames(P.ParseFrame, bytes, budget)
  }

  lemma LegalReadsBack(fs: seq<Frame>, budget: nat)
    requires budget > |fs| && forall k | 0 <= k < |fs| :: Legal(fs[k])
    ensures ReadsOf(Wr.Joined(Encodings(fs)), budget) == R.Progress(fs, [], R.Waiting)
  {
    R.FramesAreStreamed();
    R.EmptyNeedsMore();
    var es := Encodings(fs);
    forall k | 0 <= k < |es|
      ensures P.ParseFrame(es[k]) == P.Parsed(fs[k], |es[k]|)
    {
      LegalParses(fs[k]);
    }
    StreamReadsBack(P.ParseFrame, es, fs, budget);
  }

  /** The farewell as a frame. */
  function FarewellFrames(r: CloseReason): seq<Frame> {
    if CloseText(r).Some? then [ErrText(CloseText(r).value)] else []
  }

  lemma FarewellLegal(r: CloseReason)
    ensures forall k | 0 <= k < |FarewellFrames(r)| :: Legal(FarewellFrames(r)[k])
  {
  }

  lemma {:induction false} JoinedConcat(a: seq<Bytes>, b: seq<Bytes>)
    ensures Wr.Joined(a + b) == Wr.Joined(a) + Wr.Joined(b)
  {
    if b == [] {
      assert a + b == a;
    } else {
      var before, last := b[..|b| - 1], b[|b| - 1];
      assert b == before + [last] && a + b == (a + before) + [last];
      JoinedConcat(a, before);
      Wr.JoinedAppend(a + before, last);
      Wr.JoinedAppend(before, last);
      BytesAssoc(Wr.Joined(a), Wr.Joined(before), last);
    }
  }

  lemma BytesAssoc(a: Bytes, b: Bytes, c: Bytes)
    ensures a + (b + c) == a + b + c
  {
  }

  lemma FarewellJoined(fs: seq<Frame>, r: CloseReason, bufLen: nat)
    requires bufLen >= 21
    ensures Wr.Joined(Encodings(fs)) + Wr.Farewell(r, bufLen) == Wr.Joined(Encodings(fs + FarewellFrames(r)))
  {
    Wr.FarewellWhole(r, bufLen);
    var es := Encodings(FarewellFrames(r));
    assert Encodings(fs + FarewellFrames(r)) == Encodings(fs) + es;
    JoinedConcat(Encodings(fs), es);
    if CloseText(r).Some? {
      var e := Encode(ErrText(CloseText(r).value));
      assert es == [e] && es[..0] == [];
      assert Wr.Joined(es) == [] + e == e;
    }
  }

  /** The frames a connection took. */
  function TakenFrames(o: Out): seq<Frame>
    requires |o.conn.accepted| <= |o.offered|
  {
    o.offered[..|o.conn.accepted|]
  }

  /**
   What the client reads.  On every run it parses, from everything on its socket, an initial part of
   the frames the connection took, in order, and no malformed bytes.  When the writer has nothing left
   to do it has read all of them, and all that were ever offered if nobody gave a reason to close.
   When the writer has closed the connection by itself, all frames taken are there, followed by at
   most the `-ERR` of the first reason.
   */
  lemma ClientReadsSocket(o: Out, capacity: nat, bufLen: nat, budget: nat)
    requires OutOk(o, capacity, bufLen) && bufLen >= 21 && budget > |o.offered| + 1
    ensures var c, p := o.conn, ReadsOf(o.conn.socket, budget);
            && p.stop == R.Waiting
            && (!c.writer.Done? ==> p.frames <= TakenFrames(o))
            && (c.writer.Parked? && c.buffer.head == |c.buffer.data| ==>
                  p == R.Progress(TakenFrames(o), [], R.Waiting) && (c.reasons == [] ==> p.frames == o.offered))
            && (c.writer.Done? ==> c.reasons != [] && TakenFrames(o) <= p.frames <= TakenFrames(o) + FarewellFrames(c.reasons[0]))
  {
    var c := o.conn;
    R.FramesAreStreamed();
    Wr.SocketStream(capacity, bufLen, c);
    LegalReadsBack(TakenFrames(o), budget);
    var stream := Wr.Joined(c.accepted);
    if c.writer.Done? {
      var all := TakenFrames(o) + FarewellFrames(c.reasons[0]);
      FarewellLegal(c.reasons[0]);
      FarewellJoined(TakenFrames(o), c.reasons[0], bufLen);
      LegalReadsBack(all, budget);
      PartReadsBack(P.ParseFrame, c.socket, Wr.Joined(Encodings(all)), all, budget);
      MoreReadsBack(P.ParseFrame, stream, c.socket, TakenFrames(o), budget);
    } else {
      PartReadsBack(P.ParseFrame, c.socket, stream, TakenFrames(o), budget);
      if c.writer.Parked? && c.buffer.head == |c.buffer.data| {
        assert c.socket + [] + c.buffer.Pending() == c.socket;
      }
      if c.reasons == [] {
        assert TakenFrames(o) == o.offered;
      }
    }
  }

  lemma CloseTexts()
    ensures FarewellFrames(SlowConsumer) == [ErrText(Ascii("slow consumer"))]
    ensures FarewellFrames(ProtocolError) == [ErrText(Ascii("protocol error"))]
    ensures FarewellFrames(PeerClosed) == []
  {
    assert CloseText(SlowConsumer).value == Ascii("slow consumer");
    assert CloseText(ProtocolError).value == Ascii("protocol error");
  }

  lemma FinalReads(o: Out, capacity: nat, bufLen: nat, budget: nat)
    requires OutOk(o, capacity, bufLen) && bufLen >= 21 && budget > |o.offered| + 1 && o.conn.reasons != []
    ensures ReadsOf(Wr.FinalStream(o.conn), budget)
         == R.Progress(TakenFrames(o) + FarewellFrames(o.conn.reasons[0]), [], R.Waiting)
  {
    var r, fs := o.conn.reasons[0], TakenFrames(o);
    Wr.ReachableInv(capacity, bufLen, o.conn);
    FarewellLegal(r);
    FarewellJoined(fs, r, bufLen);
    LegalReadsBack(fs + FarewellFrames(r), budget);
  }

  /**
   The last thing a client reads: once a connection is closing and its writes succeed, the writer exits
   and the client has read every frame taken and then, of the first reason given, `slow consumer` or
   `protocol error` as one `-ERR`, and nothing more when the peer closed.
   */
  lemma LastWords(o: Out, capacity: nat, bufLen: nat, budget: nat) returns (run: seq<Wr.Conn>)
    requires OutOk(o, capacity, bufLen) && bufLen >= 21 && budget > |o.offered| + 1
    requires o.conn.buffer.close.Some? && !o.conn.writer.Done? && !o.conn.writer.Broken?
    ensures Wr.WriterRun(run) && run[0] == o.conn && run[|run| - 1].writer.Done?
    ensures o.conn.reasons != []
    ensures ReadsOf(run[|run| - 1].socket, budget)
         == R.Progress(TakenFrames(o) + match o.conn.reasons[0]
                                        case SlowConsumer => [ErrText(Ascii("slow consumer"))]
                                        case ProtocolError => [ErrText(Ascii("protocol error"))]
                                        case PeerClosed => [], [], R.Waiting)
  {
    Wr.ReachableInv(capacity, bufLen, o.conn);
    run := Wr.ClosingFinishes(o.conn);
    CloseTexts();
    FinalReads(o, capacity, bufLen, budget);
  }
}
