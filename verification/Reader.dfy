/**
 The reader task's inbound loop (crates/aulon-server/src/main.rs): extend the accumulator with what
 was read, handle every complete frame at its head, drop the handled bytes.  Reads are arbitrary
 chunks.  `budget` says which frame's handling closes the connection, if the stream gets that far;
 another task may close it while a read is awaited.
 */
module Reader {
  import opened Bytes
  import opened Wire
  import opened Parse
  import opened Codec

  const MAX_FRAME_SIZE: nat := MAX_PAYLOAD_BYTES * 2
  const READ_BUFFER: nat := 4096

  datatype Stop = Waiting | Malformed | Closed | Oversize

  /** Frames handled, bytes left over, and why handling stopped. */
  datatype Progress = Progress(frames: seq<Frame>, rest: Bytes, stop: Stop)

  /** An outcome other than NeedMore is not changed by later bytes. */
  ghost predicate KeepsOutcome(parse: Bytes -> Outcome, buf: Bytes, more: Bytes) {
    parse(buf) != NeedMore ==> parse(buf + more) == parse(buf)
  }

  /** A frame depends on the bytes it takes and on no others. */
  ghost predicate TakesItsOwn(parse: Bytes -> Outcome, buf: Bytes) {
    parse(buf).Parsed? && parse(buf).consumed <= |buf| ==> parse(buf[..parse(buf).consumed]) == parse(buf)
  }

  /** A frame takes at least one of the bytes offered. */
  ghost predicate TakesSome(parse: Bytes -> Outcome, buf: Bytes) {
    parse(buf).Parsed? ==> 0 < parse(buf).consumed <= |buf|
  }

  /** All the loop needs of its parser. */
  ghost predicate StreamParser(parse: Bytes -> Outcome) {
    && (forall buf: Bytes, more: Bytes :: KeepsOutcome(parse, buf, more))
    && (forall buf: Bytes {:trigger parse(buf)} :: TakesSome(parse, buf))
    && (forall buf: Bytes :: TakesItsOwn(parse, buf))
  }

  lemma FramesAreStreamed()
    ensures StreamParser(ParseFrame)
  {
    forall buf: Bytes, more: Bytes
      ensures KeepsOutcome(ParseFrame, buf, more)
    {
      if ParseFrame(buf) != NeedMore {
        Stable(buf, more);
      }
    }
    forall buf: Bytes
      ensures TakesSome(ParseFrame, buf)
    {
      if ParseFrame(buf).Parsed? {
        Local(buf);
      }
    }
    forall buf: Bytes
      ensures TakesItsOwn(ParseFrame, buf)
    {
      if ParseFrame(buf).Parsed? {
        Local(buf);
      }
    }
  }

  /** The frames of a whole stream, read at once. */
  ghost function Frames(parse: Bytes -> Outcome, stream: Bytes, budget: nat): (p: Progress)
    requires StreamParser(parse) && budget > 0
    ensures |p.frames| <= budget && (p.stop == Closed <==> |p.frames| == budget)
    decreases |stream|
  {
    match parse(stream)
    case NeedMore => Progress([], stream, Waiting)
    case Failed(_) => Progress([], stream, Malformed)
    case Parsed(f, n) =>
      if budget == 1 then Progress([f], stream[n..], Closed)
      else
        var p := Frames(parse, stream[n..], budget - 1);
        p.(frames := [f] + p.frames)
  }

  /** What one read brought; `closed` says that another task has closed the connection meanwhile. */
  datatype Chunk = Chunk(bytes: Bytes, closed: bool)

  /** Handling the buffer after one read; on a closed connection the loop ends after the first frame, or at once. */
  ghost function AfterRead(parse: Bytes -> Outcome, buf: Bytes, closed: bool, budget: nat): Progress
    requires StreamParser(parse) && budget > 0
  {
    var p := Frames(parse, buf, if closed then 1 else budget);
    if closed && p.stop == Waiting then p.(stop := Closed) else p
  }

  /** The reader's view: the same stream arriving in chunks. */
  ghost function Feed(parse: Bytes -> Outcome, accum: Bytes, chunks: seq<Chunk>, budget: nat): Progress
    requires StreamParser(parse) && budget > 0
    decreases |chunks|
  {
    if chunks == [] then Progress([], accum, Waiting)
    else
      var buf := accum + chunks[0].bytes;
      if |buf| > MAX_FRAME_SIZE then Progress([], buf, Oversize)
      else
        var p := AfterRead(parse, buf, chunks[0].closed, budget);
        if p.stop != Waiting then p
        else
          var q := Feed(parse, p.rest, chunks[1..], budget - |p.frames|);
          Progress(p.frames + q.frames, q.rest, q.stop)
  }

  function Flatten(chunks: seq<Chunk>): Bytes {
    if chunks == [] then [] else chunks[0].bytes + Flatten(chunks[1..])
  }

  function Prepend(fs: seq<Frame>, p: Progress): Progress {
    p.(frames := fs + p.frames)
  }

  /** One read, and then the rest of them. */
  lemma FeedStep(parse: Bytes -> Outcome, accum: Bytes, chunks: seq<Chunk>, budget: nat, buf: Bytes, p: Progress)
    requires StreamParser(parse) && budget > 0 && chunks != []
    requires buf == accum + chunks[0].bytes && p == AfterRead(parse, buf, chunks[0].closed, budget)
    ensures Feed(parse, accum, chunks, budget) ==
            if |buf| > MAX_FRAME_SIZE then Progress([], buf, Oversize)
            else if p.stop == Waiting then Prepend(p.frames, Feed(parse, p.rest, chunks[1..], budget - |p.frames|))
            else p
  {
  }

  lemma FlattenStep(accum: Bytes, chunks: seq<Chunk>)
    requires chunks != []
    ensures accum + Flatten(chunks) == accum + chunks[0].bytes + Flatten(chunks[1..])
  {
  }

  /** Nobody else closes the connection along these reads. */
  predicate AllOpen(chunks: seq<Chunk>) {
    forall k | 0 <= k < |chunks| :: !chunks[k].closed
  }

  // ---------------------------------------------------- chunking independence

  /** Handling what p left over once more bytes b are there. */
  ghost function Resume(parse: Bytes -> Outcome, p: Progress, b: Bytes, budget: nat): Progress
    requires StreamParser(parse) && |p.frames| <= budget && (p.stop == Waiting ==> |p.frames| < budget)
  {
    if p.stop == Waiting then
      var q := Frames(parse, p.rest + b, budget - |p.frames|);
      Progress(p.frames + q.frames, q.rest, q.stop)
    else
      p.(rest := p.rest + b)
  }

  lemma ResumeAfterFrame(parse: Bytes -> Outcome, f: Frame, p: Progress, b: Bytes, budget: nat)
    requires StreamParser(parse) && |p.frames| <= budget && (p.stop == Waiting ==> |p.frames| < budget)
    ensures var w := Resume(parse, p, b, budget);
            Resume(parse, p.(frames := [f] + p.frames), b, budget + 1) == w.(frames := [f] + w.frames)
  {
    if p.stop == Waiting {
      var q := Frames(parse, p.rest + b, budget - |p.frames|);
      assert [f] + p.frames + q.frames == [f] + (p.frames + q.frames);
    }
  }

  /** One frame at the head of a stream. */
  lemma FramesHead(parse: Bytes -> Outcome, stream: Bytes, budget: nat, rest: Bytes)
    requires StreamParser(parse) && budget > 1 && parse(stream).Parsed?
    requires rest == stream[parse(stream).consumed..]
    ensures var p := Frames(parse, rest, budget - 1);
            Frames(parse, stream, budget) == p.(frames := [parse(stream).frame] + p.frames)
  {
  }

  /** Reading part of a stream first changes nothing: the rest continues where it stopped. */
  lemma {:induction false} FramesSplit(parse: Bytes -> Outcome, a: Bytes, b: Bytes, budget: nat)
    requires StreamParser(parse) && budget > 0
    ensures Frames(parse, a + b, budget) == Resume(parse, Frames(parse, a, budget), b, budget)
    decreases |a|
  {
    if parse(a) == NeedMore {
      var q := Frames(parse, a + b, budget);
      assert [] + q.frames == q.frames;
    } else {
      assert KeepsOutcome(parse, a, b);
      if parse(a).Parsed? {
        var n := parse(a).consumed;
        assert (a + b)[n..] == a[n..] + b;
        if budget > 1 {
          FramesSplit(parse, a[n..], b, budget - 1);
          FramesHead(parse, a, budget, a[n..]);
          FramesHead(parse, a + b, budget, a[n..] + b);
          ResumeAfterFrame(parse, parse(a).frame, Frames(parse, a[n..], budget - 1), b, budget - 1);
        }
      }
    }
  }

  /** Where reading stopped to wait, it goes on. */
  lemma ContinueAt(parse: Bytes -> Outcome, buf: Bytes, later: Bytes, budget: nat, p: Progress)
    requires StreamParser(parse) && budget > 0 && p == Frames(parse, buf, budget) && p.stop == Waiting
    ensures Frames(parse, buf + later, budget) == Prepend(p.frames, Frames(parse, p.rest + later, budget - |p.frames|))
  {
    FramesSplit(parse, buf, later, budget);
  }

  lemma {:induction false} WaitingNeedsMore(parse: Bytes -> Outcome, stream: Bytes, budget: nat)
    requires StreamParser(parse) && budget > 0 && Frames(parse, stream, budget).stop == Waiting
    ensures parse(Frames(parse, stream, budget).rest) == NeedMore
    decreases |stream|
  {
    if parse(stream).Parsed? {
      WaitingNeedsMore(parse, stream[parse(stream).consumed..], budget - 1);
    }
  }

  /** The same frames handled, the same reason to stop and, if it is to wait, the same bytes left over. */
  ghost predicate SameReading(p: Progress, q: Progress) {
    p.frames == q.frames && p.stop == q.stop && (p.stop == Waiting ==> p.rest == q.rest)
  }

  lemma PrependSame(fs: seq<Frame>, p: Progress, q: Progress)
    requires SameReading(p, q)
    ensures SameReading(Prepend(fs, p), Prepend(fs, q))
  {
  }

  /** Unless the size guard fires, chunked reading handles the frames of the whole stream. */
  lemma {:induction false} FeedIsFrames(parse: Bytes -> Outcome, accum: Bytes, chunks: seq<Chunk>, budget: nat)
    requires StreamParser(parse) && budget > 0 && parse(accum) == NeedMore && AllOpen(chunks)
    requires Feed(parse, accum, chunks, budget).stop != Oversize
    ensures SameReading(Feed(parse, accum, chunks, budget), Frames(parse, accum + Flatten(chunks), budget))
    decreases |chunks|
  {
    if chunks == [] {
      assert accum + [] == accum;
    } else {
      var buf, later := accum + chunks[0].bytes, Flatten(chunks[1..]);
      var p := Frames(parse, buf, budget);
      FeedStep(parse, accum, chunks, budget, buf, p);
      FlattenStep(accum, chunks);
      if p.stop == Waiting {
        ContinueAt(parse, buf, later, budget, p);
        WaitingNeedsMore(parse, buf, budget);
        FeedIsFrames(parse, p.rest, chunks[1..], budget - |p.frames|);
        PrependSame(p.frames, Feed(parse, p.rest, chunks[1..], budget - |p.frames|),
                    Frames(parse, p.rest + later, budget - |p.frames|));
      } else {
        FramesSplit(parse, buf, later, budget);
      }
    }
  }

  lemma EmptyNeedsMore()
    ensures ParseFrame([]) == NeedMore
  {
  }

  /**
   Chunking independence: any two splits of the same stream handle the same frames, those of the
   stream read at once, and stop for the same reason, as long as neither trips the size guard and
   nobody else closes the connection.
   */
  lemma ChunkingIndependence(chunks: seq<Chunk>, chunks': seq<Chunk>, budget: nat)
    requires budget > 0 && Flatten(chunks) == Flatten(chunks') && AllOpen(chunks) && AllOpen(chunks')
    ensures StreamParser(ParseFrame)
    ensures var fed, fed' := Feed(ParseFrame, [], chunks, budget), Feed(ParseFrame, [], chunks', budget);
            fed.stop != Oversize && fed'.stop != Oversize ==>
              && fed.frames == fed'.frames == Frames(ParseFrame, Flatten(chunks), budget).frames
              && fed.stop == fed'.stop
  {
    FramesAreStreamed();
    EmptyNeedsMore();
    assert [] + Flatten(chunks) == Flatten(chunks) == [] + Flatten(chunks');
    if Feed(ParseFrame, [], chunks, budget).stop != Oversize && Feed(ParseFrame, [], chunks', budget).stop != Oversize {
      FeedIsFrames(ParseFrame, [], chunks, budget);
      FeedIsFrames(ParseFrame, [], chunks', budget);
    }
  }

  // ------------------------------------------------------ closed by another task

  lemma FirstFrame(parse: Bytes -> Outcome, stream: Bytes, budget: nat)
    requires StreamParser(parse) && budget > 0
    ensures var one := Frames(parse, stream, 1);
            |one.frames| <= 1 && one.frames <= Frames(parse, stream, budget).frames
  {
  }

  lemma SplitPrefix(parse: Bytes -> Outcome, a: Bytes, b: Bytes, budget: nat)
    requires StreamParser(parse) && budget > 0
    ensures Frames(parse, a, budget).frames <= Frames(parse, a + b, budget).frames
  {
    FramesSplit(parse, a, b, budget);
  }

  lemma PrefixAfter(a: seq<Frame>, b: seq<Frame>, c: seq<Frame>)
    requires b <= c
    ensures a + b <= a + c
  {
  }

  lemma ReadPrefix(parse: Bytes -> Outcome, buf: Bytes, closed: bool, budget: nat)
    requires StreamParser(parse) && budget > 0
    ensures var p := AfterRead(parse, buf, closed, budget);
            && p.frames <= Frames(parse, buf, budget).frames
            && (closed ==> p.stop != Waiting && |p.frames| <= 1)
  {
    FirstFrame(parse, buf, budget);
  }

  /** Whatever happens, what is handled is an initial part of the frames of the stream. */
  lemma {:induction false} FeedPrefix(parse: Bytes -> Outcome, accum: Bytes, chunks: seq<Chunk>, budget: nat)
    requires StreamParser(parse) && budget > 0
    ensures Feed(parse, accum, chunks, budget).frames <= Frames(parse, accum + Flatten(chunks), budget).frames
    decreases |chunks|
  {
    if chunks != [] {
      var buf, later := accum + chunks[0].bytes, Flatten(chunks[1..]);
      var p := AfterRead(parse, buf, chunks[0].closed, budget);
      FeedStep(parse, accum, chunks, budget, buf, p);
      FlattenStep(accum, chunks);
      SplitPrefix(parse, buf, later, budget);
      ReadPrefix(parse, buf, chunks[0].closed, budget);
      if p.stop == Waiting {
        ContinueAt(parse, buf, later, budget, p);
        FeedPrefix(parse, p.rest, chunks[1..], budget - |p.frames|);
        PrefixAfter(p.frames, Feed(parse, p.rest, chunks[1..], budget - |p.frames|).frames,
                    Frames(parse, p.rest + later, budget - |p.frames|).frames);
      }
    }
  }

  lemma {:induction false} CloseEnds(parse: Bytes -> Outcome, accum: Bytes, chunks: seq<Chunk>, k: nat, budget: nat)
    requires StreamParser(parse) && budget > 0 && k < |chunks| && chunks[k].closed
    ensures Feed(parse, accum, chunks, budget).stop != Waiting
    ensures |Feed(parse, accum, chunks, budget).frames| <= |Feed(parse, accum, chunks[..k], budget).frames| + 1
    decreases |chunks|
  {
    var buf := accum + chunks[0].bytes;
    var p := AfterRead(parse, buf, chunks[0].closed, budget);
    FeedStep(parse, accum, chunks, budget, buf, p);
    ReadPrefix(parse, buf, chunks[0].closed, budget);
    if k > 0 {
      assert chunks[..k][1..] == chunks[1..][..k - 1];
      FeedStep(parse, accum, chunks[..k], budget, buf, p);
      if p.stop == Waiting {
        CloseEnds(parse, p.rest, chunks[1..], k - 1, budget - |p.frames|);
      }
    }
  }

  /** What one read on a closed connection comes to: its first frame, if there is one, and no more. */
  lemma ClosedRead(parse: Bytes -> Outcome, buf: Bytes, budget: nat)
    requires StreamParser(parse) && budget > 0
    ensures AfterRead(parse, buf, true, budget) ==
            match parse(buf)
            case NeedMore => Progress([], buf, Closed)
            case Failed(_) => Progress([], buf, Malformed)
            case Parsed(f, n) => Progress([f], buf[n..], Closed)
  {
  }

  /** Reading some chunks and then the others. */
  lemma {:induction false} FeedOn(parse: Bytes -> Outcome, accum: Bytes, chunks: seq<Chunk>, k: nat, budget: nat)
    requires StreamParser(parse) && budget > 0 && k <= |chunks| && Feed(parse, accum, chunks[..k], budget).stop == Waiting
    ensures var p := Feed(parse, accum, chunks[..k], budget);
            && |p.frames| < budget
            && Feed(parse, accum, chunks, budget) == Prepend(p.frames, Feed(parse, p.rest, chunks[k..], budget - |p.frames|))
    decreases k
  {
    if k == 0 {
      assert chunks[k..] == chunks;
      var q := Feed(parse, accum, chunks, budget);
      assert [] + q.frames == q.frames;
    } else {
      var buf := accum + chunks[0].bytes;
      var p := AfterRead(parse, buf, chunks[0].closed, budget);
      assert chunks[..k][1..] == chunks[1..][..k - 1] && chunks[1..][k - 1..] == chunks[k..];
      FeedStep(parse, accum, chunks, budget, buf, p);
      FeedStep(parse, accum, chunks[..k], budget, buf, p);
      FeedOn(parse, p.rest, chunks[1..], k - 1, budget - |p.frames|);
      var q := Feed(parse, p.rest, chunks[1..][..k - 1], budget - |p.frames|);
      PrependTwice(p.frames, q.frames, Feed(parse, q.rest, chunks[k..], budget - |p.frames| - |q.frames|));
    }
  }

  lemma ClosedAt(parse: Bytes -> Outcome, chunks: seq<Chunk>, k: nat, budget: nat, p: Progress)
    requires StreamParser(parse) && budget > 0 && k < |chunks| && chunks[k].closed
    requires p == Feed(parse, [], chunks[..k], budget) && p.stop == Waiting
    requires |p.rest + chunks[k].bytes| <= MAX_FRAME_SIZE
    ensures var fed, o := Feed(parse, [], chunks, budget), parse(p.rest + chunks[k].bytes);
            && fed.frames == p.frames + (if o.Parsed? then [o.frame] else [])
            && fed.stop == if o.Failed? then Malformed else Closed
  {
    FeedOn(parse, [], chunks, k, budget);
    var buf, left := p.rest + chunks[k].bytes, budget - |p.frames|;
    assert chunks[k..][0] == chunks[k];
    ClosedRead(parse, buf, left);
    FeedStep(parse, p.rest, chunks[k..], left, buf, AfterRead(parse, buf, true, left));
  }

  /**
   A close by another task while a read is awaited: the loop does not read again, at most one more
   frame is handled after what the earlier reads brought, and what is handled is still an initial
   part of the frames of the stream.  That frame is the first one there, if there is one, as long as
   the earlier reads left the loop waiting and the size guard does not fire.
   */
  lemma ClosedFromOutside(chunks: seq<Chunk>, k: nat, budget: nat)
    requires budget > 0 && k < |chunks| && chunks[k].closed
    ensures StreamParser(ParseFrame)
    ensures Feed(ParseFrame, [], chunks, budget).stop != Waiting
    ensures |Feed(ParseFrame, [], chunks, budget).frames| <= |Feed(ParseFrame, [], chunks[..k], budget).frames| + 1
    ensures Feed(ParseFrame, [], chunks, budget).frames <= Frames(ParseFrame, Flatten(chunks), budget).frames
    ensures var fed, p := Feed(ParseFrame, [], chunks, budget), Feed(ParseFrame, [], chunks[..k], budget);
            var o := ParseFrame(p.rest + chunks[k].bytes);
            p.stop == Waiting && |p.rest + chunks[k].bytes| <= MAX_FRAME_SIZE ==>
              && fed.frames == p.frames + (if o.Parsed? then [o.frame] else [])
              && fed.stop == if o.Failed? then Malformed else Closed
  {
    FramesAreStreamed();
    var p := Feed(ParseFrame, [], chunks[..k], budget);
    if p.stop == Waiting && |p.rest + chunks[k].bytes| <= MAX_FRAME_SIZE {
      ClosedAt(ParseFrame, chunks, k, budget, p);
    }
    CloseEnds(ParseFrame, [], chunks, k, budget);
    FeedPrefix(ParseFrame, [], chunks, budget);
    assert [] + Flatten(chunks) == Flatten(chunks);
  }

  // ----------------------------------------------------------- the size guard

  /** Every frame, an unfinished last one, and the bytes up to an error, are at most `limit` long. */
  ghost predicate FramesFit(parse: Bytes -> Outcome, stream: Bytes, limit: nat)
    requires StreamParser(parse)
    decreases |stream|
  {
    match parse(stream)
    case NeedMore => |stream| <= limit
    case Failed(_) => exists k :: 0 <= k <= limit && k <= |stream| && parse(stream[..k]).Failed?
    case Parsed(_, n) => n <= limit && FramesFit(parse, stream[n..], limit)
  }

  lemma LongerPrefix(parse: Bytes -> Outcome, stream: Bytes, j: nat, k: nat)
    requires StreamParser(parse) && j <= k <= |stream| && parse(stream[..j]) != NeedMore
    ensures parse(stream[..k]) == parse(stream[..j])
  {
    assert stream[..k] == stream[..j] + stream[j..k];
    assert KeepsOutcome(parse, stream[..j], stream[j..k]);
  }

  /** What is still incomplete at a frame boundary is within the limit. */
  lemma IncompleteFits(parse: Bytes -> Outcome, stream: Bytes, limit: nat, k: nat)
    requires StreamParser(parse) && FramesFit(parse, stream, limit)
    requires k <= |stream| && parse(stream[..k]) == NeedMore
    ensures k <= limit
  {
    match parse(stream)
    case NeedMore =>
    case Failed(_) =>
      var j :| 0 <= j <= limit && j <= |stream| && parse(stream[..j]).Failed?;
      if j <= k {
        LongerPrefix(parse, stream, j, k);
      }
    case Parsed(_, n) =>
      assert TakesItsOwn(parse, stream);
      if n <= k {
        LongerPrefix(parse, stream, n, k);
      }
  }

  lemma {:induction false} RestFits(parse: Bytes -> Outcome, a: Bytes, b: Bytes, limit: nat, budget: nat)
    requires StreamParser(parse) && budget > 0
    requires FramesFit(parse, a + b, limit) && Frames(parse, a, budget).stop == Waiting
    ensures FramesFit(parse, Frames(parse, a, budget).rest + b, limit)
    decreases |a|
  {
    if parse(a).Parsed? {
      var n := parse(a).consumed;
      assert KeepsOutcome(parse, a, b);
      assert (a + b)[n..] == a[n..] + b;
      RestFits(parse, a[n..], b, limit, budget - 1);
    }
  }

  lemma {:induction false} NeverOversize(parse: Bytes -> Outcome, accum: Bytes, chunks: seq<Chunk>, budget: nat)
    requires StreamParser(parse) && budget > 0 && parse(accum) == NeedMore
    requires FramesFit(parse, accum + Flatten(chunks), MAX_FRAME_SIZE - READ_BUFFER)
    requires forall i | 0 <= i < |chunks| :: |chunks[i].bytes| <= READ_BUFFER
    ensures Feed(parse, accum, chunks, budget).stop != Oversize
    decreases |chunks|
  {
    if chunks != [] {
      var stream := accum + Flatten(chunks);
      assert stream[..|accum|] == accum;
      IncompleteFits(parse, stream, MAX_FRAME_SIZE - READ_BUFFER, |accum|);
      var buf, later := accum + chunks[0].bytes, Flatten(chunks[1..]);
      var p := Frames(parse, buf, budget);
      FramesNeverOversize(parse, buf, budget);
      FramesNeverOversize(parse, buf, 1);
      if p.stop == Waiting && !chunks[0].closed {
        assert stream == buf + later;
        WaitingNeedsMore(parse, buf, budget);
        RestFits(parse, buf, later, MAX_FRAME_SIZE - READ_BUFFER, budget);
        NeverOversize(parse, p.rest, chunks[1..], budget - |p.frames|);
      }
    }
  }

  lemma {:induction false} FramesNeverOversize(parse: Bytes -> Outcome, stream: Bytes, budget: nat)
    requires StreamParser(parse) && budget > 0
    ensures Frames(parse, stream, budget).stop != Oversize
    decreases |stream|
  {
    if parse(stream).Parsed? && budget > 1 {
      FramesNeverOversize(parse, stream[parse(stream).consumed..], budget - 1);
    }
  }

  /**
   The size guard never fires when reads fit the read buffer and everything framed is at most
   MAX_FRAME_SIZE minus one read buffer; unless another task closes the connection, the reader then
   handles exactly the frames of the stream.
   */
  lemma GuardSilent(chunks: seq<Chunk>, budget: nat)
    requires budget > 0 && forall i | 0 <= i < |chunks| :: |chunks[i].bytes| <= READ_BUFFER
    ensures StreamParser(ParseFrame)
    ensures FramesFit(ParseFrame, Flatten(chunks), MAX_FRAME_SIZE - READ_BUFFER) ==>
              && Feed(ParseFrame, [], chunks, budget).stop != Oversize
              && (AllOpen(chunks) ==>
                    Feed(ParseFrame, [], chunks, budget).frames == Frames(ParseFrame, Flatten(chunks), budget).frames)
  {
    FramesAreStreamed();
    EmptyNeedsMore();
    assert [] + Flatten(chunks) == Flatten(chunks);
    if FramesFit(ParseFrame, Flatten(chunks), MAX_FRAME_SIZE - READ_BUFFER) {
      NeverOversize(ParseFrame, [], chunks, budget);
      if AllOpen(chunks) {
        FeedIsFrames(ParseFrame, [], chunks, budget);
      }
    }
  }

  lemma {:induction false} RestShorter(parse: Bytes -> Outcome, stream: Bytes, budget: nat)
    requires StreamParser(parse) && budget > 0
    ensures |Frames(parse, stream, budget).rest| <= |stream|
    decreases |stream|
  {
    if parse(stream).Parsed? && budget > 1 {
      RestShorter(parse, stream[parse(stream).consumed..], budget - 1);
    }
  }

  /** The guard fires exactly when what has accumulated is over the limit. */
  lemma {:induction false} OversizeExactly(parse: Bytes -> Outcome, accum: Bytes, chunks: seq<Chunk>, budget: nat)
    requires StreamParser(parse) && budget > 0 && |accum| <= MAX_FRAME_SIZE
    ensures var fed := Feed(parse, accum, chunks, budget); fed.stop == Oversize <==> |fed.rest| > MAX_FRAME_SIZE
    decreases |chunks|
  {
    if chunks != [] {
      var buf := accum + chunks[0].bytes;
      var p := AfterRead(parse, buf, chunks[0].closed, budget);
      FeedStep(parse, accum, chunks, budget, buf, p);
      var n := if chunks[0].closed then 1 else budget;
      RestShorter(parse, buf, n);
      FramesNeverOversize(parse, buf, n);
      if |buf| <= MAX_FRAME_SIZE && p.stop == Waiting {
        OversizeExactly(parse, p.rest, chunks[1..], budget - |p.frames|);
      }
    }
  }

  // ----------------------------------------------------------------- the loop

  /** `parse` is `ParseFrame`, without its definition in the proofs about the loop. */
  ghost predicate IsFrameParser(parse: Bytes -> Outcome) {
    forall buf: Bytes :: ParsesAs(parse, buf)
  }

  ghost predicate ParsesAs(parse: Bytes -> Outcome, buf: Bytes) {
    parse(buf) == ParseFrame(buf)
  }

  method Decode(buf: Bytes, ghost parse: Bytes -> Outcome) returns (o: Outcome)
    requires IsFrameParser(parse)
    ensures o == parse(buf)
  {
    o := RunParseFrame(buf);
    assert ParsesAs(parse, buf);
  }

  lemma PrependTwice(a: seq<Frame>, b: seq<Frame>, p: Progress)
    ensures Prepend(a, Prepend(b, p)) == Prepend(a + b, p)
  {
    assert a + (b + p.frames) == (a + b) + p.frames;
  }

  /** Where the inner loop stands: `handled` out of the first `consumed` bytes, the rest still to come. */
  ghost predicate MidBuffer(parse: Bytes -> Outcome, accum: Bytes, budget: nat, handled: seq<Frame>, consumed: nat)
    requires StreamParser(parse)
  {
    && consumed <= |accum|
    && |handled| < budget
    && Frames(parse, accum, budget) == Prepend(handled, Frames(parse, accum[consumed..], budget - |handled|))
  }

  lemma FrameHandled(parse: Bytes -> Outcome, accum: Bytes, budget: nat, handled: seq<Frame>, consumed: nat, f: Frame, n: nat)
    requires StreamParser(parse) && MidBuffer(parse, accum, budget, handled, consumed)
    requires parse(accum[consumed..]) == Parsed(f, n) && |handled| + 1 < budget
    ensures MidBuffer(parse, accum, budget, handled + [f], consumed + n)
  {
    var rest := accum[consumed..];
    var later := accum[consumed + n..];
    assert rest[n..] == later;
    FramesHead(parse, rest, budget - |handled|, later);
    PrependTwice(handled, [f], Frames(parse, later, budget - |handled| - 1));
  }

  lemma LastFrameHandled(parse: Bytes -> Outcome, accum: Bytes, budget: nat, handled: seq<Frame>, consumed: nat, f: Frame, n: nat)
    requires StreamParser(parse) && MidBuffer(parse, accum, budget, handled, consumed)
    requires parse(accum[consumed..]) == Parsed(f, n) && |handled| + 1 == budget
    ensures consumed + n <= |accum|
    ensures Frames(parse, accum, budget) == Progress(handled + [f], accum[consumed + n..], Closed)
  {
    assert accum[consumed..][n..] == accum[consumed + n..];
  }

  lemma OneHandled(parse: Bytes -> Outcome, accum: Bytes, budget: nat, handled: seq<Frame>, consumed: nat, f: Frame, n: nat)
    requires StreamParser(parse) && MidBuffer(parse, accum, budget, handled, consumed)
    requires parse(accum[consumed..]) == Parsed(f, n)
    ensures 0 < n && consumed + n <= |accum|
    ensures if |handled| + 1 == budget
            then Frames(parse, accum, budget) == Progress(handled + [f], accum[consumed + n..], Closed)
            else MidBuffer(parse, accum, budget, handled + [f], consumed + n)
  {
    if |handled| + 1 == budget {
      LastFrameHandled(parse, accum, budget, handled, consumed, f, n);
    } else {
      FrameHandled(parse, accum, budget, handled, consumed, f, n);
    }
  }

  lemma NothingHandled(parse: Bytes -> Outcome, accum: Bytes, budget: nat)
    requires StreamParser(parse) && budget > 0
    ensures MidBuffer(parse, accum, budget, [], 0)
  {
    assert accum[0..] == accum;
    assert [] + Frames(parse, accum, budget).frames == Frames(parse, accum, budget).frames;
  }

  lemma NothingMore(parse: Bytes -> Outcome, accum: Bytes, budget: nat, handled: seq<Frame>, consumed: nat)
    requires StreamParser(parse) && MidBuffer(parse, accum, budget, handled, consumed)
    requires !parse(accum[consumed..]).Parsed?
    ensures Frames(parse, accum, budget) ==
            Progress(handled, accum[consumed..], if parse(accum[consumed..]).NeedMore? then Waiting else Malformed)
  {
    assert handled + [] == handled;
  }

  /** The inner loop: handle complete frames at the head, then drop what was consumed. */
  method HandleBuffered(accum: Bytes, budget: nat, ghost parse: Bytes -> Outcome)
    returns (handled: seq<Frame>, rest: Bytes, stop: Stop)
    requires IsFrameParser(parse) && StreamParser(parse) && budget > 0
    ensures Progress(handled, rest, stop) == Frames(parse, accum, budget)
  {
    handled := [];
    var consumed := 0;
    NothingHandled(parse, accum, budget);
    while true
      invariant MidBuffer(parse, accum, budget, handled, consumed)
      decreases |accum| - consumed
    {
      var outcome := Decode(accum[consumed..], parse);
      match outcome
      case Parsed(frame, n) =>
        OneHandled(parse, accum, budget, handled, consumed, frame, n);
        handled := handled + [frame];
        consumed := consumed + n;
        if |handled| == budget {
          return handled, accum[consumed..], Closed;
        }
      case NeedMore =>
        NothingMore(parse, accum, budget, handled, consumed);
        return handled, accum[consumed..], Waiting;
      case Failed(_) =>
        NothingMore(parse, accum, budget, handled, consumed);
        return handled, accum[consumed..], Malformed;
    }
  }

  /** Where the outer loop stands before read i. */
  ghost predicate MidStream(parse: Bytes -> Outcome, chunks: seq<Chunk>, budget: nat, handled: seq<Frame>, accum: Bytes, i: nat)
    requires StreamParser(parse) && budget > 0
  {
    && i <= |chunks|
    && |handled| < budget
    && Feed(parse, [], chunks, budget) == Prepend(handled, Feed(parse, accum, chunks[i..], budget - |handled|))
  }

  lemma ChunkHandled(parse: Bytes -> Outcome, chunks: seq<Chunk>, budget: nat, handled: seq<Frame>, accum: Bytes, i: nat, p: Progress)
    requires StreamParser(parse) && budget > 0 && MidStream(parse, chunks, budget, handled, accum, i)
    requires i < |chunks| && |accum + chunks[i].bytes| <= MAX_FRAME_SIZE
    requires p == AfterRead(parse, accum + chunks[i].bytes, chunks[i].closed, budget - |handled|)
    ensures if p.stop == Waiting then MidStream(parse, chunks, budget, handled + p.frames, p.rest, i + 1)
            else Feed(parse, [], chunks, budget) == Prepend(handled, p)
  {
    assert chunks[i..][1..] == chunks[i + 1..];
    FeedStep(parse, accum, chunks[i..], budget - |handled|, accum + chunks[i].bytes, p);
    if p.stop == Waiting {
      PrependTwice(handled, p.frames, Feed(parse, p.rest, chunks[i + 1..], budget - |handled| - |p.frames|));
    }
  }

  lemma StreamEnds(parse: Bytes -> Outcome, chunks: seq<Chunk>, budget: nat, handled: seq<Frame>, accum: Bytes, i: nat)
    requires StreamParser(parse) && budget > 0 && MidStream(parse, chunks, budget, handled, accum, i)
    ensures i == |chunks| ==> Feed(parse, [], chunks, budget) == Progress(handled, accum, Waiting)
    ensures i < |chunks| && |accum + chunks[i].bytes| > MAX_FRAME_SIZE ==>
              Feed(parse, [], chunks, budget) == Progress(handled, accum + chunks[i].bytes, Oversize)
  {
    assert handled + [] == handled;
  }

  /** The reader task's loop over its reads. */
  method ReaderLoop(chunks: seq<Chunk>, budget: nat, ghost parse: Bytes -> Outcome)
    returns (handled: seq<Frame>, accum: Bytes, stop: Stop)
    requires IsFrameParser(parse) && StreamParser(parse) && budget > 0
    ensures Progress(handled, accum, stop) == Feed(parse, [], chunks, budget)
  {
    handled, accum, stop := [], [], Waiting;
    ghost var whole := Feed(parse, [], chunks, budget);
    assert chunks[0..] == chunks && [] + whole.frames == whole.frames;
    for i := 0 to |chunks|
      invariant stop == Waiting && MidStream(parse, chunks, budget, handled, accum, i)
    {
      StreamEnds(parse, chunks, budget, handled, accum, i);
      var buf := accum + chunks[i].bytes;
      if |buf| > MAX_FRAME_SIZE {
        return handled, buf, Oversize;
      }
      var some, rest, why := HandleBuffered(buf, if chunks[i].closed then 1 else budget - |handled|, parse);
      if chunks[i].closed && why == Waiting {
        why := Closed;
      }
      ChunkHandled(parse, chunks, budget, handled, accum, i, Progress(some, rest, why));
      handled, accum, stop := handled + some, rest, why;
      if stop != Waiting {
        return;
      }
    }
    StreamEnds(parse, chunks, budget, handled, accum, |chunks|);
  }

  /** The loop with the broker's own parser: what was handled is what `Feed` says. */
  method ReadStream(chunks: seq<Chunk>, budget: nat) returns (handled: seq<Frame>, accum: Bytes, stop: Stop)
    requires budget > 0
    ensures StreamParser(ParseFrame)
    ensures Progress(handled, accum, stop) == Feed(ParseFrame, [], chunks, budget)
  {
    FramesAreStreamed();
    handled, accum, stop := ReaderLoop(chunks, budget, ParseFrame);
  }
}
