/** Parser and printer are inverse, and the parser is stable under appended bytes. */
module Codec {
  import opened Wrappers
  import opened Bytes
  import opened Decimal
  import opened Wire
  import opened Parse

  // --------------------------------------------------------------- stability

  lemma {:induction false} LineEndExtends(buf: Bytes, more: Bytes)
    requires LineEnd(buf).Some?
    ensures LineEnd(buf + more) == LineEnd(buf)
  {
    if !(buf[0] == CR && buf[1] == LF) {
      LineEndExtends(buf[1..], more);
      assert (buf + more)[1..] == buf[1..] + more;
    }
  }

  lemma PayloadExtends(buf: Bytes, more: Bytes, header: nat, n: nat)
    requires header <= |buf| && Payload(buf, header, n) != Err(NeedMore)
    ensures Payload(buf + more, header, n) == Payload(buf, header, n)
  {
    if header + n + 2 <= |buf| {
      assert (buf + more)[header + n..header + n + 2] == buf[header + n..header + n + 2];
      assert (buf + more)[header..header + n] == buf[header..header + n];
    }
  }

  lemma ParseLineExtends(buf: Bytes, more: Bytes, verb: Bytes, rest: Bytes, header: nat)
    requires header <= |buf| && ParseLine(buf, verb, rest, header) != NeedMore
    ensures ParseLine(buf + more, verb, rest, header) == ParseLine(buf, verb, rest, header)
  {
    if verb == PUB || verb == MSG {
      var ts := Tokens(rest);
      if |ts| >= 2 {
        var n := ParseDecimal(ts[|ts| - 1]);
        if n.Some? && Payload(buf, header, n.value) != Err(NeedMore) {
          PayloadExtends(buf, more, header, n.value);
        }
      }
    }
  }

  /** A frame or an error, once found, is not changed by bytes that arrive later. */
  lemma Stable(buf: Bytes, more: Bytes)
    requires ParseFrame(buf) != NeedMore
    ensures ParseFrame(buf + more) == ParseFrame(buf)
  {
    LineEndExtends(buf, more);
    LineEndBounds(buf);
    var end := LineEnd(buf).value;
    assert (buf + more)[..end] == buf[..end];
    var (verb, rest) := SplitVerb(buf[..end]);
    ParseLineExtends(buf, more, verb, rest, end + 2);
  }

  lemma {:induction false} LineEndLocal(buf: Bytes, n: nat)
    requires LineEnd(buf).Some? && LineEnd(buf).value + 2 <= n <= |buf|
    ensures LineEnd(buf[..n]) == LineEnd(buf)
  {
    if !(buf[0] == CR && buf[1] == LF) {
      LineEndLocal(buf[1..], n - 1);
      assert buf[..n][1..] == buf[1..][..n - 1];
    }
  }

  /** A frame depends on nothing but the bytes it consumes, and it consumes some. */
  lemma Local(buf: Bytes)
    requires ParseFrame(buf).Parsed?
    ensures var n := ParseFrame(buf).consumed;
            2 <= n <= |buf| && ParseFrame(buf[..n]) == ParseFrame(buf)
  {
    LineEndBounds(buf);
    var end, n := LineEnd(buf).value, ParseFrame(buf).consumed;
    var (verb, rest) := SplitVerb(buf[..end]);
    ConsumedBounds(buf, verb, rest, end + 2);
    LineEndLocal(buf, n);
    assert buf[..n][..end] == buf[..end];
    ParseLineLocal(buf, verb, rest, end + 2, n);
  }

  lemma ConsumedBounds(buf: Bytes, verb: Bytes, rest: Bytes, header: nat)
    requires header <= |buf| && ParseLine(buf, verb, rest, header).Parsed?
    ensures header <= ParseLine(buf, verb, rest, header).consumed <= |buf|
  {
  }

  lemma ParseLineLocal(buf: Bytes, verb: Bytes, rest: Bytes, header: nat, n: nat)
    requires header <= n <= |buf| && ParseLine(buf, verb, rest, header).Parsed?
    requires n == ParseLine(buf, verb, rest, header).consumed
    ensures ParseLine(buf[..n], verb, rest, header) == ParseLine(buf, verb, rest, header)
  {
    if verb == PUB || verb == MSG {
      var ts := Tokens(rest);
      var len := ParseDecimal(ts[|ts| - 1]).value;
      assert buf[..n][header + len..header + len + 2] == buf[header + len..header + len + 2];
      assert buf[..n][header..header + len] == buf[header..header + len];
    }
  }

  // -------------------------------------------------------------- round trip

  lemma {:induction false} LineEndAt(line: Bytes, more: Bytes)
    requires NoCrlf(line)
    ensures LineEnd(line + CRLF + more) == Some(|line|)
  {
    var buf := line + CRLF + more;
    if line == [] {
      assert buf[0] == CR && buf[1] == LF;
    } else {
      assert buf[1..] == line[1..] + CRLF + more;
      LineEndAt(line[1..], more);
      if |line| == 1 {
        assert buf[1] == CR;
      } else {
        assert buf[0] == line[0] && buf[1] == line[1];
      }
    }
  }

  lemma {:induction false} FirstBlankAt(t: Bytes, more: Bytes)
    requires forall i | 0 <= i < |t| :: !Blank(t[i])
    requires more == [] || Blank(more[0])
    ensures FirstBlank(t + more) == |t|
  {
    if t == [] {
      assert t + more == more;
    } else {
      assert (t + more)[1..] == t[1..] + more;
      FirstBlankAt(t[1..], more);
    }
  }

  lemma TokensHead(t: Bytes, more: Bytes)
    requires TokenOk(t) && (more == [] || Blank(more[0]))
    ensures Tokens(t + more) == [t] + Tokens(more)
  {
    var s := t + more;
    assert s[0] == t[0];
    FirstBlankAt(t, more);
    assert s[..|t|] == t && s[|t|..] == more;
  }

  lemma TokensSkip(more: Bytes)
    ensures Tokens([SP] + more) == Tokens(more)
  {
    assert ([SP] + more)[1..] == more;
  }

  ghost predicate AllTokens(ts: seq<Bytes>) {
    forall i | 0 <= i < |ts| :: TokenOk(ts[i])
  }

  /** Splitting spaced fields gives the fields back. */
  lemma {:induction false} TokensSpaced(ts: seq<Bytes>)
    requires AllTokens(ts)
    ensures Tokens(Spaced(ts)) == ts
  {
    if |ts| == 1 {
      TokensHead(ts[0], []);
      assert ts[0] + [] == ts[0];
    } else if |ts| > 1 {
      var more := Spaced(ts[1..]);
      TokensSpaced(ts[1..]);
      TokensHead(ts[0], [SP] + more);
      TokensSkip(more);
      assert ts[0] + [SP] + more == ts[0] + ([SP] + more);
    }
  }

  lemma NoCrlfSpace(a: Bytes, b: Bytes)
    requires NoCrlf(a) && NoCrlf(b)
    ensures NoCrlf(a + [SP] + b)
  {
    var s := a + [SP] + b;
    forall i | 0 <= i < |s| - 1
      ensures !(s[i] == CR && s[i + 1] == LF)
    {
      if i > |a| {
        assert s[i] == b[i - |a| - 1] && s[i + 1] == b[i - |a|];
      }
    }
  }

  lemma {:induction false} NoCrlfSpaced(ts: seq<Bytes>)
    requires forall i | 0 <= i < |ts| :: NoCrlf(ts[i])
    ensures NoCrlf(Spaced(ts))
  {
    if |ts| > 1 {
      NoCrlfSpaced(ts[1..]);
      NoCrlfSpace(ts[0], Spaced(ts[1..]));
    }
  }

  lemma DigitsToken(n: nat)
    ensures TokenOk(Digits(n))
  {
    DigitsValue(n);
    assert forall i | 0 <= i < |Digits(n)| :: IsDigit(Digits(n)[i]);
  }

  predicate Tokenized(f: Frame) {
    f.Sub? || f.Unsub? || f.Pub? || f.Msg?
  }

  lemma FieldsTokens(f: Frame)
    requires Legal(f) && Tokenized(f)
    ensures AllTokens(Fields(f))
  {
    if HasPayload(f) {
      DigitsToken(|f.payload|);
    } else if f.Unsub? && f.maxMsgs.Some? {
      DigitsToken(f.maxMsgs.value);
    }
  }

  lemma VerbPlain(f: Frame)
    ensures NoCrlf(Verb(f)) && forall i | 0 <= i < |Verb(f)| :: !Blank(Verb(f)[i])
  {
  }

  /** The first line of an encoded frame splits back into its verb and arguments. */
  lemma LineSplits(f: Frame)
    requires Legal(f)
    ensures NoCrlf(Line(f))
    ensures SplitVerb(Line(f)) == (Verb(f), Spaced(Fields(f)))
  {
    VerbPlain(f);
    var args := Spaced(Fields(f));
    if Bare(f) {
      FirstBlankAt(Verb(f), []);
      assert Verb(f) + [] == Verb(f);
    } else {
      if Tokenized(f) {
        FieldsTokens(f);
      }
      NoCrlfSpaced(Fields(f));
      NoCrlfSpace(Verb(f), args);
      FirstBlankAt(Verb(f), [SP] + args);
      assert Line(f) == Verb(f) + ([SP] + args);
      assert Line(f)[..|Verb(f)|] == Verb(f) && Line(f)[|Verb(f)| + 1..] == args;
    }
  }

  lemma PayloadBack(f: Frame, more: Bytes)
    requires Legal(f) && HasPayload(f)
    ensures var buf, header, n := Encode(f) + more, |Line(f)| + 2, |f.payload|;
            && header + n + 2 == |Encode(f)|
            && ParseDecimal(Digits(n)) == Some(n)
            && Payload(buf, header, n) == Ok(f.payload)
  {
    var buf, header, n := Encode(f) + more, |Line(f)| + 2, |f.payload|;
    DecimalRoundTrip(n);
    assert buf[header..header + n] == f.payload;
    assert buf[header + n..header + n + 2] == CRLF;
  }

  lemma PubBack(f: Frame, buf: Bytes, header: nat)
    requires f.Pub? && header <= |buf|
    requires ParseDecimal(Digits(|f.payload|)) == Some(|f.payload|) && Payload(buf, header, |f.payload|) == Ok(f.payload)
    ensures ParsePub(buf, Fields(f), header) == Parsed(f, header + |f.payload| + 2)
  {
  }

  lemma MsgBack(f: Frame, buf: Bytes, header: nat)
    requires f.Msg? && header <= |buf|
    requires ParseDecimal(Digits(|f.payload|)) == Some(|f.payload|) && Payload(buf, header, |f.payload|) == Ok(f.payload)
    ensures ParseMsg(buf, Fields(f), header) == Parsed(f, header + |f.payload| + 2)
  {
  }

  lemma PubMsgBack(f: Frame, more: Bytes)
    requires Legal(f) && HasPayload(f)
    ensures |Line(f)| + 2 <= |Encode(f) + more|
    ensures ParseLine(Encode(f) + more, Verb(f), Spaced(Fields(f)), |Line(f)| + 2) == Parsed(f, |Encode(f)|)
  {
    var buf, header := Encode(f) + more, |Line(f)| + 2;
    PayloadBack(f, more);
    assert Tokens(Spaced(Fields(f))) == Fields(f) by {
      FieldsTokens(f);
      TokensSpaced(Fields(f));
    }
    if f.Pub? {
      PubBack(f, buf, header);
      assert ParseLine(buf, PUB, Spaced(Fields(f)), header) == ParsePub(buf, Fields(f), header);
    } else {
      MsgBack(f, buf, header);
      assert ParseLine(buf, MSG, Spaced(Fields(f)), header) == ParseMsg(buf, Fields(f), header);
    }
  }

  lemma SubLine(buf: Bytes, rest: Bytes, header: nat)
    requires header <= |buf|
    ensures ParseLine(buf, SUB, rest, header) == ParseSub(Tokens(rest), header)
    ensures ParseLine(buf, UNSUB, rest, header) == ParseUnsub(Tokens(rest), header)
  {
  }

  lemma SubBack(f: Frame, buf: Bytes)
    requires Legal(f) && (f.Sub? || f.Unsub?) && |Encode(f)| <= |buf|
    ensures ParseLine(buf, Verb(f), Spaced(Fields(f)), |Line(f)| + 2) == Parsed(f, |Encode(f)|)
  {
    var header := |Line(f)| + 2;
    assert Tokens(Spaced(Fields(f))) == Fields(f) by {
      FieldsTokens(f);
      TokensSpaced(Fields(f));
    }
    SubLine(buf, Spaced(Fields(f)), header);
    if f.Sub? {
      SubFieldsBack(f, header);
    } else {
      UnsubFieldsBack(f, header);
    }
  }

  lemma SubFieldsBack(f: Frame, header: nat)
    requires Legal(f) && f.Sub?
    ensures ParseSub(Fields(f), header) == Parsed(f, header)
  {
  }

  lemma UnsubFieldsBack(f: Frame, header: nat)
    requires Legal(f) && f.Unsub?
    ensures ParseUnsub(Fields(f), header) == Parsed(f, header)
  {
    if f.maxMsgs.Some? {
      DecimalRoundTrip(f.maxMsgs.value);
    }
  }

  lemma PlainBack(f: Frame, buf: Bytes)
    requires Legal(f) && !Tokenized(f) && |Line(f)| + 2 <= |buf|
    ensures ParseLine(buf, Verb(f), Spaced(Fields(f)), |Line(f)| + 2) == Parsed(f, |Encode(f)|)
  {
  }

  /** Parsing a buffer that starts with a known line is parsing that line. */
  lemma ParseAfterLine(line: Bytes, tail: Bytes)
    requires NoCrlf(line)
    ensures var (verb, rest) := SplitVerb(line);
            ParseFrame(line + CRLF + tail) == ParseLine(line + CRLF + tail, verb, rest, |line| + 2)
  {
    LineEndAt(line, tail);
    assert (line + CRLF + tail)[..|line|] == line;
  }

  lemma EncodingStartsWithLine(f: Frame, more: Bytes)
    requires Legal(f)
    ensures |Line(f)| + 2 <= |Encode(f)|
    ensures ParseFrame(Encode(f) + more) == ParseLine(Encode(f) + more, Verb(f), Spaced(Fields(f)), |Line(f)| + 2)
  {
    var body := if HasPayload(f) then f.payload + CRLF else [];
    MoreAfterBody(Line(f), body, more);
    assert Encode(f) == Line(f) + CRLF + body;
    LineSplits(f);
    ParseAfterLine(Line(f), body + more);
  }

  lemma MoreAfterBody(line: Bytes, body: Bytes, more: Bytes)
    ensures line + CRLF + body + more == line + CRLF + (body + more)
  {
  }

  lemma ArgumentsBack(f: Frame, more: Bytes)
    requires Legal(f) && |Line(f)| + 2 <= |Encode(f)|
    ensures ParseLine(Encode(f) + more, Verb(f), Spaced(Fields(f)), |Line(f)| + 2) == Parsed(f, |Encode(f)|)
  {
    if HasPayload(f) {
      PubMsgBack(f, more);
    } else if Tokenized(f) {
      SubBack(f, Encode(f) + more);
    } else {
      PlainBack(f, Encode(f) + more);
    }
  }

  /**
   Codec round trip: for every legal frame and any trailing bytes, parsing the encoding followed by
   those bytes gives the frame back and consumes exactly the encoding.
   */
  lemma RoundTrip(f: Frame, more: Bytes)
    requires Legal(f)
    ensures ParseFrame(Encode(f) + more) == Parsed(f, |Encode(f)|)
  {
    EncodingStartsWithLine(f, more);
    ArgumentsBack(f, more);
  }

  // ----------------------------------------------------------- normalisation

  lemma NoCrlfSlice(s: Bytes, lo: nat, hi: nat)
    requires NoCrlf(s) && lo <= hi <= |s|
    ensures NoCrlf(s[lo..hi])
  {
    forall i | 0 <= i < hi - lo - 1
      ensures !(s[lo..hi][i] == CR && s[lo..hi][i + 1] == LF)
    {
      assert s[lo..hi][i] == s[lo + i] && s[lo..hi][i + 1] == s[lo + i + 1];
    }
  }

  lemma {:induction false} TrimSuffix(s: Bytes)
    ensures Trim(s) == s[|s| - |Trim(s)|..]
  {
    if s != [] && Blank(s[0]) {
      TrimSuffix(s[1..]);
    }
  }

  lemma {:induction false} NoBlankBefore(s: Bytes)
    ensures forall i | 0 <= i < FirstBlank(s) :: !Blank(s[i])
    ensures FirstBlank(s) < |s| ==> Blank(s[FirstBlank(s)])
  {
    if s != [] && !Blank(s[0]) {
      NoBlankBefore(s[1..]);
      forall i | 0 <= i < FirstBlank(s)
        ensures !Blank(s[i])
      {
        if i > 0 {
          assert s[i] == s[1..][i - 1];
        }
      }
    }
  }

  function TotalLength(ts: seq<Bytes>): nat {
    if ts == [] then 0 else |ts[0]| + TotalLength(ts[1..])
  }

  /** Tokens of a line are legal tokens, and with one space between them they are no longer than it. */
  lemma {:induction false} TokensLegal(s: Bytes)
    requires NoCrlf(s)
    ensures AllTokens(Tokens(s))
    ensures Tokens(s) != [] ==> TotalLength(Tokens(s)) + |Tokens(s)| - 1 <= |s|
    decreases |s|
  {
    var t := Trim(s);
    TrimSuffix(s);
    if t != [] {
      NoCrlfSlice(s, |s| - |t|, |s|);
      var k := FirstBlank(t);
      FirstTokenLegal(t);
      NoCrlfSlice(t, k, |t|);
      var more := t[k..];
      TokensLegal(more);
      assert Tokens(s) == [t[..k]] + Tokens(more);
      TotalFirst(t[..k], Tokens(more));
      if more != [] {
        NoBlankBefore(t);
        TokensAfterBlank(more);
      }
    }
  }

  lemma FirstTokenLegal(t: Bytes)
    requires t != [] && !Blank(t[0]) && NoCrlf(t)
    ensures TokenOk(t[..FirstBlank(t)])
  {
    NoBlankBefore(t);
    NoCrlfSlice(t, 0, FirstBlank(t));
  }

  lemma TotalFirst(t: Bytes, ts: seq<Bytes>)
    ensures TotalLength([t] + ts) == |t| + TotalLength(ts)
  {
    assert ([t] + ts)[1..] == ts;
  }

  /** A leading blank leaves room for the separator. */
  lemma TokensAfterBlank(s: Bytes)
    requires s != [] && Blank(s[0]) && NoCrlf(s)
    ensures Tokens(s) != [] ==> TotalLength(Tokens(s)) + |Tokens(s)| <= |s|
    decreases |s|
  {
    NoCrlfSlice(s, 1, |s|);
    assert Tokens(s) == Tokens(s[1..]);
    TokensLegal(s[1..]);
  }

  lemma {:induction false} SpacedLength(ts: seq<Bytes>)
    requires ts != []
    ensures |Spaced(ts)| == TotalLength(ts) + |ts| - 1
  {
    if |ts| > 1 {
      SpacedLength(ts[1..]);
    } else {
      assert ts[1..] == [];
    }
  }

  lemma {:induction false} TotalLengthLast(ts: seq<Bytes>, t: Bytes)
    ensures TotalLength(ts + [t]) == TotalLength(ts) + |t|
  {
    if ts == [] {
      assert ([] + [t])[1..] == [];
    } else {
      assert (ts + [t])[1..] == ts[1..] + [t];
      TotalLengthLast(ts[1..], t);
    }
  }

  /** Replacing the count token by its canonical digits does not lengthen the line. */
  lemma CanonicalNotLonger(ts: seq<Bytes>, n: nat)
    requires ts != [] && ParseDecimal(ts[|ts| - 1]) == Some(n)
    ensures |Spaced(ts[..|ts| - 1] + [Digits(n)])| <= TotalLength(ts) + |ts| - 1
  {
    var front, last := ts[..|ts| - 1], ts[|ts| - 1];
    assert ts == front + [last];
    TotalLengthLast(front, last);
    TotalLengthLast(front, Digits(n));
    SpacedLength(front + [Digits(n)]);
    DigitsShortest(last);
  }

  lemma PayloadFrameLegal(buf: Bytes, verb: Bytes, rest: Bytes, header: nat)
    requires header <= |buf| && NoCrlf(rest) && header == 4 + |rest| + 2
    requires verb == PUB || verb == MSG
    requires ParseLine(buf, verb, rest, header).Parsed?
    ensures Legal(ParseLine(buf, verb, rest, header).frame)
  {
    var ts := Tokens(rest);
    TokensLegal(rest);
    var f := ParseLine(buf, verb, rest, header).frame;
    var n := ParseDecimal(ts[|ts| - 1]).value;
    CanonicalNotLonger(ts, n);
    assert Fields(f) == ts[..|ts| - 1] + [Digits(n)];
    assert |Line(f)| + 2 <= header;
    assert |Encode(f)| <= header + n + 2;
  }

  lemma LineLegal(buf: Bytes, verb: Bytes, rest: Bytes, header: nat)
    requires header <= |buf| && NoCrlf(rest)
    requires header == |verb| + 1 + |rest| + 2 || (header == |verb| + 2 && rest == [])
    requires ParseLine(buf, verb, rest, header).Parsed?
    ensures Legal(ParseLine(buf, verb, rest, header).frame)
  {
    TokensLegal(rest);
    if verb == PUB || verb == MSG {
      PayloadFrameLegal(buf, verb, rest, header);
    }
  }

  /** Whatever bytes parse to a frame, that frame is legal. */
  lemma ParsedIsLegal(buf: Bytes)
    requires ParseFrame(buf).Parsed?
    ensures Legal(ParseFrame(buf).frame)
  {
    LineEndBounds(buf);
    var end := LineEnd(buf).value;
    var line := buf[..end];
    assert line == buf[..end + 1][0..end];
    NoCrlfSlice(buf[..end + 1], 0, end);
    var (verb, rest) := SplitVerb(line);
    if FirstBlank(line) < |line| {
      NoCrlfSlice(line, FirstBlank(line) + 1, |line|);
    }
    LineLegal(buf, verb, rest, end + 2);
  }

  /**
   Normalisation: for every byte string that parses to a frame, blanks, tabs and leading zeros
   notwithstanding, re-encoding and re-parsing gives that frame again.
   */
  lemma Normalises(buf: Bytes, more: Bytes)
    requires ParseFrame(buf).Parsed?
    ensures var f := ParseFrame(buf).frame;
            ParseFrame(Encode(f) + more) == Parsed(f, |Encode(f)|)
  {
    ParsedIsLegal(buf);
    RoundTrip(ParseFrame(buf).frame, more);
  }

  /** A frame survives the wire exactly when it is legal. */
  lemma RoundTripExactly(f: Frame)
    ensures ParseFrame(Encode(f)) == Parsed(f, |Encode(f)|) <==> Legal(f)
  {
    if Legal(f) {
      RoundTrip(f, []);
      assert Encode(f) + [] == Encode(f);
    } else if ParseFrame(Encode(f)).Parsed? {
      ParsedIsLegal(Encode(f));
    }
  }
}
