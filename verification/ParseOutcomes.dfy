/**
 What the parser answers for every buffer, said on its bytes: where the line ends, how its rest falls
 into words, which frame or which error that makes, and when more bytes can still make a frame of it.
 */
module ParseOutcomes {
  import opened Wrappers
  import opened Bytes
  import opened Decimal
  import opened Wire
  import opened Parse
  import C = Codec

  // ------------------------------------------------------------------- words

  predicate Blanks(s: Bytes) {
    forall i | 0 <= i < |s| :: s[i] == 32 || s[i] == 9
  }

  predicate Word(s: Bytes) {
    s != [] && forall i | 0 <= i < |s| :: s[i] != 32 && s[i] != 9
  }

  /** Words with blanks before, between and after them. */
  function Lay(gaps: seq<Bytes>, words: seq<Bytes>): Bytes
    requires |gaps| == |words| + 1
  {
    if words == [] then gaps[0] else gaps[0] + (words[0] + Lay(gaps[1..], words[1..]))
  }

  /** Only blanks in the gaps, at least one between two words, and no blanks in the words. */
  predicate Layout(gaps: seq<Bytes>, words: seq<Bytes>) {
    && |gaps| == |words| + 1
    && Blanks(gaps[0])
    && (words != [] ==> Word(words[0]) && (|words| > 1 ==> gaps[1] != []) && Layout(gaps[1..], words[1..]))
  }

  predicate LaidOut(s: Bytes, gaps: seq<Bytes>, words: seq<Bytes>) {
    Layout(gaps, words) && s == Lay(gaps, words)
  }

  lemma {:induction false} TrimBlanks(gap: Bytes, s: Bytes)
    requires Blanks(gap)
    ensures Trim(gap + s) == Trim(s)
  {
    if gap == [] {
      assert gap + s == s;
    } else {
      assert (gap + s)[0] == gap[0] && (gap + s)[1..] == gap[1..] + s;
      TrimBlanks(gap[1..], s);
    }
  }

  /** The first word and what follows it. */
  lemma FirstWord(gap: Bytes, word: Bytes, more: Bytes)
    requires Blanks(gap) && Word(word) && (more == [] || Blank(more[0]))
    ensures Tokens(gap + (word + more)) == [word] + Tokens(more)
  {
    var t := word + more;
    assert t[0] == word[0];
    TrimBlanks(gap, t);
    C.FirstBlankAt(word, more);
    assert t[..|word|] == word && t[|word|..] == more;
  }

  lemma AfterWord(gaps: seq<Bytes>, words: seq<Bytes>)
    requires words != [] && Layout(gaps, words)
    ensures var more := Lay(gaps[1..], words[1..]); more == [] || Blank(more[0])
  {
    var gap := gaps[1..][0];
    assert gap == gaps[1] && Blanks(gap);
  }

  /** However the words are laid out, they are the tokens. */
  lemma {:induction false} LayoutTokens(s: Bytes, gaps: seq<Bytes>, words: seq<Bytes>)
    requires LaidOut(s, gaps, words)
    ensures Tokens(s) == words
    decreases |words|
  {
    if words == [] {
      TrimBlanks(s, []);
      assert s + [] == s;
    } else {
      AfterWord(gaps, words);
      var more := Lay(gaps[1..], words[1..]);
      LayoutTokens(more, gaps[1..], words[1..]);
      FirstWord(gaps[0], words[0], more);
    }
  }

  lemma {:induction false} TrimCuts(s: Bytes) returns (gap: Bytes)
    ensures s == gap + Trim(s) && Blanks(gap)
    ensures s != [] && Blank(s[0]) ==> gap != []
  {
    gap := [];
    if s != [] && Blank(s[0]) {
      gap := TrimCuts(s[1..]);
      gap := [s[0]] + gap;
    }
  }

  lemma {:induction false} FirstBlankCuts(s: Bytes)
    requires s != [] && !Blank(s[0])
    ensures var k := FirstBlank(s); Word(s[..k]) && (k < |s| ==> Blank(s[k]))
  {
    if |s| > 1 && !Blank(s[1]) {
      FirstBlankCuts(s[1..]);
      var k := FirstBlank(s[1..]);
      assert s[..k + 1] == [s[0]] + s[1..][..k];
    }
  }

  lemma OneMoreWord(gap: Bytes, word: Bytes, more: Bytes, gaps: seq<Bytes>, words: seq<Bytes>)
    requires Blanks(gap) && Word(word) && LaidOut(more, gaps, words) && (words != [] ==> gaps[0] != [])
    ensures LaidOut(gap + (word + more), [gap] + gaps, [word] + words)
  {
    assert ([gap] + gaps)[1..] == gaps && ([word] + words)[1..] == words;
  }

  /** Every line falls into its tokens in some layout. */
  lemma {:induction false} TokensLayout(s: Bytes) returns (gaps: seq<Bytes>)
    ensures LaidOut(s, gaps, Tokens(s))
    ensures s != [] && Blank(s[0]) ==> gaps[0] != []
    decreases |s|
  {
    var gap := TrimCuts(s);
    var t := Trim(s);
    if t == [] {
      gaps := [gap];
    } else {
      var k := FirstBlank(t);
      FirstBlankCuts(t);
      var after := TokensLayout(t[k..]);
      gaps := [gap] + after;
      OneMoreWord(gap, t[..k], t[k..], after, Tokens(t[k..]));
      assert t == t[..k] + t[k..];
    }
  }

  /** The tokens of a line are its words, and nothing else is. */
  lemma TokensExactly(s: Bytes, words: seq<Bytes>)
    ensures Tokens(s) == words <==> exists gaps :: LaidOut(s, gaps, words)
  {
    if Tokens(s) == words {
      var gaps := TokensLayout(s);
    }
    if exists gaps :: LaidOut(s, gaps, words) {
      var gaps :| LaidOut(s, gaps, words);
      LayoutTokens(s, gaps, words);
    }
  }

  // -------------------------------------------------------------- the first line

  /** A buffer with a complete first line: a verb, at most one blank, the rest of the line, the bytes after it. */
  datatype Pieces = Pieces(verb: Bytes, gap: Bytes, rest: Bytes, tail: Bytes) {
    function Line(): Bytes {
      verb + gap + rest
    }

    function Header(): nat {
      |verb| + |gap| + |rest| + 2
    }
  }

  ghost predicate Complete(buf: Bytes, p: Pieces) {
    && buf == p.Line() + [13, 10] + p.tail
    && NoCrlf(p.Line())
    && (forall i | 0 <= i < |p.verb| :: p.verb[i] != 32 && p.verb[i] != 9)
    && ((p.gap == [] && p.rest == []) || p.gap == [32] || p.gap == [9])
  }

  lemma {:induction false} BlankFree(line: Bytes)
    ensures var k := FirstBlank(line);
            (forall i | 0 <= i < k :: !Blank(line[i])) && (k < |line| ==> Blank(line[k]))
  {
    if line != [] && !Blank(line[0]) {
      BlankFree(line[1..]);
    }
  }

  lemma SplitLine(line: Bytes) returns (verb: Bytes, gap: Bytes, rest: Bytes)
    ensures line == verb + gap + rest && SplitVerb(line) == (verb, rest)
    ensures forall i | 0 <= i < |verb| :: !Blank(verb[i])
    ensures (gap == [] && rest == []) || gap == [32] || gap == [9]
  {
    var k := FirstBlank(line);
    BlankFree(line);
    if k < |line| {
      verb, gap, rest := line[..k], [line[k]], line[k + 1..];
    } else {
      verb, gap, rest := line, [], [];
    }
  }

  lemma CutLine(buf: Bytes, end: nat)
    requires end + 2 <= |buf| && buf[end] == CR && buf[end + 1] == LF && NoCrlf(buf[..end + 1])
    ensures buf == buf[..end] + [13, 10] + buf[end + 2..] && NoCrlf(buf[..end])
  {
    assert buf[end..end + 2] == [13, 10];
    C.NoCrlfSlice(buf[..end + 1], 0, end);
    assert buf[..end + 1][0..end] == buf[..end];
  }

  /** Every buffer with a CRLF in it has a complete first line. */
  lemma HasPieces(buf: Bytes) returns (p: Pieces)
    requires !NoCrlf(buf)
    ensures Complete(buf, p)
  {
    LineEndBounds(buf);
    var end := LineEnd(buf).value;
    CutLine(buf, end);
    var verb, gap, rest := SplitLine(buf[..end]);
    p := Pieces(verb, gap, rest, buf[end + 2..]);
  }

  lemma VerbSplits(p: Pieces)
    requires forall i | 0 <= i < |p.verb| :: p.verb[i] != 32 && p.verb[i] != 9
    requires (p.gap == [] && p.rest == []) || p.gap == [32] || p.gap == [9]
    ensures SplitVerb(p.Line()) == (p.verb, p.rest)
  {
    var line := p.Line();
    C.FirstBlankAt(p.verb, p.gap + p.rest);
    assert line == p.verb + (p.gap + p.rest);
    if p.gap == [] {
      assert line == p.verb;
    } else {
      assert line[..|p.verb|] == p.verb && line[|p.verb| + 1..] == p.rest;
    }
  }

  lemma TailAfter(p: Pieces)
    ensures var buf := p.Line() + [13, 10] + p.tail; p.Header() <= |buf| && buf[p.Header()..] == p.tail
  {
  }

  /** Parsing such a buffer is parsing its line. */
  lemma ParsesLine(buf: Bytes, p: Pieces)
    requires Complete(buf, p)
    ensures p.Header() <= |buf| && ParseFrame(buf) == ParseLine(buf, p.verb, p.rest, p.Header())
    ensures buf[p.Header()..] == p.tail
  {
    TailAfter(p);
    VerbSplits(p);
    C.ParseAfterLine(p.Line(), p.tail);
  }

  // ------------------------------------------------------------ the outcome

  /** The verbs. */
  lemma VerbTexts()
    ensures PING == Ascii("PING") && PONG == Ascii("PONG") && OK == Ascii("+OK") && ERR == Ascii("-ERR")
    ensures CONNECT == Ascii("CONNECT") && INFO == Ascii("INFO")
    ensures SUB == Ascii("SUB") && UNSUB == Ascii("UNSUB") && PUB == Ascii("PUB") && MSG == Ascii("MSG")
  {
  }

  lemma OneMoreSpaced(a: Bytes, rest: seq<Bytes>)
    requires rest != []
    ensures Spaced([a] + rest) == a + [32] + Spaced(rest)
  {
    assert ([a] + rest)[1..] == rest;
  }

  lemma TwoSpaced(a: Bytes, b: Bytes)
    ensures Spaced([a, b]) == a + [32] + b
  {
    OneMoreSpaced(a, [b]);
    assert [a] + [b] == [a, b];
  }

  lemma ThreeSpaced(a: Bytes, b: Bytes, c: Bytes)
    ensures Spaced([a, b, c]) == a + [32] + b + [32] + c
  {
    OneMoreSpaced(a, [b, c]);
    TwoSpaced(b, c);
    assert [a] + [b, c] == [a, b, c];
    assert a + [32] + (b + [32] + c) == a + [32] + b + [32] + c;
  }

  lemma FourSpaced(a: Bytes, b: Bytes, c: Bytes, d: Bytes)
    ensures Spaced([a, b, c, d]) == a + [32] + b + [32] + c + [32] + d
  {
    OneMoreSpaced(a, [b, c, d]);
    ThreeSpaced(b, c, d);
    assert [a] + [b, c, d] == [a, b, c, d];
    assert a + [32] + (b + [32] + c + [32] + d) == a + [32] + b + [32] + c + [32] + d;
  }

  lemma PayloadForm(f: Frame, fields: Bytes)
    requires HasPayload(f) && Spaced(Fields(f)) == fields
    ensures Encode(f) == Verb(f) + [32] + fields + [13, 10] + (f.payload + [13, 10])
  {
  }

  lemma MsgFields(subject: Bytes, sid: Bytes, replyTo: Option<Bytes>, payload: Bytes, count: Bytes)
    requires count == Digits(|payload|)
    ensures Fields(Msg(subject, sid, replyTo, payload))
         == if replyTo.Some? then [subject, sid, replyTo.value, count] else [subject, sid, count]
  {
  }

  lemma PubFields(subject: Bytes, replyTo: Option<Bytes>, payload: Bytes, count: Bytes)
    requires count == Digits(|payload|)
    ensures Fields(Pub(subject, replyTo, payload))
         == if replyTo.Some? then [subject, replyTo.value, count] else [subject, count]
  {
  }

  /** The bytes of a MSG. */
  lemma MsgForm(subject: Bytes, sid: Bytes, reply: Bytes, payload: Bytes, count: Bytes)
    requires count == Digits(|payload|)
    ensures Encode(Msg(subject, sid, None, payload))
         == MSG + [32] + (subject + [32] + sid + [32] + count) + [13, 10] + (payload + [13, 10])
    ensures Encode(Msg(subject, sid, Some(reply), payload))
         == MSG + [32] + (subject + [32] + sid + [32] + reply + [32] + count) + [13, 10] + (payload + [13, 10])
  {
    ThreeSpaced(subject, sid, count);
    FourSpaced(subject, sid, reply, count);
    MsgFields(subject, sid, None, payload, count);
    MsgFields(subject, sid, Some(reply), payload, count);
    PayloadForm(Msg(subject, sid, None, payload), subject + [32] + sid + [32] + count);
    PayloadForm(Msg(subject, sid, Some(reply), payload), subject + [32] + sid + [32] + reply + [32] + count);
  }

  /** The bytes of a PUB. */
  lemma PubForm(subject: Bytes, reply: Bytes, payload: Bytes, count: Bytes)
    requires count == Digits(|payload|)
    ensures Encode(Pub(subject, None, payload))
         == PUB + [32] + (subject + [32] + count) + [13, 10] + (payload + [13, 10])
    ensures Encode(Pub(subject, Some(reply), payload))
         == PUB + [32] + (subject + [32] + reply + [32] + count) + [13, 10] + (payload + [13, 10])
  {
    TwoSpaced(subject, count);
    ThreeSpaced(subject, reply, count);
    PubFields(subject, None, payload, count);
    PubFields(subject, Some(reply), payload, count);
    PayloadForm(Pub(subject, None, payload), subject + [32] + count);
    PayloadForm(Pub(subject, Some(reply), payload), subject + [32] + reply + [32] + count);
  }

  /** The bytes of a SUB and of an UNSUB. */
  lemma SubForm(subject: Bytes, group: Bytes, sid: Bytes, n: nat)
    ensures Encode(Sub(subject, None, sid)) == SUB + [32] + (subject + [32] + sid) + [13, 10]
    ensures Encode(Sub(subject, Some(group), sid)) == SUB + [32] + (subject + [32] + group + [32] + sid) + [13, 10]
    ensures Encode(Unsub(sid, None)) == UNSUB + [32] + sid + [13, 10]
    ensures Encode(Unsub(sid, Some(n))) == UNSUB + [32] + (sid + [32] + Digits(n)) + [13, 10]
  {
    TwoSpaced(subject, sid);
    ThreeSpaced(subject, group, sid);
    TwoSpaced(sid, Digits(n));
    assert Fields(Sub(subject, None, sid)) == [subject, sid];
    assert Fields(Sub(subject, Some(group), sid)) == [subject, group, sid];
    assert Fields(Unsub(sid, None)) == [sid];
    assert Fields(Unsub(sid, Some(n))) == [sid, Digits(n)];
  }

  /** The bytes of the other frames. */
  lemma TextForm(text: Bytes)
    ensures Encode(ErrText(text)) == ERR + [32] + text + [13, 10]
    ensures Encode(Info(text)) == INFO + [32] + text + [13, 10]
    ensures Encode(Connect(text)) == CONNECT + [32] + text + [13, 10]
    ensures Encode(Ping) == PING + [13, 10] && Encode(Pong) == PONG + [13, 10] && Encode(OkAck) == OK + [13, 10]
  {
  }

  /** Lines without fields, lines taken verbatim, and verbs that are none. */
  lemma SimpleOutcome(buf: Bytes, p: Pieces)
    requires Complete(buf, p)
    ensures p.verb == PING ==> ParseFrame(buf) == if p.rest == [] then Parsed(Ping, p.Header()) else Failed(BadHeader)
    ensures p.verb == PONG ==> ParseFrame(buf) == if p.rest == [] then Parsed(Pong, p.Header()) else Failed(BadHeader)
    ensures p.verb == OK ==> ParseFrame(buf) == if p.rest == [] then Parsed(OkAck, p.Header()) else Failed(BadHeader)
    ensures p.verb == ERR ==> ParseFrame(buf) == Parsed(ErrText(p.rest), p.Header())
    ensures p.verb == CONNECT ==>
              ParseFrame(buf) == if p.rest == [] then Failed(BadHeader) else Parsed(Connect(p.rest), p.Header())
    ensures p.verb == INFO ==>
              ParseFrame(buf) == if p.rest == [] then Failed(BadHeader) else Parsed(Info(p.rest), p.Header())
    ensures ParseFrame(buf) == Failed(UnknownVerb) <==>
              p.verb !in [PING, PONG, OK, ERR, CONNECT, INFO, SUB, UNSUB, PUB, MSG]
  {
    ParsesLine(buf, p);
  }

  /** SUB and UNSUB, by their words; a bad count is told before a word too many. */
  lemma SubscriptionOutcome(buf: Bytes, p: Pieces, gaps: seq<Bytes>, ws: seq<Bytes>)
    requires Complete(buf, p) && LaidOut(p.rest, gaps, ws)
    ensures p.verb == SUB ==>
              ParseFrame(buf) == if |ws| == 2 then Parsed(Sub(ws[0], None, ws[1]), p.Header())
                                 else if |ws| == 3 then Parsed(Sub(ws[0], Some(ws[1]), ws[2]), p.Header())
                                 else Failed(BadHeader)
    ensures p.verb == UNSUB ==>
              ParseFrame(buf) == if |ws| == 0 then Failed(BadHeader)
                                 else if |ws| == 1 then Parsed(Unsub(ws[0], None), p.Header())
                                 else if ParseDecimal(ws[1]).None? then Failed(MaxMsgsInvalid)
                                 else if |ws| > 2 then Failed(BadHeader)
                                 else Parsed(Unsub(ws[0], ParseDecimal(ws[1])), p.Header())
  {
    ParsesLine(buf, p);
    LayoutTokens(p.rest, gaps, ws);
  }

  /** What follows a header that announces n bytes of payload. */
  function Body(p: Pieces, n: nat): Result<Bytes, Outcome> {
    if p.Header() + n + 2 > 0xFFFF_FFFF_FFFF_FFFF then Err(Failed(PayloadLengthInvalid))
    else if |p.tail| < n + 2 then Err(NeedMore)
    else if p.tail[n] == 13 && p.tail[n + 1] == 10 then Ok(p.tail[..n])
    else Err(Failed(MissingTrailingCrlf))
  }

  lemma BodyIsPayload(buf: Bytes, p: Pieces, n: nat)
    requires p.Header() <= |buf| && buf[p.Header()..] == p.tail
    ensures Payload(buf, p.Header(), n) == Body(p, n)
  {
    var h := p.Header();
    if |p.tail| >= n + 2 {
      assert buf[h + n..h + n + 2] == [p.tail[n], p.tail[n + 1]];
      assert buf[h..h + n] == p.tail[..n];
    }
  }

  /** PUB and MSG, by their words and the bytes after the line. */
  lemma PublicationOutcome(buf: Bytes, p: Pieces, gaps: seq<Bytes>, ws: seq<Bytes>)
    requires Complete(buf, p) && LaidOut(p.rest, gaps, ws)
    ensures p.verb == PUB ==>
              ParseFrame(buf) == if |ws| < 2 || |ws| > 3 then Failed(BadHeader)
                                 else if ParseDecimal(ws[|ws| - 1]).None? then Failed(PayloadLengthInvalid)
                                 else
                                   var n := ParseDecimal(ws[|ws| - 1]).value;
                                   if Body(p, n).Err? then Body(p, n).error
                                   else Parsed(Pub(ws[0], if |ws| == 3 then Some(ws[1]) else None, Body(p, n).value),
                                               p.Header() + n + 2)
    ensures p.verb == MSG ==>
              ParseFrame(buf) == if |ws| < 3 || |ws| > 4 then Failed(BadHeader)
                                 else if ParseDecimal(ws[|ws| - 1]).None? then Failed(PayloadLengthInvalid)
                                 else
                                   var n := ParseDecimal(ws[|ws| - 1]).value;
                                   if Body(p, n).Err? then Body(p, n).error
                                   else Parsed(Msg(ws[0], ws[1], if |ws| == 4 then Some(ws[2]) else None, Body(p, n).value),
                                               p.Header() + n + 2)
  {
    ParsesLine(buf, p);
    LayoutTokens(p.rest, gaps, ws);
    if ws != [] && ParseDecimal(ws[|ws| - 1]).Some? {
      BodyIsPayload(buf, p, ParseDecimal(ws[|ws| - 1]).value);
    }
  }

  // -------------------------------------------------------- when to wait for more

  /** A line that announces n bytes of payload, as far as it is well formed. */
  predicate Announces(p: Pieces, ws: seq<Bytes>, n: nat) {
    && ((p.verb == PUB && 2 <= |ws| <= 3) || (p.verb == MSG && 3 <= |ws| <= 4))
    && ParseDecimal(ws[|ws| - 1]) == Some(n)
    && p.Header() + n + 2 <= 0xFFFF_FFFF_FFFF_FFFF
  }

  lemma AnnouncedBody(buf: Bytes, p: Pieces, gaps: seq<Bytes>, ws: seq<Bytes>, n: nat)
    requires Complete(buf, p) && LaidOut(p.rest, gaps, ws) && Announces(p, ws, n)
    ensures Body(p, n).Err? ==> ParseFrame(buf) == Body(p, n).error
    ensures Body(p, n).Ok? ==> ParseFrame(buf).Parsed?
  {
    PublicationOutcome(buf, p, gaps, ws);
    if p.verb == PUB {
      assert PUB != MSG;
    }
  }

  lemma AnnouncedOutcome(buf: Bytes, p: Pieces, gaps: seq<Bytes>, ws: seq<Bytes>, n: nat)
    requires Complete(buf, p) && LaidOut(p.rest, gaps, ws) && Announces(p, ws, n)
    ensures ParseFrame(buf).NeedMore? <==> |p.tail| < n + 2
    ensures |p.tail| >= n + 2 ==>
              if p.tail[n] == 13 && p.tail[n + 1] == 10 then ParseFrame(buf).Parsed?
              else ParseFrame(buf) == Failed(MissingTrailingCrlf)
  {
    AnnouncedBody(buf, p, gaps, ws, n);
  }

  /** A complete line whose payload is not all there. */
  ghost predicate Waits(buf: Bytes, p: Pieces, gaps: seq<Bytes>, ws: seq<Bytes>, n: nat) {
    Complete(buf, p) && LaidOut(p.rest, gaps, ws) && Announces(p, ws, n) && |p.tail| < n + 2
  }

  lemma WaitingAnnounces(buf: Bytes, p: Pieces, gaps: seq<Bytes>, ws: seq<Bytes>) returns (n: nat)
    requires Complete(buf, p) && LaidOut(p.rest, gaps, ws) && ParseFrame(buf) == NeedMore
    ensures Waits(buf, p, gaps, ws, n)
  {
    SimpleOutcome(buf, p);
    SubscriptionOutcome(buf, p, gaps, ws);
    PublicationOutcome(buf, p, gaps, ws);
    n := ParseDecimal(ws[|ws| - 1]).value;
  }

  lemma NoLine(buf: Bytes)
    requires NoCrlf(buf)
    ensures ParseFrame(buf) == NeedMore
  {
    LineEndBounds(buf);
  }

  /** A buffer is waited on exactly when it has no CRLF or ends before the payload it announces does. */
  lemma NeedMoreExactly(buf: Bytes)
    ensures ParseFrame(buf) == NeedMore <==> NoCrlf(buf) || exists p, gaps, ws, n :: Waits(buf, p, gaps, ws, n)
  {
    if NoCrlf(buf) {
      NoLine(buf);
    } else if ParseFrame(buf) == NeedMore {
      var p := HasPieces(buf);
      var gaps := TokensLayout(p.rest);
      var n := WaitingAnnounces(buf, p, gaps, Tokens(p.rest));
    } else if exists p, gaps, ws, n :: Waits(buf, p, gaps, ws, n) {
      var p, gaps, ws, n :| Waits(buf, p, gaps, ws, n);
      AnnouncedOutcome(buf, p, gaps, ws, n);
    }
  }

  /** More bytes can make a frame of it. */
  ghost predicate Completable(buf: Bytes) {
    exists more :: ParseFrame(buf + more).Parsed?
  }

  lemma MoreTail(buf: Bytes, p: Pieces, more: Bytes)
    requires Complete(buf, p)
    ensures Complete(buf + more, p.(tail := p.tail + more))
  {
    assert p.(tail := p.tail + more).Line() == p.Line();
  }

  /** A payload's worth of bytes with its terminator, from whatever of it is there. */
  lemma Completed(buf: Bytes, p: Pieces, gaps: seq<Bytes>, ws: seq<Bytes>, n: nat) returns (more: Bytes)
    requires Waits(buf, p, gaps, ws, n) && (|p.tail| == n + 1 ==> p.tail[n] == 13)
    ensures ParseFrame(buf + more).Parsed?
  {
    more := if |p.tail| == n + 1 then [10] else seq(n - |p.tail|, _ => 0) + [13, 10];
    MoreTail(buf, p, more);
    AnnouncedOutcome(buf + more, p.(tail := p.tail + more), gaps, ws, n);
  }

  /** Once the byte after the payload is wrong, whatever comes next is an error. */
  lemma Spoilt(buf: Bytes, p: Pieces, gaps: seq<Bytes>, ws: seq<Bytes>, n: nat, more: Bytes)
    requires Waits(buf, p, gaps, ws, n) && |p.tail| == n + 1 && p.tail[n] != 13
    ensures ParseFrame(buf + more) == if more == [] then NeedMore else Failed(MissingTrailingCrlf)
  {
    MoreTail(buf, p, more);
    AnnouncedOutcome(buf + more, p.(tail := p.tail + more), gaps, ws, n);
  }

  /**
   When waiting for a payload is worth it: bytes to come can make a frame of the buffer unless exactly
   the payload and one byte are there and that byte is not the first of the terminator; in that one
   case the parser still waits, and any byte more makes it an error.
   */
  lemma WorthWaiting(buf: Bytes, p: Pieces, gaps: seq<Bytes>, ws: seq<Bytes>, n: nat)
    requires Waits(buf, p, gaps, ws, n)
    ensures Completable(buf) <==> !(|p.tail| == n + 1 && p.tail[n] != 13)
    ensures !Completable(buf) ==> forall more | more != [] :: ParseFrame(buf + more) == Failed(MissingTrailingCrlf)
  {
    if |p.tail| == n + 1 && p.tail[n] != 13 {
      forall more
        ensures ParseFrame(buf + more) == if more == [] then NeedMore else Failed(MissingTrailingCrlf)
      {
        Spoilt(buf, p, gaps, ws, n, more);
      }
    } else {
      var more := Completed(buf, p, gaps, ws, n);
    }
  }

  /** An error is final. */
  lemma FailedForGood(buf: Bytes)
    requires ParseFrame(buf).Failed?
    ensures !Completable(buf)
  {
    forall more
      ensures !ParseFrame(buf + more).Parsed?
    {
      C.Stable(buf, more);
    }
  }

  lemma TwoWords(a: Bytes, b: Bytes)
    requires Word(a) && Word(b)
    ensures LaidOut(a + [32] + b, [[], [32], []], [a, b])
  {
    var none: seq<Bytes> := [];
    var gaps: seq<Bytes> := [[], [32], []];
    assert gaps[1..] == [[32], []] && gaps[1..][1..] == [[]] && [a, b][1..] == [b] && [b][1..] == none;
    assert Lay([[]], none) == [] && Layout([[]], none);
    assert Lay([[32], []], [b]) == [32] + b && Layout([[32], []], [b]);
    assert [] + (a + ([32] + b)) == a + [32] + b;
  }

  lemma WrongByte(p: Pieces)
    requires p == Pieces(PUB, [32], [97] + [32] + [49], [88, 89])
    ensures Waits(p.Line() + [13, 10] + p.tail, p, [[], [32], []], [[97], [49]], 1)
  {
    TwoWords([97], [49]);
    assert Value([49]) == 1;
    assert p.Line() == [0x50, 0x55, 0x42, 32, 97, 32, 49];
  }

  /** A buffer the parser waits on although no bytes can make a frame of it: a wrong byte after the payload. */
  lemma WaitsInVain() returns (buf: Bytes)
    ensures buf == PUB + [SP] + [97] + [SP] + [49] + CRLF + [88, 89]
    ensures ParseFrame(buf) == NeedMore && !NoCrlf(buf) && !Completable(buf)
  {
    var p := Pieces(PUB, [32], [97] + [32] + [49], [88, 89]);
    buf := p.Line() + [13, 10] + p.tail;
    WrongByte(p);
    WorthWaiting(buf, p, [[], [32], []], [[97], [49]], 1);
    AnnouncedOutcome(buf, p, [[], [32], []], [[97], [49]], 1);
    assert buf[7] == CR && buf[8] == LF;
  }
}
