/**
 The streaming parser (crates/aulon-proto/src/parse.rs).  `ParseFrame` says what a buffer means, in
 terms of its first line and that line's whole token list; the methods compute it the way the code
 does, with index loops and a token iterator that consumes its input.
 */
module Parse {
  import opened Wrappers
  import opened Bytes
  import opened Decimal
  import opened Wire

  datatype ParseError = UnknownVerb | BadHeader | PayloadLengthInvalid | MaxMsgsInvalid | MissingTrailingCrlf

  datatype Outcome = Parsed(frame: Frame, consumed: nat) | NeedMore | Failed(error: ParseError)

  // ------------------------------------------------------- lines and tokens

  /** The position of the first CRLF. */
  function LineEnd(buf: Bytes): Option<nat> {
    if |buf| < 2 then None
    else if buf[0] == CR && buf[1] == LF then Some(0)
    else
      match LineEnd(buf[1..])
      case None => None
      case Some(k) => Some(k + 1)
  }

  /** The position of the first space or tab, or the length. */
  function FirstBlank(s: Bytes): (k: nat)
    ensures k <= |s|
    ensures s != [] && !Blank(s[0]) ==> k > 0
  {
    if s == [] || Blank(s[0]) then 0 else FirstBlank(s[1..]) + 1
  }

  function Trim(s: Bytes): (r: Bytes)
    ensures |r| <= |s|
    ensures r != [] ==> !Blank(r[0])
  {
    if s != [] && Blank(s[0]) then Trim(s[1..]) else s
  }

  /** The blank-separated tokens of a line. */
  function Tokens(s: Bytes): seq<Bytes>
    decreases |s|
  {
    var t := Trim(s);
    if t == [] then [] else [t[..FirstBlank(t)]] + Tokens(t[FirstBlank(t)..])
  }

  // ------------------------------------------------ specification of a frame

  /** Payload and total length, or why there is none. */
  function Payload(buf: Bytes, header: nat, n: nat): (r: Result<Bytes, Outcome>)
    requires header <= |buf|
  {
    if header + n + 2 > USIZE_MAX then Err(Failed(PayloadLengthInvalid))
    else if |buf| < header + n + 2 then Err(NeedMore)
    else if buf[header + n..header + n + 2] != CRLF then Err(Failed(MissingTrailingCrlf))
    else Ok(buf[header..header + n])
  }

  function ParsePub(buf: Bytes, ts: seq<Bytes>, header: nat): Outcome
    requires header <= |buf|
  {
    if |ts| < 2 || |ts| > 3 then Failed(BadHeader)
    else
      match ParseDecimal(ts[|ts| - 1])
      case None => Failed(PayloadLengthInvalid)
      case Some(n) =>
        match Payload(buf, header, n)
        case Err(o) => o
        case Ok(payload) => Parsed(Pub(ts[0], if |ts| == 3 then Some(ts[1]) else None, payload), header + n + 2)
  }

  function ParseMsg(buf: Bytes, ts: seq<Bytes>, header: nat): Outcome
    requires header <= |buf|
  {
    if |ts| < 3 || |ts| > 4 then Failed(BadHeader)
    else
      match ParseDecimal(ts[|ts| - 1])
      case None => Failed(PayloadLengthInvalid)
      case Some(n) =>
        match Payload(buf, header, n)
        case Err(o) => o
        case Ok(payload) =>
          Parsed(Msg(ts[0], ts[1], if |ts| == 4 then Some(ts[2]) else None, payload), header + n + 2)
  }

  function ParseSub(ts: seq<Bytes>, header: nat): Outcome {
    if |ts| < 2 || |ts| > 3 then Failed(BadHeader)
    else Parsed(Sub(ts[0], if |ts| == 3 then Some(ts[1]) else None, ts[|ts| - 1]), header)
  }

  /** A bad count is reported before a superfluous token. */
  function ParseUnsub(ts: seq<Bytes>, header: nat): Outcome {
    if |ts| == 0 then Failed(BadHeader)
    else if |ts| == 1 then Parsed(Unsub(ts[0], None), header)
    else
      match ParseDecimal(ts[1])
      case None => Failed(MaxMsgsInvalid)
      case Some(n) => if |ts| > 2 then Failed(BadHeader) else Parsed(Unsub(ts[0], Some(n)), header)
  }

  function HeaderOnly(f: Frame, rest: Bytes, header: nat): Outcome {
    if rest != [] then Failed(BadHeader) else Parsed(f, header)
  }

  function ParseOptions(f: Frame, rest: Bytes, header: nat): Outcome {
    if rest == [] then Failed(BadHeader) else Parsed(f, header)
  }

  function SplitVerb(line: Bytes): (Bytes, Bytes) {
    var k := FirstBlank(line);
    if k < |line| then (line[..k], line[k + 1..]) else (line, [])
  }

  function ParseLine(buf: Bytes, verb: Bytes, rest: Bytes, header: nat): Outcome
    requires header <= |buf|
  {
    if verb == PING then HeaderOnly(Ping, rest, header)
    else if verb == PONG then HeaderOnly(Pong, rest, header)
    else if verb == OK then HeaderOnly(OkAck, rest, header)
    else if verb == ERR then Parsed(ErrText(rest), header)
    else if verb == CONNECT then ParseOptions(Connect(rest), rest, header)
    else if verb == INFO then ParseOptions(Info(rest), rest, header)
    else if verb == SUB then ParseSub(Tokens(rest), header)
    else if verb == UNSUB then ParseUnsub(Tokens(rest), header)
    else if verb == PUB then ParsePub(buf, Tokens(rest), header)
    else if verb == MSG then ParseMsg(buf, Tokens(rest), header)
    else Failed(UnknownVerb)
  }

  function ParseFrame(buf: Bytes): Outcome {
    match LineEnd(buf)
    case None => NeedMore
    case Some(end) =>
      LineEndBounds(buf);
      var (verb, rest) := SplitVerb(buf[..end]);
      ParseLine(buf, verb, rest, end + 2)
  }

  /** `LineEnd` is the first CRLF: one is there, and none starts before it. */
  lemma {:induction false} LineEndBounds(buf: Bytes)
    ensures LineEnd(buf).None? ==> NoCrlf(buf)
    ensures LineEnd(buf).Some? ==>
              var k := LineEnd(buf).value;
              k + 2 <= |buf| && buf[k] == CR && buf[k + 1] == LF && NoCrlf(buf[..k + 1])
  {
    if |buf| >= 2 && !(buf[0] == CR && buf[1] == LF) {
      LineEndBounds(buf[1..]);
      if LineEnd(buf).None? {
        forall i | 0 <= i < |buf| - 1
          ensures !(buf[i] == CR && buf[i + 1] == LF)
        {
          if i > 0 {
            assert buf[1..][i - 1] == buf[i] && buf[1..][i] == buf[i + 1];
          }
        }
      } else {
        var k := LineEnd(buf).value;
        forall i | 0 <= i < k
          ensures !(buf[i] == CR && buf[i + 1] == LF)
        {
          if i > 0 {
            assert buf[1..][..k][i - 1] == buf[i] && buf[1..][..k][i] == buf[i + 1];
          }
        }
      }
    }
  }

  // ----------------------------------------------------------------- methods

  method FindCrlf(buf: Bytes) returns (r: Option<nat>)
    ensures r == LineEnd(buf)
  {
    var i := 0;
    while i + 1 < |buf|
      invariant i <= |buf|
      invariant LineEnd(buf) == match LineEnd(buf[i..]) case None => None case Some(k) => Some(i + k)
    {
      if buf[i] == CR && buf[i + 1] == LF {
        return Some(i);
      }
      assert buf[i..][1..] == buf[i + 1..];
      i := i + 1;
    }
    r := None;
  }

  method TrimLeadingSpaces(s: Bytes) returns (r: Bytes)
    ensures r == Trim(s)
  {
    var i := 0;
    while i < |s| && Blank(s[i])
      invariant i <= |s| && Trim(s) == Trim(s[i..])
    {
      assert s[i..][1..] == s[i + 1..];
      i := i + 1;
    }
    r := s[i..];
  }

  class TokenIter {
    var rest: Bytes
    ghost var ahead: seq<Bytes>  // the tokens still to come

    ghost predicate Valid()
      reads this
    {
      ahead == Tokens(rest)
    }

    constructor (rest: Bytes)
      ensures Valid() && this.rest == rest && ahead == Tokens(rest)
    {
      this.rest, ahead := rest, Tokens(rest);
    }

    method Next() returns (r: Option<Bytes>)
      requires Valid()
      modifies this
      ensures Valid()
      ensures r.Some? <==> old(ahead) != []
      ensures r.Some? ==> r.value == old(ahead)[0] && ahead == old(ahead)[1..]
      ensures r.None? ==> ahead == []
    {
      rest := TrimLeadingSpaces(rest);
      if rest == [] {
        ahead := [];
        return None;
      }
      var end := FirstBlank(rest);
      var token := rest[..end];
      rest := rest[end..];
      ahead := ahead[1..];
      r := Some(token);
    }
  }

  method RunParseSub(rest: Bytes, header: nat) returns (o: Outcome)
    ensures o == ParseSub(Tokens(rest), header)
  {
    var tokens := new TokenIter(rest);
    var subject := tokens.Next();
    if subject.None? {
      return Failed(BadHeader);
    }
    var second := tokens.Next();
    if second.None? {
      return Failed(BadHeader);
    }
    var third := tokens.Next();
    var extra := tokens.Next();
    if extra.Some? {
      return Failed(BadHeader);
    }
    if third.Some? {
      o := Parsed(Sub(subject.value, second, third.value), header);
    } else {
      o := Parsed(Sub(subject.value, None, second.value), header);
    }
  }

  method RunParseUnsub(rest: Bytes, header: nat) returns (o: Outcome)
    ensures o == ParseUnsub(Tokens(rest), header)
  {
    var tokens := new TokenIter(rest);
    var sid := tokens.Next();
    if sid.None? {
      return Failed(BadHeader);
    }
    var second := tokens.Next();
    var maxMsgs: Option<nat> := None;
    if second.Some? {
      maxMsgs := ParseU64(second.value);
      if maxMsgs.None? {
        return Failed(MaxMsgsInvalid);
      }
    }
    var extra := tokens.Next();
    if extra.Some? {
      return Failed(BadHeader);
    }
    o := Parsed(Unsub(sid.value, maxMsgs), header);
  }

  /** `consume_payload` */
  method ConsumePayload(buf: Bytes, header: nat, n: nat) returns (r: Option<(Bytes, nat)>)
    requires header <= |buf|
    ensures r == match Payload(buf, header, n) case Ok(p) => Some((p, header + n + 2)) case Err(_) => None
  {
    var payloadEnd := header + n;
    var total := payloadEnd + 2;
    if payloadEnd > USIZE_MAX || total > USIZE_MAX || |buf| < total || buf[payloadEnd..total] != CRLF {
      return None;
    }
    r := Some((buf[header..payloadEnd], total));
  }

  /** `need_more_or_missing_crlf` */
  method NeedMoreOrMissingCrlf(buf: Bytes, header: nat, n: nat) returns (o: Outcome)
    requires header <= |buf| && Payload(buf, header, n).Err?
    ensures o == Payload(buf, header, n).error
  {
    if header + n > USIZE_MAX || header + n + 2 > USIZE_MAX {
      return Failed(PayloadLengthInvalid);
    }
    if |buf| < header + n + 2 {
      o := NeedMore;
    } else {
      o := Failed(MissingTrailingCrlf);
    }
  }

  method RunParsePub(buf: Bytes, rest: Bytes, header: nat) returns (o: Outcome)
    requires header <= |buf|
    ensures o == ParsePub(buf, Tokens(rest), header)
  {
    var tokens := new TokenIter(rest);
    var subject := tokens.Next();
    if subject.None? {
      return Failed(BadHeader);
    }
    var second := tokens.Next();
    if second.None? {
      return Failed(BadHeader);
    }
    var third := tokens.Next();
    var extra := tokens.Next();
    if extra.Some? {
      return Failed(BadHeader);
    }
    var replyTo, count := if third.Some? then second else None, if third.Some? then third.value else second.value;
    var n := ParseU64(count);
    if n.None? {
      return Failed(PayloadLengthInvalid);
    }
    var body := ConsumePayload(buf, header, n.value);
    if body.None? {
      o := NeedMoreOrMissingCrlf(buf, header, n.value);
    } else {
      o := Parsed(Pub(subject.value, replyTo, body.value.0), body.value.1);
    }
  }

  method RunParseMsg(buf: Bytes, rest: Bytes, header: nat) returns (o: Outcome)
    requires header <= |buf|
    ensures o == ParseMsg(buf, Tokens(rest), header)
  {
    var tokens := new TokenIter(rest);
    var subject := tokens.Next();
    if subject.None? {
      return Failed(BadHeader);
    }
    var sid := tokens.Next();
    if sid.None? {
      return Failed(BadHeader);
    }
    var third := tokens.Next();
    if third.None? {
      return Failed(BadHeader);
    }
    var fourth := tokens.Next();
    var extra := tokens.Next();
    if extra.Some? {
      return Failed(BadHeader);
    }
    var replyTo, count := if fourth.Some? then third else None, if fourth.Some? then fourth.value else third.value;
    var n := ParseU64(count);
    if n.None? {
      return Failed(PayloadLengthInvalid);
    }
    var body := ConsumePayload(buf, header, n.value);
    if body.None? {
      o := NeedMoreOrMissingCrlf(buf, header, n.value);
    } else {
      o := Parsed(Msg(subject.value, sid.value, replyTo, body.value.0), body.value.1);
    }
  }

  /** `parse_frame` as the code runs it. */
  method RunParseFrame(buf: Bytes) returns (o: Outcome)
    ensures o == ParseFrame(buf)
  {
    var end := FindCrlf(buf);
    if end.None? {
      return NeedMore;
    }
    LineEndBounds(buf);
    var header := end.value + 2;
    var (verb, rest) := SplitVerb(buf[..end.value]);
    if verb == PUB {
      o := RunParsePub(buf, rest, header);
    } else if verb == MSG {
      o := RunParseMsg(buf, rest, header);
    } else if verb == SUB {
      o := RunParseSub(rest, header);
    } else if verb == UNSUB {
      o := RunParseUnsub(rest, header);
    } else {
      o := ParseLine(buf, verb, rest, header);
    }
  }
}
