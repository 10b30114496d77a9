/**
 The emitter (crates/aulon-proto/src/emit.rs): every `emit_*` threads a position through writes into
 the caller's buffer.  Each write extends the written prefix or reports that the buffer is too small.
 */
module Emit {
  import opened Wrappers
  import opened Bytes
  import opened Decimal
  import opened Wire

  datatype EmitError = BufferTooSmall(needed: nat, have: nat)

  /** `done` is in the buffer and everything after it is as it was. */
  ghost predicate Written(base: Bytes, now: Bytes, done: Bytes) {
    |done| <= |base| && now == done + base[|done|..]
  }

  /** A write on the way to `total` bytes found the buffer too small. */
  ghost predicate TooSmall(base: Bytes, now: Bytes, total: nat, r: Result<nat, EmitError>) {
    r.Err? && |now| == |base| == r.error.have < r.error.needed <= total
  }

  /**
   What an `emit_*` call does with a buffer: it succeeds iff the encoding fits, and then the buffer is
   the encoding followed by the untouched rest; otherwise the error says what it had and that more is
   needed, no more than the whole encoding.
   */
  ghost predicate Emitted(base: Bytes, now: Bytes, enc: Bytes, r: Result<nat, EmitError>) {
    if r.Ok? then r.value == |enc| && Written(base, now, enc) else TooSmall(base, now, |enc|, r)
  }

  // ------------------------------------------------------------------ writes

  method WriteAll(out: array<Byte>, pos: nat, src: Bytes, ghost base: Bytes, ghost done: Bytes, ghost total: nat)
    returns (r: Result<nat, EmitError>)
    requires out.Length <= ISIZE_MAX
    requires Written(base, out[..], done) && pos == |done| && |done| + |src| <= total
    modifies out
    ensures r.Ok? ==> r.value == |done + src| && Written(base, out[..], done + src)
    ensures r.Err? ==> TooSmall(base, out[..], total, r)
    ensures r.Err? ==> out[..] == old(out[..]) && r.error.needed == if |done + src| > USIZE_MAX then USIZE_MAX else |done + src|
  {
    var end := pos + |src|;
    if end > USIZE_MAX {
      return Err(BufferTooSmall(USIZE_MAX, out.Length));
    }
    if end > out.Length {
      return Err(BufferTooSmall(end, out.Length));
    }
    forall i | 0 <= i < |src| {
      out[pos + i] := src[i];
    }
    assert out[..] == done + src + base[end..];
    r := Ok(end);
  }

  method WriteByte(out: array<Byte>, pos: nat, byte: Byte, ghost base: Bytes, ghost done: Bytes, ghost total: nat)
    returns (r: Result<nat, EmitError>)
    requires out.Length <= ISIZE_MAX
    requires Written(base, out[..], done) && pos == |done| < total
    modifies out
    ensures r.Ok? ==> r.value == |done + [byte]| && Written(base, out[..], done + [byte])
    ensures r.Err? ==> TooSmall(base, out[..], total, r)
    ensures r.Err? ==> out[..] == old(out[..]) && r.error.needed == |done| + 1
  {
    if pos >= out.Length {
      return Err(BufferTooSmall(pos + 1, out.Length));
    }
    out[pos] := byte;
    assert out[..] == done + [byte] + base[pos + 1..];
    r := Ok(pos + 1);
  }

  /** The digits as the loop produces them, least significant first. */
  function LowFirst(n: nat): (s: Bytes)
    ensures s != []
  {
    if n < 10 then [ZERO + n] else [ZERO + n % 10] + LowFirst(n / 10)
  }

  lemma {:induction false} LowFirstReversed(n: nat, i: nat)
    requires i < |Digits(n)|
    ensures |LowFirst(n)| == |Digits(n)| && Digits(n)[i] == LowFirst(n)[|Digits(n)| - 1 - i]
  {
    if n >= 10 {
      LowFirstReversed(n / 10, if i < |Digits(n)| - 1 then i else 0);
    }
  }

  lemma LowStep(left: nat)
    ensures LowFirst(left) == [ZERO + left % 10] + if left >= 10 then LowFirst(left / 10) else []
  {
  }

  /** The digit loop of `write_decimal_u64` into a 20-byte array. */
  method FillDigits(tmp: array<Byte>, value: nat) returns (len: nat)
    requires tmp.Length == U64_DIGITS_MAX && value <= U64_MAX
    modifies tmp
    ensures len <= tmp.Length && tmp[..len] == LowFirst(value)
  {
    TwentyDigits(value);
    LowFirstReversed(value, 0);
    len := 0;
    if value == 0 {
      tmp[0] := ZERO;
      len := 1;
      assert tmp[..1] == [ZERO] == LowFirst(0);
    } else {
      var left: nat := value;
      while left > 0
        invariant len <= tmp.Length
        invariant left > 0 ==> tmp[..len] + LowFirst(left) == LowFirst(value)
        invariant left == 0 ==> tmp[..len] == LowFirst(value)
      {
        ghost var done := tmp[..len];
        LowStep(left);
        ghost var digit, high := [ZERO + left % 10], if left >= 10 then LowFirst(left / 10) else [];
        assert done + (digit + high) == (done + digit) + high;
        assert len < tmp.Length by {
          assert |done + LowFirst(left)| <= U64_DIGITS_MAX;
        }
        tmp[len] := ZERO + left % 10;
        assert tmp[..len + 1] == done + digit;
        left := left / 10;
        len := len + 1;
      }
    }
  }

  method WriteDecimal(out: array<Byte>, pos: nat, value: nat, ghost base: Bytes, ghost done: Bytes, ghost total: nat)
    returns (r: Result<nat, EmitError>)
    requires out.Length <= ISIZE_MAX && value <= U64_MAX
    requires Written(base, out[..], done) && pos == |done| && |done| + |Digits(value)| <= total
    modifies out
    ensures r.Ok? ==> r.value == |done + Digits(value)| && Written(base, out[..], done + Digits(value))
    ensures r.Err? ==> TooSmall(base, out[..], total, r)
    ensures r.Err? ==> out[..] == old(out[..]) && r.error.needed == |done + Digits(value)|
  {
    var tmp := new Byte[U64_DIGITS_MAX];
    var len := FillDigits(tmp, value);
    ghost var digits := Digits(value);
    LowFirstReversed(value, 0);
    var end := pos + len;
    if end > out.Length {
      return Err(BufferTooSmall(end, out.Length));
    }
    forall i | 0 <= i < len {
      out[pos + i] := tmp[len - 1 - i];
    }
    forall i | 0 <= i < len
      ensures out[pos + i] == digits[i]
    {
      LowFirstReversed(value, i);
    }
    assert out[..] == done + digits + base[end..];
    r := Ok(end);
  }

  /** A field and the space after it. */
  method WriteField(out: array<Byte>, pos: nat, src: Bytes, ghost base: Bytes, ghost done: Bytes, ghost total: nat)
    returns (r: Result<nat, EmitError>)
    requires out.Length <= ISIZE_MAX
    requires Written(base, out[..], done) && pos == |done| && |done| + |src| + 1 <= total
    modifies out
    ensures r.Ok? ==> r.value == |done + (src + [SP])| && Written(base, out[..], done + (src + [SP]))
    ensures r.Err? ==> TooSmall(base, out[..], total, r)
  {
    var n := pos;
    n :- WriteAll(out, n, src, base, done, total);
    n :- WriteByte(out, n, SP, base, done + src, total);
    assert done + src + [SP] == done + (src + [SP]);
    r := Ok(n);
  }

  /** An optional field with its separator. */
  function Between(o: Option<Bytes>): Bytes {
    if o.Some? then o.value + [SP] else []
  }

  method WriteOptional(out: array<Byte>, pos: nat, field: Option<Bytes>, ghost base: Bytes, ghost done: Bytes, ghost total: nat)
    returns (r: Result<nat, EmitError>)
    requires out.Length <= ISIZE_MAX
    requires Written(base, out[..], done) && pos == |done| && |done| + |Between(field)| <= total
    modifies out
    ensures r.Ok? ==> r.value == |done + Between(field)| && Written(base, out[..], done + Between(field))
    ensures r.Err? ==> TooSmall(base, out[..], total, r)
  {
    if field.Some? {
      r := WriteField(out, pos, field.value, base, done, total);
    } else {
      assert done + [] == done;
      r := Ok(pos);
    }
  }

  // ------------------------------------------------- encodings in write order

  lemma SpacedCons(t: Bytes, ts: seq<Bytes>)
    requires ts != []
    ensures Spaced([t] + ts) == t + [SP] + Spaced(ts)
  {
    assert ([t] + ts)[1..] == ts;
  }

  lemma SpacedOpt(o: Option<Bytes>, last: Bytes)
    ensures Spaced(Opt(o) + [last]) == Between(o) + last
  {
    if o.Some? {
      SpacedCons(o.value, [last]);
      assert Opt(o) + [last] == [o.value] + [last];
    } else {
      assert Opt(o) + [last] == [last];
    }
  }

  /** Moving the brackets of one header line. */
  lemma Regroup(verb: Bytes, a: Bytes, b: Bytes, c: Bytes)
    ensures verb + (a + [SP]) + b + c == verb + (a + [SP] + (b + c))
  {
  }

  /** The optional count of UNSUB with the space before it. */
  function MaxField(maxMsgs: Option<nat>): Bytes {
    if maxMsgs.Some? then [SP] + Digits(maxMsgs.value) else []
  }

  lemma SpacedPair(a: Bytes, b: Bytes)
    ensures Spaced([a] + [b]) == a + ([SP] + b)
  {
    SpacedCons(a, [b]);
    assert a + [SP] + b == a + ([SP] + b);
  }

  lemma UnsubInOrder(sid: Bytes, maxMsgs: Option<nat>)
    ensures Encode(Unsub(sid, maxMsgs)) == UNSUB + [SP] + sid + MaxField(maxMsgs) + CRLF
  {
    var f, max := Unsub(sid, maxMsgs), MaxField(maxMsgs);
    assert Spaced(Fields(f)) == sid + max by {
      if maxMsgs.Some? {
        SpacedPair(sid, Digits(maxMsgs.value));
      } else {
        assert Fields(f) == [sid] && sid + [] == sid;
      }
    }
    assert UNSUB + [SP] + (sid + max) == UNSUB + [SP] + sid + max;
    assert Encode(f) == Line(f) + CRLF;
  }

  /** A line, CRLF, payload, CRLF. */
  lemma PayloadInOrder(f: Frame)
    requires HasPayload(f)
    ensures Encode(f) == Line(f) + CRLF + f.payload + CRLF
  {
  }

  lemma OneFieldFirst(verb: Bytes, a: Bytes, o: Option<Bytes>, last: Bytes)
    ensures verb + Spaced([a] + (Opt(o) + [last])) == verb + (a + [SP]) + Between(o) + last
  {
    SpacedOpt(o, last);
    SpacedCons(a, Opt(o) + [last]);
    Regroup(verb, a, Between(o), last);
  }

  lemma TwoFieldsFirst(verb: Bytes, a: Bytes, b: Bytes, o: Option<Bytes>, last: Bytes)
    ensures verb + Spaced([a] + ([b] + (Opt(o) + [last]))) == verb + (a + [SP]) + (b + [SP]) + Between(o) + last
  {
    var inner := [b] + (Opt(o) + [last]);
    SpacedCons(a, inner);
    OneFieldFirst(verb + (a + [SP]), b, o, last);
    assert verb + (a + [SP] + Spaced(inner)) == verb + (a + [SP]) + Spaced(inner);
  }

  lemma SubInOrder(subject: Bytes, queueGroup: Option<Bytes>, sid: Bytes)
    ensures Encode(Sub(subject, queueGroup, sid)) ==
            SUB + [SP] + (subject + [SP]) + Between(queueGroup) + sid + CRLF
  {
    var f := Sub(subject, queueGroup, sid);
    OneFieldFirst(SUB + [SP], subject, queueGroup, sid);
    assert Fields(f) == [subject] + (Opt(queueGroup) + [sid]);
    assert Encode(f) == Line(f) + CRLF;
  }

  lemma PubFields(subject: Bytes, replyTo: Option<Bytes>, payload: Bytes)
    ensures Fields(Pub(subject, replyTo, payload)) == [subject] + (Opt(replyTo) + [Digits(|payload|)])
  {
  }

  lemma PubInOrder(subject: Bytes, replyTo: Option<Bytes>, payload: Bytes)
    ensures Line(Pub(subject, replyTo, payload)) ==
            PUB + [SP] + (subject + [SP]) + Between(replyTo) + Digits(|payload|)
  {
    PubFields(subject, replyTo, payload);
    OneFieldFirst(PUB + [SP], subject, replyTo, Digits(|payload|));
  }

  lemma MsgFields(subject: Bytes, sid: Bytes, replyTo: Option<Bytes>, payload: Bytes)
    ensures Fields(Msg(subject, sid, replyTo, payload)) == [subject] + ([sid] + (Opt(replyTo) + [Digits(|payload|)]))
  {
    Nested(subject, sid, Opt(replyTo), Digits(|payload|));
  }

  lemma Nested(a: Bytes, b: Bytes, o: seq<Bytes>, last: Bytes)
    ensures [a, b] + o + [last] == [a] + ([b] + (o + [last]))
  {
  }

  lemma MsgInOrder(subject: Bytes, sid: Bytes, replyTo: Option<Bytes>, payload: Bytes)
    ensures Line(Msg(subject, sid, replyTo, payload)) ==
            MSG + [SP] + (subject + [SP]) + (sid + [SP]) + Between(replyTo) + Digits(|payload|)
  {
    MsgFields(subject, sid, replyTo, payload);
    TwoFieldsFirst(MSG + [SP], subject, sid, replyTo, Digits(|payload|));
  }

  // ------------------------------------------------------------- the emitters

  lemma NothingWritten(base: Bytes)
    ensures Written(base, base, [])
  {
    assert [] + base[0..] == base;
  }

  /** `emit_ping`, `emit_pong`, `emit_ok` */
  method EmitBare(out: array<Byte>, f: Frame) returns (r: Result<nat, EmitError>)
    requires out.Length <= ISIZE_MAX && Bare(f)
    modifies out
    ensures Emitted(old(out[..]), out[..], Encode(f), r)
  {
    ghost var base, enc := out[..], Encode(f);
    NothingWritten(base);
    assert enc == Verb(f) + CRLF && [] + enc == enc;
    r := WriteAll(out, 0, Verb(f) + CRLF, base, [], |enc|);
  }

  /** A verb and a text written verbatim. */
  method EmitText(out: array<Byte>, verb: Bytes, text: Bytes) returns (r: Result<nat, EmitError>)
    requires out.Length <= ISIZE_MAX
    modifies out
    ensures Emitted(old(out[..]), out[..], verb + [SP] + text + CRLF, r)
  {
    ghost var base, total := out[..], |verb| + 1 + |text| + 2;
    NothingWritten(base);
    assert [] + (verb + [SP]) == verb + [SP];
    var n := 0;
    n :- WriteAll(out, n, verb + [SP], base, [], total);
    n :- WriteAll(out, n, text, base, verb + [SP], total);
    r := WriteAll(out, n, CRLF, base, verb + [SP] + text, total);
  }

  method EmitErr(out: array<Byte>, message: Bytes) returns (r: Result<nat, EmitError>)
    requires out.Length <= ISIZE_MAX
    modifies out
    ensures Emitted(old(out[..]), out[..], Encode(ErrText(message)), r)
  {
    r := EmitText(out, ERR, message);
    assert Encode(ErrText(message)) == ERR + [SP] + message + CRLF;
  }

  method EmitInfo(out: array<Byte>, options: Bytes) returns (r: Result<nat, EmitError>)
    requires out.Length <= ISIZE_MAX
    modifies out
    ensures Emitted(old(out[..]), out[..], Encode(Info(options)), r)
  {
    r := EmitText(out, INFO, options);
    assert Encode(Info(options)) == INFO + [SP] + options + CRLF;
  }

  method EmitConnect(out: array<Byte>, options: Bytes) returns (r: Result<nat, EmitError>)
    requires out.Length <= ISIZE_MAX
    modifies out
    ensures Emitted(old(out[..]), out[..], Encode(Connect(options)), r)
  {
    r := EmitText(out, CONNECT, options);
    assert Encode(Connect(options)) == CONNECT + [SP] + options + CRLF;
  }

  /** A verb and its first field, the start of every tokenized frame. */
  method WriteHead(out: array<Byte>, verb: Bytes, field: Bytes, ghost base: Bytes, ghost total: nat)
    returns (r: Result<nat, EmitError>)
    requires out.Length <= ISIZE_MAX && out[..] == base && |verb| + 1 + |field| + 1 <= total
    modifies out
    ensures r.Ok? ==> r.value == |verb + [SP] + (field + [SP])| && Written(base, out[..], verb + [SP] + (field + [SP]))
    ensures r.Err? ==> TooSmall(base, out[..], total, r)
  {
    NothingWritten(base);
    assert [] + (verb + [SP]) == verb + [SP];
    var n := 0;
    n :- WriteAll(out, n, verb + [SP], base, [], total);
    r := WriteField(out, n, field, base, verb + [SP], total);
  }

  method EmitSub(out: array<Byte>, subject: Bytes, queueGroup: Option<Bytes>, sid: Bytes)
    returns (r: Result<nat, EmitError>)
    requires out.Length <= ISIZE_MAX
    modifies out
    ensures Emitted(old(out[..]), out[..], Encode(Sub(subject, queueGroup, sid)), r)
  {
    ghost var base := out[..];
    ghost var head := SUB + [SP] + (subject + [SP]);
    ghost var total := |head + Between(queueGroup) + sid + CRLF|;
    SubInOrder(subject, queueGroup, sid);
    var n :- WriteHead(out, SUB, subject, base, total);
    n :- WriteOptional(out, n, queueGroup, base, head, total);
    n :- WriteAll(out, n, sid, base, head + Between(queueGroup), total);
    r := WriteAll(out, n, CRLF, base, head + Between(queueGroup) + sid, total);
  }

  method WriteMax(out: array<Byte>, pos: nat, maxMsgs: Option<nat>, ghost base: Bytes, ghost done: Bytes, ghost total: nat)
    returns (r: Result<nat, EmitError>)
    requires out.Length <= ISIZE_MAX && (maxMsgs.Some? ==> maxMsgs.value <= U64_MAX)
    requires Written(base, out[..], done) && pos == |done| && |done| + |MaxField(maxMsgs)| <= total
    modifies out
    ensures r.Ok? ==> r.value == |done + MaxField(maxMsgs)| && Written(base, out[..], done + MaxField(maxMsgs))
    ensures r.Err? ==> TooSmall(base, out[..], total, r)
  {
    if maxMsgs.Some? {
      r := WriteCount(out, pos, maxMsgs.value, base, done, total);
    } else {
      assert done + [] == done;
      r := Ok(pos);
    }
  }

  method WriteCount(out: array<Byte>, pos: nat, value: nat, ghost base: Bytes, ghost done: Bytes, ghost total: nat)
    returns (r: Result<nat, EmitError>)
    requires out.Length <= ISIZE_MAX && value <= U64_MAX
    requires Written(base, out[..], done) && pos == |done| && |done| + |[SP] + Digits(value)| <= total
    modifies out
    ensures r.Ok? ==> r.value == |done + ([SP] + Digits(value))| && Written(base, out[..], done + ([SP] + Digits(value)))
    ensures r.Err? ==> TooSmall(base, out[..], total, r)
  {
    Reassociate(done, [SP], Digits(value));
    var n :- WriteByte(out, pos, SP, base, done, total);
    r := WriteDecimal(out, n, value, base, done + [SP], total);
  }

  lemma Reassociate(a: Bytes, b: Bytes, c: Bytes)
    ensures a + (b + c) == a + b + c
  {
  }

  method EmitUnsub(out: array<Byte>, sid: Bytes, maxMsgs: Option<nat>) returns (r: Result<nat, EmitError>)
    requires out.Length <= ISIZE_MAX && (maxMsgs.Some? ==> maxMsgs.value <= U64_MAX)
    modifies out
    ensures Emitted(old(out[..]), out[..], Encode(Unsub(sid, maxMsgs)), r)
  {
    ghost var base, head, max := out[..], UNSUB + [SP], MaxField(maxMsgs);
    ghost var total := |head + sid + max + CRLF|;
    UnsubInOrder(sid, maxMsgs);
    NothingWritten(base);
    assert [] + head == head;
    var n := 0;
    n :- WriteAll(out, n, UNSUB + [SP], base, [], total);
    n :- WriteAll(out, n, sid, base, head, total);
    n :- WriteMax(out, n, maxMsgs, base, head + sid, total);
    r := WriteAll(out, n, CRLF, base, head + sid + max, total);
  }

  /** The common end of PUB and MSG: count, CRLF, payload, CRLF. */
  method WritePayload(out: array<Byte>, pos: nat, payload: Bytes, ghost base: Bytes, ghost done: Bytes, ghost enc: Bytes)
    returns (r: Result<nat, EmitError>)
    requires out.Length <= ISIZE_MAX && |payload| <= ISIZE_MAX
    requires Written(base, out[..], done) && pos == |done|
    requires enc == done + Digits(|payload|) + CRLF + payload + CRLF
    modifies out
    ensures Emitted(base, out[..], enc, r)
  {
    ghost var line := done + Digits(|payload|);
    var n := pos;
    n :- WriteDecimal(out, n, |payload|, base, done, |enc|);
    n :- WriteAll(out, n, CRLF, base, line, |enc|);
    n :- WriteAll(out, n, payload, base, line + CRLF, |enc|);
    r := WriteAll(out, n, CRLF, base, line + CRLF + payload, |enc|);
  }

  method EmitPub(out: array<Byte>, subject: Bytes, replyTo: Option<Bytes>, payload: Bytes)
    returns (r: Result<nat, EmitError>)
    requires out.Length <= ISIZE_MAX && |payload| <= ISIZE_MAX
    modifies out
    ensures Emitted(old(out[..]), out[..], Encode(Pub(subject, replyTo, payload)), r)
  {
    ghost var base, enc := out[..], Encode(Pub(subject, replyTo, payload));
    ghost var head := PUB + [SP] + (subject + [SP]);
    assert enc == head + Between(replyTo) + Digits(|payload|) + CRLF + payload + CRLF by {
      PubInOrder(subject, replyTo, payload);
      PayloadInOrder(Pub(subject, replyTo, payload));
    }
    var n :- WriteHead(out, PUB, subject, base, |enc|);
    n :- WriteOptional(out, n, replyTo, base, head, |enc|);
    r := WritePayload(out, n, payload, base, head + Between(replyTo), enc);
  }

  method EmitMsg(out: array<Byte>, subject: Bytes, sid: Bytes, replyTo: Option<Bytes>, payload: Bytes)
    returns (r: Result<nat, EmitError>)
    requires out.Length <= ISIZE_MAX && |payload| <= ISIZE_MAX
    modifies out
    ensures Emitted(old(out[..]), out[..], Encode(Msg(subject, sid, replyTo, payload)), r)
  {
    ghost var base, enc := out[..], Encode(Msg(subject, sid, replyTo, payload));
    ghost var head := MSG + [SP] + (subject + [SP]);
    ghost var ids := head + (sid + [SP]);
    assert enc == ids + Between(replyTo) + Digits(|payload|) + CRLF + payload + CRLF by {
      MsgInOrder(subject, sid, replyTo, payload);
      PayloadInOrder(Msg(subject, sid, replyTo, payload));
    }
    var n :- WriteHead(out, MSG, subject, base, |enc|);
    n :- WriteField(out, n, sid, base, head, |enc|);
    n :- WriteOptional(out, n, replyTo, base, ids, |enc|);
    r := WritePayload(out, n, payload, base, ids + Between(replyTo), enc);
  }

  /** `emit_frame` */
  method EmitFrame(out: array<Byte>, f: Frame) returns (r: Result<nat, EmitError>)
    requires out.Length <= ISIZE_MAX
    requires f.Unsub? && f.maxMsgs.Some? ==> f.maxMsgs.value <= U64_MAX
    requires HasPayload(f) ==> |f.payload| <= ISIZE_MAX
    modifies out
    ensures Emitted(old(out[..]), out[..], Encode(f), r)
  {
    match f
    case Ping => r := EmitBare(out, f);
    case Pong => r := EmitBare(out, f);
    case OkAck => r := EmitBare(out, f);
    case ErrText(message) => r := EmitErr(out, message);
    case Info(options) => r := EmitInfo(out, options);
    case Connect(options) => r := EmitConnect(out, options);
    case Sub(subject, queueGroup, sid) => r := EmitSub(out, subject, queueGroup, sid);
    case Unsub(sid, maxMsgs) => r := EmitUnsub(out, sid, maxMsgs);
    case Pub(subject, replyTo, payload) => r := EmitPub(out, subject, replyTo, payload);
    case Msg(subject, sid, replyTo, payload) => r := EmitMsg(out, subject, sid, replyTo, payload);
  }
}
