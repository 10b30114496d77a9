/** Frames of the NATS client protocol and their encoding (crates/aulon-proto/src/frame.rs, emit.rs). */
module Wire {
  import opened Wrappers
  import opened Bytes
  import opened Decimal

  /** The largest payload the broker takes. */
  const MAX_PAYLOAD_BYTES: nat := 1024 * 1024

  datatype Frame =
    | Connect(options: Bytes)
    | Pub(subject: Bytes, replyTo: Option<Bytes>, payload: Bytes)
    | Sub(subject: Bytes, queueGroup: Option<Bytes>, sid: Bytes)
    | Unsub(sid: Bytes, maxMsgs: Option<nat>)
    | Msg(subject: Bytes, sid: Bytes, replyTo: Option<Bytes>, payload: Bytes)
    | Ping
    | Pong
    | Info(options: Bytes)
    | OkAck
    | ErrText(message: Bytes)

  const CONNECT: Bytes := [0x43, 0x4F, 0x4E, 0x4E, 0x45, 0x43, 0x54]
  const PUB: Bytes := [0x50, 0x55, 0x42]
  const SUB: Bytes := [0x53, 0x55, 0x42]
  const UNSUB: Bytes := [0x55, 0x4E, 0x53, 0x55, 0x42]
  const MSG: Bytes := [0x4D, 0x53, 0x47]
  const PING: Bytes := [0x50, 0x49, 0x4E, 0x47]
  const PONG: Bytes := [0x50, 0x4F, 0x4E, 0x47]
  const INFO: Bytes := [0x49, 0x4E, 0x46, 0x4F]
  const OK: Bytes := [0x2B, 0x4F, 0x4B]
  const ERR: Bytes := [0x2D, 0x45, 0x52, 0x52]

  function Verb(f: Frame): Bytes {
    match f
    case Connect(_) => CONNECT
    case Pub(_, _, _) => PUB
    case Sub(_, _, _) => SUB
    case Unsub(_, _) => UNSUB
    case Msg(_, _, _, _) => MSG
    case Ping => PING
    case Pong => PONG
    case Info(_) => INFO
    case OkAck => OK
    case ErrText(_) => ERR
  }

  predicate Bare(f: Frame) {
    f.Ping? || f.Pong? || f.OkAck?
  }

  predicate HasPayload(f: Frame) {
    f.Pub? || f.Msg?
  }

  function Opt(o: Option<Bytes>): seq<Bytes> {
    if o.Some? then [o.value] else []
  }

  /** The space-separated fields after the verb. */
  function Fields(f: Frame): seq<Bytes> {
    match f
    case Pub(subject, replyTo, payload) => [subject] + Opt(replyTo) + [Digits(|payload|)]
    case Sub(subject, queueGroup, sid) => [subject] + Opt(queueGroup) + [sid]
    case Unsub(sid, maxMsgs) => [sid] + if maxMsgs.Some? then [Digits(maxMsgs.value)] else []
    case Msg(subject, sid, replyTo, payload) => [subject, sid] + Opt(replyTo) + [Digits(|payload|)]
    case Connect(options) => [options]
    case Info(options) => [options]
    case ErrText(message) => [message]
    case _ => []
  }

  function Spaced(fields: seq<Bytes>): Bytes {
    if fields == [] then []
    else if |fields| == 1 then fields[0]
    else fields[0] + [SP] + Spaced(fields[1..])
  }

  function Line(f: Frame): Bytes {
    if Bare(f) then Verb(f) else Verb(f) + [SP] + Spaced(Fields(f))
  }

  /** The wire form: a header line and, for PUB and MSG, the payload with its own terminator. */
  function Encode(f: Frame): Bytes {
    Line(f) + CRLF + if HasPayload(f) then f.payload + CRLF else []
  }

  // ------------------------------------------------------------ legal frames

  predicate Blank(b: Byte) {
    b == SP || b == TAB
  }

  predicate NoCrlf(s: Bytes) {
    forall i | 0 <= i < |s| - 1 :: !(s[i] == CR && s[i + 1] == LF)
  }

  predicate TokenOk(t: Bytes) {
    t != [] && NoCrlf(t) && forall i | 0 <= i < |t| :: !Blank(t[i])
  }

  predicate OptOk(o: Option<Bytes>) {
    o.Some? ==> TokenOk(o.value)
  }

  /** Frames the protocol can carry; the code's slices and counts bound the lengths. */
  predicate Legal(f: Frame) {
    match f
    case Connect(options) => options != [] && NoCrlf(options)
    case Info(options) => options != [] && NoCrlf(options)
    case ErrText(message) => NoCrlf(message)
    case Sub(subject, queueGroup, sid) => TokenOk(subject) && OptOk(queueGroup) && TokenOk(sid)
    case Unsub(sid, maxMsgs) => TokenOk(sid) && (maxMsgs.Some? ==> maxMsgs.value <= U64_MAX)
    case Pub(subject, replyTo, payload) => TokenOk(subject) && OptOk(replyTo) && |Encode(f)| <= USIZE_MAX
    case Msg(subject, sid, replyTo, payload) =>
      TokenOk(subject) && TokenOk(sid) && OptOk(replyTo) && |Encode(f)| <= USIZE_MAX
    case _ => true
  }
}
