/**
 A connection's outbound buffer (crates/aulon-core/src/connection_state.rs): what each operation does
 to it as a value, and the class that does it in place.
 */
module Outbound {
  import opened Wrappers
  import opened Bytes
  import opened Decimal

  datatype CloseReason = SlowConsumer | ProtocolError | PeerClosed

  datatype EnqueueOutcome = Accepted | SlowConsumerClosed | AlreadyClosing

  /** The text of the `-ERR` the writer sends before closing, if any. */
  function CloseText(r: CloseReason): Option<Bytes> {
    match r
    case SlowConsumer => Some([0x73, 0x6C, 0x6F, 0x77, 0x20, 0x63, 0x6F, 0x6E, 0x73, 0x75, 0x6D, 0x65, 0x72])
    case ProtocolError => Some([0x70, 0x72, 0x6F, 0x74, 0x6F, 0x63, 0x6F, 0x6C, 0x20, 0x65, 0x72, 0x72, 0x6F, 0x72])
    case PeerClosed => None
  }

  /** `data` is the buffer up to the tail; bytes before `head` have been drained already. */
  datatype Buffer = Buffer(capacity: nat, data: Bytes, head: nat, close: Option<CloseReason>, permit: bool) {
    ghost predicate Valid() {
      head <= |data| <= capacity && (head == |data| ==> head == 0)
    }

    function Pending(): Bytes
      requires head <= |data|
    {
      data[head..]
    }

    /** Overflow is measured from the tail, not from what is pending. */
    function Enqueue(bytes: Bytes): (Buffer, EnqueueOutcome) {
      if close.Some? then (this, AlreadyClosing)
      else if |data| + |bytes| > capacity then (this.(close := Some(SlowConsumer), permit := true), SlowConsumerClosed)
      else (this.(data := data + bytes, permit := true), Accepted)
    }

    function MarkClose(reason: CloseReason): Buffer {
      this.(close := if close.None? then Some(reason) else close, permit := true)
    }

    /** Up to `room` pending bytes, and the buffer without them; a full drain resets both cursors. */
    function Drain(room: nat): (Buffer, Bytes)
      requires head <= |data|
    {
      var n := if |data| - head < room then |data| - head else room;
      if head + n == |data| then (this.(data := [], head := 0), data[head..])
      else (this.(head := head + n), data[head..head + n])
    }
  }

  function Fresh(capacity: nat): Buffer {
    Buffer(capacity, [], 0, None, false)
  }

  /** What is handed out and what stays pending are the old pending bytes, in order. */
  lemma DrainSplits(b: Buffer, room: nat)
    requires b.Valid()
    ensures var (b', out) := b.Drain(room);
            && b'.Valid()
            && b.Pending() == out + b'.Pending()
            && b'.close == b.close && b'.permit == b.permit && b'.capacity == b.capacity
            && (room > 0 && b.Pending() != [] ==> out != [])
            && |out| <= room
  {
    var (b', out) := b.Drain(room);
    if b'.head > 0 {
      assert b.data[b.head..] == b.data[b.head..b'.head] + b.data[b'.head..];
    }
  }

  class ConnectionState {
    const data: array<Byte>
    var head: nat
    var tail: nat
    var closeWith: Option<CloseReason>
    var permit: bool  // a stored `notify_one`

    ghost predicate Valid()
      reads this, data
    {
      data.Length <= ISIZE_MAX && tail <= data.Length && View().Valid()
    }

    ghost function View(): Buffer
      requires tail <= data.Length
      reads this, data
    {
      Buffer(data.Length, data[..tail], head, closeWith, permit)
    }

    constructor (capacity: nat)
      requires capacity <= ISIZE_MAX
      ensures Valid() && fresh(data) && View() == Fresh(capacity)
    {
      data := new Byte[capacity](_ => 0);
      head, tail, closeWith, permit := 0, 0, None, false;
    }

    method Enqueue(bytes: Bytes) returns (outcome: EnqueueOutcome)
      requires Valid()
      modifies this, data
      ensures Valid() && (View(), outcome) == old(View()).Enqueue(bytes)
    {
      if closeWith.Some? {
        return AlreadyClosing;
      }
      var needed := |bytes|;
      var end := if tail + needed > USIZE_MAX then USIZE_MAX else tail + needed;
      if end > data.Length {
        closeWith, permit := Some(SlowConsumer), true;
        return SlowConsumerClosed;
      }
      ghost var before := data[..tail];
      for i := 0 to needed
        modifies data
        invariant data[..tail + i] == before + bytes[..i]
      {
        data[tail + i] := bytes[i];
        assert data[..tail + i + 1] == data[..tail + i] + [bytes[i]];
        assert bytes[..i + 1] == bytes[..i] + [bytes[i]];
      }
      assert bytes[..needed] == bytes;
      tail, permit := tail + needed, true;
      outcome := Accepted;
    }

    method MarkClose(reason: CloseReason)
      requires Valid()
      modifies this
      ensures Valid() && View() == old(View()).MarkClose(reason)
    {
      if closeWith.None? {
        closeWith := Some(reason);
      }
      permit := true;
    }

    method DrainInto(dst: array<Byte>) returns (n: nat)
      requires Valid() && dst != data
      modifies this, dst
      ensures Valid() && n <= dst.Length
      ensures (View(), dst[..n]) == old(View()).Drain(dst.Length)
      ensures dst[n..] == old(dst[n..])
    {
      ghost var before := View();
      DrainSplits(before, dst.Length);
      var pending := tail - head;
      n := if pending < dst.Length then pending else dst.Length;
      CopyOut(dst, n);
      assert before.data[before.head..|before.data|] == before.data[before.head..];
      Advance(n);
    }

    /** Move the head past n drained bytes; both cursors start over once everything is drained. */
    method Advance(n: nat)
      requires head + n <= tail <= data.Length
      modifies this`head, this`tail
      ensures tail <= data.Length
      ensures View() == if old(head) + n == old(tail) then old(View()).(data := [], head := 0)
                        else old(View()).(head := old(head) + n)
    {
      if head + n == tail {
        head, tail := 0, 0;
        assert data[..0] == [];
      } else {
        head := head + n;
      }
    }

    method CopyOut(dst: array<Byte>, n: nat)
      requires dst != data && n <= dst.Length && head + n <= tail <= data.Length
      modifies dst
      ensures dst[..n] == data[..tail][head..head + n]
      ensures dst[n..] == old(dst[n..])
    {
      for i := 0 to n
        invariant forall j | 0 <= j < i :: dst[j] == data[head + j]
        invariant forall j | i <= j < dst.Length :: dst[j] == old(dst[j])
      {
        dst[i] := data[head + i];
      }
    }
  }
}
