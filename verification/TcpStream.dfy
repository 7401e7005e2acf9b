/** The one-connection TCP endpoint of kernel/net.c as functions on its state: 32-bit sequence numbers
    that wrap, a 1024-byte receive buffer and one unacknowledged segment. */
module TcpStream {
  type byte = x: int | 0 <= x < 256
  type u32 = x: int | 0 <= x < 0x1_0000_0000

  /** u32 addition and subtraction. */
  function Add32(a: int, b: int): u32 { (a + b) % 0x1_0000_0000 }

  function Sub32(a: int, b: int): u32 { (a - b) % 0x1_0000_0000 }

  /** (i32)x */
  function Signed(x: u32): int { if x < 0x8000_0000 then x else x - 0x1_0000_0000 }

  function Min(a: int, b: int): int { if a < b then a else b }

  datatype Flags = Flags(fin: bool, syn: bool, rst: bool, psh: bool, ack: bool)

  /** A segment without its ports and checksum. */
  datatype Segment = Segment(sequence: u32, ack: u32, flags: Flags, window: int, data: seq<byte>)

  datatype State = Idle | SynSent | Established | Error

  /** The stream structure; buffer and outgoing are the used parts of its arrays. */
  datatype Stream = Stream(state: State, nextTx: u32, ackedTx: u32, nextRx: u32,
                           outgoing: seq<byte>, buffer: seq<byte>, eof: bool, attempts: nat, lastSend: int)

  predicate Bounded(s: Stream) { |s.buffer| <= 1024 && |s.outgoing| <= 1024 }

  function Window(s: Stream): (w: int)
    ensures Bounded(s) ==> 0 <= w <= 1024
  {
    if s.eof then 0 else 1024 - |s.buffer|
  }

  function Span(seg: Segment): nat { |seg.data| + if seg.flags.fin then 1 else 0 }

  /** The sequence space of a segment meets the window (section 3.10.7.4 of RFC 9293). */
  predicate Acceptable(s: Stream, seg: Segment) {
    if Span(seg) == 0 then
      if Window(s) > 0 then Sub32(seg.sequence, s.nextRx) < Window(s) else seg.sequence == s.nextRx
    else
      Window(s) > 0 && (Sub32(seg.sequence, s.nextRx) < Window(s)
                        || Sub32(Add32(seg.sequence, Span(seg) - 1), s.nextRx) < Window(s))
  }

  /** An acknowledgment releases the start of outgoing. */
  function TakeAck(s: Stream, ack: u32, now: int): (r: Stream)
    ensures r.buffer == s.buffer && r.nextRx == s.nextRx && r.eof == s.eof && r.state == s.state && r.nextTx == s.nextTx
    ensures Bounded(s) ==> Bounded(r)
  {
    if Signed(Sub32(ack, s.ackedTx)) >= 0 && Signed(Sub32(s.nextTx, ack)) >= 0 then
      var progress := Sub32(ack, s.ackedTx);
      if 0 < progress <= |s.outgoing| then
        s.(outgoing := s.outgoing[progress..], attempts := if progress < |s.outgoing| then 1 else 0, lastSend := now, ackedTx := ack)
      else s.(ackedTx := ack)
    else s
  }

  /** The bytes of a segment before the next one expected. */
  function Skipped(s: Stream, seg: Segment): (k: nat)
    ensures k <= |seg.data|
  {
    if Signed(Sub32(seg.sequence, s.nextRx)) < 0 then Min(|seg.data|, Sub32(s.nextRx, seg.sequence)) else 0
  }

  predicate InOrder(s: Stream, seg: Segment) {
    Add32(seg.sequence, Skipped(s, seg)) == s.nextRx
  }

  function TakeData(s: Stream, seg: Segment): (r: Stream)
    requires Bounded(s)
    ensures r.outgoing == s.outgoing && r.nextTx == s.nextTx && r.ackedTx == s.ackedTx && r.state == s.state
    ensures Bounded(r)
  {
    if !InOrder(s, seg) then s
    else
      var skip := Skipped(s, seg);
      var accepted := Min(|seg.data| - skip, Window(s));
      var last := seg.flags.fin && skip + accepted == |seg.data| && accepted < Window(s);
      s.(buffer := s.buffer + seg.data[skip..skip + accepted],
         nextRx := Add32(s.nextRx, accepted + if last then 1 else 0),
         eof := s.eof || last)
  }

  /** The segment is answered by an ACK and otherwise ignored. */
  predicate Refused(s: Stream, seg: Segment) {
    !Acceptable(s, seg) || seg.flags.syn || Signed(Sub32(seg.ack, s.nextTx)) > 0
  }

  /** tcp_input() */
  function Input(s: Stream, seg: Segment, now: int): (r: Stream)
    requires Bounded(s)
    ensures Bounded(r)
  {
    if s.state == SynSent then
      if !seg.flags.ack || seg.ack != s.nextTx then s
      else if seg.flags.rst then s.(state := Error)
      else if seg.flags.syn then s.(nextRx := Add32(seg.sequence, 1), ackedTx := seg.ack, state := Established)
      else s
    else if s.state == Established then
      if seg.flags.rst then if seg.sequence == s.nextRx then s.(state := Error) else s
      else if !seg.flags.ack || Refused(s, seg) then s
      else TakeData(TakeAck(s, seg.ack, now), seg)
    else s
  }

  /** tcp_input() ends with tcp_ack(). */
  predicate AckDue(s: Stream, seg: Segment, now: int)
    requires Bounded(s)
  {
    if s.state == SynSent then seg.flags.ack && seg.ack == s.nextTx && !seg.flags.rst && seg.flags.syn
    else
      s.state == Established && !seg.flags.rst && seg.flags.ack
      && (Refused(s, seg) || !InOrder(TakeAck(s, seg.ack, now), seg) || Span(seg) > 0)
  }

  /** A segment that tcp_packet() sends. */
  function Outgoing(s: Stream, sequence: u32, flags: Flags, data: seq<byte>): Segment {
    Segment(sequence, s.nextRx, flags, Window(s), data)
  }

  const SYN := Flags(false, true, false, false, false)
  const ACK := Flags(false, false, false, false, true)
  const DATA := Flags(false, false, false, true, true)
  const FIN := Flags(true, false, false, false, true)
  const RESET := Flags(false, false, true, false, true)

  /** Taking bytes from the buffer. */
  function Taken(s: Stream, n: nat): Stream
    requires n <= |s.buffer|
  {
    s.(buffer := s.buffer[n..])
  }

  /** After data has been sent for the first time. */
  function Queued(s: Stream, data: seq<byte>, now: int): Stream {
    s.(outgoing := data, nextTx := Add32(s.nextTx, |data|), attempts := 1, lastSend := now)
  }

  /** What tcp_retry() sends. */
  function Resent(s: Stream): Segment {
    if s.state == SynSent then Outgoing(s, Sub32(s.nextTx, 1), SYN, [])
    else Outgoing(s, s.ackedTx, DATA, s.outgoing)
  }

  // ----- Wrapping sequence numbers -----

  /** The sequence number of position p of a stream whose position 0 has number base. */
  function Number(base: u32, p: int): u32 { (base + p) % 0x1_0000_0000 }

  /** Numbers of positions less than 2^31 apart compare like the positions. */
  lemma Apart(base: u32, p: int, q: int)
    requires -0x8000_0000 <= p - q < 0x8000_0000
    ensures Signed(Sub32(Number(base, p), Number(base, q))) == p - q
    ensures p >= q ==> Sub32(Number(base, p), Number(base, q)) == p - q
    ensures p < q ==> Sub32(Number(base, p), Number(base, q)) == p - q + 0x1_0000_0000
    ensures Number(base, p) == Number(base, q) <==> p == q
  {
    var a, b := (base + p) / 0x1_0000_0000, (base + q) / 0x1_0000_0000;
    assert base + p == a * 0x1_0000_0000 + Number(base, p);
    assert base + q == b * 0x1_0000_0000 + Number(base, q);
  }

  lemma NumberAdd(base: u32, p: int, k: int)
    ensures Add32(Number(base, p), k) == Number(base, p + k)
  {
  }

  lemma NumberUnique(base: u32, p: int, x: u32)
    ensures Number(base, p + Signed(Sub32(x, Number(base, p)))) == x
  {
  }
}
