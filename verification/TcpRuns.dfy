/** The endpoint against an honest peer over a network that loses, repeats and reorders segments. */
module TcpRuns {
  import opened TcpStream

  /** A connection with what the endpoint's numbers stand for: sent is all that the application wrote,
      delivered all that it read, wire all segments it put on the network; iss and irs are the initial
      sequence numbers. */
  datatype Connection = Connection(s: Stream, iss: u32, irs: u32, sent: seq<byte>, delivered: seq<byte>,
                                   wire: seq<Segment>)

  /** How much of the peer's stream has been taken in. */
  function Received(c: Connection): nat { |c.delivered| + |c.s.buffer| }

  /** The position after the last one taken in; a FIN takes one. */
  function Expected(c: Connection): nat { Received(c) + if c.s.eof then 1 else 0 }

  /** How much of sent has been acknowledged. */
  function Acknowledged(c: Connection): int { |c.sent| - |c.s.outgoing| }

  /** The receiving half: bytes delivered and buffered are a prefix of what the peer sends. */
  ghost predicate ReceiveOk(c: Connection, peer: seq<byte>) {
    && |c.s.buffer| <= 1024
    && c.delivered + c.s.buffer <= peer
    && c.s.nextRx == Number(c.irs, 1 + Expected(c))
    && (c.s.eof ==> Received(c) == |peer|)
  }

  /** The sending half: next_tx - acked_tx counts the queued bytes, which are the end of sent. */
  ghost predicate SendOk(c: Connection) {
    && |c.s.outgoing| <= 1024 && |c.s.outgoing| <= |c.sent|
    && c.s.outgoing == c.sent[|c.sent| - |c.s.outgoing|..]
    && c.s.nextTx == Number(c.iss, 1 + |c.sent|)
    && c.s.ackedTx == Number(c.iss, 1 + Acknowledged(c))
    && Sub32(c.s.nextTx, c.s.ackedTx) == |c.s.outgoing|
  }

  /** A segment that the peer sends: stream bytes from position p on, FIN only at the end of the stream;
      p is less than 2^31 away from what is expected. */
  ghost predicate Honest(c: Connection, peer: seq<byte>, seg: Segment, p: nat) {
    && |seg.data| < 0x1_0000 && p + |seg.data| <= |peer|
    && seg.sequence == Number(c.irs, 1 + p)
    && seg.data == peer[p..p + |seg.data|]
    && (seg.flags.fin ==> p + |seg.data| == |peer|)
    && -0x8000_0000 < p - Expected(c) < 0x8000_0000 - 0x1_0000
  }

  // ----- Receiving -----

  /** Whether a segment at p meets the window, on unbounded positions. */
  predicate MeetsWindow(c: Connection, seg: Segment, p: nat) {
    var w, e := Window(c.s), Expected(c);
    if Span(seg) == 0 then (if w > 0 then e <= p < e + w else p == e)
    else w > 0 && (e <= p < e + w || e <= p + Span(seg) - 1 < e + w)
  }

  lemma AcceptableIsMeets(c: Connection, peer: seq<byte>, seg: Segment, p: nat)
    requires ReceiveOk(c, peer) && Honest(c, peer, seg, p)
    ensures Acceptable(c.s, seg) <==> MeetsWindow(c, seg, p)
  {
    var base: u32, e := c.irs, 1 + Expected(c);
    hide Number, Sub32, Add32;
    Apart(base, 1 + p, e);
    if Span(seg) > 0 {
      NumberAdd(base, 1 + p, Span(seg) - 1);
      Apart(base, p + Span(seg), e);
    }
  }

  lemma SliceSlice(s: seq<byte>, lo: nat, hi: nat, i: nat, j: nat)
    requires lo <= hi <= |s| && i <= j <= hi - lo
    ensures s[lo..hi][i..j] == s[lo + i..lo + j]
  {
    var a, b := s[lo..hi][i..j], s[lo + i..lo + j];
    forall k | 0 <= k < j - i ensures a[k] == b[k] { assert a[k] == s[lo + i + k]; }
  }

  /** What TakeData takes, on unbounded positions. */
  lemma TakesMissing(c: Connection, s: Stream, peer: seq<byte>, seg: Segment, p: nat)
    requires ReceiveOk(c, peer) && Honest(c, peer, seg, p) && Bounded(s)
    requires s.buffer == c.s.buffer && s.nextRx == c.s.nextRx && s.eof == c.s.eof
    requires !s.eof || Span(seg) == 0
    ensures InOrder(s, seg) <==> p <= Expected(c) <= p + |seg.data|
    ensures
      var r, w := Received(c), Window(s);
      if p <= Expected(c) <= p + |seg.data| && !s.eof then
        var end := Min(p + |seg.data|, r + w);
        && TakeData(s, seg).buffer == s.buffer + peer[r..end]
        && TakeData(s, seg).eof == (seg.flags.fin && p + |seg.data| < r + w)
        && TakeData(s, seg).nextRx == Number(c.irs, 1 + end + if TakeData(s, seg).eof then 1 else 0)
      else TakeData(s, seg) == s
  {
    hide Number, Sub32, Add32;
    var base: u32, e := c.irs, Expected(c);
    Apart(base, 1 + p, 1 + e);
    Apart(base, 1 + e, 1 + p);
    var skip := Skipped(s, seg);
    NumberAdd(base, 1 + p, skip);
    Apart(base, 1 + p + skip, 1 + e);
    assert skip == if p < e then Min(|seg.data|, e - p) else 0;
    if p <= e <= p + |seg.data| && !s.eof {
      var accepted := Min(|seg.data| - skip, Window(s));
      assert Received(c) + accepted == Min(p + |seg.data|, Received(c) + Window(s));
      SliceSlice(peer, p, p + |seg.data|, skip, skip + accepted);
      NumberAdd(base, 1 + e, accepted + if TakeData(s, seg).eof then 1 else 0);
    }
  }

  /** An honest segment extends what was received by exactly the missing bytes that fit the window. */
  lemma InputReceives(c: Connection, peer: seq<byte>, seg: Segment, p: nat, now: int)
    requires ReceiveOk(c, peer) && Honest(c, peer, seg, p) && Bounded(c.s) && c.s.state == Established
    requires seg.flags == Flags(seg.flags.fin, false, false, seg.flags.psh, true)
    ensures
      var c' := c.(s := Input(c.s, seg, now));
      var r, w := Received(c), Window(c.s);
      && ReceiveOk(c', peer)
      && if Signed(Sub32(seg.ack, c.s.nextTx)) <= 0 && MeetsWindow(c, seg, p) && p <= r && !c.s.eof then
           && Received(c') == Min(p + |seg.data|, r + w)
           && (c'.s.eof <==> seg.flags.fin && p + |seg.data| < r + w)
         else c'.s.buffer == c.s.buffer && c'.s.eof == c.s.eof
  {
    hide Number, Sub32, Add32, Skipped, TakeData, TakeAck, Signed, Acceptable, InOrder;
    AcceptableIsMeets(c, peer, seg, p);
    if !Refused(c.s, seg) {
      var s := TakeAck(c.s, seg.ack, now);
      TakesMissing(c, s, peer, seg, p);
      if p <= Expected(c) <= p + |seg.data| && !c.s.eof {
        var r, end := Received(c), Min(p + |seg.data|, Received(c) + Window(s));
        assert c.delivered + (c.s.buffer + peer[r..end]) == (c.delivered + c.s.buffer) + peer[r..end];
        assert peer[..r] + peer[r..end] == peer[..end];
      }
    }
  }

  // ----- Sending -----

  /** Every 32-bit acknowledgment number is that of one position close to what was sent last. */
  lemma AckPosition(c: Connection, ack: u32)
    requires SendOk(c)
    ensures
      var a := |c.sent| + Signed(Sub32(ack, c.s.nextTx));
      ack == Number(c.iss, 1 + a) && -0x8000_0000 <= a - |c.sent| < 0x8000_0000
  {
    NumberUnique(c.iss, 1 + |c.sent|, ack);
  }

  /** An acknowledgment of position a releases exactly the bytes before a; one of anything not outstanding
      releases nothing. */
  lemma TakeAckExact(c: Connection, a: int, now: int)
    requires SendOk(c) && -0x8000_0000 <= a - |c.sent| <= 0
    ensures
      var c' := c.(s := TakeAck(c.s, Number(c.iss, 1 + a), now));
      && SendOk(c')
      && Acknowledged(c') == if a >= Acknowledged(c) then a else Acknowledged(c)
  {
    hide Number, Sub32;
    var q := Acknowledged(c);
    if a < q {
      AckDistance(c, a);
    } else {
      Apart(c.iss, 1 + a, 1 + q);
      Apart(c.iss, 1 + |c.sent|, 1 + a);
    }
  }

  lemma AckDistance(c: Connection, a: int)
    requires SendOk(c) && -0x8000_0000 <= a - |c.sent| <= 0 && a < Acknowledged(c)
    ensures Signed(Sub32(Number(c.iss, 1 + a), c.s.ackedTx)) < 0
  {
    Apart(c.iss, 1 + a, 1 + Acknowledged(c));
  }

  // ----- Runs -----

  datatype Event =
    | Arrive(seg: Segment, p: nat, now: int) // tcp_input
    | Read(n: nat)                           // TCP_RECV
    | Write(data: seq<byte>, now: int)       // TCP_SEND, sent
    | Resend(now: int)                       // tcp_retry, sent
    | Delay(now: int)                        // tcp_retry, the frame has to wait
    | Acknowledge                            // tcp_ack, sent
    | Finish(flags: Flags)                   // TCP_CLOSE, sent
    | Leave                                  // TCP_CLOSE, not sent
    | Fail                                   // too many attempts, or no route

  /** Segments that carry no stream data are not bound to a position. */
  predicate Stray(seg: Segment) { seg.flags.syn || seg.flags.rst || !seg.flags.ack }

  ghost predicate Enabled(c: Connection, peer: seq<byte>, e: Event) {
    match e
    case Arrive(seg, p, _) => Stray(seg) || Honest(c, peer, seg, p)
    case Read(n) => 0 < n <= |c.s.buffer|
    case Write(data, _) => c.s.state == Established && 1 <= |data| <= 1024 && c.s.ackedTx == c.s.nextTx
    case Resend(_) => c.s.state == Established && c.s.ackedTx != c.s.nextTx
    case _ => true
  }

  function Next(c: Connection, e: Event): Connection
    requires Bounded(c.s) && (e.Read? ==> e.n <= |c.s.buffer|)
  {
    match e
    case Arrive(seg, _, now) => c.(s := Input(c.s, seg, now))
    case Read(n) => c.(s := Taken(c.s, n), delivered := c.delivered + c.s.buffer[..n])
    case Write(data, now) =>
      c.(s := Queued(c.s, data, now), sent := c.sent + data, wire := c.wire + [Outgoing(c.s, c.s.nextTx, DATA, data)])
    case Resend(now) => c.(s := c.s.(attempts := c.s.attempts + 1, lastSend := now), wire := c.wire + [Resent(c.s)])
    case Delay(now) => c.(s := c.s.(lastSend := now))
    case Acknowledge => c.(wire := c.wire + [Outgoing(c.s, c.s.nextTx, ACK, [])])
    case Finish(flags) => c.(s := c.s.(state := Idle), wire := c.wire + [Outgoing(c.s, c.s.nextTx, flags, [])])
    case Leave => c.(s := c.s.(state := Idle))
    case Fail => c.(s := c.s.(state := Error))
  }

  /** Number seg.sequence stands for a position of sent, where seg's bytes are. */
  predicate CarriesAt(c: Connection, seg: Segment, p: nat) {
    p + |seg.data| <= |c.sent| && seg.sequence == Number(c.iss, 1 + p) && seg.data == c.sent[p..p + |seg.data|]
  }

  ghost predicate Carries(c: Connection, seg: Segment) {
    exists p: nat :: CarriesAt(c, seg, p)
  }

  ghost predicate Inv(c: Connection, peer: seq<byte>) {
    ReceiveOk(c, peer) && SendOk(c) && Bounded(c.s) && forall seg :: seg in c.wire ==> Carries(c, seg)
  }

  /** A connection as the handshake leaves it. */
  predicate Opened(c: Connection) {
    && c.s.state == Established && c.s.nextTx == c.s.ackedTx == Number(c.iss, 1) && c.s.nextRx == Number(c.irs, 1)
    && c.s.buffer == c.s.outgoing == c.sent == c.delivered == [] && !c.s.eof && c.wire == []
  }

  /** Segments that arrive one after the other before the handshake is over. */
  function Arrived(s: Stream, segs: seq<Segment>, now: int): (r: Stream)
    requires Bounded(s)
    ensures Bounded(r)
  {
    if segs == [] then s else Input(Arrived(s, segs[..|segs| - 1], now), segs[|segs| - 1], now)
  }

  predicate AcksSyn(seg: Segment, iss: u32) { seg.flags.ack && seg.ack == Number(iss,
      1) && (seg.flags.syn || seg.flags.rst) }

  /** Whatever arrives, the connection stays closed until a segment acknowledges the SYN; the first that does opens it
      with that segment's numbers, or breaks it off. */
  lemma {:induction false} HandshakeOpens(s: Stream, iss: u32, segs: seq<Segment>, now: int)
    requires s.state == SynSent && s.nextTx == Number(iss, 1) && s.buffer == s.outgoing == [] && !s.eof && segs != []
    requires forall k :: 0 <= k < |segs| - 1 ==> !AcksSyn(segs[k], iss)
    ensures
      var last, r := segs[|segs| - 1], Arrived(s, segs, now);
      if !AcksSyn(last, iss) then r == s
      else if last.flags.rst then r == s.(state := Error)
      else Opened(Connection(r, iss, last.sequence, [], [], []))
    decreases |segs|
  {
    var before := segs[..|segs| - 1];
    if before != [] {
      assert forall k :: 0 <= k < |before| ==> before[k] == segs[k];
      HandshakeOpens(s, iss, before, now);
    }
  }

  lemma OpenedInv(c: Connection, peer: seq<byte>)
    requires Opened(c)
    ensures Inv(c, peer)
  {
  }

  /** Writing more does not change what was written. */
  lemma CarriesMore(c: Connection, c': Connection)
    requires c.sent <= c'.sent && c'.iss == c.iss
    ensures forall seg :: Carries(c, seg) ==> Carries(c', seg)
  {
    hide Number;
    forall seg, p: nat | CarriesAt(c, seg, p) ensures CarriesAt(c', seg, p) {
      assert c'.sent[p..p + |seg.data|] == c.sent[p..p + |seg.data|];
    }
  }

  lemma TakeAckKeeps(c: Connection, ack: u32, now: int)
    requires SendOk(c) && Signed(Sub32(ack, c.s.nextTx)) <= 0
    ensures SendOk(c.(s := TakeAck(c.s, ack, now)))
    ensures Acknowledged(c.(s := TakeAck(c.s, ack, now))) >= Acknowledged(c)
  {
    hide Number, Sub32, Signed, TakeAck;
    AckPosition(c, ack);
    TakeAckExact(c, |c.sent| + Signed(Sub32(ack, c.s.nextTx)), now);
  }

  /** Any segment, honest or not, keeps the sending half; acknowledgment only advances. */
  lemma InputKeepsSending(c: Connection, seg: Segment, now: int)
    requires SendOk(c) && Bounded(c.s) && c.s.state != SynSent
    ensures SendOk(c.(s := Input(c.s, seg, now)))
    ensures Acknowledged(c.(s := Input(c.s, seg, now))) >= Acknowledged(c)
  {
    hide Number, Sub32, Signed, TakeAck, TakeData, Acceptable;
    if c.s.state == Established && !seg.flags.rst && seg.flags.ack && !Refused(c.s, seg) {
      TakeAckKeeps(c, seg.ack, now);
    }
  }

  lemma ArriveKeeps(c: Connection, peer: seq<byte>, e: Event)
    requires Inv(c, peer) && c.s.state != SynSent && e.Arrive? && Enabled(c, peer, e)
    ensures Inv(Next(c, e), peer) && Acknowledged(Next(c, e)) >= Acknowledged(c)
    ensures Next(c, e).s.state != SynSent
  {
    hide Number, Sub32, Signed, TakeAck, TakeData, Acceptable, MeetsWindow, Honest;
    InputKeepsSending(c, e.seg, e.now);
    if !Stray(e.seg) && c.s.state == Established {
      InputReceives(c, peer, e.seg, e.p, e.now);
    }
    CarriesMore(c, Next(c, e));
  }

  /** Every event keeps both halves; acknowledged data only advances. */
  lemma StepKeeps(c: Connection, peer: seq<byte>, e: Event)
    requires Inv(c, peer) && c.s.state != SynSent && Enabled(c, peer, e)
    ensures Inv(Next(c, e), peer) && Acknowledged(Next(c, e)) >= Acknowledged(c)
    ensures Next(c, e).s.state != SynSent
    ensures c.sent <= Next(c, e).sent && c.delivered <= Next(c, e).delivered && c.wire <= Next(c, e).wire
  {
    hide Number, Sub32, Input, Honest, Signed;
    match e
    case Arrive(_, _, _) => ArriveKeeps(c, peer, e);
    case Read(n) => ReadKeeps(c, peer, n);
    case Write(data, now) => WriteKeeps(c, peer, data, now);
    case Resend(now) => SentKeeps(c, Next(c, e), peer, Resent(c.s), Acknowledged(c));
    case Acknowledge => SentKeeps(c, Next(c, e), peer, Outgoing(c.s, c.s.nextTx, ACK, []), |c.sent|);
    case Finish(flags) => SentKeeps(c, Next(c, e), peer, Outgoing(c.s, c.s.nextTx, flags, []), |c.sent|);
    case Delay(_) =>
      CarriesMore(c, Next(c, e));
    case Leave =>
      CarriesMore(c, Next(c, e));
    case Fail =>
      CarriesMore(c, Next(c, e));
  }

  lemma SentKeeps(c: Connection, c': Connection, peer: seq<byte>, seg: Segment, p: nat)
    requires Inv(c, peer) && c' == c.(s := c'.s, wire := c.wire + [seg])
    requires c'.s == c.s.(state := c'.s.state, attempts := c'.s.attempts, lastSend := c'.s.lastSend)
    requires CarriesAt(c, seg, p)
    ensures Inv(c', peer)
  {
    hide Number, Sub32;
    assert CarriesAt(c', seg, p);
    CarriesMore(c, c');
  }

  lemma ReadKeeps(c: Connection, peer: seq<byte>, n: nat)
    requires Inv(c, peer) && 0 < n <= |c.s.buffer|
    ensures Inv(Next(c, Read(n)), peer)
  {
    hide Number, Sub32;
    var c' := Next(c, Read(n));
    assert c.s.buffer[..n] + c.s.buffer[n..] == c.s.buffer;
    assert c'.delivered + c'.s.buffer == c.delivered + c.s.buffer;
    CarriesMore(c, c');
  }

  lemma WriteKeeps(c: Connection, peer: seq<byte>, data: seq<byte>, now: int)
    requires Inv(c, peer) && 1 <= |data| <= 1024 && c.s.ackedTx == c.s.nextTx
    ensures Inv(Next(c, Write(data, now)), peer) && Acknowledged(Next(c, Write(data, now))) >= Acknowledged(c)
  {
    hide Number, Sub32, Add32;
    var c' := Next(c, Write(data, now));
    Apart(c.iss, 1 + |c.sent|, 1 + Acknowledged(c));
    NumberAdd(c.iss, 1 + |c.sent|, |data|);
    Apart(c.iss, 1 + |c'.sent|, 1 + |c.sent|);
    CarriesMore(c, c');
    assert CarriesAt(c', Outgoing(c.s, c.s.nextTx, DATA, data), |c.sent|);
  }

  ghost predicate Run(peer: seq<byte>, cs: seq<Connection>, es: seq<Event>) {
    && |cs| == |es| + 1 && Opened(cs[0])
    && forall i :: 0 <= i < |es| ==>
         Bounded(cs[i].s) && Enabled(cs[i], peer, es[i]) && cs[i + 1] == Next(cs[i], es[i])
  }

  lemma {:induction false} RunInv(peer: seq<byte>, cs: seq<Connection>, es: seq<Event>, i: nat)
    requires Run(peer, cs, es) && i < |cs|
    ensures Inv(cs[i], peer) && cs[i].s.state != SynSent
    decreases i
  {
    hide Inv, Next, Honest;
    if i == 0 {
      OpenedInv(cs[0], peer);
    } else {
      RunInv(peer, cs, es, i - 1);
      assert cs[i - 1 + 1] == Next(cs[i - 1], es[i - 1]);
      StepKeeps(cs[i - 1], peer, es[i - 1]);
    }
  }

  /** What the application reads is a prefix of the peer's stream, without gap or repetition; no more than
      1024 bytes wait; end of file is reported only when the whole stream has been read. */
  lemma DeliversPrefix(peer: seq<byte>, cs: seq<Connection>, es: seq<Event>, i: nat)
    requires Run(peer, cs, es) && i < |cs|
    ensures cs[i].delivered + cs[i].s.buffer <= peer && |cs[i].s.buffer| <= 1024
    ensures cs[i].s.eof && cs[i].s.buffer == [] ==> cs[i].delivered == peer
  {
    hide SendOk, Number, Next, Enabled, Run;
    RunInv(peer, cs, es, i);
  }

  /** Reading and acknowledging never go back. */
  lemma {:induction false} RunAdvances(peer: seq<byte>, cs: seq<Connection>, es: seq<Event>, i: nat, j: nat)
    requires Run(peer, cs, es) && i <= j < |cs|
    ensures cs[i].delivered <= cs[j].delivered && cs[i].sent <= cs[j].sent && cs[i].wire <= cs[j].wire
    ensures Acknowledged(cs[i]) <= Acknowledged(cs[j]) && cs[i].iss == cs[j].iss
    decreases j
  {
    hide Inv, Honest, Acknowledged;
    if i < j {
      RunAdvances(peer, cs, es, i, j - 1);
      RunInv(peer, cs, es, j - 1);
      assert cs[j - 1 + 1] == Next(cs[j - 1], es[j - 1]);
      StepKeeps(cs[j - 1], peer, es[j - 1]);
    }
  }

  /** Whatever is put on the network, first or again, is what the application wrote for its numbers: no two
      segments ever carry different bytes at one position. */
  lemma WireCarriesStream(peer: seq<byte>, cs: seq<Connection>, es: seq<Event>, i: nat, j: nat, seg: Segment)
    requires Run(peer, cs, es) && i <= j < |cs| && seg in cs[i].wire
    ensures Carries(cs[j], seg)
  {
    hide Run, Carries, ReceiveOk, SendOk;
    RunAdvances(peer, cs, es, i, j);
    RunInv(peer, cs, es, j);
  }
}
