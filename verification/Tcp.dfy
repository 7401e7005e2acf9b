/** tcp_input, tcp_retry, tcp_packet and the TCP calls of net_ioctl in kernel/net.c, in place on the
    stream structure. */
module Tcp {
  import opened TcpStream

  /** The result of tcp_packet: the frame was queued, must wait (EAGAIN), or cannot be sent. */
  datatype Status = Sent | Again | Unsent

  datatype RecvResult = Got(n: nat) | EndOfFile | Wait | Invalid

  datatype SendResult = Tried(net: Status) | Unacknowledged | BadLength

  /** What a call of the owner finds: a connection, one that is not open yet, or one that has failed. */
  datatype Use = Ready | NotYet | Broken

  lemma AddTwice(x: u32, a: nat, b: nat)
    ensures Add32(Add32(x, a), b) == Add32(x, a + b)
    ensures Add32(x, 0) == x
  {
  }

  /** The first segment of a connection. */
  lemma FirstSyn(s: Stream, iss: u32)
    requires s.state == SynSent && s.nextTx == Add32(iss, 1) && s.nextRx == 0 && s.buffer == [] && !s.eof
    ensures Resent(s) == Segment(iss, 0, SYN, 1024, [])
  {
  }

  class Endpoint {
    var state: State
    var nextTx: u32
    var ackedTx: u32
    var nextRx: u32
    var lastSend: int
    var ackLastSend: int
    var attempts: nat
    var queued: nat
    var used: nat
    const buffer: array<byte>
    const outgoing: array<byte>
    var eof: bool
    var ackPending: bool
    /** All segments handed to the network. */
    ghost var wire: seq<Segment>

    ghost predicate Valid()
      reads this
    {
      buffer.Length == 1024 && outgoing.Length == 1024 && used <= 1024 && queued <= 1024 && buffer != outgoing
    }

    ghost function Abs(): (s: Stream)
      requires Valid()
      reads this, buffer, outgoing
      ensures Bounded(s)
    {
      Stream(state, nextTx, ackedTx, nextRx, outgoing[..queued], buffer[..used], eof, attempts, lastSend)
    }

    constructor ()
      ensures Valid() && state == Idle && wire == [] && fresh(buffer) && fresh(outgoing)
    {
      state, nextTx, ackedTx, nextRx, lastSend, ackLastSend := Idle, 0, 0, 0, 0, 0;
      attempts, queued, used, eof, ackPending, wire := 0, 0, 0, false, false, [];
      buffer := new byte[1024](_ => 0);
      outgoing := new byte[1024](_ => 0);
    }

    /** tcp_packet(); net is what becomes of the frame. */
    method TcpPacket(net: Status, sequence: u32, flags: Flags, body: seq<byte>) returns (r: Status)
      requires Valid()
      modifies this`wire, this`ackPending
      ensures r == (if |body| > 1024 then Unsent else net)
      ensures wire == old(wire) + (if r == Sent then [Outgoing(Abs(), sequence, flags, body)] else [])
      ensures ackPending == (old(ackPending) && !(r == Sent && flags.ack))
    {
      if |body| > 1024 { return Unsent; }
      r := net;
      if r == Sent {
        wire := wire + [Outgoing(Abs(), sequence, flags, body)];
        if flags.ack { ackPending := false; }
      }
    }

    /** An acknowledgment was tried: it is on the network, waits, or is lost. */
    twostate predicate AckTried(net: Status, now: int)
      requires Valid()
      reads this, buffer, outgoing
    {
      && ackLastSend == now && ackPending == (net == Again)
      && wire == old(wire) + if net == Sent then [Outgoing(Abs(), nextTx, ACK, [])] else []
    }

    /** tcp_ack() */
    method TcpAck(net: Status, now: int)
      requires Valid()
      modifies this`wire, this`ackPending, this`ackLastSend
      ensures AckTried(net, now)
    {
      ackLastSend := now;
      var r := TcpPacket(net, nextTx, ACK, []);
      ackPending := r == Again;
    }

    /** The acknowledgment part of tcp_input. */
    method ReleaseAcked(ack: u32, now: int)
      requires Valid()
      modifies this`queued, this`attempts, this`lastSend, this`ackedTx, outgoing
      ensures Valid() && Abs() == TakeAck(old(Abs()), ack, now)
    {
      if Signed(Sub32(ack, ackedTx)) >= 0 && Signed(Sub32(nextTx, ack)) >= 0 {
        var progress: nat := Sub32(ack, ackedTx);
        if 0 < progress <= queued {
          queued := queued - progress;
          forall k | 0 <= k < queued { outgoing[k] := outgoing[progress + k]; }
          assert outgoing[..queued] == old(outgoing[..queued])[progress..];
          attempts := if queued > 0 then 1 else 0;
          lastSend := now;
        }
        ackedTx := ack;
      }
    }

    method Append(data: seq<byte>)
      requires Valid() && used + |data| <= 1024
      modifies this`used, this`nextRx, buffer
      ensures Valid() && Abs() == old(Abs()).(buffer := old(Abs().buffer) + data, nextRx := Add32(old(nextRx), |data|))
    {
      hide Add32;
      forall k | 0 <= k < |data| { buffer[used + k] := data[k]; }
      assert buffer[..used + |data|] == old(buffer[..used]) + data;
      used := used + |data|;
      nextRx := Add32(nextRx, |data|);
    }

    /** The data part of tcp_input; false if the segment is out of order. */
    method AcceptData(seg: Segment) returns (inOrder: bool)
      requires Valid()
      modifies this`used, this`nextRx, this`eof, buffer
      ensures Valid() && inOrder == InOrder(old(Abs()), seg) && Abs() == TakeData(old(Abs()), seg)
    {
      hide Add32, Sub32, Signed;
      var window := if eof then 0 else 1024 - used;
      var skip: nat := 0;
      if Signed(Sub32(seg.sequence, nextRx)) < 0 { skip := Min(|seg.data|, Sub32(nextRx, seg.sequence)); }
      if Add32(seg.sequence, skip) != nextRx { return false; }
      var accepted: nat := Min(|seg.data| - skip, window);
      AddTwice(nextRx, accepted, 1);
      AddTwice(nextRx, accepted, 0);
      if accepted > 0 {
        Append(seg.data[skip..skip + accepted]);
      }
      if seg.flags.fin && skip + accepted == |seg.data| && accepted < window {
        nextRx := Add32(nextRx, 1);
        eof := true;
      }
      inOrder := true;
    }

    predicate Accepts(seg: Segment)
      requires Valid()
      reads this, buffer, outgoing
      ensures Accepts(seg) == !Refused(Abs(), seg)
    {
      hide Sub32, Add32, Signed;
      var span := Span(seg);
      var window := if eof then 0 else 1024 - used;
      var acceptable :=
        if span == 0 then (if window > 0 then Sub32(seg.sequence, nextRx) < window else seg.sequence == nextRx)
        else window > 0 && (Sub32(seg.sequence, nextRx) < window
                            || Sub32(Add32(seg.sequence, span - 1), nextRx) < window);
      !(!acceptable || seg.flags.syn || Signed(Sub32(seg.ack, nextTx)) > 0)
    }

    /** tcp_input() on a segment for this connection with a good checksum. */
    method TcpInput(net: Status, seg: Segment, now: int)
      requires Valid()
      modifies this, buffer, outgoing
      ensures Valid() && Abs() == Input(old(Abs()), seg, now)
      ensures AckDue(old(Abs()), seg, now) ==> AckTried(net, now)
      ensures !AckDue(old(Abs()), seg, now) ==>
                wire == old(wire) && ackLastSend == old(ackLastSend) && ackPending == (old(ackPending) && state == old(state))
    {
      hide TakeAck, TakeData, InOrder, Refused, Accepts, Signed, Sub32, Add32, Outgoing;
      if state != SynSent && state != Established { return; }
      if state == SynSent {
        if !seg.flags.ack || seg.ack != nextTx { return; }
        if seg.flags.rst { state, ackPending := Error, false; return; }
        if seg.flags.syn {
          nextRx, ackedTx, state := Add32(seg.sequence, 1), seg.ack, Established;
          TcpAck(net, now);
        }
        return;
      }
      if seg.flags.rst {
        if seg.sequence == nextRx { state, ackPending := Error, false; }
        return;
      }
      if !seg.flags.ack { return; }
      if !Accepts(seg) { TcpAck(net, now); return; }
      ReleaseAcked(seg.ack, now);
      var inOrder := AcceptData(seg);
      if !inOrder { TcpAck(net, now); return; }
      if |seg.data| > 0 || seg.flags.fin { TcpAck(net, now); }
    }

    /** Something is not acknowledged, and the time for it has passed. */
    predicate RetryDue(now: int)
      reads this
    {
      (state == SynSent || (state == Established && ackedTx != nextTx)) && now - lastSend >= 100
    }

    /** tcp_retry(): what is due is sent again, delayed when the frame has to wait, or given up after five attempts or
        without a route; otherwise an acknowledgment that waits is tried once a tick. */
    method TcpRetry(net: Status, now: int)
      requires Valid()
      modifies this
      ensures Valid() && Abs() == old(Abs()).(state := state, attempts := attempts, lastSend := lastSend)
      ensures
        var due := old(RetryDue(now));
        if due && old(attempts) < 5 && net == Sent then
          && state == old(state) && attempts == old(attempts) + 1 && lastSend == now
          && wire == old(wire) + [Resent(old(Abs()))]
          && ackPending == (old(ackPending) && state == SynSent)
        else if due && old(attempts) < 5 && net == Again then
          state == old(state) && attempts == old(attempts) && lastSend == now && wire == old(wire) && ackPending == old(ackPending)
        else if due then
          state == Error && attempts == old(attempts) && lastSend == old(lastSend) && wire == old(wire) && !ackPending
        else
          && state == old(state) && attempts == old(attempts) && lastSend == old(lastSend)
          && if state == Established && old(ackPending) && now != old(ackLastSend) then AckTried(net, now)
             else wire == old(wire) && ackPending == old(ackPending) && ackLastSend == old(ackLastSend)
    {
      hide Sub32;
      if state != SynSent && state != Established { return; }
      if (state == SynSent || ackedTx != nextTx) && now - lastSend >= 100 {
        if attempts >= 5 { state, ackPending := Error, false; return; }
        var sequence := if state == SynSent then Sub32(nextTx, 1) else ackedTx;
        if state == Established { ackLastSend := now; }
        var r := TcpPacket(net, sequence, if state == SynSent then SYN else DATA, if state == SynSent then [] else outgoing[..queued]);
        if r == Again { lastSend := now; return; }
        if r == Unsent { state, ackPending := Error, false; return; }
        attempts := attempts + 1;
        lastSend := now;
        return;
      }
      if state == Established && ackPending && now != ackLastSend { TcpAck(net, now); }
    }

    /** The stream structure before the first segment. */
    method Reset(iss: u32, now: int)
      requires Valid()
      modifies this
      ensures Valid() && Abs() == Stream(SynSent, Add32(iss, 1), iss, 0, [], [], false, 0, now - 100)
      ensures !ackPending && wire == old(wire)
    {
      hide Add32;
      nextRx, ackLastSend, attempts, queued, used, eof, ackPending := 0, 0, 0, 0, 0, false, false;
      ackedTx, nextTx := iss, Add32(iss, 1);
      lastSend := now - 100;
      state := SynSent;
      assert outgoing[..0] == [] && buffer[..0] == [];
    }

    /** NV_NET_TCP_OPEN from TCP_IDLE, with a random initial sequence number: the SYN goes out, waits, or there is no
        route. */
    method Open(net: Status, iss: u32, now: int)
      requires Valid() && state == Idle
      modifies this
      ensures Valid() && !ackPending
      ensures
        var s := Stream(SynSent, Add32(iss, 1), iss, 0, [], [], false, 0, now - 100);
        Abs() == match net
                 case Sent => s.(attempts := 1, lastSend := now)
                 case Again => s.(lastSend := now)
                 case Unsent => s.(state := Error)
      ensures wire == old(wire) + if net == Sent then [Segment(iss, 0, SYN, 1024, [])] else []
    {
      hide Add32, Sub32, Resent;
      Reset(iss, now);
      FirstSyn(Abs(), iss);
      TcpRetry(net, now);
    }

    /** The calls of the owner before they do anything: a broken connection is given up and says so once. */
    method Usable() returns (r: Use)
      requires Valid()
      modifies this`state, this`ackPending
      ensures r == (if old(state) == Error then Broken else if old(state) == Established then Ready else NotYet)
      ensures state == (if old(state) == Error then Idle else old(state))
      ensures ackPending == (old(ackPending) && old(state) != Error)
    {
      if state == Error { state, ackPending := Idle, false; return Broken; }
      r := if state == Established then Ready else NotYet;
    }

    /** NV_NET_TCP_RECV on an established connection. */
    method Recv(net: Status, dest: array<byte>, now: int) returns (r: RecvResult)
      requires Valid() && dest != buffer && dest != outgoing
      modifies this`used, this`wire, this`ackPending, this`ackLastSend, buffer, dest
      ensures Valid()
      ensures r == if dest.Length == 0 || dest.Length > 1024 then Invalid
                   else if old(used) > 0 then Got(Min(dest.Length, old(used))) else if eof then EndOfFile else Wait
      ensures r.Got? ==> dest[..r.n] == old(buffer[..r.n]) && Abs() == Taken(old(Abs()), r.n) && AckTried(net, now)
      ensures !r.Got? ==>
                && Abs() == old(Abs()) && wire == old(wire) && ackPending == old(ackPending)
                && ackLastSend == old(ackLastSend)
    {
      if dest.Length == 0 || dest.Length > 1024 { return Invalid; }
      if used == 0 { return if eof then EndOfFile else Wait; }
      var got := Min(dest.Length, used);
      forall k | 0 <= k < got { dest[k] := buffer[k]; }
      used := used - got;
      forall k | 0 <= k < used { buffer[k] := buffer[got + k]; }
      assert buffer[..used] == old(buffer[..used])[got..];
      TcpAck(net, now);
      r := Got(got);
    }

    /** NV_NET_TCP_SEND on an established connection. */
    method Send(net: Status, data: seq<byte>, now: int) returns (r: SendResult)
      requires Valid()
      modifies this, outgoing
      ensures Valid()
      ensures r == if |data| == 0 || |data| > 1024 then BadLength else if old(ackedTx) != old(nextTx) then Unacknowledged else Tried(net)
      ensures if r == Tried(Sent) then
                && Abs() == Queued(old(Abs()), data, now) && !ackPending
                && wire == old(wire) + [Outgoing(old(Abs()), old(nextTx), DATA, data)]
              else Abs() == old(Abs()) && wire == old(wire) && ackPending == old(ackPending)
      ensures ackLastSend == old(ackLastSend)
    {
      hide Add32;
      if |data| == 0 || |data| > 1024 { return BadLength; }
      if ackedTx != nextTx { return Unacknowledged; }
      var sent := TcpPacket(net, nextTx, DATA, data);
      if sent != Sent { return Tried(sent); }
      forall k | 0 <= k < |data| { outgoing[k] := data[k]; }
      queued := |data|;
      assert outgoing[..queued] == data;
      nextTx := Add32(nextTx, |data|);
      attempts := 1;
      lastSend := now;
      r := Tried(Sent);
    }

    /** NV_NET_TCP_CLOSE by the owner. */
    method Close(net: Status)
      requires Valid() && state != Idle
      modifies this
      ensures Valid() && Abs() == old(Abs()).(state := Idle) && !ackPending
      ensures wire == old(wire) +
                      if old(state) == Established && net == Sent then
                        [Outgoing(old(Abs()), nextTx, if ackedTx == nextTx then FIN else RESET, [])]
                      else []
    {
      if state == Established {
        var r := TcpPacket(net, nextTx, if ackedTx == nextTx then FIN else RESET, []);
      }
      state, ackPending := Idle, false;
    }
  }
}
