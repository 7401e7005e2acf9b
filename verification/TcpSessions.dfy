/** A connection of kernel/net.c from its handshake on: whatever is called, and whatever arrives, is a run. */
module TcpSessions {
  import opened TcpStream
  import opened TcpRuns
  import opened Tcp

  class Session {
    const e: Endpoint
    /** All that the peer sends. */
    ghost const peer: seq<byte>
    /** The run, and the segments of the handshake. */
    ghost var cs: seq<Connection>
    ghost var es: seq<Event>
    ghost var opening: seq<Segment>

    ghost function Last(): Connection
      reads this
      requires |cs| > 0
    {
      cs[|cs| - 1]
    }

    ghost predicate Valid()
      reads this, e, e.buffer, e.outgoing
    {
      e.Valid() && |cs| == |es| + 1 && Run(peer, cs, es) && Last().s == e.Abs() && e.wire == opening + Last().wire
    }

    /** The segment that acknowledges the SYN has arrived: the connection is open. */
    constructor (e: Endpoint, net: Status, seg: Segment, now: int, ghost iss: u32, ghost peer: seq<byte>)
      requires e.Valid() && e.state == SynSent && e.nextTx == Number(iss, 1) && e.used == 0 && e.queued == 0 && !e.eof
      requires AcksSyn(seg, iss) && !seg.flags.rst
      modifies e, e.buffer, e.outgoing
      ensures Valid() && this.e == e && this.peer == peer && Last().sent == [] && Last().delivered == []
      ensures Last().irs == seg.sequence
    {
      hide Number, Add32, Sub32, Signed, Run;
      ghost var s := e.Abs();
      this.e, this.peer := e, peer;
      new;
      HandshakeDone(s, iss, seg, now);
      e.TcpInput(net, seg, now);
      cs, es, opening := [Connection(e.Abs(), iss, seg.sequence, [], [], [])], [], e.wire;
      OneRun(peer, cs[0]);
    }

    /** The run goes on. */
    ghost method Take(ev: Event)
      requires |cs| == |es| + 1 && Run(peer, cs, es) && Bounded(Last().s) && Enabled(Last(), peer, ev)
      modifies this`cs, this`es
      ensures Run(peer, cs, es) && cs == old(cs) + [Next(old(Last()), ev)] && es == old(es) + [ev]
    {
      hide Next, Honest;
      MoreRun(peer, cs, es, ev);
      cs, es := cs + [Next(Last(), ev)], es + [ev];
    }

    /** An acknowledgment that went out. */
    ghost method TakeAck(net: Status, was: seq<Segment>)
      requires e.Valid() && |cs| == |es| + 1 && Run(peer, cs, es) && Last().s == e.Abs() && was == opening + Last().wire
      requires e.wire == was + if net == Sent then [Outgoing(e.Abs(), e.nextTx, ACK, [])] else []
      modifies this`cs, this`es
      ensures Valid() && old(es) <= es && old(cs) <= cs && Last() == old(Last()).(wire := Last().wire)
    {
      hide Run, Outgoing;
      if net == Sent {
        AckStep(Last(), peer);
        Take(Acknowledge);
      }
    }

    /** A segment of the peer arrives, or one that has nothing to do with its stream. */
    method Arrives(net: Status, seg: Segment, ghost p: nat, now: int)
      requires Valid() && (Stray(seg) || Honest(Last(), peer, seg, p))
      modifies this`cs, this`es, e, e.buffer, e.outgoing
      ensures Valid() && old(es) < es && es[|old(es)|] == Arrive(seg, p, now)
      ensures Last().delivered == old(Last().delivered) && Last().sent == old(Last().sent)
    {
      hide Run, Input, AckDue, Honest, Outgoing;
      ghost var due, was := AckDue(e.Abs(), seg, now), e.wire;
      e.TcpInput(net, seg, now);
      Take(Arrive(seg, p, now));
      if due { TakeAck(net, was); }
    }

    /** The timer.  What is due is sent again, delayed or given up. */
    method Retry(net: Status, now: int)
      requires Valid()
      modifies this`cs, this`es, e
      ensures Valid() && old(es) <= es && old(cs) <= cs
      ensures Last().delivered == old(Last().delivered) && Last().sent == old(Last().sent)
      ensures old(e.RetryDue(now)) ==>
                && |es| == |old(es)| + 1
                && es[|old(es)|] == if old(e.attempts) >= 5 || net == Unsent then Fail else if net == Sent then Resend(now) else Delay(now)
    {
      hide Run, Resent, Outgoing;
      ghost var due, was, tries := e.RetryDue(now), e.wire, e.attempts;
      NotOpening();
      e.TcpRetry(net, now);
      if due {
        Take(if tries >= 5 || net == Unsent then Fail else if net == Sent then Resend(now) else Delay(now));
      } else if e.wire != was {
        TakeAck(net, was);
      }
    }

    lemma NotOpening()
      requires Valid()
      ensures e.state != SynSent && Inv(Last(), peer)
    {
      hide Run, Inv;
      RunInv(peer, cs, es, |es|);
    }

    /** TCP_RECV: what the application gets is the next part of the peer's stream, and end of file its end. */
    method Recv(net: Status, dest: array<byte>, now: int) returns (r: RecvResult)
      requires Valid() && dest != e.buffer && dest != e.outgoing
      modifies this`cs, this`es, e, e.buffer, dest
      ensures Valid() && old(es) <= es && old(cs) <= cs
      ensures r.Got? ==>
                && 0 < r.n <= dest.Length && Last().delivered == old(Last().delivered) + dest[..r.n]
                && Last().delivered <= peer
                && es != old(es) && es[|old(es)|] == Read(r.n)
      ensures !r.Got? ==> es == old(es) && cs == old(cs)
      ensures r == EndOfFile ==> Last().delivered == peer
    {
      hide Run, Outgoing;
      ghost var was, stream := e.wire, e.Abs().buffer;
      r := e.Recv(net, dest, now);
      if r.Got? {
        Take(Read(r.n));
        TakeAck(net, was);
      }
      DeliversPrefix(peer, cs, es, |es|);
    }

    /** TCP_SEND */
    method Send(net: Status, data: seq<byte>, now: int) returns (r: SendResult)
      requires Valid() && e.state == Established
      modifies this`cs, this`es, e, e.outgoing
      ensures Valid()
      ensures if r == Tried(Sent) then
                es == old(es) + [Write(data, now)] && Last().sent == old(Last().sent) + data && Last().delivered == old(Last().delivered)
              else es == old(es) && cs == old(cs)
    {
      hide Run, Outgoing, Queued;
      r := e.Send(net, data, now);
      if r == Tried(Sent) { Take(Write(data, now)); }
    }

    /** TCP_CLOSE */
    method Close(net: Status)
      requires Valid() && e.state != Idle
      modifies this`cs, this`es, e
      ensures Valid() && e.state == Idle && |es| == |old(es)| + 1 && old(es) <= es
      ensures Last().delivered == old(Last().delivered) && Last().sent == old(Last().sent)
    {
      hide Run, Outgoing;
      ghost var flags, sent := if e.ackedTx == e.nextTx then FIN else RESET, e.state == Established && net == Sent;
      e.Close(net);
      Take(if sent then Finish(flags) else Leave);
    }
  }

  lemma AckStep(c: Connection, peer: seq<byte>)
    ensures Enabled(c, peer, Acknowledge)
  {
  }

  lemma HandshakeDone(s: Stream, iss: u32, seg: Segment, now: int)
    requires s.state == SynSent && s.nextTx == Number(iss, 1) && s.buffer == s.outgoing == [] && !s.eof
    requires AcksSyn(seg, iss) && !seg.flags.rst
    ensures Opened(Connection(Input(s, seg, now), iss, seg.sequence, [], [], []))
  {
  }

  lemma OneRun(peer: seq<byte>, c: Connection)
    requires Opened(c)
    ensures Run(peer, [c], [])
  {
  }

  lemma MoreRun(peer: seq<byte>, cs: seq<Connection>, es: seq<Event>, ev: Event)
    requires Run(peer, cs, es) && Bounded(cs[|cs| - 1].s) && Enabled(cs[|cs| - 1], peer, ev)
    ensures Run(peer, cs + [Next(cs[|cs| - 1], ev)], es + [ev])
  {
    hide Next, Enabled, Opened;
  }
}
