/** tcp_input of kernel/net.c on the bytes of a packet, and what the bytes of a built segment do. */
module TcpPackets {
  import opened Wrappers
  import opened TcpStream
  import opened Tcp
  import opened Wire

  /** The addresses and ports of the connection. */
  datatype Link = Link(local: u32, remote: u32, localPort: u16, remotePort: u16)

  /** The packet belongs to the connection, is whole and is well formed. */
  predicate ForUs(link: Link, packet: seq<byte>, source: u32, dest: u32) {
    && source == link.remote && dest == link.local && 20 <= |packet| < 0x1_0000
    && Get16(packet, 0) == link.remotePort && Get16(packet, 2) == link.localPort
    && ValidTcp(packet, source, dest) && Parse(packet).Some?
  }

  /** tcp_input() on a packet: one with a damaged checksum, other ports or other addresses has no effect. */
  method Receive(net: Status, e: Endpoint, link: Link, packet: seq<byte>, source: u32, dest: u32, now: int)
    requires e.Valid() && |packet| < 0x1_0000
    modifies e, e.buffer, e.outgoing
    ensures e.Valid()
    ensures ForUs(link, packet, source, dest) ==>
              var seg := Parse(packet).value;
              && e.Abs() == Input(old(e.Abs()), seg, now)
              && if AckDue(old(e.Abs()), seg, now) then e.AckTried(net, now) else e.wire == old(e.wire)
    ensures !ForUs(link, packet, source, dest) ==> e.Abs() == old(e.Abs()) && e.wire == old(e.wire)
  {
    hide Input, AckDue, Outgoing, ValidTcp, Parse, Get16;
    if source != link.remote || dest != link.local || |packet| < 20 { return; }
    if Get16(packet, 0) != link.remotePort || Get16(packet, 2) != link.localPort { return; }
    var good := TcpChecksumValid(packet, source, dest);
    if !good { return; }
    var seg := Parse(packet);
    if seg.None? { return; }
    e.TcpInput(net, seg.value, now);
  }

  /** A segment that the peer builds and the network delivers acts as that segment, whatever its length and contents. */
  method Deliver(net: Status, e: Endpoint, link: Link, seg: Segment, now: int)
    requires e.Valid() && 0 <= seg.window < 0x1_0000 && |seg.data| <= 1024
    modifies e, e.buffer, e.outgoing
    ensures e.Valid() && e.Abs() == Input(old(e.Abs()), seg, now)
    ensures if AckDue(old(e.Abs()), seg, now) then e.AckTried(net, now) else e.wire == old(e.wire)
  {
    hide Input, AckDue, Outgoing, TcpBytes, ValidTcp, Parse, Get16;
    var packet := BuildTcp(link.remote, link.local, link.remotePort, link.localPort, seg);
    TcpBytesValid(link.remote, link.local, link.remotePort, link.localPort, seg);
    TcpRoundTrip(link.remote, link.local, link.remotePort, link.localPort, seg);
    Receive(net, e, link, packet[..], link.remote, link.local, now);
  }

  /** The packet of a segment that the peer builds is whole and belongs to the connection, and reads back as the
      segment. */
  lemma BuiltIsForUs(link: Link, seg: Segment)
    requires 0 <= seg.window < 0x1_0000 && |seg.data| <= 1024
    ensures
      var packet := TcpBytes(link.remote, link.local, link.remotePort, link.localPort, seg);
      ForUs(link, packet, link.remote, link.local) && Parse(packet) == Some(seg)
  {
    hide TcpBytes, ValidTcp, Parse, Get16;
    TcpBytesValid(link.remote, link.local, link.remotePort, link.localPort, seg);
    TcpRoundTrip(link.remote, link.local, link.remotePort, link.localPort, seg);
  }
}
