/** Packets as bytes: the Internet checksum (RFC 1071) and the TCP and UDP packets of kernel/net.c. */
module Wire {
  import opened Wrappers
  import opened TcpStream

  type u16 = x: int | 0 <= x < 0x1_0000

  // ----- The checksum -----

  function Word(high: int, low: int): int { 256 * high + low }

  /** The sum of the big-endian words of s, an odd last byte padded with zero. */
  function Sum(s: seq<byte>): nat
    decreases |s|
  {
    var n := |s|;
    if n == 0 then 0
    else if n % 2 == 1 then Sum(s[..n - 1]) + Word(s[n - 1], 0)
    else Sum(s[..n - 2]) + Word(s[n - 2], s[n - 1])
  }

  /** Adding the carries back. */
  function Fold(sum: nat): u16
    decreases sum
  {
    if sum < 0x1_0000 then sum else Fold(sum % 0x1_0000 + sum / 0x1_0000)
  }

  function Complement(x: u16): u16 { 0xffff - x }

  /** The carries that were added back. */
  ghost function Carries(sum: nat): nat
    decreases sum
  {
    if sum < 0x1_0000 then 0 else sum / 0x1_0000 + Carries(sum % 0x1_0000 + sum / 0x1_0000)
  }

  /** Folding keeps the residue modulo 0xffff, and only zero folds to zero. */
  lemma {:induction false} FoldResidue(sum: nat)
    ensures sum == Fold(sum) + 0xffff * Carries(sum)
    ensures Fold(sum) == 0 <==> sum == 0
    decreases sum
  {
    if sum >= 0x1_0000 { FoldResidue(sum % 0x1_0000 + sum / 0x1_0000); }
  }

  lemma SameResidue(a: nat, b: nat, k: int)
    requires a - b == 0xffff * k && (a == 0 <==> b == 0)
    ensures Fold(a) == Fold(b)
  {
    hide Fold, Carries;
    FoldResidue(a);
    FoldResidue(b);
    assert Fold(a) - Fold(b) == 0xffff * (k + Carries(b) - Carries(a));
  }

  /** A sum that is completed by the complement of its folding folds to all ones. */
  lemma Completes(sum: nat, c: u16)
    requires c == Complement(Fold(sum)) || (c == 0xffff && Fold(sum) == 0xffff)
    ensures Fold(sum + c) == 0xffff
  {
    hide Fold, Carries;
    FoldResidue(sum);
    SameResidue(sum + c, 0xffff, Carries(sum) + if c == Complement(Fold(sum)) then 0 else 1);
    AllOnes();
  }

  lemma AllOnes()
    ensures Fold(0xffff) == 0xffff
  {
  }

  lemma SumLast(s: seq<byte>)
    requires s != []
    ensures |s| % 2 == 1 ==> Sum(s) == Sum(s[..|s| - 1]) + Word(s[|s| - 1], 0)
    ensures |s| % 2 == 0 ==> |s| >= 2 && Sum(s) == Sum(s[..|s| - 2]) + Word(s[|s| - 2], s[|s| - 1])
  {
  }

  lemma {:induction false} SumAppend(a: seq<byte>, b: seq<byte>)
    requires |a| % 2 == 0
    ensures Sum(a + b) == Sum(a) + Sum(b)
    decreases |b|
  {
    hide Word, Sum;
    if b == [] {
      assert a + b == a;
      SumEmpty();
    } else {
      var s := a + b;
      SumLast(s);
      SumLast(b);
      var k := if |b| % 2 == 1 then 1 else 2;
      assert s[..|s| - k] == a + b[..|b| - k];
      SumAppend(a, b[..|b| - k]);
    }
  }

  lemma SumEmpty()
    ensures Sum([]) == 0
  {
  }

  /** The 32-bit accumulator cannot overflow on any packet. */
  lemma {:induction false} SumBound(s: seq<byte>)
    ensures Sum(s) <= 0xffff * ((|s| + 1) / 2)
    ensures |s| < 0x1_0000 ==> Sum(s) + 0xffff < 0x1_0000_0000
    decreases |s|
  {
    var n := |s|;
    if n > 0 { SumBound(s[..n - if n % 2 == 1 then 1 else 2]); }
  }

  function ChecksumOf(s: seq<byte>): u16 { Complement(Fold(Sum(s))) }

  /** checksum() from start on; the sum so far is given. */
  method AddWords(p: seq<byte>, start: nat) returns (sum: nat)
    requires |p| < 0x1_0000 && start <= 0xffff
    ensures sum == start + Sum(p) < 0x1_0000_0000
  {
    SumBound(p);
    sum := start;
    var i := 0;
    while i < |p|
      invariant i <= |p| + 1 && (i <= |p| ==> i % 2 == 0)
      invariant sum == start + Sum(p[..Min(i, |p|)])
    {
      ghost var next := Min(i + 2, |p|);
      assert p[..next][..i] == p[..i];
      sum := sum + Word(p[i], if i + 1 < |p| then p[i + 1] else 0);
      i := i + 2;
    }
    assert p[..|p|] == p;
  }

  method FoldSum(s: nat) returns (r: u16)
    ensures r == Fold(s)
  {
    var sum := s;
    while sum >= 0x1_0000
      invariant Fold(sum) == Fold(s)
    {
      sum := sum % 0x1_0000 + sum / 0x1_0000;
    }
    r := sum;
  }

  method Checksum(p: seq<byte>) returns (c: u16)
    requires |p| < 0x1_0000
    ensures c == ChecksumOf(p)
  {
    var sum := AddWords(p, 0);
    var f := FoldSum(sum);
    c := Complement(f);
  }

  // ----- Fields -----

  function Be16(n: u16): (b: seq<byte>) ensures |b| == 2 { [n / 256, n % 256] }

  function Be32(n: u32): (b: seq<byte>)
    ensures |b| == 4
  {
    Be16(n / 0x1_0000) + Be16(n % 0x1_0000)
  }

  function Get16(p: seq<byte>, at: nat): u16
    requires at + 2 <= |p|
  {
    Word(p[at], p[at + 1])
  }

  function Get32(p: seq<byte>, at: nat): u32
    requires at + 4 <= |p|
  {
    var a: int, b: int := Get16(p, at), Get16(p, at + 2);
    0x1_0000 * a + b
  }

  lemma Get16Of(p: seq<byte>, at: nat, n: u16)
    requires at + 2 <= |p| && p[at..at + 2] == Be16(n)
    ensures Get16(p, at) == n
  {
    assert p[at] == p[at..at + 2][0] && p[at + 1] == p[at..at + 2][1];
  }

  lemma Get32Of(p: seq<byte>, at: nat, n: u32)
    requires at + 4 <= |p| && p[at..at + 4] == Be32(n)
    ensures Get32(p, at) == n
  {
    hide Get16;
    assert p[at..at + 2] == p[at..at + 4][..2] == Be16(n / 0x1_0000);
    assert p[at + 2..at + 4] == p[at..at + 4][2..] == Be16(n % 0x1_0000);
    Get16Of(p, at, n / 0x1_0000);
    Get16Of(p, at + 2, n % 0x1_0000);
  }

  function PseudoHeader(source: u32, dest: u32, protocol: byte, length: u16): (p: seq<byte>)
    ensures |p| == 12
  {
    Be32(source) + Be32(dest) + [0, protocol] + Be16(length)
  }

  /** tcp_checksum_valid() */
  predicate ValidTcp(packet: seq<byte>, source: u32, dest: u32)
    requires |packet| < 0x1_0000
  {
    Fold(Fold(Sum(PseudoHeader(source, dest, 6, |packet|))) + Sum(packet)) == 0xffff
  }

  /** udp_checksum_valid(); 0 means that the sender computed none. */
  predicate ValidUdp(packet: seq<byte>, source: u32, dest: u32)
    requires 8 <= |packet| < 0x1_0000
  {
    Get16(packet, 6) == 0 || Fold(Fold(Sum(PseudoHeader(source, dest, 17, |packet|))) + Sum(packet)) == 0xffff
  }

  /** The sum of a packet whose checksum field is split out. */
  lemma SumWithField(before: seq<byte>, c: u16, after: seq<byte>)
    requires |before| % 2 == 0
    ensures Sum(before + Be16(c) + after) == Sum(before + Be16(0) + after) + c
  {
    FieldSum(before, c, after);
    FieldSum(before, 0, after);
  }

  lemma FieldSum(before: seq<byte>, c: u16, after: seq<byte>)
    requires |before| % 2 == 0
    ensures Sum(before + Be16(c) + after) == Sum(before) + c + Sum(after)
  {
    SumAppend(before, Be16(c));
    SumAppend(before + Be16(c), after);
    assert Be16(c)[..0] == [];
    assert Sum(Be16(c)) == c;
  }

  // ----- TCP -----

  /** The flags of the TCP header (section 3.1 of RFC 9293). */
  function FlagByte(f: Flags): byte {
    (if f.fin then 1 else 0) + (if f.syn then 2 else 0) + (if f.rst then 4 else 0)
    + (if f.psh then 8 else 0) + (if f.ack then 16 else 0)
  }

  function FlagsOf(b: byte): Flags {
    Flags(b % 2 == 1, b / 2 % 2 == 1, b / 4 % 2 == 1, b / 8 % 2 == 1, b / 16 % 2 == 1)
  }

  /** The header up to the checksum. */
  function TcpStart(localPort: u16, remotePort: u16, seg: Segment): (b: seq<byte>)
    requires 0 <= seg.window < 0x1_0000
    ensures |b| == 16
  {
    Be16(localPort) + Be16(remotePort) + Be32(seg.sequence) + Be32(seg.ack) + [0x50, FlagByte(seg.flags)] + Be16(seg.window)
  }

  function TcpWith(localPort: u16, remotePort: u16, seg: Segment, c: u16): (b: seq<byte>)
    requires 0 <= seg.window < 0x1_0000
    ensures |b| == 20 + |seg.data|
  {
    TcpStart(localPort, remotePort, seg) + Be16(c) + ([0, 0] + seg.data)
  }

  /** The segment that tcp_packet() sends. */
  function TcpBytes(source: u32, dest: u32, localPort: u16, remotePort: u16, seg: Segment): (b: seq<byte>)
    requires 0 <= seg.window < 0x1_0000 && |seg.data| <= 1024
    ensures |b| == 20 + |seg.data|
  {
    var pseudo := PseudoHeader(source, dest, 6, 20 + |seg.data|);
    TcpWith(localPort, remotePort, seg,
            Complement(Fold(Fold(Sum(pseudo)) + Sum(TcpWith(localPort, remotePort, seg, 0)))))
  }

  /** Every TCP segment built, of any length, passes the check for the same addresses. */
  lemma TcpBytesValid(source: u32, dest: u32, localPort: u16, remotePort: u16, seg: Segment)
    requires 0 <= seg.window < 0x1_0000 && |seg.data| <= 1024
    ensures ValidTcp(TcpBytes(source, dest, localPort, remotePort, seg), source, dest)
  {
    hide TcpStart, Sum, Fold, PseudoHeader, Be16;
    var p := Fold(Sum(PseudoHeader(source, dest, 6, 20 + |seg.data|)));
    var zeroed := TcpWith(localPort, remotePort, seg, 0);
    var c := Complement(Fold(p + Sum(zeroed)));
    SumWithField(TcpStart(localPort, remotePort, seg), c, [0, 0] + seg.data);
    Completes(p + Sum(zeroed), c);
  }

  /** tcp_input() reading a packet: the ports, and the segment unless the packet is malformed. */
  function Parse(packet: seq<byte>): Option<Segment> {
    if |packet| < 20 then None
    else
      var header := packet[12] / 16 * 4;
      if header < 20 || header > |packet| then None
      else Some(Segment(Get32(packet, 4), Get32(packet, 8), FlagsOf(packet[13]), Get16(packet, 14), packet[header..]))
  }

  lemma FlagsRoundTrip(f: Flags)
    ensures FlagsOf(FlagByte(f)) == f
  {
  }

  /** What is sent is read back, field by field. */
  lemma TcpRoundTrip(source: u32, dest: u32, localPort: u16, remotePort: u16, seg: Segment)
    requires 0 <= seg.window < 0x1_0000 && |seg.data| <= 1024
    ensures
      var b := TcpBytes(source, dest, localPort, remotePort, seg);
      Parse(b) == Some(seg) && Get16(b, 0) == localPort && Get16(b, 2) == remotePort
  {
    hide Sum, Fold, PseudoHeader, Be16, Be32, FlagByte, FlagsOf, Get16, Get32;
    var b := TcpBytes(source, dest, localPort, remotePort, seg);
    assert b[0..2] == Be16(localPort) && b[2..4] == Be16(remotePort);
    assert b[4..8] == Be32(seg.sequence) && b[8..12] == Be32(seg.ack);
    assert b[14..16] == Be16(seg.window);
    Get16Of(b, 0, localPort);
    Get16Of(b, 2, remotePort);
    Get32Of(b, 4, seg.sequence);
    Get32Of(b, 8, seg.ack);
    Get16Of(b, 14, seg.window);
    FlagsRoundTrip(seg.flags);
    assert b[20..] == seg.data;
  }

  // ----- UDP -----

  function UdpWith(sourcePort: u16, destPort: u16, data: seq<byte>, c: u16): (b: seq<byte>)
    requires |data| <= 1472
    ensures |b| == 8 + |data|
  {
    Be16(sourcePort) + Be16(destPort) + Be16(8 + |data|) + Be16(c) + data
  }

  /** The datagram that udp_raw() sends. */
  function UdpBytes(source: u32, dest: u32, sourcePort: u16, destPort: u16, data: seq<byte>): (b: seq<byte>)
    requires |data| <= 1472
  {
    var pseudo := PseudoHeader(source, dest, 17, 8 + |data|);
    var c := Complement(Fold(Fold(Sum(pseudo)) + Sum(UdpWith(sourcePort, destPort, data, 0))));
    UdpWith(sourcePort, destPort, data, if c != 0 then c else 0xffff)
  }

  /** Every datagram built passes the check by its checksum, which is never the omitted one. */
  lemma UdpBytesValid(source: u32, dest: u32, sourcePort: u16, destPort: u16, data: seq<byte>)
    requires |data| <= 1472
    ensures
      var b := UdpBytes(source, dest, sourcePort, destPort, data);
      && |b| == 8 + |data| && Get16(b, 6) != 0 && ValidUdp(b, source, dest)
      && Get16(b, 0) == sourcePort && Get16(b, 2) == destPort && Get16(b, 4) == |b| && b[8..] == data
  {
    hide Sum, Fold, PseudoHeader, Be16, Get16;
    var b := UdpBytes(source, dest, sourcePort, destPort, data);
    var start := Be16(sourcePort) + Be16(destPort) + Be16(8 + |data|);
    var p := Fold(Sum(PseudoHeader(source, dest, 17, 8 + |data|)));
    var sum := p + Sum(start + Be16(0) + data);
    var c := Complement(Fold(sum));
    var c' := if c != 0 then c else 0xffff;
    SumWithField(start, c', data);
    Completes(sum, c');
    assert b == start + Be16(c') + data;
    assert b[0..2] == Be16(sourcePort) && b[2..4] == Be16(destPort) && b[4..6] == Be16(8 + |data|) && b[6..8] == Be16(c');
    Get16Of(b, 0, sourcePort);
    Get16Of(b, 2, destPort);
    Get16Of(b, 4, 8 + |data|);
    Get16Of(b, 6, c');
  }

  // ----- IPv4 -----

  /** A header whose checksum field holds the checksum taken with a zero field checks to zero. */
  lemma HeaderChecksum(before: seq<byte>, after: seq<byte>)
    requires |before| % 2 == 0
    ensures ChecksumOf(before + Be16(ChecksumOf(before + Be16(0) + after)) + after) == 0
  {
    hide Sum, Fold, Be16;
    var sum := Sum(before + Be16(0) + after);
    var c := Complement(Fold(sum));
    SumWithField(before, c, after);
    Completes(sum, c);
  }

  // ----- Building and checking in place -----

  method Put16(p: array<byte>, at: nat, n: u16)
    requires at + 2 <= p.Length
    modifies p
    ensures p[..at + 2] == old(p[..at]) + Be16(n)
    ensures forall k :: at + 2 <= k < p.Length ==> p[k] == old(p[k])
  {
    p[at], p[at + 1] := n / 256, n % 256;
  }

  method Put32(p: array<byte>, at: nat, n: u32)
    requires at + 4 <= p.Length
    modifies p
    ensures p[..at + 4] == old(p[..at]) + Be32(n)
    ensures forall k :: at + 4 <= k < p.Length ==> p[k] == old(p[k])
  {
    Put16(p, at, n / 0x1_0000);
    Put16(p, at + 2, n % 0x1_0000);
  }

  /** Copying data to the end of a packet. */
  method PutData(p: array<byte>, at: nat, data: seq<byte>)
    requires at + |data| == p.Length
    modifies p
    ensures p[at..] == data && forall k :: 0 <= k < at ==> p[k] == old(p[k])
  {
    forall k | 0 <= k < |data| { p[at + k] := data[k]; }
  }

  /** The sum that both checks and builders take: the pseudo header's, folded, and the packet's. */
  method PseudoSum(source: u32, dest: u32, protocol: byte, packet: seq<byte>) returns (f: u16)
    requires |packet| < 0x1_0000
    ensures f == Fold(Fold(Sum(PseudoHeader(source, dest, protocol, |packet|))) + Sum(packet))
  {
    var c := Checksum(PseudoHeader(source, dest, protocol, |packet|));
    var sum := AddWords(packet, Complement(c));
    f := FoldSum(sum);
  }

  method TcpChecksumValid(packet: seq<byte>, source: u32, dest: u32) returns (ok: bool)
    requires |packet| < 0x1_0000
    ensures ok == ValidTcp(packet, source, dest)
  {
    var f := PseudoSum(source, dest, 6, packet);
    ok := f == 0xffff;
  }

  method UdpChecksumValid(packet: seq<byte>, source: u32, dest: u32) returns (ok: bool)
    requires 8 <= |packet| < 0x1_0000
    ensures ok == ValidUdp(packet, source, dest)
  {
    if Get16(packet, 6) == 0 { return true; }
    var f := PseudoSum(source, dest, 17, packet);
    ok := f == 0xffff;
  }

  lemma Split(s: seq<byte>, i: nat, j: nat)
    requires i <= j <= |s|
    ensures s == s[..i] + s[i..j] + s[j..]
  {
  }

  method PutTcpStart(packet: array<byte>, localPort: u16, remotePort: u16, seg: Segment)
    requires 0 <= seg.window < 0x1_0000 && packet.Length >= 20
    modifies packet
    ensures packet[..16] == TcpStart(localPort, remotePort, seg)
    ensures forall k :: 16 <= k < packet.Length ==> packet[k] == old(packet[k])
  {
    hide Be16, Be32, FlagByte;
    Put16(packet, 0, localPort);
    ghost var header := Be16(localPort);
    assert packet[..2] == header;
    Put16(packet, 2, remotePort);
    Put32(packet, 4, seg.sequence);
    Put32(packet, 8, seg.ack);
    header := header + Be16(remotePort) + Be32(seg.sequence) + Be32(seg.ack);
    assert packet[..12] == header;
    packet[12] := 0x50;
    packet[13] := FlagByte(seg.flags);
    assert packet[..12] == header;
    assert packet[..14] == packet[..12] + [0x50, FlagByte(seg.flags)];
    Put16(packet, 14, seg.window);
  }

  lemma IsTcp(p: seq<byte>, localPort: u16, remotePort: u16, seg: Segment, c: u16)
    requires 0 <= seg.window < 0x1_0000 && |p| == 20 + |seg.data|
    requires p[..18] == TcpStart(localPort, remotePort, seg) + Be16(c) && p[18] == 0 && p[19] == 0
    requires forall k :: 0 <= k < |seg.data| ==> p[20 + k] == seg.data[k]
    ensures p == TcpWith(localPort, remotePort, seg, c)
  {
    hide Be16, TcpStart;
    assert p[18..] == [0, 0] + seg.data;
    Split(p, 0, 18);
  }

  /** The segment with a zero checksum. */
  method PutTcp(localPort: u16, remotePort: u16, seg: Segment) returns (packet: array<byte>)
    requires 0 <= seg.window < 0x1_0000
    ensures fresh(packet) && packet[..] == TcpWith(localPort, remotePort, seg, 0)
    ensures packet[..16] == TcpStart(localPort, remotePort, seg) && packet[18] == 0 && packet[19] == 0
    ensures forall k :: 0 <= k < |seg.data| ==> packet[20 + k] == seg.data[k]
  {
    hide Be16, TcpStart, TcpWith;
    packet := new byte[20 + |seg.data|](_ => 0);
    PutTcpStart(packet, localPort, remotePort, seg);
    PutData(packet, 20, seg.data);
    ZeroField();
    assert packet[..16] == TcpStart(localPort, remotePort, seg);
    assert packet[..18] == packet[..16] + [0, 0];
    IsTcp(packet[..], localPort, remotePort, seg, 0);
  }

  /** tcp_packet() filling in its packet. */
  method BuildTcp(source: u32, dest: u32, localPort: u16, remotePort: u16, seg: Segment) returns (packet: array<byte>)
    requires 0 <= seg.window < 0x1_0000 && |seg.data| <= 1024
    ensures fresh(packet) && packet[..] == TcpBytes(source, dest, localPort, remotePort, seg)
  {
    hide Sum, Fold, PseudoHeader, Be16, TcpStart, TcpWith;
    packet := PutTcp(localPort, remotePort, seg);
    var f := PseudoSum(source, dest, 6, packet[..]);
    Put16(packet, 16, Complement(f));
    IsTcp(packet[..], localPort, remotePort, seg, Complement(f));
  }

  lemma ZeroField()
    ensures Be16(0) == [0, 0]
  {
  }

  method PutUdpStart(payload: array<byte>, sourcePort: u16, destPort: u16)
    requires 8 <= payload.Length < 0x1_0000
    modifies payload
    ensures payload[..6] == Be16(sourcePort) + Be16(destPort) + Be16(payload.Length)
    ensures forall k :: 6 <= k < payload.Length ==> payload[k] == old(payload[k])
  {
    hide Be16;
    Put16(payload, 0, sourcePort);
    ghost var header := Be16(sourcePort);
    assert payload[..2] == header;
    Put16(payload, 2, destPort);
    Put16(payload, 4, payload.Length);
  }

  /** The datagram with a zero checksum. */
  method PutUdp(sourcePort: u16, destPort: u16, data: seq<byte>) returns (payload: array<byte>)
    requires |data| <= 1472
    ensures fresh(payload) && payload[..] == UdpWith(sourcePort, destPort, data, 0)
    ensures payload[..6] == Be16(sourcePort) + Be16(destPort) + Be16(8 + |data|)
    ensures forall k :: 0 <= k < |data| ==> payload[8 + k] == data[k]
  {
    hide Be16;
    payload := new byte[8 + |data|](_ => 0);
    PutUdpStart(payload, sourcePort, destPort);
    PutData(payload, 8, data);
    ZeroField();
    assert payload[6..8] == [0, 0] && payload[..6] == Be16(sourcePort) + Be16(destPort) + Be16(8 + |data|);
    Split(payload[..], 6, 8);
  }

  lemma IsUdp(p: seq<byte>, sourcePort: u16, destPort: u16, data: seq<byte>, c: u16)
    requires |data| <= 1472 && |p| == 8 + |data|
    requires p[..8] == Be16(sourcePort) + Be16(destPort) + Be16(8 + |data|) + Be16(c)
    requires forall k :: 0 <= k < |data| ==> p[8 + k] == data[k]
    ensures p == UdpWith(sourcePort, destPort, data, c)
  {
    hide Be16;
    assert p[8..] == data;
    Split(p, 0, 8);
  }

  /** udp_raw() filling in its datagram. */
  method BuildUdp(source: u32, dest: u32, sourcePort: u16, destPort: u16,
      data: seq<byte>) returns (packet: Option<array<byte>>)
    ensures packet.None? <==> |data| > 1472
    ensures packet.Some? ==>
              fresh(packet.value) && packet.value[..] == UdpBytes(source, dest, sourcePort, destPort, data)
  {
    hide Sum, Fold, PseudoHeader, Be16, UdpWith;
    if |data| > 1472 { return None; }
    var payload := PutUdp(sourcePort, destPort, data);
    var f := PseudoSum(source, dest, 17, payload[..]);
    var c := if Complement(f) != 0 then Complement(f) else 0xffff;
    Put16(payload, 6, c);
    IsUdp(payload[..], sourcePort, destPort, data, c);
    packet := Some(payload);
  }
}
