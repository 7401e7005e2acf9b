/** The snapshot format of kernel/store.c: a 512-byte header sector and the payload in the
    sectors after it, both protected by CRC-32. */
module Snapshot {
  type byte = x: int | 0 <= x < 256
  type u32 = x: int | 0 <= x < 0x1_0000_0000
  type Sector = s: seq<byte> | |s| == 512 witness Zeros(512)

  function Zeros(n: nat): (z: seq<byte>)
    ensures |z| == n && forall i :: 0 <= i < n ==> z[i] == 0
  {
    seq(n, _ => 0)
  }

  const BLANK: Sector := Zeros(512)

  // ----- CRC-32 -----

  function CrcBit(state: bv32): bv32 {
    (state >> 1) ^ (if state & 1 == 1 then 0xedb8_8320 else 0)
  }

  function CrcByte(state: bv32, b: byte): bv32 {
    var s := state ^ (b as bv32);
    CrcBit(CrcBit(CrcBit(CrcBit(CrcBit(CrcBit(CrcBit(CrcBit(s))))))))
  }

  /** crc_more: the state after more bytes. */
  function CrcMore(state: bv32, bytes: seq<byte>): bv32
    decreases |bytes|
  {
    if bytes == [] then state else CrcByte(CrcMore(state, bytes[..|bytes| - 1]), bytes[|bytes| - 1])
  }

  function CrcEnd(state: bv32): u32 {
    !state as int
  }

  function Crc32(bytes: seq<byte>): u32 {
    CrcEnd(CrcMore(0xffff_ffff, bytes))
  }

  /** The checksum can be taken piece by piece. */
  lemma {:induction false} CrcMoreAppend(state: bv32, a: seq<byte>, b: seq<byte>)
    ensures CrcMore(state, a + b) == CrcMore(CrcMore(state, a), b)
    decreases |b|
  {
    hide CrcByte;
    if b == [] {
      assert a + b == a;
    } else {
      var b' := b[..|b| - 1];
      assert (a + b)[..|a + b| - 1] == a + b';
      CrcMoreAppend(state, a, b');
    }
  }

  // ----- The header -----

  function Le32(x: u32): (r: seq<byte>)
    ensures |r| == 4
  {
    var y := x / 256;
    var z := y / 256;
    [x % 256, y % 256, z % 256, z / 256]
  }

  function WordOf(b0: byte, b1: byte, b2: byte, b3: byte): u32 {
    var i0: int, i1: int, i2: int, i3: int := b0, b1, b2, b3;
    i0 + 0x100 * i1 + 0x1_0000 * i2 + 0x100_0000 * i3
  }

  lemma WordOfBytes(x: u32)
    ensures WordOf(Le32(x)[0], Le32(x)[1], Le32(x)[2], Le32(x)[3]) == x
  {
    var y := x / 256;
    var z := y / 256;
    assert x == 256 * y + x % 256 && y == 256 * z + y % 256 && z == 256 * (z / 256) + z % 256;
  }

  function Word(b: seq<byte>, at: nat): u32
    requires at + 4 <= |b|
  {
    WordOf(b[at], b[at + 1], b[at + 2], b[at + 3])
  }

  /** "NVSS0002" on volumes with extents, which are version 3, and "NVSS0001" on others. */
  function Magic(version: nat): (r: seq<byte>)
    ensures |r| == 8
  {
    [78, 86, 83, 83, 48, 48, 48, if version == 3 then 50 else 49]
  }

  function HeaderWith(version: nat, generation: u32, length: u32, checksum: u32, headerChecksum: u32): Sector {
    Magic(version) + Le32(generation) + Le32(length) + Le32(checksum) + Le32(headerChecksum) + Zeros(488)
  }

  /** The header that sync_one writes last. */
  function Header(version: nat, generation: u32, length: u32, checksum: u32): Sector {
    HeaderWith(version, generation, length, checksum, Crc32(HeaderWith(version, generation, length, checksum, 0)))
  }

  function Generation(h: Sector): u32 { Word(h, 8) }

  function Length(h: Sector): u32 { Word(h, 12) }

  function Checksum(h: Sector): u32 { Word(h, 16) }

  /** The header with its own checksum field zeroed. */
  function Unsealed(h: Sector): Sector {
    h[..20] + [0, 0, 0, 0] + h[24..]
  }

  /** valid_header() */
  predicate ValidHeader(version: nat, h: Sector, cap: nat) {
    h[..8] == Magic(version) && 4 <= Length(h) <= cap && Word(h, 20) == Crc32(Unsealed(h))
  }

  lemma WordOfLe32(b: seq<byte>, at: nat, x: u32)
    requires at + 4 <= |b| && b[at..at + 4] == Le32(x)
    ensures Word(b, at) == x
  {
    hide WordOf;
    WordOfBytes(x);
    assert b[at..at + 4][0] == b[at] && b[at..at + 4][1] == b[at + 1];
    assert b[at..at + 4][2] == b[at + 2] && b[at..at + 4][3] == b[at + 3];
    assert b[at] == Le32(x)[0] && b[at + 1] == Le32(x)[1] && b[at + 2] == Le32(x)[2] && b[at + 3] == Le32(x)[3];
  }

  /** A written header reads back as it was meant. */
  lemma HeaderReads(version: nat, generation: u32, length: u32, checksum: u32, cap: nat)
    requires 4 <= length <= cap
    ensures ValidHeader(version, Header(version, generation, length, checksum), cap)
    ensures Generation(Header(version, generation, length, checksum)) == generation
    ensures Length(Header(version, generation, length, checksum)) == length
    ensures Checksum(Header(version, generation, length, checksum)) == checksum
  {
    hide Crc32, Word, Le32, Magic;
    var h := Header(version, generation, length, checksum);
    var seal := Crc32(HeaderWith(version, generation, length, checksum, 0));
    assert h[..8] == Magic(version);
    assert h[8..12] == Le32(generation);
    assert h[12..16] == Le32(length);
    assert h[16..20] == Le32(checksum);
    assert h[20..24] == Le32(seal);
    WordOfLe32(h, 8, generation);
    WordOfLe32(h, 12, length);
    WordOfLe32(h, 16, checksum);
    WordOfLe32(h, 20, seal);
    ZeroWord();
    assert Unsealed(h) == HeaderWith(version, generation, length, checksum, 0);
  }

  lemma ZeroWord()
    ensures Le32(0) == [0, 0, 0, 0]
  {
  }

  /** An erased header is never valid. */
  lemma BlankIsInvalid(version: nat, cap: nat)
    ensures !ValidHeader(version, BLANK, cap)
  {
    assert BLANK[..8][0] == 0;
  }

  // ----- The payload -----

  function Min(a: int, b: int): int { if a < b then a else b }

  function BlockCount(length: nat): nat { (length + 511) / 512 }

  /** Sector i of a payload, the last one padded with zeros. */
  function Block(payload: seq<byte>, i: nat): Sector
    requires i * 512 < |payload|
  {
    if i * 512 + 512 <= |payload| then payload[i * 512..i * 512 + 512]
    else payload[i * 512..] + Zeros(512 - (|payload| - i * 512))
  }
}
