/** The contents of a regular file in kernel/fs.c: pages that have been written, over the bytes of the
    committed snapshot, over zeros. */
module PagedFile {
  import Snapshot

  type byte = Snapshot.byte

  /** NV_FILE_MAX */
  const FILE_MAX: nat := 0x400_0000

  function Min(a: int, b: int): int { if a < b then a else b }

  function Max(a: int, b: int): int { if a < b then b else a }

  function Zeros(n: nat): (z: seq<byte>)
    ensures |z| == n && forall i :: 0 <= i < n ==> z[i] == 0
  {
    seq(n, _ => 0)
  }

  /** A page pointer; Fresh is one whose bit 0 marks an allocation of the current call. */
  datatype Slot = Hole | Page(bytes: seq<byte>) | Fresh(bytes: seq<byte>)

  /** Where the bytes of the last commit lie in the payload of a slot. */
  datatype Backing = Unbacked | Backed(offset: nat, size: nat)

  predicate Full(s: Slot) { !s.Hole? ==> |s.bytes| == 4096 }

  /** Byte k of a file kept in pages, also beyond its size. */
  function Logical(slots: seq<Slot>, backing: Backing, store: seq<byte>, k: nat): byte {
    if k / 4096 < |slots| && !slots[k / 4096].Hole? && |slots[k / 4096].bytes| == 4096 then slots[k / 4096].bytes[k % 4096]
    else if backing.Backed? && k < backing.size && backing.offset + k < |store| then store[backing.offset + k]
    else 0
  }

  ghost predicate Sound(slots: seq<Slot>, backing: Backing, store: seq<byte>, size: nat) {
    && size <= FILE_MAX
    && (forall i :: 0 <= i < |slots| ==> Full(slots[i]) && !slots[i].Fresh?)
    && (backing.Backed? ==> backing.size <= size && backing.offset + backing.size <= |store|)
    && (forall k: nat :: k >= size ==> Logical(slots, backing, store, k) == 0)
  }

  /** The contents as a byte array. */
  function Bytes(slots: seq<Slot>, backing: Backing, store: seq<byte>, size: nat): (s: seq<byte>)
    ensures |s| == size
    ensures forall k :: 0 <= k < size ==> s[k] == Logical(slots, backing, store, k)
  {
    if size == 0 then [] else Bytes(slots, backing, store, size - 1) + [Logical(slots, backing, store, size - 1)]
  }

  /** Writing data at an offset of a byte array, a gap filled with zeros. */
  function Overlay(s: seq<byte>, offset: nat, data: seq<byte>): (r: seq<byte>)
    ensures |r| == Max(|s|, offset + |data|)
  {
    var base := if offset + |data| > |s| then s + Zeros(offset + |data| - |s|) else s;
    base[..offset] + data + base[offset + |data|..]
  }

  /** slots' holds data at offset and is otherwise the same file. */
  ghost predicate Written(slots: seq<Slot>, slots': seq<Slot>, backing: Backing, store: seq<byte>, offset: nat,
      data: seq<byte>) {
    forall k: nat :: Logical(slots', backing, store, k) ==
                     if offset <= k < offset + |data| then data[k - offset] else Logical(slots, backing, store, k)
  }

  lemma WrittenOverlays(slots: seq<Slot>, slots': seq<Slot>, backing: Backing, store: seq<byte>, size: nat,
      offset: nat, data: seq<byte>)
    requires Sound(slots, backing, store, size) && Written(slots, slots', backing, store, offset, data)
    ensures Bytes(slots', backing, store, Max(size, offset + |data|)) ==
            Overlay(Bytes(slots, backing, store, size), offset, data)
  {
    hide Logical;
    var a, b := Bytes(slots', backing, store, Max(size, offset + |data|)), Overlay(Bytes(slots, backing, store, size), offset, data);
    forall k | 0 <= k < |a| ensures a[k] == b[k] { assert a[k] == Logical(slots', backing, store, k); }
  }

  /** Giving a page the bytes it shows changes nothing. */
  function PageBytes(slots: seq<Slot>, backing: Backing, store: seq<byte>, i: nat, n: nat): (s: seq<byte>)
    ensures |s| == n
    ensures forall j :: 0 <= j < n ==> s[j] == Logical(slots, backing, store, 4096 * i + j)
  {
    if n == 0 then []
    else PageBytes(slots, backing, store, i, n - 1) + [Logical(slots, backing, store, 4096 * i + n - 1)]
  }

  /** The bytes of a page not yet materialised: the backing bytes, then zeros. */
  lemma HoleBytes(slots: seq<Slot>, backing: Backing, store: seq<byte>, i: nat, bytes: seq<byte>)
    requires i < |slots| ==> slots[i].Hole?
    requires backing.Backed? ==> backing.offset + backing.size <= |store|
    requires
      var base := 4096 * i;
      var valid := if backing.Backed? && base < backing.size then Min(4096, backing.size - base) else 0;
      |bytes| == 4096 && (forall j :: 0 <= j < valid ==> bytes[j] == store[backing.offset + base + j])
      && (forall j :: valid <= j < 4096 ==> bytes[j] == 0)
    ensures bytes == PageBytes(slots, backing, store, i, 4096)
  {
    var p := PageBytes(slots, backing, store, i, 4096);
    forall j | 0 <= j < 4096 ensures bytes[j] == p[j] {
      assert (4096 * i + j) / 4096 == i;
    }
  }

  ghost predicate SameBytes(slots: seq<Slot>, slots': seq<Slot>, backing: Backing, store: seq<byte>) {
    forall k: nat :: Logical(slots', backing, store, k) == Logical(slots, backing, store, k)
  }

  lemma Materialised(slots: seq<Slot>, backing: Backing, store: seq<byte>, i: nat, bytes: seq<byte>)
    requires i < |slots| && bytes == PageBytes(slots, backing, store, i, 4096)
    ensures SameBytes(slots, slots[i := Fresh(bytes)], backing, store)
  {
    forall k: nat ensures Logical(slots[i := Fresh(bytes)], backing, store, k) == Logical(slots, backing, store, k) {
      if k / 4096 == i { assert k == 4096 * i + k % 4096; }
    }
  }

  /** A longer table of holes shows the same bytes. */
  lemma Lengthened(slots: seq<Slot>, backing: Backing, store: seq<byte>, slots': seq<Slot>)
    requires |slots| <= |slots'| && slots'[..|slots|] == slots && forall i :: |slots| <= i < |slots'| ==>
               slots'[i] == Hole
    ensures SameBytes(slots, slots', backing, store)
  {
    forall k: nat ensures Logical(slots', backing, store, k) == Logical(slots, backing, store, k) {
      if k / 4096 < |slots| { assert slots'[..|slots|][k / 4096] == slots'[k / 4096]; }
    }
  }

  lemma SameTrans(a: seq<Slot>, b: seq<Slot>, c: seq<Slot>, backing: Backing, store: seq<byte>)
    requires SameBytes(a, b, backing, store) && SameBytes(b, c, backing, store)
    ensures SameBytes(a, c, backing, store)
  {
    hide Logical;
  }

  /** Taking the mark off a pointer. */
  lemma Unmarked(slots: seq<Slot>, backing: Backing, store: seq<byte>, i: nat)
    requires i < |slots| && !slots[i].Hole?
    ensures SameBytes(slots, slots[i := Page(slots[i].bytes)], backing, store)
  {
  }

  /** Copying into one page. */
  lemma CopiedPart(slots: seq<Slot>, backing: Backing, store: seq<byte>, at: nat, part: seq<byte>, bytes: seq<byte>)
    requires at / 4096 < |slots| && slots[at / 4096].Page? && |slots[at / 4096].bytes| == 4096
    requires at % 4096 + |part| <= 4096
    requires
      var old0 := slots[at / 4096].bytes;
      bytes == old0[..at % 4096] + part + old0[at % 4096 + |part|..]
    ensures Written(slots, slots[at / 4096 := Page(bytes)], backing, store, at, part)
  {
    var slots' := slots[at / 4096 := Page(bytes)];
    forall k: nat ensures Logical(slots', backing, store, k) ==
                          if at <= k < at + |part| then part[k - at] else Logical(slots, backing, store, k)
    {
      assert at == 4096 * (at / 4096) + at % 4096 && k == 4096 * (k / 4096) + k % 4096;
      if at <= k < at + |part| { assert k / 4096 == at / 4096; }
    }
  }

  /** Two writes one after the other. */
  lemma WrittenMore(a: seq<Slot>, b: seq<Slot>, c: seq<Slot>, backing: Backing, store: seq<byte>, offset: nat,
      data: seq<byte>, copied: nat, part: seq<byte>)
    requires copied + |part| <= |data| && part == data[copied..copied + |part|]
    requires Written(a, b, backing, store, offset, data[..copied])
    requires Written(b, c, backing, store, offset + copied, part)
    ensures Written(a, c, backing, store, offset, data[..copied + |part|])
  {
    hide Logical;
    forall k: nat ensures Logical(c, backing, store, k) ==
        if offset <= k < offset + copied + |part| then data[..copied + |part|][k - offset]
        else Logical(a, backing, store, k)
    {
      var at := offset + copied;
      assert Logical(c, backing, store, k) ==
        if at <= k < at + |part| then part[k - at] else Logical(b, backing, store, k);
      assert Logical(b, backing, store, k) ==
        if offset <= k < at then data[..copied][k - offset] else Logical(a, backing, store, k);
    }
  }

  lemma SameThenWritten(a: seq<Slot>, b: seq<Slot>, c: seq<Slot>, backing: Backing, store: seq<byte>, offset: nat,
      data: seq<byte>)
    requires SameBytes(a, b, backing, store) && Written(b, c, backing, store, offset, data)
    ensures Written(a, c, backing, store, offset, data)
  {
    hide Logical;
  }

  lemma WrittenSound(slots: seq<Slot>, slots': seq<Slot>, backing: Backing, store: seq<byte>, size: nat, offset: nat,
      data: seq<byte>)
    requires Sound(slots, backing, store, size) && Written(slots, slots', backing, store, offset, data)
    requires offset + |data| <= FILE_MAX && forall i :: 0 <= i < |slots'| ==> Full(slots'[i]) && !slots'[i].Fresh?
    ensures Sound(slots', backing, store, Max(size, offset + |data|))
  {
    hide Logical;
  }
}
