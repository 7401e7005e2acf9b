/** file_copy, fs_write, release_file and fs_rebase_volume of kernel/fs.c on the data of one file. */
module FileData {
  import opened PagedFile
  import Snapshot
  import StoreProtocol
  import StoreMount
  import Store

  datatype Status = Done | NoMemory | NoSpace | IoError

  /** Ready to become file contents: the marked pages are those that were holes, with the bytes they showed. */
  ghost predicate Prepared(was: seq<Slot>, slots: seq<Slot>, backing: Backing, store: seq<byte>, first: nat,
      next: nat) {
    && |slots| == |was|
    && (forall i :: 0 <= i < |was| && !(first <= i < next && was[i].Hole?) ==> slots[i] == was[i])
    && (forall i :: first <= i < next && i < |was| && was[i].Hole? ==> slots[i].Fresh?)
    && (forall i :: 0 <= i < |was| ==> Full(slots[i]))
    && SameBytes(was, slots, backing, store)
  }

  /** The memory that a write finds: pages for contents, and whether kmalloc() has room for a table or a buffer. */
  datatype Room = Room(frames: nat, heap: bool)

  /** The pages of [first, next) that are not there yet. */
  function Holes(slots: seq<Slot>, first: nat, next: nat): (n: nat)
    ensures n <= if first <= next then next - first else 0
  {
    if next <= first then 0
    else Holes(slots, first, next - 1) + if next - 1 >= |slots| || slots[next - 1].Hole? then 1 else 0
  }

  lemma {:induction false} HolesGrow(slots: seq<Slot>, first: nat, next: nat, next': nat)
    requires next <= next'
    ensures Holes(slots, first, next) <= Holes(slots, first, next')
    decreases next'
  {
    if next < next' && next' > first { HolesGrow(slots, first, next, next' - 1); }
  }

  lemma NoHoles(slots: seq<Slot>, first: nat)
    ensures Holes(slots, first, first) == 0
  {
  }

  lemma HolesNext(slots: seq<Slot>, first: nat, next: nat)
    requires first <= next < |slots|
    ensures Holes(slots, first, next + 1) == Holes(slots, first, next) + if slots[next].Hole? then 1 else 0
  {
  }

  /** A longer table has the same pages. */
  lemma {:induction false} HolesLonger(slots: seq<Slot>, slots': seq<Slot>, first: nat, next: nat)
    requires |slots| <= |slots'| && forall i :: 0 <= i < |slots'| ==> slots'[i] == if i < |slots| then slots[i] else Hole
    ensures Holes(slots', first, next) == Holes(slots, first, next)
  {
    if next > first { HolesLonger(slots, slots', first, next - 1); }
  }

  /** A write has the memory it needs, for contents in pages or in a buffer. */
  predicate Enough(room: Room, slots: seq<Slot>, capacity: int, offset: nat, end: nat)
    requires offset < end
  {
    if capacity < 0 then
      ((end + 4095) / 4096 <= |slots| || room.heap) && Holes(slots, offset / 4096, (end - 1) / 4096 + 1) <= room.frames
    else end <= capacity || room.heap
  }

  /** The file's data fields of struct node; pages.Length is page_count. */
  class File {
    var size: nat
    var pages: array<Slot>
    var backing: Backing
    /** Embedded contents; its length is the capacity. */
    var data: array?<byte>
    /** backing_slot, or -1. */
    var slot: int
    /** The volume that the backing lies on. */
    const store: Store.VolumeState

    /** A new file. */
    constructor (store: Store.VolumeState)
      ensures Valid() && Contents() == [] && Current() && this.store == store && fresh(pages) && data == null
      ensures backing == Unbacked
    {
      this.store, size, slot, backing, data := store, 0, -1, Unbacked, null;
      pages := new Slot[0];
    }

    /** A file as fs_import_stream() leaves it: it shows its part of the payload. */
    constructor Stored(store: Store.VolumeState, slot: int, offset: nat, size: nat)
      requires 0 <= slot <= 1 && offset + size <= store.v.cap && size <= FILE_MAX
      ensures Valid() && this.store == store && this.slot == slot && backing == Backed(offset, size) && fresh(pages)
      ensures data == null
      ensures Contents() ==
              StoreProtocol.PayloadAt(store.v, Store.View(store.disk), slot, store.v.cap)[offset..offset + size]
    {
      hide Sound, StoreProtocol.PayloadAt;
      this.store, this.size, this.slot, backing, data := store, size, slot, Backed(offset, size), null;
      pages := new Slot[0];
      new;
      assert pages[..] == [];
      RebasedBytes(offset, size, SlotBytes(), SlotBytes()[offset..offset + size]);
    }

    /** The payload area of the backing's slot, as store_read_bytes() gives it from a disk. */
    ghost function SlotOf(d: StoreProtocol.Disk): (s: seq<byte>)
      reads this`slot
      ensures 0 <= slot <= 1 ==> |s| == store.v.cap
    {
      if 0 <= slot <= 1 then StoreProtocol.PayloadAt(store.v, Store.View(d), slot, store.v.cap) else []
    }

    ghost function SlotBytes(): (s: seq<byte>)
      reads this`slot, store`disk
      ensures 0 <= slot <= 1 ==> |s| == store.v.cap
    {
      SlotOf(store.disk)
    }

    /** The fields fit a disk. */
    ghost predicate Fits(d: StoreProtocol.Disk)
      reads this, pages, data
    {
      && Sound(pages[..], backing, SlotOf(d), size) && -1 <= slot <= 1 && (slot >= 0 <==> backing.Backed?)
      && (data != null ==> size <= data.Length <= FILE_MAX && pages.Length == 0 && backing == Unbacked)
    }

    /** What the file shows on a disk. */
    ghost function Shows(d: StoreProtocol.Disk): (s: seq<byte>)
      requires Fits(d)
      reads this, pages, data
      ensures |s| == size
    {
      if data != null then data[..size] else Bytes(pages[..], backing, SlotOf(d), size)
    }

    ghost predicate Valid()
      reads this, pages, data, store`disk
    {
      Fits(store.disk)
    }

    ghost function Contents(): (s: seq<byte>)
      requires Valid()
      reads this, pages, data, store`disk
      ensures |s| == size
    {
      Shows(store.disk)
    }

    /** The file shows only bytes of the snapshot that its volume has now: a file with bytes on the disk points at the
        active slot. */
    ghost predicate Current()
      reads this, store
    {
      backing.Backed? && backing.size > 0 ==>
        && slot == store.activeSlot && store.log != [] && store.restoreError == StoreMount.Good
        && store.Now().committed.Some? && backing.offset + backing.size <= |store.Now().committed.value.payload|
    }

    /** store_read_bytes() inside the backing range; the sectors in bad cannot be read. */
    method StoreRead(bad: set<nat>, offset: nat, length: nat) returns (r: Status, bytes: seq<byte>)
      requires 0 <= slot <= 1 && offset + length <= |SlotBytes()|
      ensures r == Done || (r == IoError && bad != {})
      ensures r == Done ==> bytes == SlotBytes()[offset..offset + length]
    {
      hide StoreProtocol.PayloadAt;
      var dest := new Snapshot.byte[length];
      var read := store.StoreReadBytes(slot, offset, dest, bad);
      bytes := dest[..];
      r := if read == StoreMount.Good then Done else IoError;
    }

    /** file_copy() */
    method FileCopy(bad: set<nat>, offset: nat, out: array<byte>) returns (r: Status)
      requires Valid() && offset + out.Length <= size && out != data
      modifies out
      ensures r == Done || (r == IoError && bad != {})
      ensures r == Done ==> out[..] == Contents()[offset..offset + out.Length]
    {
      hide SlotOf, Logical;
      if data != null {
        forall k | 0 <= k < out.Length { out[k] := data[offset + k]; }
        return Done;
      }
      ghost var slots := pages[..];
      var at := 0;
      while at < out.Length
        invariant at <= out.Length && pages[..] == slots
        invariant forall k :: 0 <= k < at ==> out[k] == Logical(slots, backing, SlotBytes(), offset + k)
      {
        var part: nat;
        var bytes;
        part, r, bytes := PagePart(bad, offset + at, out.Length - at);
        if r != Done { return; }
        forall k | 0 <= k < part { out[at + k] := bytes[k]; }
        at := at + part;
      }
      r := Done;
    }

    /** One turn of the loop of file_copy: the bytes up to the end of a page. */
    method PagePart(bad: set<nat>, offset: nat, len: nat) returns (part: nat, r: Status, bytes: seq<byte>)
      requires Valid() && data == null && len > 0
      ensures 0 < part <= len && (r == Done || (r == IoError && bad != {}))
      ensures r == Done ==> |bytes| == part && forall k :: 0 <= k < part ==> bytes[k] == Logical(pages[..], backing, SlotBytes(), offset + k)
    {
      hide SlotOf, Logical;
      var page := offset / 4096;
      part := Min(len, 4096 - offset % 4096);
      if page < pages.Length && pages[page].Page? {
        bytes := pages[page].bytes[offset % 4096..offset % 4096 + part];
        r := Done;
      } else if backing.Backed? && offset < backing.size {
        var backed := Min(part, backing.size - offset);
        r, bytes := StoreRead(bad, backing.offset + offset, backed);
        if r != Done { return; }
        bytes := bytes + Zeros(part - backed);
      } else {
        bytes := Zeros(part);
        r := Done;
      }
      forall k | 0 <= k < part ensures bytes[k] == Logical(pages[..], backing, SlotBytes(), offset + k) {
        ShownByte(pages[..], backing, SlotBytes(), offset, k);
      }
    }

    /** A new page with the bytes that page i shows. */
    method FillPage(bad: set<nat>, fits: bool, slots: array<Slot>, i: nat) returns (r: Status, bytes: seq<byte>)
      requires i < slots.Length && slots[i].Hole?
      requires backing.Backed? ==> 0 <= slot <= 1 && backing.offset + backing.size <= |SlotBytes()|
      ensures r != NoSpace && (r == IoError ==> bad != {}) && (r == NoMemory <==> !fits)
      ensures (r == Done ==> bytes == PageBytes(slots[..], backing, SlotBytes(), i, 4096))
    {
      hide SlotOf;
      if !fits { return NoMemory, []; }
      bytes := Zeros(4096);
      var base := i * 4096;
      r := Done;
      if backing.Backed? && base < backing.size {
        var valid := Min(4096, backing.size - base);
        var read;
        r, read := StoreRead(bad, backing.offset + base, valid);
        if r != Done { return; }
        bytes := read + bytes[valid..];
      }
      HoleBytes(slots[..], backing, SlotBytes(), i, bytes);
    }

    /** Allocating and populating the pages of a write, or taking all of them back. */
    method Prepare(bad: set<nat>, frames: nat, slots: array<Slot>, first: nat, last: nat) returns (r: Status)
      requires first <= last < slots.Length
      requires backing.Backed? ==> 0 <= slot <= 1 && backing.offset + backing.size <= |SlotBytes()|
      requires forall i :: 0 <= i < slots.Length ==> Full(slots[i]) && !slots[i].Fresh?
      modifies slots
      ensures r != NoSpace && (r == IoError ==> bad != {})
      ensures if r == Done then Prepared(old(slots[..]), slots[..], backing, SlotBytes(), first, last + 1) else slots[..] == old(slots[..])
      ensures r == NoMemory ==> Holes(old(slots[..]), first, last + 1) > frames
      ensures r == Done ==> Holes(old(slots[..]), first, last + 1) <= frames
    {
      hide SlotOf, Logical, SameBytes, Holes;
      ghost var was := slots[..];
      SameSelf(was, backing, SlotBytes());
      NoHoles(was, first);
      r := Done;
      var i, left := first, frames;
      while i <= last
        invariant r == Done && first <= i <= last + 1 && Prepared(was, slots[..], backing, SlotBytes(), first, i)
        invariant left >= 0 && left + Holes(was, first, i) == frames
      {
        HolesGrow(was, first, i + 1, last + 1);
        HolesNext(was, first, i);
        assert slots[i] == was[i];
        if slots[i].Hole? {
          ghost var now := slots[..];
          var bytes;
          r, bytes := FillPage(bad, left > 0, slots, i);
          if r != Done { break; }
          left := left - 1;
          Materialised(now, backing, SlotBytes(), i, bytes);
          slots[i] := Fresh(bytes);
          assert slots[..] == now[i := Fresh(bytes)];
          SameTrans(was, now, slots[..], backing, SlotBytes());
        }
        i := i + 1;
      }
      if r != Done { RollBack(slots, first, last, was, i); } else { assert i == last + 1; }
    }

    /** rollback_pages */
    method RollBack(slots: array<Slot>, first: nat, last: nat, ghost was: seq<Slot>, ghost next: nat)
      requires first <= next <= last < slots.Length && Prepared(was, slots[..], backing, SlotBytes(), first, next)
      requires forall i :: 0 <= i < |was| ==> !was[i].Fresh?
      modifies slots
      ensures slots[..] == was
    {
      hide SameBytes;
      for i := first to last + 1
        invariant forall k :: 0 <= k < slots.Length && !(i <= k <= last) ==> slots[k] == was[k]
        invariant forall k :: i <= k < slots.Length ==> slots[k] == was[k] || (was[k].Hole? && slots[k].Fresh?)
      {
        if slots[i].Fresh? { slots[i] := Hole; }
      }
    }

    /** Clearing the marks. */
    method Unmark(slots: array<Slot>, first: nat, last: nat, ghost was: seq<Slot>)
      requires first <= last < slots.Length && Prepared(was, slots[..], backing, SlotBytes(), first, last + 1)
      requires forall i :: 0 <= i < |was| ==> !was[i].Fresh?
      modifies slots
      ensures SameBytes(was, slots[..], backing, SlotBytes())
      ensures forall i :: 0 <= i < slots.Length ==> Full(slots[i]) && !slots[i].Fresh?
      ensures forall i :: first <= i <= last ==> slots[i].Page?
    {
      hide SlotOf, Logical, SameBytes;
      for i := first to last + 1
        invariant SameBytes(was, slots[..], backing, SlotBytes())
        invariant forall k :: 0 <= k < slots.Length ==> Full(slots[k]) && (slots[k].Fresh? ==> i <= k <= last)
        invariant forall k :: first <= k < i ==> slots[k].Page?
        invariant forall k :: i <= k <= last ==> !slots[k].Hole?
      {
        ghost var now := slots[..];
        Unmarked(now, backing, SlotBytes(), i);
        slots[i] := Page(slots[i].bytes);
        assert slots[..] == now[i := Page(now[i].bytes)];
        SameTrans(was, now, slots[..], backing, SlotBytes());
      }
    }

    /** Copying the input into the pages. */
    method CopyIn(slots: array<Slot>, offset: nat, input: seq<byte>)
      requires 0 < |input| && (offset + |input| - 1) / 4096 < slots.Length
      requires forall i :: 0 <= i < slots.Length ==> Full(slots[i]) && !slots[i].Fresh?
      requires forall i :: offset / 4096 <= i <= (offset + |input| - 1) / 4096 ==> slots[i].Page?
      modifies slots
      ensures Written(old(slots[..]), slots[..], backing, SlotBytes(), offset, input)
      ensures forall i :: 0 <= i < slots.Length ==> Full(slots[i]) && !slots[i].Fresh?
    {
      hide SlotOf, Logical, Written;
      ghost var was := slots[..];
      var copied := 0;
      NothingWritten(was, backing, SlotBytes(), offset, input);
      while copied < |input|
        invariant copied <= |input| && Written(was, slots[..], backing, SlotBytes(), offset, input[..copied])
        invariant forall i :: 0 <= i < slots.Length ==> Full(slots[i]) && !slots[i].Fresh?
        invariant forall i :: offset / 4096 <= i <= (offset + |input| - 1) / 4096 ==> slots[i].Page?
      {
        ghost var now := slots[..];
        var at := offset + copied;
        var part := Min(|input| - copied, 4096 - at % 4096);
        var piece := input[copied..copied + part];
        var page := at / 4096;
        var bytes := slots[page].bytes[..at % 4096] + piece + slots[page].bytes[at % 4096 + part..];
        CopiedPart(now, backing, SlotBytes(), at, piece, bytes);
        slots[page] := Page(bytes);
        assert slots[..] == now[page := Page(bytes)];
        WrittenMore(was, now, slots[..], backing, SlotBytes(), offset, input, copied, piece);
        copied := copied + part;
      }
      assert input[..|input|] == input;
    }

    /** The table of page pointers of fs_write: the file's own, or a longer one. */
    method PageTable(heap: bool, needed: nat) returns (table: array?<Slot>)
      requires Valid() && data == null
      ensures table == null <==> needed > pages.Length && !heap
      ensures table != null ==> pages.Length <= table.Length
                                && forall i :: 0 <= i < table.Length ==> table[i] == if i < pages.Length then pages[i] else Hole
      ensures table == null || table == pages || fresh(table)
      ensures table != null ==>
                && table.Length >= needed && SameBytes(pages[..], table[..], backing, SlotBytes())
                && (forall i :: 0 <= i < table.Length ==> Full(table[i]) && !table[i].Fresh?)
    {
      hide SlotOf, Logical;
      if needed <= pages.Length { SameSelf(pages[..], backing, SlotBytes()); return pages; }
      var grown := Max(16, pages.Length);
      while grown < needed
        invariant grown > 0 && grown >= pages.Length
        decreases needed - grown
      {
        grown := grown * 2;
      }
      if !heap { return null; }
      table := new Slot[grown](_ => Hole);
      forall i | 0 <= i < pages.Length { table[i] := pages[i]; }
      Lengthened(pages[..], backing, SlotBytes(), table[..]);
    }

    /** fs_write() on a file kept in pages. */
    method WritePages(bad: set<nat>, room: Room, offset: nat, buf: seq<byte>) returns (r: Status)
      requires Valid() && data == null && buf != [] && offset + |buf| <= FILE_MAX
      modifies this`size, this`pages, pages
      ensures Valid() && data == null && (r == Done || r == NoMemory || (r == IoError && bad != {}))
      ensures Contents() == if r == Done then Overlay(old(Contents()), offset, buf) else old(Contents())
      ensures (r == NoMemory ==> !Enough(room, old(pages[..]), -1, offset, offset + |buf|))
              && (r == Done ==> Enough(room, old(pages[..]), -1, offset, offset + |buf|))
      ensures pages == old(pages) || fresh(pages)
      ensures r != Done ==> pages == old(pages) && pages[..] == old(pages[..]) && size == old(size)
    {
      hide SlotOf, Logical, Sound, Bytes, Written, SameBytes, Holes;
      ghost var was := pages[..];
      SoundParts(was, backing, SlotBytes(), size);
      var end := offset + |buf|;
      var table := PageTable(room.heap, (end + 4095) / 4096);
      if table == null { return NoMemory; }
      var slots: array<Slot> := table;
      ghost var long := slots[..];
      var first, last := offset / 4096, (end - 1) / 4096;
      HolesLonger(was, long, first, last + 1);
      r := Prepare(bad, room.frames, slots, first, last);
      if r != Done {
        assert pages[..] == was;
        return;
      }
      Unmark(slots, first, last, long);
      ghost var ready := slots[..];
      SameTrans(was, long, ready, backing, SlotBytes());
      pages := slots;
      CopyIn(pages, offset, buf);
      SameThenWritten(was, ready, pages[..], backing, SlotBytes(), offset, buf);
      WrittenOverlays(was, pages[..], backing, SlotBytes(), size, offset, buf);
      WrittenSound(was, pages[..], backing, SlotBytes(), size, offset, buf);
      size := Max(size, end);
    }

    method GrowData(heap: bool, end: nat) returns (r: Status)
      requires data != null && size <= data.Length < end <= FILE_MAX
      modifies this`data
      ensures r == if heap then Done else NoMemory
      ensures if r == Done then fresh(data) && end <= data.Length <= FILE_MAX && data[..size] == old(data[..size])
              else data == old(data)
    {
      if !heap { return NoMemory; }
      var cap := Capacity(data.Length, end);
      var grown := new byte[cap](_ => 0);
      var old0 := data;
      forall k | 0 <= k < size { grown[k] := old0[k]; }
      data := grown;
      r := Done;
    }

    /** fs_write() on embedded contents. */
    method WriteData(heap: bool, offset: nat, buf: seq<byte>) returns (r: Status)
      requires Valid() && data != null && buf != [] && offset + |buf| <= FILE_MAX
      modifies this`size, this`data, data
      ensures Valid() && r == if offset + |buf| <= old(data.Length) || heap then Done else NoMemory
      ensures Contents() == if r == Done then Overlay(old(Contents()), offset, buf) else old(Contents())
      ensures data == old(data) || fresh(data)
    {
      hide SlotOf, Logical, Sound;
      SoundSize(pages[..], backing, SlotBytes(), size);
      ghost var was := Contents();
      var end := offset + |buf|;
      if end > data.Length {
        r := GrowData(heap, end);
        if r != Done { return; }
      }
      if offset > size { forall k | size <= k < offset { data[k] := 0; } }
      forall k | 0 <= k < |buf| { data[offset + k] := buf[k]; }
      size := Max(size, end);
      assert data[..size] == Overlay(was, offset, buf);
      SoundNoPages(pages[..], backing, SlotBytes(), size);
      r := Done;
    }

    /** The growth of embedded contents: powers of two from 256, at most the file limit. */
    method Capacity(old0: nat, end: nat) returns (cap: nat)
      requires old0 < end <= FILE_MAX
      ensures end <= cap <= FILE_MAX
    {
      cap := Max(256, old0);
      if !PowerOfTwo(cap) { cap := 256; }
      while cap < end
        invariant 0 < cap <= FILE_MAX
        decreases FILE_MAX - cap
      {
        cap := Min(cap * 2, FILE_MAX);
      }
    }

    /** fs_write() on a regular file: data overlays the contents, a gap reads as zeros; a failing write
        changes nothing. */
    method FsWrite(bad: set<nat>, room: Room, offset: nat, buf: seq<byte>) returns (r: Status)
      requires Valid()
      modifies this`size, this`pages, this`data, pages, data
      ensures Valid() && (r == IoError ==> bad != {})
      ensures buf != [] ==> (r == NoSpace <==> offset + |buf| > FILE_MAX)
      ensures buf != [] && r != NoSpace ==>
                var enough := Enough(room, old(pages[..]), if old(data) == null then -1 else old(data.Length), offset, offset + |buf|);
                (r == NoMemory ==> !enough) && (r == Done ==> enough)
      ensures buf == [] ==> r == Done
      ensures Contents() == if r == Done && buf != [] then Overlay(old(Contents()), offset, buf) else old(Contents())
      ensures (pages == old(pages) || fresh(pages)) && (data == old(data) || fresh(data))
    {
      hide Logical, Sound, Overlay, SlotOf;
      if buf == [] { return Done; }
      if offset > FILE_MAX || |buf| > FILE_MAX - offset { return NoSpace; }
      if data == null { r := WritePages(bad, room, offset, buf); } else { r := WriteData(room.heap, offset, buf); }
    }

    /** release_file(), and the truncation that follows it when a file is opened with NV_TRUNC. */
    method Truncate()
      requires Valid()
      modifies this
      ensures Valid() && Contents() == [] && Current()
    {
      pages := new Slot[0];
      data, backing, size, slot := null, Unbacked, 0, -1;
    }

    /** fs_rebase_volume() after a commit: the file's bytes are now those of the new slot. */
    method Rebase(slot: int, offset: nat)
      requires Valid() && 0 <= slot <= 1 && offset + size <= store.v.cap
      requires StoreProtocol.PayloadAt(store.v, Store.View(store.disk), slot, store.v.cap)[offset..offset + size] ==
               Contents()
      modifies this
      ensures Valid() && Contents() == old(Contents()) && size == old(size)
      ensures backing == Backed(offset, size) && this.slot == slot && data == null && fresh(pages) && pages.Length == 0
    {
      hide Sound, StoreProtocol.PayloadAt;
      ghost var was := Contents();
      SoundSize(pages[..], backing, SlotBytes(), size);
      this.slot := slot;
      pages := new Slot[0];
      data, backing := null, Backed(offset, size);
      RebasedBytes(offset, size, SlotBytes(), was);
      assert pages[..] == [];
    }
  }

  /** What byte k after offset, in the same page, shows. */
  lemma ShownByte(slots: seq<Slot>, backing: Backing, store: seq<byte>, offset: nat, k: nat)
    requires offset % 4096 + k < 4096 && (backing.Backed? ==> backing.offset + backing.size <= |store|)
    requires forall i :: 0 <= i < |slots| ==> Full(slots[i]) && !slots[i].Fresh?
    ensures offset / 4096 < |slots| ==> Full(slots[offset / 4096])
    ensures Logical(slots, backing, store, offset + k) ==
            if offset / 4096 < |slots| && slots[offset / 4096].Page? then slots[offset / 4096].bytes[offset % 4096 + k]
            else if backing.Backed? && offset + k < backing.size then store[backing.offset + offset + k]
            else 0
  {
    assert offset == 4096 * (offset / 4096) + offset % 4096;
    assert (offset + k) / 4096 == offset / 4096;
  }

  predicate PowerOfTwo(n: nat)
    requires n > 0
  {
    n == 1 || (n % 2 == 0 && PowerOfTwo(n / 2))
  }

  lemma SoundSize(slots: seq<Slot>, backing: Backing, store: seq<byte>, size: nat)
    requires Sound(slots, backing, store, size)
    ensures size <= FILE_MAX
  {
  }

  lemma SoundParts(slots: seq<Slot>, backing: Backing, store: seq<byte>, size: nat)
    requires Sound(slots, backing, store, size)
    ensures size <= FILE_MAX && (backing.Backed? ==> backing.offset + backing.size <= |store|)
    ensures forall i :: 0 <= i < |slots| ==> Full(slots[i]) && !slots[i].Fresh?
  {
  }

  lemma SoundNoPages(slots: seq<Slot>, backing: Backing, store: seq<byte>, size: nat)
    requires slots == [] && backing == Unbacked && size <= FILE_MAX
    ensures Sound(slots, backing, store, size)
  {
  }

  /** A file that is all backing reads as its part of the snapshot. */
  lemma RebasedBytes(offset: nat, size: nat, payload: seq<byte>, was: seq<byte>)
    requires offset + size <= |payload| && payload[offset..offset + size] == was && size <= FILE_MAX
    ensures Sound([], Backed(offset, size), payload, size) && Bytes([], Backed(offset, size), payload, size) == was
  {
    var b := Bytes([], Backed(offset, size), payload, size);
    forall k | 0 <= k < size ensures b[k] == was[k] { assert b[k] == Logical([], Backed(offset, size), payload, k); }
  }

  lemma SameSelf(slots: seq<Slot>, backing: Backing, store: seq<byte>)
    ensures SameBytes(slots, slots, backing, store)
  {
  }

  /** Only the bytes in the backing count. */
  lemma OnlyBacking(slots: seq<Slot>, backing: Backing, store: seq<byte>, store': seq<byte>, size: nat)
    requires Sound(slots, backing, store, size) && |store'| == |store|
    requires backing.Backed? ==>
               forall i :: backing.offset <= i < backing.offset + backing.size ==> store'[i] == store[i]
    ensures Sound(slots, backing, store', size)
    ensures Bytes(slots, backing, store', size) == Bytes(slots, backing, store, size)
  {
    forall k: nat ensures Logical(slots, backing, store', k) == Logical(slots, backing, store, k) { }
    var a, b := Bytes(slots, backing, store', size), Bytes(slots, backing, store, size);
    forall k | 0 <= k < size ensures a[k] == b[k] { assert a[k] == Logical(slots, backing, store', k); }
  }

  lemma NothingWritten(slots: seq<Slot>, backing: Backing, store: seq<byte>, offset: nat, input: seq<byte>)
    ensures Written(slots, slots, backing, store, offset, input[..0])
  {
  }
}
