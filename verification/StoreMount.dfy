/** What store_init (kernel/store.c) restores when sectors may be unreadable and the importer may run
    out of room. */
module StoreMount {
  import opened Snapshot
  import opened StoreProtocol

  /** The result of fs_import_stream, and the restore_error of a volume. */
  datatype Outcome = Good | NoMemory | NoSpace | Bad

  predicate Exhausted(o: Outcome) { o == NoMemory || o == NoSpace }

  datatype Mounted = Mounted(slot: int, generation: u32, error: Outcome)

  /** The importer accepts well-formed payloads only, and rejects one as bad only if it is not. */
  ghost predicate Importer(v: Volume, importer: seq<byte> -> Outcome) {
    forall p :: (importer(p) == Good ==> v.imports(p)) && (importer(p) == Bad ==> !v.imports(p))
  }

  predicate Readable(v: Volume, slot: int, length: nat, bad: set<nat>) {
    forall lba: nat :: SlotLba(v, slot) < lba <= SlotLba(v, slot) + BlockCount(length) ==> lba !in bad
  }

  predicate HeaderFound(v: Volume, image: Image, bad: set<nat>, slot: int) {
    SlotLba(v, slot) !in bad && ValidHeader(v.version, HeaderAt(v, image, slot), v.cap)
  }

  /** restore() on one slot whose header is valid. */
  function RestoreSlot(v: Volume, image: Image, bad: set<nat>, importer: seq<byte> -> Outcome, slot: int): Outcome {
    var h := HeaderAt(v, image, slot);
    if !Readable(v, slot, Length(h), bad) then Bad
    else if Crc32(PayloadAt(v, image, slot, Length(h))) != Checksum(h) then Bad
    else importer(PayloadAt(v, image, slot, Length(h)))
  }

  function TrySlot(v: Volume, image: Image, bad: set<nat>, importer: seq<byte> -> Outcome, slot: int): Outcome {
    if HeaderFound(v, image, bad, slot) then RestoreSlot(v, image, bad, importer, slot) else Bad
  }

  predicate BlankVolume(v: Volume, image: Image, bad: set<nat>) {
    forall slot :: 0 <= slot <= 1 ==> SlotLba(v, slot) !in bad && HeaderAt(v, image, slot) == BLANK
  }

  function TriedFirst(v: Volume, image: Image, bad: set<nat>): int {
    if HeaderFound(v, image, bad, 1)
       && (!HeaderFound(v, image, bad, 0) || Newer(Generation(HeaderAt(v, image, 1)), Generation(HeaderAt(v, image, 0))))
    then 1 else 0
  }

  /** store_init() for one volume. */
  function Mount(v: Volume, image: Image, bad: set<nat>, importer: seq<byte> -> Outcome): Mounted {
    var first := TriedFirst(v, image, bad);
    var r := TrySlot(v, image, bad, importer, first);
    if r == Good then Mounted(first, Generation(HeaderAt(v, image, first)), Good)
    else if Exhausted(r) then Mounted(-1, 0, r)
    else
      var r' := TrySlot(v, image, bad, importer, 1 - first);
      if r' == Good then Mounted(1 - first, Generation(HeaderAt(v, image, 1 - first)), Good)
      else if Exhausted(r') then Mounted(-1, 0, r')
      else Mounted(-1, 0, if BlankVolume(v, image, bad) then Good else Bad)
  }

  /** With a readable disk and enough room, store_init restores RestoredSlot. */
  lemma MountRestores(v: Volume, image: Image, importer: seq<byte> -> Outcome)
    requires Importer(v, importer) && forall p :: !Exhausted(importer(p))
    ensures Mount(v, image, {}, importer).slot == RestoredSlot(v, image)
    ensures RestoredSlot(v, image) != -1 ==>
              Mount(v, image, {}, importer) == Mounted(RestoredSlot(v, image), Generation(HeaderAt(v, image, RestoredSlot(v, image))), Good)
  {
    hide ValidHeader, Generation, Newer, HeaderAt, Crc32, PayloadAt, BlankVolume, Length, Checksum, BlockCount;
    assert TriedFirst(v, image, {}) == FirstSlot(v, image);
  }

  /** A restored slot is whole and importable. */
  lemma MountedIsRestorable(v: Volume, image: Image, bad: set<nat>, importer: seq<byte> -> Outcome)
    requires Importer(v, importer) && Mount(v, image, bad, importer).slot != -1
    ensures
      var mounted := Mount(v, image, bad, importer);
      0 <= mounted.slot <= 1 && mounted.error == Good && Restorable(v, image, mounted.slot)
      && mounted.generation == Generation(HeaderAt(v, image, mounted.slot))
  {
    hide ValidHeader, Generation, Newer, HeaderAt, Crc32, PayloadAt, BlankVolume, Length, Checksum, BlockCount,
      Readable;
  }

  /** Only an erased volume is taken for an empty one. */
  lemma MountedEmpty(v: Volume, image: Image, bad: set<nat>, importer: seq<byte> -> Outcome)
    requires Mount(v, image, bad, importer).slot == -1 && Mount(v, image, bad, importer).error == Good
    ensures HeaderAt(v, image, 0) == BLANK && HeaderAt(v, image, 1) == BLANK && RestoredSlot(v, image) == -1
  {
    hide ValidHeader, Generation, Newer, HeaderAt, Crc32, PayloadAt, Length, Checksum, BlockCount, Readable,
      RestoredSlot;
    NoneRestorable(v, image);
  }

  ghost predicate SlotReadable(v: Volume, image: Image, slot: int, bad: set<nat>) {
    SlotLba(v, slot) !in bad && Readable(v, slot, Length(HeaderAt(v, image, slot)), bad)
  }

  /** A read error is not told apart from a damaged snapshot: of two whole slots the newer is restored
      exactly when all its sectors can be read; otherwise the older one silently is, if it can be. */
  lemma OlderRestoredOnReadError(v: Volume, image: Image, bad: set<nat>, importer: seq<byte> -> Outcome, newer: int)
    requires Importer(v, importer) && forall p :: !Exhausted(importer(p))
    requires 0 <= newer <= 1 && Restorable(v, image, newer) && Restorable(v, image, 1 - newer)
    requires Generation(HeaderAt(v, image, newer)) == NextGeneration(Generation(HeaderAt(v, image, 1 - newer)))
    ensures Mount(v, image, bad, importer).slot == newer <==> SlotReadable(v, image, newer, bad)
    ensures Mount(v, image, bad, importer).slot == 1 - newer <==>
              !SlotReadable(v, image, newer, bad) && SlotReadable(v, image, 1 - newer, bad)
  {
    hide ValidHeader, Generation, Newer, HeaderAt, Crc32, PayloadAt, BlankVolume, Length, Checksum, BlockCount,
      Readable, NextGeneration;
    NextIsNewer(Generation(HeaderAt(v, image, 1 - newer)));
  }

  /** Running out of room never falls back to an older snapshot and is never reported for a damaged one: nothing is
      restored, writing stays off, and the snapshot that was tried is whole.  Only a blank volume mounts as empty. */
  lemma ExhaustedDisablesWrites(v: Volume, image: Image, bad: set<nat>, importer: seq<byte> -> Outcome)
    ensures
      var mounted := Mount(v, image, bad, importer);
      Exhausted(mounted.error) ==>
        && mounted.slot == -1 && mounted.generation == 0
        && exists slot ::
             && 0 <= slot <= 1 && SlotReadable(v, image, slot, bad)
             && ValidHeader(v.version, HeaderAt(v, image, slot), v.cap)
             && Crc32(PayloadAt(v, image, slot, Length(HeaderAt(v, image, slot)))) == Checksum(HeaderAt(v, image, slot))
             && importer(PayloadAt(v, image, slot, Length(HeaderAt(v, image, slot)))) == mounted.error
    ensures Mount(v, image, bad, importer).slot == -1 && Mount(v, image, bad, importer).error == Good
            <==> BlankVolume(v, image, bad)
  {
    hide Generation, Newer, Crc32, PayloadAt, Length, Checksum, BlockCount, Readable, ValidHeader, HeaderAt;
    BlankIsInvalid(v.version, v.cap);
    var mounted, first := Mount(v, image, bad, importer), TriedFirst(v, image, bad);
    if Exhausted(mounted.error) {
      var slot := if Exhausted(TrySlot(v, image, bad, importer, first)) then first else 1 - first;
      assert SlotReadable(v, image, slot, bad);
    }
  }

  // ----- An older snapshot without notice -----

  /** A volume with generation 1 in the first slot and generation 2 in the second. */
  const PAYLOAD: seq<byte> := [0, 0, 0, 0]

  function TwoSlots(): Volume { Volume(1, 9, 8, 3584, 1, _ => true) }

  function TwoSnapshots(): Image {
    map[1 := Header(1, 1, 4, Crc32(PAYLOAD)), 2 := Block(PAYLOAD, 0), 9 := Header(1, 2, 4, Crc32(PAYLOAD)), 10 := Block(PAYLOAD, 0)]
  }

  lemma SlotWhole(slot: int)
    requires 0 <= slot <= 1
    ensures
      var v, image := TwoSlots(), TwoSnapshots();
      Restorable(v, image, slot) && Generation(HeaderAt(v, image, slot)) == slot + 1 && Length(HeaderAt(v, image, slot)) == 4
  {
    hide Crc32, Header, Generation, Length, Checksum, ValidHeader;
    var v, image := TwoSlots(), TwoSnapshots();
    HeaderReads(1, slot + 1, 4, Crc32(PAYLOAD), v.cap);
    var p := PayloadAt(v, image, slot, 4);
    forall i | 0 <= i < 4 ensures p[i] == PAYLOAD[i] { }
    assert p == PAYLOAD;
  }

  /** Both snapshots are whole, but a sector of the newer one cannot be read: the older one is mounted, and no error is
      left that would keep it from being overwritten. */
  lemma OlderRestored()
    ensures
      var v, image, importer := TwoSlots(), TwoSnapshots(), (p: seq<byte>) => Good;
      && VolumeOk(v) && Importer(v, importer) && RestoredSlot(v, image) == 1
      && Mount(v, image, {10}, importer) == Mounted(0, 1, Good)
  {
    hide Crc32, Header, Generation, Length, Checksum, ValidHeader, Restorable, PayloadAt, Block;
    var v, image, importer := TwoSlots(), TwoSnapshots(), (p: seq<byte>) => Good;
    SlotWhole(0);
    SlotWhole(1);
    OlderRestoredOnReadError(v, image, {10}, importer, 1);
    MountedIsRestorable(v, image, {10}, importer);
    MountRestores(v, image, importer);
    OlderRestoredOnReadError(v, image, {}, importer, 1);
  }
}
