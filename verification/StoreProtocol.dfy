/** The two-slot commit of kernel/store.c as a state machine over single disk operations.

    A disk is what is durable plus the writes not yet flushed, in order; each sector is
    written whole.  A crash keeps any subset of the unflushed writes. */
module StoreProtocol {
  import opened Wrappers
  import opened Snapshot

  // ----- Disks and crashes -----

  datatype SectorWrite = SectorWrite(lba: nat, data: Sector)

  type Image = map<nat, Sector>

  datatype Disk = Disk(durable: Image, unflushed: seq<SectorWrite>)

  function At(image: Image, lba: nat): Sector {
    if lba in image then image[lba] else BLANK
  }

  /** The image after those of the writes that keep marks. */
  function Survived(base: Image, writes: seq<SectorWrite>, keep: seq<bool>): Image
    requires |keep| == |writes|
    decreases |writes|
  {
    if writes == [] then base
    else
      var n := |writes| - 1;
      var before := Survived(base, writes[..n], keep[..n]);
      if keep[n] then before[writes[n].lba := writes[n].data] else before
  }

  ghost predicate CrashImage(d: Disk, image: Image) {
    exists keep: seq<bool> :: |keep| == |d.unflushed| && image == Survived(d.durable, d.unflushed, keep)
  }

  /** What a read returns: all writes so far. */
  function Latest(base: Image, writes: seq<SectorWrite>): Image
    decreases |writes|
  {
    if writes == [] then base
    else
      var n := |writes| - 1;
      Latest(base, writes[..n])[writes[n].lba := writes[n].data]
  }

  /** Sector lba can hold x after a crash. */
  ghost predicate Possible(d: Disk, lba: nat, x: Sector) {
    At(d.durable, lba) == x || exists i :: 0 <= i < |d.unflushed| && d.unflushed[i] == SectorWrite(lba, x)
  }

  lemma {:induction false} SurvivedIsPossible(base: Image, writes: seq<SectorWrite>, keep: seq<bool>, lba: nat)
    requires |keep| == |writes|
    ensures Possible(Disk(base, writes), lba, At(Survived(base, writes, keep), lba))
    decreases |writes|
  {
    if writes != [] {
      var n := |writes| - 1;
      SurvivedIsPossible(base, writes[..n], keep[..n], lba);
      if keep[n] && writes[n].lba == lba {
        assert writes[n] == SectorWrite(lba, writes[n].data);
      } else {
        var x := At(Survived(base, writes[..n], keep[..n]), lba);
        if i :| 0 <= i < n && writes[..n][i] == SectorWrite(lba, x) { assert writes[i] == SectorWrite(lba, x); }
      }
    }
  }

  lemma CrashIsPossible(d: Disk, image: Image, lba: nat)
    requires CrashImage(d, image)
    ensures Possible(d, lba, At(image, lba))
  {
    var keep: seq<bool> :| |keep| == |d.unflushed| && image == Survived(d.durable, d.unflushed, keep);
    SurvivedIsPossible(d.durable, d.unflushed, keep, lba);
  }

  lemma {:induction false} LatestIsPossible(base: Image, writes: seq<SectorWrite>, lba: nat)
    ensures Possible(Disk(base, writes), lba, At(Latest(base, writes), lba))
    decreases |writes|
  {
    if writes != [] {
      var n := |writes| - 1;
      LatestIsPossible(base, writes[..n], lba);
      if writes[n].lba == lba {
        assert writes[n] == SectorWrite(lba, writes[n].data);
      } else {
        var x := At(Latest(base, writes[..n]), lba);
        if i :| 0 <= i < n && writes[..n][i] == SectorWrite(lba, x) { assert writes[i] == SectorWrite(lba, x); }
      }
    }
  }

  /** A write is accepted into the cache, or is lost when the device reports an error. */
  function Issued(d: Disk, lba: nat, data: Sector, applied: bool): Disk {
    if applied then d.(unflushed := d.unflushed + [SectorWrite(lba, data)]) else d
  }

  function Flushed(d: Disk): Disk {
    Disk(Latest(d.durable, d.unflushed), [])
  }

  /** Whatever happens, sector lba will hold x. */
  ghost predicate Settled(d: Disk, lba: nat, x: Sector) {
    forall y :: Possible(d, lba, y) ==> y == x
  }

  /** d' holds nothing that d could not; unflushed writes may have been lost or applied. */
  ghost predicate Degraded(d: Disk, d': Disk) {
    forall lba: nat, x :: Possible(d', lba, x) ==> Possible(d, lba, x)
  }

  lemma IssueElsewhere(d: Disk, lba: nat, data: Sector, applied: bool, other: nat, x: Sector)
    requires other != lba
    ensures Possible(Issued(d, lba, data, applied), other, x) <==> Possible(d, other, x)
  {
    if applied {
      var d' := Issued(d, lba, data, applied);
      if i :| 0 <= i < |d'.unflushed| && d'.unflushed[i] == SectorWrite(other, x) {
        assert d.unflushed[i] == SectorWrite(other, x);
      }
      if i :| 0 <= i < |d.unflushed| && d.unflushed[i] == SectorWrite(other, x) {
        assert d'.unflushed[i] == SectorWrite(other, x);
      }
    }
  }

  lemma IssueHere(d: Disk, lba: nat, data: Sector, applied: bool, x: Sector)
    requires Possible(Issued(d, lba, data, applied), lba, x)
    ensures x == data || Possible(d, lba, x)
  {
    if applied {
      var d' := Issued(d, lba, data, applied);
      if i :| 0 <= i < |d'.unflushed| && d'.unflushed[i] == SectorWrite(lba, x) {
        if i < |d.unflushed| { assert d.unflushed[i] == SectorWrite(lba, x); }
      }
    }
  }

  lemma FlushSettles(d: Disk, lba: nat)
    ensures Settled(Flushed(d), lba, At(Latest(d.durable, d.unflushed), lba))
    ensures forall x :: Settled(d, lba, x) ==> At(Latest(d.durable, d.unflushed), lba) == x
  {
    LatestIsPossible(d.durable, d.unflushed, lba);
  }

  // ----- Slots -----

  /** Where the slots of a volume lie, and what its importer accepts. */
  datatype Volume = Volume(lba0: nat, lba1: nat, sectors: nat, cap: nat, version: nat, imports: seq<byte> -> bool)

  ghost predicate VolumeOk(v: Volume) {
    v.lba0 + v.sectors <= v.lba1 && 4 <= v.cap < 0x1_0000_0000 && v.cap + 512 <= v.sectors * 512
  }

  function SlotLba(v: Volume, slot: int): nat {
    if slot == 0 then v.lba0 else v.lba1
  }

  ghost predicate InSlot(v: Volume, slot: int, lba: nat) {
    SlotLba(v, slot) <= lba < SlotLba(v, slot) + v.sectors
  }

  /** A sector in neither slot, where file data may lie. */
  ghost predicate Outside(v: Volume, lba: nat) {
    !InSlot(v, 0, lba) && !InSlot(v, 1, lba)
  }

  /** A snapshot; attempt counts the commits that reached their header. */
  datatype Saved = Saved(generation: u32, payload: seq<byte>, attempt: nat)

  predicate Fits(v: Volume, payload: seq<byte>) {
    4 <= |payload| <= v.cap && v.imports(payload)
  }

  function HeaderOf(v: Volume, s: Saved): Sector
    requires |s.payload| < 0x1_0000_0000
  {
    Header(v.version, s.generation, |s.payload|, Crc32(s.payload))
  }

  ghost predicate PayloadSettled(v: Volume, d: Disk, slot: int, payload: seq<byte>) {
    forall i: nat :: i * 512 < |payload| ==> Settled(d, SlotLba(v, slot) + 1 + i, Block(payload, i))
  }

  /** The first length bytes after the header of a slot. */
  function PayloadAt(v: Volume, image: Image, slot: int, length: nat): (r: seq<byte>)
    ensures |r| == length
    ensures forall i :: 0 <= i < length ==> r[i] == At(image, SlotLba(v, slot) + 1 + i / 512)[i % 512]
  {
    if length == 0 then []
    else PayloadAt(v, image, slot, length - 1) + [At(image, SlotLba(v, slot) + 1 + (length - 1) / 512)[(length - 1) % 512]]
  }

  function HeaderAt(v: Volume, image: Image, slot: int): Sector {
    At(image, SlotLba(v, slot))
  }

  /** restore() succeeds: the payload matches its checksum and is importable. */
  predicate Restorable(v: Volume, image: Image, slot: int) {
    && ValidHeader(v.version, HeaderAt(v, image, slot), v.cap)
    && Crc32(PayloadAt(v, image, slot, Length(HeaderAt(v, image, slot)))) == Checksum(HeaderAt(v, image, slot))
    && v.imports(PayloadAt(v, image, slot, Length(HeaderAt(v, image, slot))))
  }

  /** (i32)(a - b) > 0 on 32-bit generations. */
  predicate Newer(a: u32, b: u32) {
    0 < (a - b) % 0x1_0000_0000 < 0x8000_0000
  }

  /** The slot that store_init tries first. */
  function FirstSlot(v: Volume, image: Image): int {
    var h0, h1 := HeaderAt(v, image, 0), HeaderAt(v, image, 1);
    if ValidHeader(v.version, h1, v.cap) && (!ValidHeader(v.version, h0, v.cap) || Newer(Generation(h1), Generation(h0))) then 1 else 0
  }

  /** The slot that store_init restores, or -1. */
  function RestoredSlot(v: Volume, image: Image): int {
    var first := FirstSlot(v, image);
    if Restorable(v, image, first) then first
    else if Restorable(v, image, 1 - first) then 1 - first
    else -1
  }

  // ----- The machine -----

  /** Where sync_one stands between two disk operations. */
  datatype Phase =
    | Idle
    | Erasing              // the old header of the inactive slot is being erased
    | Writing              // the payload is being written
    | Sealing(saved: Saved) // the payload is durable; its header is being written

  /** disk, active and generation are the real state; committed is the snapshot that was last
      acknowledged or restored, candidate the one that the other slot may still hold. */
  datatype Machine = Machine(disk: Disk, active: int, generation: u32, phase: Phase,
                             committed: Option<Saved>, candidate: Option<Saved>, attempts: nat)

  function Inactive(active: int): int {
    if active == 0 then 1 else 0
  }

  function NextGeneration(g: u32): u32 {
    (g + 1) % 0x1_0000_0000
  }

  /** The candidate is the successor of the committed snapshot, or its predecessor. */
  ghost predicate Neighbours(m: Machine) {
    m.candidate.Some? ==>
      var c := m.candidate.value;
      if m.committed.Some? then
        || (c.generation == NextGeneration(m.generation) && c.attempt > m.committed.value.attempt)
        || (m.generation == NextGeneration(c.generation) && c.attempt < m.committed.value.attempt)
      else c.generation == NextGeneration(m.generation)
  }

  /** Slot holds the snapshot, whatever a crash does. */
  ghost predicate Holds(v: Volume, d: Disk, slot: int, s: Saved) {
    && Fits(v, s.payload) && |s.payload| < 0x1_0000_0000
    && Settled(d, SlotLba(v, slot), HeaderOf(v, s)) && PayloadSettled(v, d, slot, s.payload)
  }

  ghost predicate OtherSlot(v: Volume, m: Machine) {
    var o := Inactive(m.active);
    && (m.candidate.Some? ==>
          && Fits(v, m.candidate.value.payload) && |m.candidate.value.payload| < 0x1_0000_0000
          && PayloadSettled(v, m.disk, o, m.candidate.value.payload))
    && (forall y :: Possible(m.disk, SlotLba(v, o), y) ==>
          y == BLANK || (m.candidate.Some? && |m.candidate.value.payload| < 0x1_0000_0000 && y == HeaderOf(v, m.candidate.value)))
  }

  ghost predicate PhaseOk(v: Volume, m: Machine) {
    var o := Inactive(m.active);
    match m.phase
    case Idle => true
    case Erasing => true
    case Writing => Settled(m.disk, SlotLba(v, o), BLANK) && m.candidate == None
    case Sealing(s) =>
      && Fits(v, s.payload) && |s.payload| < 0x1_0000_0000 && PayloadSettled(v, m.disk, o, s.payload)
      && s.generation == NextGeneration(m.generation) && s.attempt == m.attempts
      && (m.candidate == None || m.candidate == Some(s))
      && (m.committed.Some? ==> m.committed.value.attempt < s.attempt)
  }

  ghost predicate Inv(v: Volume, m: Machine) {
    && -1 <= m.active <= 1
    && (m.active == -1 <==> m.committed == None)
    && (m.active == -1 ==> m.generation == 0 && Settled(m.disk, SlotLba(v, 1), BLANK))
    && (m.active != -1 ==> m.committed.value.generation == m.generation && Holds(v, m.disk, m.active, m.committed.value))
    && (m.committed.Some? ==> m.committed.value.attempt <= m.attempts)
    && (m.candidate.Some? ==> m.candidate.value.attempt <= m.attempts)
    && Neighbours(m) && OtherSlot(v, m) && PhaseOk(v, m)
  }

  /** A formatted volume before its first commit. */
  ghost predicate Formatted(v: Volume, m: Machine) {
    && m == Machine(m.disk, -1, 0, Idle, None, None, 0) && m.disk.unflushed == []
    && HeaderAt(v, m.disk.durable, 0) == BLANK && HeaderAt(v, m.disk.durable, 1) == BLANK
  }

  // ----- Steps -----

  ghost predicate BeginErase(v: Volume, m: Machine, m': Machine) {
    m.phase == Idle && exists applied ::
      m' == m.(disk := Issued(m.disk, SlotLba(v, Inactive(m.active)), BLANK, applied), phase := Erasing)
  }

  ghost predicate EraseFlushed(v: Volume, m: Machine, m': Machine) {
    && m.phase == Erasing
    && At(Latest(m.disk.durable, m.disk.unflushed), SlotLba(v, Inactive(m.active))) == BLANK
    && m' == m.(disk := Flushed(m.disk), phase := Writing, candidate := None)
  }

  ghost predicate PayloadWrite(v: Volume, m: Machine, m': Machine) {
    && m.phase == Writing
    && exists lba: nat, data, applied ::
      && SlotLba(v, Inactive(m.active)) < lba < SlotLba(v, Inactive(m.active)) + v.sectors
      && m' == m.(disk := Issued(m.disk, lba, data, applied))
  }

  ghost predicate PayloadFlushed(v: Volume, m: Machine, m': Machine) {
    && m.phase == Writing && m'.phase.Sealing?
    && var s := m'.phase.saved;
       && Fits(v, s.payload) && s.generation == NextGeneration(m.generation) && s.attempt == m.attempts + 1
       && (forall i: nat :: i * 512 < |s.payload| ==>
             At(Latest(m.disk.durable, m.disk.unflushed), SlotLba(v, Inactive(m.active)) + 1 + i) == Block(s.payload, i))
       && m' == m.(disk := Flushed(m.disk), phase := Sealing(s), attempts := m.attempts + 1)
  }

  ghost predicate WriteHeader(v: Volume, m: Machine, m': Machine) {
    && m.phase.Sealing? && |m.phase.saved.payload| < 0x1_0000_0000
    && exists applied ::
      m' == m.(disk := Issued(m.disk, SlotLba(v, Inactive(m.active)), HeaderOf(v, m.phase.saved), applied),
               candidate := Some(m.phase.saved))
  }

  ghost predicate Commit(v: Volume, m: Machine, m': Machine) {
    && m.phase.Sealing? && |m.phase.saved.payload| < 0x1_0000_0000
    && At(Latest(m.disk.durable, m.disk.unflushed), SlotLba(v, Inactive(m.active))) == HeaderOf(v, m.phase.saved)
    && m' == m.(disk := Flushed(m.disk), active := Inactive(m.active), generation := m.phase.saved.generation,
                phase := Idle, committed := Some(m.phase.saved), candidate := m.committed)
  }

  /** An operation failed, perhaps losing writes, and sync_one returned. */
  ghost predicate Abort(m: Machine, m': Machine) {
    Degraded(m.disk, m'.disk) && m' == m.(disk := m'.disk, phase := Idle)
  }

  /** File data is written, which lies in neither slot. */
  ghost predicate DataWrite(v: Volume, m: Machine, m': Machine) {
    exists lba: nat, data, applied :: Outside(v, lba) && m' == m.(disk := Issued(m.disk, lba, data, applied))
  }

  /** What store_init makes of an image when it restores slot; committed and candidate name what it finds. */
  ghost function Rebooted(v: Volume, m: Machine, image: Image, slot: int): Machine {
    var other := Inactive(slot);
    var found := if slot == m.active then m.committed else m.candidate;
    var left := if slot == m.active then m.candidate else m.committed;
    Machine(Disk(image, []), slot, if slot == -1 then 0 else Generation(HeaderAt(v, image, slot)), Idle,
            if slot == -1 then None else found,
            if slot != -1 && HeaderAt(v, image, other) != BLANK then left else None, m.attempts)
  }

  /** A crash, and a start at which every sector can be read. */
  ghost predicate Reboot(v: Volume, m: Machine, m': Machine) {
    exists image :: CrashImage(m.disk, image) && m' == Rebooted(v, m, image, RestoredSlot(v, image))
  }

  /** A crash, and a start that can read one of the good slots, not always the newer. */
  ghost predicate FaultyReboot(v: Volume, m: Machine, m': Machine) {
    exists image, slot :: CrashImage(m.disk, image) && 0 <= slot <= 1 && Restorable(v, image, slot)
                          && m' == Rebooted(v, m, image, slot)
  }

  ghost predicate Step(v: Volume, m: Machine, m': Machine) {
    || BeginErase(v, m, m') || EraseFlushed(v, m, m') || PayloadWrite(v, m, m') || PayloadFlushed(v, m, m')
    || WriteHeader(v, m, m') || Commit(v, m, m') || Abort(m, m') || DataWrite(v, m, m') || Reboot(v, m, m')
  }

  ghost predicate FaultyStep(v: Volume, m: Machine, m': Machine) {
    Step(v, m, m') || FaultyReboot(v, m, m')
  }

  // ----- What a crash leaves to find -----

  lemma CrashSettled(d: Disk, image: Image, lba: nat, x: Sector)
    requires CrashImage(d, image) && Settled(d, lba, x)
    ensures At(image, lba) == x
  {
    hide Possible, CrashImage;
    CrashIsPossible(d, image, lba);
  }

  lemma BlockByte(payload: seq<byte>, i: nat)
    requires i < |payload|
    ensures (i / 512) * 512 < |payload| && Block(payload, i / 512)[i % 512] == payload[i]
  {
    var b := i / 512;
    assert i == 512 * b + i % 512;
  }

  /** A slot that holds a snapshot is read back as that snapshot. */
  lemma HeldPayload(v: Volume, d: Disk, image: Image, slot: int, payload: seq<byte>)
    requires CrashImage(d, image) && PayloadSettled(v, d, slot, payload)
    ensures PayloadAt(v, image, slot, |payload|) == payload
  {
    hide CrashImage, Settled, Block, At;
    var r := PayloadAt(v, image, slot, |payload|);
    forall i | 0 <= i < |payload| ensures r[i] == payload[i] {
      BlockByte(payload, i);
      CrashSettled(d, image, SlotLba(v, slot) + 1 + i / 512, Block(payload, i / 512));
    }
  }

  lemma HeldRestorable(v: Volume, d: Disk, image: Image, slot: int, s: Saved)
    requires VolumeOk(v) && CrashImage(d, image) && Fits(v, s.payload) && |s.payload| < 0x1_0000_0000
    requires PayloadSettled(v, d, slot, s.payload) && HeaderAt(v, image, slot) == HeaderOf(v, s)
    ensures Restorable(v, image, slot) && Generation(HeaderAt(v, image, slot)) == s.generation
    ensures ValidHeader(v.version, HeaderAt(v, image, slot), v.cap) && Length(HeaderAt(v, image, slot)) == |s.payload|
    ensures PayloadAt(v, image, slot, Length(HeaderAt(v, image, slot))) == s.payload
  {
    HeaderReads(v.version, s.generation, |s.payload|, Crc32(s.payload), v.cap);
    HeldPayload(v, d, image, slot, s.payload);
  }

  lemma BlankNotRestorable(v: Volume, image: Image, slot: int)
    requires HeaderAt(v, image, slot) == BLANK
    ensures !Restorable(v, image, slot) && !ValidHeader(v.version, HeaderAt(v, image, slot), v.cap)
  {
    BlankIsInvalid(v.version, v.cap);
  }

  lemma OnlyOneRestorable(v: Volume, image: Image, slot: int)
    requires 0 <= slot <= 1 && Restorable(v, image, slot) && HeaderAt(v, image, 1 - slot) == BLANK
    ensures RestoredSlot(v, image) == slot
  {
    BlankNotRestorable(v, image, 1 - slot);
    hide ValidHeader;
  }

  lemma NoneRestorable(v: Volume, image: Image)
    requires HeaderAt(v, image, 0) == BLANK && HeaderAt(v, image, 1) == BLANK
    ensures RestoredSlot(v, image) == -1
  {
    BlankNotRestorable(v, image, 0);
    BlankNotRestorable(v, image, 1);
    hide ValidHeader;
  }

  /** Of two good slots the one with the next generation wins, also where it wraps to 0. */
  lemma NewerRestored(v: Volume, image: Image, slot: int)
    requires 0 <= slot <= 1 && Restorable(v, image, slot) && Restorable(v, image, 1 - slot)
    requires Generation(HeaderAt(v, image, slot)) == NextGeneration(Generation(HeaderAt(v, image, 1 - slot)))
    ensures RestoredSlot(v, image) == slot
  {
    hide ValidHeader, Generation, Newer, NextGeneration, HeaderAt, Crc32, PayloadAt;
    NextIsNewer(Generation(HeaderAt(v, image, 1 - slot)));
  }

  lemma NextIsNewer(g: u32)
    ensures Newer(NextGeneration(g), g) && !Newer(g, NextGeneration(g))
  {
    if g == 0xffff_ffff { assert NextGeneration(g) == 0; } else { assert NextGeneration(g) == g + 1; }
  }

  /** A good candidate is what a crash would bring back. */
  predicate CandidateWins(m: Machine) {
    m.candidate.Some? && (m.committed.Some? ==> m.candidate.value.attempt > m.committed.value.attempt)
  }

  /** Headers after a crash. */
  lemma HeadersAfterCrash(v: Volume, m: Machine, image: Image)
    requires VolumeOk(v) && Inv(v, m) && CrashImage(m.disk, image)
    ensures
      var o := Inactive(m.active);
      && (HeaderAt(v, image, o) == BLANK || (m.candidate.Some? && |m.candidate.value.payload| < 0x1_0000_0000
                                            && HeaderAt(v, image, o) == HeaderOf(v, m.candidate.value)))
      && (m.active != -1 ==> |m.committed.value.payload| < 0x1_0000_0000
                             && HeaderAt(v, image, m.active) == HeaderOf(v, m.committed.value))
      && (m.active == -1 ==> HeaderAt(v, image, 1) == BLANK)
  {
    hide HeaderOf, Possible;
    CrashIsPossible(m.disk, image, SlotLba(v, Inactive(m.active)));
    if m.active != -1 { CrashIsPossible(m.disk, image, SlotLba(v, m.active)); }
    CrashIsPossible(m.disk, image, SlotLba(v, 1));
  }

  /** What a slot holds after a crash, if it is not blank. */
  ghost predicate ReadsAs(v: Volume, image: Image, slot: int, s: Saved) {
    && Restorable(v, image, slot)
    && Generation(HeaderAt(v, image, slot)) == s.generation
    && PayloadAt(v, image, slot, Length(HeaderAt(v, image, slot))) == s.payload
  }

  /** Both slots are whole or blank after a crash. */
  lemma SlotsAfterCrash(v: Volume, m: Machine, image: Image)
    requires VolumeOk(v) && Inv(v, m) && CrashImage(m.disk, image)
    ensures m.active != -1 ==> ReadsAs(v, image, m.active, m.committed.value)
    ensures m.active == -1 ==> HeaderAt(v, image, 1) == BLANK
    ensures HeaderAt(v, image, Inactive(m.active)) != BLANK ==>
              m.candidate.Some? && ReadsAs(v, image, Inactive(m.active), m.candidate.value)
  {
    hide ValidHeader, HeaderOf, Length, Generation, Restorable, Possible, PayloadSettled, Settled;
    var o := Inactive(m.active);
    HeadersAfterCrash(v, m, image);
    if HeaderAt(v, image, o) != BLANK { HeldRestorable(v, m.disk, image, o, m.candidate.value); }
    if m.active != -1 { HeldRestorable(v, m.disk, image, m.active, m.committed.value); }
  }

  /** Which slot a crash makes store_init restore. */
  lemma RestoredAfterCrash(v: Volume, m: Machine, image: Image)
    requires VolumeOk(v) && Inv(v, m) && CrashImage(m.disk, image)
    ensures
      var o := Inactive(m.active);
      var slot := RestoredSlot(v, image);
      && (slot == m.active || slot == o) && -1 <= slot <= 1
      && (slot == o <==> HeaderAt(v, image, o) != BLANK && CandidateWins(m))
      && (slot != -1 ==> Restorable(v, image, slot))
  {
    hide ValidHeader, HeaderOf, Length, Generation, Restorable, RestoredSlot, Possible, PayloadSettled, Settled,
      PayloadAt;
    var o := Inactive(m.active);
    SlotsAfterCrash(v, m, image);
    if m.active == -1 {
      if HeaderAt(v, image, o) == BLANK { NoneRestorable(v, image); } else { OnlyOneRestorable(v, image, o); }
    } else {
      if HeaderAt(v, image, o) == BLANK {
        OnlyOneRestorable(v, image, m.active);
      } else if m.candidate.value.attempt > m.committed.value.attempt {
        NewerRestored(v, image, o);
      } else {
        NewerRestored(v, image, m.active);
      }
    }
  }

  // ----- Every step keeps the invariant -----

  lemma IssueKeepsSettled(d: Disk, lba: nat, data: Sector, applied: bool, other: nat, x: Sector)
    requires Settled(d, other, x) && (other != lba || data == x)
    ensures Settled(Issued(d, lba, data, applied), other, x)
  {
    hide Possible, Issued;
    forall y | Possible(Issued(d, lba, data, applied), other, y) ensures y == x {
      if other == lba { IssueHere(d, lba, data, applied, y); } else { IssueElsewhere(d, lba, data, applied, other, y); }
    }
  }

  lemma IssueKeepsPayload(v: Volume, d: Disk, lba: nat, data: Sector, applied: bool, slot: int, payload: seq<byte>)
    requires VolumeOk(v) && PayloadSettled(v, d, slot, payload) && |payload| <= v.cap
    requires InSlot(v, 0, lba) || InSlot(v, 1, lba)
    requires lba == SlotLba(v, slot) || !InSlot(v, slot, lba)
    ensures PayloadSettled(v, Issued(d, lba, data, applied), slot, payload)
  {
    hide Settled, Issued;
    forall i: nat | i * 512 < |payload|
      ensures Settled(Issued(d, lba, data, applied), SlotLba(v, slot) + 1 + i, Block(payload, i))
    {
      IssueKeepsSettled(d, lba, data, applied, SlotLba(v, slot) + 1 + i, Block(payload, i));
    }
  }

  lemma FlushKeepsPossible(d: Disk, lba: nat, x: Sector)
    requires Possible(Flushed(d), lba, x)
    ensures Possible(d, lba, x)
  {
    LatestIsPossible(d.durable, d.unflushed, lba);
  }

  lemma FlushKeepsPayload(v: Volume, d: Disk, slot: int, payload: seq<byte>)
    requires PayloadSettled(v, d, slot, payload)
    ensures PayloadSettled(v, Flushed(d), slot, payload)
  {
    hide Flushed, Possible;
    forall i: nat | i * 512 < |payload|
      ensures Settled(Flushed(d), SlotLba(v, slot) + 1 + i, Block(payload, i))
    {
      FlushKeepsSettled(d, SlotLba(v, slot) + 1 + i, Block(payload, i));
    }
  }

  lemma FlushKeepsSettled(d: Disk, lba: nat, x: Sector)
    requires Settled(d, lba, x)
    ensures Settled(Flushed(d), lba, x)
  {
    hide Flushed, Possible;
    forall y | Possible(Flushed(d), lba, y) ensures y == x { FlushKeepsPossible(d, lba, y); }
  }

  /** The parts of the invariant about the slot in use, after writes elsewhere or a flush. */
  ghost predicate ActiveSlot(v: Volume, m: Machine) {
    && (m.active == -1 ==> Settled(m.disk, SlotLba(v, 1), BLANK))
    && (m.active != -1 ==> m.committed.Some? && Holds(v, m.disk, m.active, m.committed.value))
  }

  lemma IssueKeepsActive(v: Volume, m: Machine, lba: nat, data: Sector, applied: bool)
    requires VolumeOk(v) && ActiveSlot(v, m) && -1 <= m.active <= 1 && InSlot(v, Inactive(m.active), lba)
    ensures ActiveSlot(v, m.(disk := Issued(m.disk, lba, data, applied)))
  {
    hide Settled, Issued, PayloadSettled, HeaderOf;
    if m.active == -1 {
      IssueKeepsSettled(m.disk, lba, data, applied, SlotLba(v, 1), BLANK);
    } else {
      IssueKeepsSettled(m.disk, lba, data, applied, SlotLba(v, m.active), HeaderOf(v, m.committed.value));
      IssueKeepsPayload(v, m.disk, lba, data, applied, m.active, m.committed.value.payload);
    }
  }

  lemma FlushKeepsActive(v: Volume, m: Machine)
    requires ActiveSlot(v, m)
    ensures ActiveSlot(v, m.(disk := Flushed(m.disk)))
  {
    hide Settled, Flushed, PayloadSettled, HeaderOf;
    if m.active == -1 {
      FlushKeepsSettled(m.disk, SlotLba(v, 1), BLANK);
    } else {
      FlushKeepsSettled(m.disk, SlotLba(v, m.active), HeaderOf(v, m.committed.value));
      FlushKeepsPayload(v, m.disk, m.active, m.committed.value.payload);
    }
  }

  lemma BeginEraseKeeps(v: Volume, m: Machine, m': Machine)
    requires VolumeOk(v) && Inv(v, m) && BeginErase(v, m, m')
    ensures Inv(v, m')
  {
    var applied :| m' == m.(disk := Issued(m.disk, SlotLba(v, Inactive(m.active)), BLANK, applied), phase := Erasing);
    HeaderIssueKeeps(v, m, BLANK, applied);
  }

  /** Issuing a header write keeps the slot in use and the payload of the other slot. */
  lemma HeaderIssueKeeps(v: Volume, m: Machine, h: Sector, applied: bool)
    requires VolumeOk(v) && Inv(v, m)
    ensures
      var lba := SlotLba(v, Inactive(m.active));
      var d' := Issued(m.disk, lba, h, applied);
      && ActiveSlot(v, m.(disk := d'))
      && (m.candidate.Some? ==> PayloadSettled(v, d', Inactive(m.active), m.candidate.value.payload))
      && (m.phase.Sealing? ==> PayloadSettled(v, d', Inactive(m.active), m.phase.saved.payload))
      && (forall y :: Possible(d', lba, y) ==> y == h || Possible(m.disk, lba, y))
  {
    hide Settled, Issued, PayloadSettled, Possible, HeaderOf;
    var o := Inactive(m.active);
    var lba := SlotLba(v, o);
    IssueKeepsActive(v, m, lba, h, applied);
    if m.candidate.Some? { IssueKeepsPayload(v, m.disk, lba, h, applied, o, m.candidate.value.payload); }
    if m.phase.Sealing? { IssueKeepsPayload(v, m.disk, lba, h, applied, o, m.phase.saved.payload); }
    forall y | Possible(Issued(m.disk, lba, h, applied), lba, y) ensures y == h || Possible(m.disk, lba, y) {
      IssueHere(m.disk, lba, h, applied, y);
    }
  }

  lemma EraseFlushedKeeps(v: Volume, m: Machine, m': Machine)
    requires VolumeOk(v) && Inv(v, m) && EraseFlushed(v, m, m')
    ensures Inv(v, m')
  {
    hide Flushed, PayloadSettled, HeaderOf;
    FlushKeepsActive(v, m);
    FlushSettles(m.disk, SlotLba(v, Inactive(m.active)));
  }

  lemma PayloadWriteKeeps(v: Volume, m: Machine, m': Machine)
    requires VolumeOk(v) && Inv(v, m) && PayloadWrite(v, m, m')
    ensures Inv(v, m')
  {
    hide Issued, PayloadSettled, HeaderOf, Possible;
    var o := Inactive(m.active);
    var lba: nat, data, applied :| SlotLba(v, o) < lba < SlotLba(v, o) + v.sectors
      && m' == m.(disk := Issued(m.disk, lba, data, applied));
    IssueKeepsActive(v, m, lba, data, applied);
    IssueKeepsSettled(m.disk, lba, data, applied, SlotLba(v, o), BLANK);
  }

  lemma PayloadFlushedKeeps(v: Volume, m: Machine, m': Machine)
    requires VolumeOk(v) && Inv(v, m) && PayloadFlushed(v, m, m')
    ensures Inv(v, m')
  {
    hide Flushed, HeaderOf, Possible, Block;
    var o := Inactive(m.active);
    var s := m'.phase.saved;
    FlushKeepsActive(v, m);
    FlushKeepsSettled(m.disk, SlotLba(v, o), BLANK);
    forall i: nat | i * 512 < |s.payload|
      ensures Settled(Flushed(m.disk), SlotLba(v, o) + 1 + i, Block(s.payload, i))
    {
      FlushSettles(m.disk, SlotLba(v, o) + 1 + i);
    }
  }

  lemma WriteHeaderKeeps(v: Volume, m: Machine, m': Machine)
    requires VolumeOk(v) && Inv(v, m) && WriteHeader(v, m, m')
    ensures Inv(v, m')
  {
    hide Issued, PayloadSettled, HeaderOf, Possible, Settled;
    var s := m.phase.saved;
    var applied :|
      m' == m.(disk := Issued(m.disk, SlotLba(v, Inactive(m.active)), HeaderOf(v, s), applied), candidate := Some(s));
    HeaderIssueKeeps(v, m, HeaderOf(v, s), applied);
  }

  lemma CommitKeeps(v: Volume, m: Machine, m': Machine)
    requires VolumeOk(v) && Inv(v, m) && Commit(v, m, m')
    ensures Inv(v, m')
  {
    hide Flushed, HeaderOf, PayloadSettled, Possible;
    var o := Inactive(m.active);
    FlushKeepsActive(v, m);
    FlushSettles(m.disk, SlotLba(v, o));
    FlushKeepsPayload(v, m.disk, o, m.phase.saved.payload);
  }

  lemma RebootKeeps(v: Volume, m: Machine, m': Machine)
    requires VolumeOk(v) && Inv(v, m) && Reboot(v, m, m')
    ensures Inv(v, m')
  {
    hide Inv, RestoredSlot, HeaderAt, Restorable;
    var image :| CrashImage(m.disk, image) && m' == Rebooted(v, m, image, RestoredSlot(v, image));
    RestoredAfterCrash(v, m, image);
    if RestoredSlot(v, image) == -1 { RebootToNothing(v, m, image); }
    else { RebootToSlot(v, m, image, RestoredSlot(v, image)); }
  }

  lemma FaultyRebootKeeps(v: Volume, m: Machine, m': Machine)
    requires VolumeOk(v) && Inv(v, m) && FaultyReboot(v, m, m')
    ensures Inv(v, m')
  {
    hide Inv, HeaderAt, Restorable;
    var image, slot :| CrashImage(m.disk, image) && 0 <= slot <= 1 && Restorable(v, image, slot)
                       && m' == Rebooted(v, m, image, slot);
    RebootToSlot(v, m, image, slot);
  }

  lemma RebootToNothing(v: Volume, m: Machine, image: Image)
    requires VolumeOk(v) && Inv(v, m) && CrashImage(m.disk, image) && RestoredSlot(v, image) == -1
    ensures Inv(v, Rebooted(v, m, image, -1))
  {
    hide RestoredSlot, HeaderOf, Restorable, ValidHeader, Generation, Block;
    HeadersAfterCrash(v, m, image);
    RestoredAfterCrash(v, m, image);
    assert HeaderAt(v, image, 0) == BLANK && HeaderAt(v, image, 1) == BLANK;
  }

  lemma RebootToSlot(v: Volume, m: Machine, image: Image, slot: int)
    requires VolumeOk(v) && Inv(v, m) && CrashImage(m.disk, image) && 0 <= slot <= 1 && Restorable(v, image, slot)
    ensures Inv(v, Rebooted(v, m, image, slot))
  {
    hide Inv, Restorable, Rebooted;
    if slot == m.active {
      RebootToCommitted(v, m, image);
    } else {
      RestorableIsCandidate(v, m, image, slot);
      RebootToCandidate(v, m, image);
    }
  }

  lemma RestorableIsCandidate(v: Volume, m: Machine, image: Image, slot: int)
    requires VolumeOk(v) && Inv(v, m) && CrashImage(m.disk, image) && 0 <= slot <= 1 && Restorable(v, image, slot)
    requires slot != m.active
    ensures slot == Inactive(m.active) && HeaderAt(v, image, slot) != BLANK && m.candidate.Some?
  {
    hide HeaderOf, Restorable, ValidHeader, Possible, Settled, PayloadSettled, CrashImage;
    HeadersAfterCrash(v, m, image);
    if HeaderAt(v, image, slot) == BLANK { BlankNotRestorable(v, image, slot); }
  }

  lemma RebootToCommitted(v: Volume, m: Machine, image: Image)
    requires VolumeOk(v) && Inv(v, m) && CrashImage(m.disk, image) && m.active != -1
    ensures Inv(v, Rebooted(v, m, image, m.active))
  {
    hide Possible, Settled, PayloadSettled, CrashImage, HeaderOf, Restorable, ValidHeader, Generation;
    SlotsAfterCrash(v, m, image);
    CrashDegrades(m.disk, image);
    DegradedKeeps(v, m, Disk(image, []));
    HeaderPossible(v, image, Inactive(m.active));
  }

  lemma RebootToCandidate(v: Volume, m: Machine, image: Image)
    requires VolumeOk(v) && Inv(v, m) && CrashImage(m.disk, image) && HeaderAt(v, image, Inactive(m.active)) != BLANK
    ensures Inv(v, Rebooted(v, m, image, Inactive(m.active)))
  {
    hide Possible, Settled, PayloadSettled, CrashImage, HeaderOf, Restorable, ValidHeader, Generation;
    HeadersAfterCrash(v, m, image);
    SlotsAfterCrash(v, m, image);
    CrashDegrades(m.disk, image);
    DegradedKeeps(v, m, Disk(image, []));
    HeaderPossible(v, image, 0);
    HeaderPossible(v, image, 1);
  }

  /** After a crash the header of a slot is settled at what the image holds. */
  lemma HeaderPossible(v: Volume, image: Image, slot: int)
    ensures Settled(Disk(image, []), SlotLba(v, slot), HeaderAt(v, image, slot))
    ensures forall y :: Possible(Disk(image, []), SlotLba(v, slot), y) <==> y == HeaderAt(v, image, slot)
  {
  }

  lemma CrashDegrades(d: Disk, image: Image)
    requires CrashImage(d, image)
    ensures Degraded(d, Disk(image, []))
  {
    forall lba: nat, x | Possible(Disk(image, []), lba, x) ensures Possible(d, lba, x) {
      CrashIsPossible(d, image, lba);
    }
  }

  lemma DegradedKeepsPayload(v: Volume, d: Disk, d': Disk, slot: int, payload: seq<byte>)
    requires Degraded(d, d') && PayloadSettled(v, d, slot, payload)
    ensures PayloadSettled(v, d', slot, payload)
  {
    hide Possible, Block;
  }

  /** Losing writes keeps the invariant. */
  lemma DegradedKeeps(v: Volume, m: Machine, d: Disk)
    requires Inv(v, m) && Degraded(m.disk, d)
    ensures Inv(v, m.(disk := d))
  {
    hide Possible, PayloadSettled, HeaderOf;
    var o := Inactive(m.active);
    if m.active != -1 { DegradedKeepsPayload(v, m.disk, d, m.active, m.committed.value.payload); }
    if m.candidate.Some? { DegradedKeepsPayload(v, m.disk, d, o, m.candidate.value.payload); }
    if m.phase.Sealing? { DegradedKeepsPayload(v, m.disk, d, o, m.phase.saved.payload); }
  }

  // ----- Data outside the slots -----

  lemma DataKeepsPayload(v: Volume, d: Disk, lba: nat, data: Sector, applied: bool, slot: int, payload: seq<byte>)
    requires VolumeOk(v) && PayloadSettled(v, d, slot, payload) && |payload| <= v.cap
    requires Outside(v, lba)
    ensures PayloadSettled(v, Issued(d, lba, data, applied), slot, payload)
  {
    hide Settled, Issued;
    forall i: nat | i * 512 < |payload|
      ensures Settled(Issued(d, lba, data, applied), SlotLba(v, slot) + 1 + i, Block(payload, i))
    {
      IssueKeepsSettled(d, lba, data, applied, SlotLba(v, slot) + 1 + i, Block(payload, i));
    }
  }

  /** Writing file data outside both slots, as a copy-on-write import does before its commit. */
  lemma DataWriteKeeps(v: Volume, m: Machine, m': Machine)
    requires VolumeOk(v) && Inv(v, m) && DataWrite(v, m, m')
    ensures Inv(v, m')
  {
    hide Settled, Issued, PayloadSettled, HeaderOf, Possible;
    var lba: nat, data, applied :| Outside(v, lba) && m' == m.(disk := Issued(m.disk, lba, data, applied));
    var o := Inactive(m.active);
    if m.active == -1 {
      IssueKeepsSettled(m.disk, lba, data, applied, SlotLba(v, 1), BLANK);
    } else {
      IssueKeepsSettled(m.disk, lba, data, applied, SlotLba(v, m.active), HeaderOf(v, m.committed.value));
      DataKeepsPayload(v, m.disk, lba, data, applied, m.active, m.committed.value.payload);
    }
    if m.candidate.Some? { DataKeepsPayload(v, m.disk, lba, data, applied, o, m.candidate.value.payload); }
    if m.phase.Sealing? { DataKeepsPayload(v, m.disk, lba, data, applied, o, m.phase.saved.payload); }
    if m.phase.Writing? { IssueKeepsSettled(m.disk, lba, data, applied, SlotLba(v, o), BLANK); }
    forall y | Possible(Issued(m.disk, lba, data, applied), SlotLba(v, o), y)
      ensures Possible(m.disk, SlotLba(v, o), y)
    {
      IssueElsewhere(m.disk, lba, data, applied, SlotLba(v, o), y);
    }
  }

  lemma StepKeeps(v: Volume, m: Machine, m': Machine)
    requires VolumeOk(v) && Inv(v, m) && FaultyStep(v, m, m')
    ensures Inv(v, m')
  {
    hide Inv, BeginErase, EraseFlushed, PayloadWrite, PayloadFlushed, WriteHeader, Commit, Abort, DataWrite, Reboot,
      FaultyReboot;
    if BeginErase(v, m, m') { BeginEraseKeeps(v, m, m'); }
    else if EraseFlushed(v, m, m') { EraseFlushedKeeps(v, m, m'); }
    else if PayloadWrite(v, m, m') { PayloadWriteKeeps(v, m, m'); }
    else if PayloadFlushed(v, m, m') { PayloadFlushedKeeps(v, m, m'); }
    else if WriteHeader(v, m, m') { WriteHeaderKeeps(v, m, m'); }
    else if Commit(v, m, m') { CommitKeeps(v, m, m'); }
    else if Abort(m, m') { AbortKeeps(v, m, m'); }
    else if DataWrite(v, m, m') { DataWriteKeeps(v, m, m'); }
    else if Reboot(v, m, m') { RebootKeeps(v, m, m'); }
    else { FaultyRebootKeeps(v, m, m'); }
  }

  lemma AbortKeeps(v: Volume, m: Machine, m': Machine)
    requires Inv(v, m) && Abort(m, m')
    ensures Inv(v, m')
  {
    hide Degraded, Settled, PayloadSettled, Possible, HeaderOf;
    DegradedKeeps(v, m, m'.disk);
  }
}
