/** kernel/store.c for one volume, proved against the machine of StoreProtocol. */
module Store {
  import opened Wrappers
  import opened Snapshot
  import opened StoreProtocol
  import opened StoreRuns
  import opened StoreMount

  // ----- Disk operations -----

  /** The writes that a failed flush did not lose. */
  function Kept(writes: seq<SectorWrite>, keep: seq<bool>): seq<SectorWrite>
    decreases |writes|
  {
    if writes == [] then []
    else
      var n := |writes| - 1;
      Kept(writes[..n], keep) + if n < |keep| && !keep[n] then [] else [writes[n]]
  }

  lemma {:induction false} KeptAreWrites(writes: seq<SectorWrite>, keep: seq<bool>)
    ensures forall w :: w in Kept(writes, keep) ==> w in writes
    decreases |writes|
  {
    if writes != [] { KeptAreWrites(writes[..|writes| - 1], keep); }
  }

  lemma KeptDegrades(d: Disk, keep: seq<bool>)
    ensures Degraded(d, Disk(d.durable, Kept(d.unflushed, keep)))
  {
    KeptAreWrites(d.unflushed, keep);
    var d' := Disk(d.durable, Kept(d.unflushed, keep));
    forall lba: nat, x | Possible(d', lba, x) ensures Possible(d, lba, x) {
      if i :| 0 <= i < |d'.unflushed| && d'.unflushed[i] == SectorWrite(lba, x) {
        assert SectorWrite(lba, x) in d.unflushed;
      }
    }
  }

  lemma FlushDegrades(d: Disk)
    ensures Degraded(d, Flushed(d))
  {
    forall lba: nat, x | Possible(Flushed(d), lba, x) ensures Possible(d, lba, x) { FlushKeepsPossible(d, lba, x); }
  }

  /** What reads of the disk return. */
  function View(d: Disk): Image { Latest(d.durable, d.unflushed) }

  /** What a read of sector lba returns. */
  function Reads(d: Disk, lba: nat): Sector {
    At(Latest(d.durable, d.unflushed), lba)
  }

  lemma ReadsIssued(d: Disk, lba: nat, data: Sector, other: nat)
    ensures Reads(Issued(d, lba, data, true), other) == if other == lba then data else Reads(d, other)
  {
    var d' := Issued(d, lba, data, true);
    assert d'.unflushed[..|d.unflushed|] == d.unflushed;
  }

  // ----- The payload writer -----

  function Joined(pieces: seq<seq<byte>>): seq<byte>
    decreases |pieces|
  {
    if pieces == [] then [] else Joined(pieces[..|pieces| - 1]) + pieces[|pieces| - 1]
  }

  lemma {:induction false} JoinedGrows(pieces: seq<seq<byte>>, i: nat)
    requires i <= |pieces|
    ensures |Joined(pieces[..i])| <= |Joined(pieces)|
    decreases |pieces|
  {
    if i < |pieces| {
      var n := |pieces| - 1;
      JoinedGrows(pieces[..n], i);
      assert pieces[..n][..i] == pieces[..i];
    } else {
      assert pieces[..i] == pieces;
    }
  }

  lemma JoinedOne(payload: seq<byte>)
    ensures Joined([payload]) == payload
  {
    assert [payload][..0] == [];
  }

  /** struct writer */
  class Writer {
    const lba: nat
    var sectors: nat
    var length: nat
    var checksum: bv32
    var fill: nat
    const sector: array<byte>
    ghost var written: seq<byte>

    constructor (lba: nat)
      ensures this.lba == lba && fresh(sector) && sector.Length == 512
      ensures sectors == 0 && fill == 0 && Counted([])
    {
      this.lba := lba;
      sectors, length, fill, checksum, written := 0, 0, 0, 0xffff_ffff, [];
      sector := new byte[512](_ => 0);
    }

    /** Of the first n bytes, those not in whole sectors are in the buffer. */
    ghost predicate Holds(bytes: seq<byte>, n: nat)
      reads this, sector
    {
      && sector.Length == 512 && fill <= 512 && 512 * sectors + fill == n <= |bytes|
      && sector[..fill] == bytes[512 * sectors..n]
    }

    /** All counted bytes are bytes. */
    ghost predicate Counted(bytes: seq<byte>)
      reads this
    {
      length == |bytes| && checksum == CrcMore(0xffff_ffff, bytes) && written == bytes
    }

    ghost predicate Valid(cap: nat)
      reads this, sector
    {
      Counted(written) && length <= cap && Holds(written, length) && fill < 512
    }

    /** Fills the buffer from data[at..], the bytes from n on. */
    method Fill(data: seq<byte>, at: nat, ghost bytes: seq<byte>, ghost n: nat) returns (part: nat)
      requires Holds(bytes, n) && fill < 512 && at < |data| && n + (|data| - at) == |bytes| && bytes[n..] == data[at..]
      modifies this`fill, sector
      ensures 0 < part <= |data| - at && Holds(bytes, n + part) && (fill < 512 ==> part == |data| - at)
    {
      part := Min(|data| - at, 512 - fill);
      ghost var held := sector[..fill];
      forall k | 0 <= k < part { sector[fill + k] := data[at + k]; }
      assert sector[..fill + part] == held + data[at..at + part];
      assert data[at..at + part] == data[at..][..part] == bytes[n..][..part] == bytes[n..n + part];
      assert bytes[512 * sectors..n + part] == bytes[512 * sectors..n] + bytes[n..n + part];
      fill := fill + part;
    }
  }

  /** The first count sectors after lba hold the start of bytes. */
  ghost predicate Stored(d: Disk, lba: nat, bytes: seq<byte>, count: nat) {
    512 * count <= |bytes|
    && forall i: nat :: i < count ==> Reads(d, lba + 1 + i) == bytes[512 * i..512 * i + 512]
  }

  lemma StoredNext(d: Disk, lba: nat, bytes: seq<byte>, count: nat, data: Sector)
    requires Stored(d, lba, bytes, count) && 512 * count + 512 <= |bytes|
    requires data == bytes[512 * count..512 * count + 512]
    ensures Stored(Issued(d, lba + 1 + count, data, true), lba, bytes, count + 1)
  {
    hide Reads, Issued;
    var d' := Issued(d, lba + 1 + count, data, true);
    forall i: nat | i < count + 1 ensures Reads(d', lba + 1 + i) == bytes[512 * i..512 * i + 512] {
      ReadsIssued(d, lba + 1 + count, data, lba + 1 + i);
    }
  }

  lemma StoredMore(d: Disk, lba: nat, bytes: seq<byte>, more: seq<byte>, count: nat)
    requires Stored(d, lba, bytes, count)
    ensures Stored(d, lba, bytes + more, count)
  {
    hide Reads;
    forall i: nat | i < count ensures Reads(d, lba + 1 + i) == (bytes + more)[512 * i..512 * i + 512] {
      assert (bytes + more)[512 * i..512 * i + 512] == bytes[512 * i..512 * i + 512];
    }
  }

  /** After the padded last sector the whole payload is on the disk. */
  ghost predicate WholePayload(d: Disk, lba: nat, payload: seq<byte>) {
    forall i: nat :: i * 512 < |payload| ==> Reads(d, lba + 1 + i) == Block(payload, i)
  }

  lemma WholePayloadReads(d: Disk, lba: nat, payload: seq<byte>)
    requires WholePayload(d, lba, payload)
    ensures forall i: nat :: i * 512 < |payload| ==>
              At(Latest(d.durable, d.unflushed), lba + 1 + i) == Block(payload, i)
  {
    hide Block, Latest;
    forall i: nat | i * 512 < |payload| ensures At(Latest(d.durable, d.unflushed), lba + 1 + i) == Block(payload, i) {
      assert Reads(d, lba + 1 + i) == Block(payload, i);
    }
  }

  lemma StoredAll(d: Disk, lba: nat, bytes: seq<byte>, count: nat)
    requires Stored(d, lba, bytes, count) && 512 * count == |bytes|
    ensures WholePayload(d, lba, bytes)
  {
    hide Reads;
    forall i: nat | i * 512 < |bytes| ensures Reads(d, lba + 1 + i) == Block(bytes, i) {
      assert i < count && Reads(d, lba + 1 + i) == bytes[512 * i..512 * i + 512];
    }
  }

  lemma StoredLast(d: Disk, lba: nat, bytes: seq<byte>, count: nat, data: Sector)
    requires Stored(d, lba, bytes, count) && 512 * count < |bytes| < 512 * count + 512 && data == Block(bytes, count)
    ensures WholePayload(Issued(d, lba + 1 + count, data, true), lba, bytes)
  {
    hide Reads, Issued;
    var d' := Issued(d, lba + 1 + count, data, true);
    forall i: nat | i * 512 < |bytes| ensures Reads(d', lba + 1 + i) == Block(bytes, i) {
      ReadsIssued(d, lba + 1 + count, data, lba + 1 + i);
      if i < count { assert Reads(d, lba + 1 + i) == bytes[512 * i..512 * i + 512]; }
    }
  }

  lemma DegradedSame(d: Disk)
    ensures Degraded(d, d)
  {
  }

  /** Sector i of a payload holds some of the length bytes from offset on. */
  predicate Touched(offset: nat, length: nat, i: nat) {
    length > 0 && offset < 512 * i + 512 && 512 * i < offset + length
  }

  lemma TouchedNext(offset: nat, at: nat, next: nat, length: nat)
    requires at < next <= length && (offset + at) % 512 + (next - at) <= 512 && (at > 0 ==> (offset + at) % 512 == 0)
    ensures forall i: nat :: Touched(offset, next, i) ==> Touched(offset, at, i) || i == (offset + at) / 512
    ensures Touched(offset, length, (offset + at) / 512)
  {
  }

  lemma TouchedNone(offset: nat)
    ensures forall i: nat :: !Touched(offset, 0, i)
  {
  }

  lemma CrcMoreEmpty(state: bv32)
    ensures CrcMore(state, []) == state
  {
  }

  lemma PayloadNext(v: Volume, image: Image, slot: int, off: nat, part: seq<byte>)
    requires off % 512 == 0 && |part| <= 512 && part == At(image, SlotLba(v, slot) + 1 + off / 512)[..|part|]
    ensures PayloadAt(v, image, slot, off + |part|) == PayloadAt(v, image, slot, off) + part
  {
    var r := PayloadAt(v, image, slot, off + |part|);
    forall k | 0 <= k < off + |part| ensures r[k] == (PayloadAt(v, image, slot, off) + part)[k] {
      if k >= off { assert k / 512 == off / 512 && k % 512 == k - off; }
    }
  }

  // ----- A volume -----

  /** Extending a run. */
  lemma RunExtends(v: Volume, log: seq<Machine>, m: Machine)
    requires VolumeOk(v) && FaultyRun(v, log) && FaultyStep(v, log[|log| - 1], m)
    ensures FaultyRun(v, log + [m]) && Inv(v, m)
  {
    hide Inv, FaultyStep, Formatted;
    RunInv(v, log, |log| - 1);
    StepKeeps(v, log[|log| - 1], m);
  }

  /** No sector outside the slots can hold anything new. */
  ghost predicate DataKept(v: Volume, d: Disk, d': Disk) {
    forall lba: nat, x :: Outside(v, lba) && Possible(d', lba, x) ==> Possible(d, lba, x)
  }

  /** What was written outside the slots before is durable now. */
  ghost predicate DataDurable(v: Volume, d: Disk, d': Disk) {
    forall lba: nat :: Outside(v, lba) ==> Settled(d', lba, Reads(d, lba))
  }

  lemma DurableKept(v: Volume, d0: Disk, d: Disk, d': Disk)
    requires DataDurable(v, d0, d) && DataKept(v, d, d')
    ensures DataDurable(v, d0, d')
  {
    hide Possible, Reads;
  }

  /** The old header has been erased and flushed. */
  lemma ErasedDurable(v: Volume, d: Disk, lba: nat)
    requires !Outside(v, lba)
    ensures DataDurable(v, d, Flushed(Issued(d, lba, BLANK, true)))
  {
    hide Issued, Flushed, Latest, Settled;
    var d' := Issued(d, lba, BLANK, true);
    forall other: nat | Outside(v, other) ensures Settled(Flushed(d'), other, Reads(d, other)) {
      ReadsIssued(d, lba, BLANK, other);
      FlushSettles(d', other);
    }
  }

  lemma IssuedKeepsData(v: Volume, d: Disk, lba: nat, data: Sector, applied: bool)
    requires !Outside(v, lba)
    ensures DataKept(v, d, Issued(d, lba, data, applied))
  {
    hide Issued, Possible;
    forall other: nat, x | Outside(v, other) && Possible(Issued(d, lba, data, applied), other, x)
      ensures Possible(d, other, x)
    {
      IssueElsewhere(d, lba, data, applied, other, x);
    }
  }

  lemma DegradedKeepsData(v: Volume, d: Disk, d': Disk)
    requires Degraded(d, d')
    ensures DataKept(v, d, d')
  {
    hide Possible;
  }

  /** What the kernel remembers of a volume is unchanged, as is the file data; the other slot may be lost. */
  ghost predicate Working(v: Volume, m: Machine, m': Machine) {
    && m'.active == m.active && m'.generation == m.generation && m'.committed == m.committed
    && m'.attempts >= m.attempts
    && (m'.candidate == None || m'.candidate == m.candidate) && DataKept(v, m.disk, m'.disk)
  }

  /** The run went on like that. */
  ghost predicate Continues(v: Volume, log: seq<Machine>, log': seq<Machine>) {
    && log != [] && log <= log'
    && forall k :: |log| - 1 <= k < |log'| ==> Working(v, log[|log| - 1], log'[k])
  }

  lemma ContinuesSame(v: Volume, log: seq<Machine>)
    requires log != []
    ensures Continues(v, log, log)
  {
    hide Possible;
  }

  lemma ContinuesOne(v: Volume, log: seq<Machine>, m: Machine)
    requires log != [] && Working(v, log[|log| - 1], m)
    ensures Continues(v, log, log + [m])
  {
    hide Possible;
  }

  lemma ContinuesOn(v: Volume, log0: seq<Machine>, log1: seq<Machine>, log2: seq<Machine>)
    requires Continues(v, log0, log1) && Continues(v, log1, log2)
    ensures Continues(v, log0, log2)
  {
    hide Possible;
    forall k | |log0| - 1 <= k < |log2| ensures Working(v, log0[|log0| - 1], log2[k]) {
      assert Working(v, log0[|log0| - 1], log1[|log1| - 1]);
      if k < |log1| { assert log2[k] == log1[k]; } else { assert Working(v, log1[|log1| - 1], log2[k]); }
    }
  }

  lemma ContinuesMeans(v: Volume, log: seq<Machine>, log': seq<Machine>)
    requires Continues(v, log, log')
    ensures log != [] && log <= log' && Working(v, log[|log| - 1], log'[|log'| - 1])
  {
    hide Working;
  }

  lemma SameCommitted(v: Volume, m: Machine, m': Machine)
    requires Working(v, m, m')
    ensures m'.committed == m.committed
  {
    hide DataKept;
  }

  /** A point of a commit of this payload: before its header is written nothing else can be restored than before,
      and when it is, all file data written before the commit is durable. */
  ghost predicate CommitPoint(v: Volume, m: Machine, m': Machine, payload: seq<byte>) {
    && DataKept(v, m.disk, m'.disk)
    && (|| (m'.committed == m.committed && (m'.candidate == None || m'.candidate == m.candidate))
        || (DataDurable(v, m.disk, m'.disk) && m'.committed == m.committed && m'.candidate.Some?
            && m'.candidate.value.payload == payload)
        || (DataDurable(v, m.disk, m'.disk) && m'.candidate == m.committed && m'.committed.Some?
            && m'.committed.value.payload == payload))
  }

  /** ... and so for all machines added to the run. */
  ghost predicate Committing(v: Volume, log: seq<Machine>, log': seq<Machine>, payload: seq<byte>) {
    && log != [] && log <= log'
    && forall k :: |log| - 1 <= k < |log'| ==> CommitPoint(v, log[|log| - 1], log'[k], payload)
  }

  lemma ContinuesCommitting(v: Volume, log: seq<Machine>, log': seq<Machine>, payload: seq<byte>)
    requires Continues(v, log, log')
    ensures Committing(v, log, log', payload)
  {
    hide DataKept, DataDurable;
    forall k | |log| - 1 <= k < |log'| ensures CommitPoint(v, log[|log| - 1], log'[k], payload) {
      assert Working(v, log[|log| - 1], log'[k]);
    }
  }

  lemma CommittingOne(v: Volume, log0: seq<Machine>, log: seq<Machine>, m: Machine, payload: seq<byte>)
    requires Committing(v, log0, log, payload) && CommitPoint(v, log0[|log0| - 1], m, payload)
    ensures Committing(v, log0, log + [m], payload)
  {
    hide CommitPoint;
    var log' := log + [m];
    forall k | |log0| - 1 <= k < |log'| ensures CommitPoint(v, log0[|log0| - 1], log'[k], payload) {
      assert k < |log| ==> log'[k] == log[k];
    }
  }

  lemma DataKeptOn(v: Volume, d0: Disk, d1: Disk, d2: Disk)
    requires DataKept(v, d0, d1) && DataKept(v, d1, d2)
    ensures DataKept(v, d0, d2)
  {
    hide Possible;
  }

  lemma DurableSelf(v: Volume, d0: Disk, d: Disk)
    requires DataDurable(v, d0, d)
    ensures DataDurable(v, d, d)
  {
    hide Possible;
    forall lba: nat | Outside(v, lba)
      ensures Settled(d, lba, Reads(d, lba)) { LatestIsPossible(d.durable, d.unflushed, lba); }
  }

  /** The commit ends after a failure while its header was written. */
  lemma CommittingGivenUp(v: Volume, log0: seq<Machine>, log1: seq<Machine>, log2: seq<Machine>, payload: seq<byte>)
    requires Committing(v, log0, log1, payload) && Continues(v, log1, log2) && |log2| == |log1| + 1
    requires log2[|log2| - 1].candidate == log1[|log1| - 1].candidate
    ensures Committing(v, log0, log2, payload)
  {
    hide DataKept, DataDurable;
    var m0, m1, m2 := log0[|log0| - 1], log1[|log1| - 1], log2[|log2| - 1];
    assert Working(v, m1, m2) && CommitPoint(v, m0, m1, payload);
    DataKeptOn(v, m0.disk, m1.disk, m2.disk);
    if DataDurable(v, m0.disk, m1.disk) { DurableKept(v, m0.disk, m1.disk, m2.disk); }
    assert log2 == log1 + [m2];
    CommittingOne(v, log0, log1, m2, payload);
  }

  /** The points at which the header is written, after all else. */
  lemma CommittingOn(v: Volume, log0: seq<Machine>, log1: seq<Machine>, log2: seq<Machine>, payload: seq<byte>)
    requires Continues(v, log0, log1) && Committing(v, log1, log2, payload)
    requires DataDurable(v, log0[|log0| - 1].disk, log1[|log1| - 1].disk)
    ensures Committing(v, log0, log2, payload)
  {
    hide Possible, Settled;
    var m := log0[|log0| - 1];
    forall k | |log0| - 1 <= k < |log2| ensures CommitPoint(v, m, log2[k], payload) {
      assert Working(v, m, log1[|log1| - 1]);
      if k < |log1| {
        assert log2[k] == log1[k] && Working(v, m, log1[k]);
      } else {
        assert CommitPoint(v, log1[|log1| - 1], log2[k], payload);
        DurableKept(v, m.disk, log1[|log1| - 1].disk, log2[k].disk);
      }
    }
  }

  class VolumeState {
    const v: Volume
    var disk: Disk
    var activeSlot: int
    var generation: u32
    var restoreError: Outcome
    /** The run so far; its last machine is the present one. */
    ghost var log: seq<Machine>

    ghost function Now(): Machine
      reads this
      requires log != []
    {
      log[|log| - 1]
    }

    ghost predicate Valid()
      reads this
    {
      && VolumeOk(v) && log != [] && FaultyRun(v, log) && Inv(v, Now()) && Now().disk == disk
      && (restoreError == Good ==> Now().active == activeSlot && Now().generation == generation)
    }

    /** A volume as it leaves the formatter. */
    constructor (v: Volume, image: Image)
      requires VolumeOk(v) && HeaderAt(v, image, 0) == BLANK && HeaderAt(v, image, 1) == BLANK
      ensures this.v == v && Valid() && restoreError == Good && activeSlot == -1 && disk == Disk(image, [])
    {
      this.v := v;
      disk := Disk(image, []);
      activeSlot, generation, restoreError := -1, 0, Good;
      log := [Machine(Disk(image, []), -1, 0, Idle, None, None, 0)];
      new;
      FormattedInv(v, log[0]);
    }

    /** disk_volume_write(); a failing write may still reach the disk.  A reliable disk does not fail. */
    method Write(reliable: bool, lba: nat, data: Sector) returns (ok: bool, ghost applied: bool)
      modifies this`disk
      ensures disk == Issued(old(disk), lba, data, applied) && (ok ==> applied) && (reliable ==> ok)
    {
      ok := *;
      ok := ok || reliable;
      var reached: bool := *;
      if ok { reached := true; }
      applied := reached;
      disk := Issued(disk, lba, data, reached);
    }

    /** disk_flush(); a failing flush may have done all, some or nothing of its work, or lose writes. */
    method Flush(reliable: bool) returns (ok: bool)
      modifies this`disk
      ensures ok ==> disk == Flushed(old(disk))
      ensures reliable ==> ok
      ensures !ok ==> Degraded(old(disk), disk)
    {
      ok := *;
      ok := ok || reliable;
      var all: bool := *;
      if ok || all {
        FlushDegrades(disk);
        disk := Flushed(disk);
      } else {
        var keep: seq<bool> := *;
        KeptDegrades(disk, keep);
        disk := Disk(disk.durable, Kept(disk.unflushed, keep));
      }
    }

    ghost method Record(m: Machine)
      requires VolumeOk(v) && FaultyRun(v, log) && FaultyStep(v, Now(), m) && m.disk == disk
      requires restoreError == Good ==> m.active == activeSlot && m.generation == generation
      modifies this`log
      ensures Valid() && log == old(log) + [m]
    {
      RunExtends(v, log, m);
      log := log + [m];
    }

    /** The payload of the inactive slot is being written. */
    ghost predicate WritingTo(lba: nat)
      reads this
    {
      log != [] && VolumeOk(v) && Valid() && Now().phase == Writing && lba == SlotLba(v, Inactive(Now().active))
    }

    method WriteSector(reliable: bool, w: Writer, data: Sector) returns (ok: bool)
      requires WritingTo(w.lba) && w.sectors + 1 < v.sectors
      modifies this`disk, this`log
      ensures WritingTo(w.lba) && Continues(v, old(log), log)
      ensures ok ==> disk == Issued(old(disk), w.lba + 1 + w.sectors, data, true)
      ensures reliable ==> ok
    {
      hide Inv, Issued, Latest, FaultyRun, CrashImage, Reboot, FaultyReboot;
      ghost var applied;
      ghost var m := Now();
      ok, applied := Write(reliable, w.lba + 1 + w.sectors, data);
      assert PayloadWrite(v, m, m.(disk := disk));
      IssuedKeepsData(v, m.disk, w.lba + 1 + w.sectors, data, applied);
      ContinuesOne(v, log, m.(disk := disk));
      Record(m.(disk := disk));
    }

    method WriteFull(reliable: bool, w: Writer, ghost bytes: seq<byte>, ghost n: nat) returns (ok: bool)
      requires WritingTo(w.lba) && w.Holds(bytes, n) && w.fill == 512 && n <= v.cap
      requires Stored(disk, w.lba, bytes, w.sectors)
      modifies this`disk, this`log, w`sectors, w`fill
      ensures WritingTo(w.lba) && Continues(v, old(log), log)
      ensures ok ==> w.fill == 0 && w.Holds(bytes, n) && Stored(disk, w.lba, bytes, w.sectors)
      ensures reliable ==> ok
    {
      hide FaultyRun, Inv, Issued, Reads, Latest, PayloadWrite;
      var full: Sector := w.sector[..];
      assert full == bytes[512 * w.sectors..512 * w.sectors + 512];
      StoredNext(disk, w.lba, bytes, w.sectors, full);
      ok := WriteSector(reliable, w, full);
      if ok { w.sectors, w.fill := w.sectors + 1, 0; }
    }

    /** write_payload() */
    method WritePayload(reliable: bool, w: Writer, data: seq<byte>) returns (r: Outcome)
      requires WritingTo(w.lba) && w.Valid(v.cap) && Stored(disk, w.lba, w.written, w.sectors)
      modifies this`disk, this`log, w, w.sector
      ensures WritingTo(w.lba) && Continues(v, old(log), log)
      ensures r == NoSpace <==> old(w.length) + |data| > v.cap
      ensures r == Good ==>
                w.Valid(v.cap) && Stored(disk, w.lba, w.written, w.sectors) && w.written == old(w.written) + data
      ensures r == Good || (r == Bad && !reliable) || (r == NoSpace && disk == old(disk) && log == old(log))
    {
      hide FaultyRun, Inv, Issued, Reads, Latest, CrcMore, PayloadWrite, Stored, Formatted, Valid;
      if w.length > v.cap || |data| > v.cap - w.length { return NoSpace; }
      CrcMoreAppend(0xffff_ffff, w.written, data);
      w.checksum := CrcMore(w.checksum, data);
      w.length := w.length + |data|;
      w.written := w.written + data;
      ghost var bytes := w.written;
      ghost var before := |old(w.written)|;
      StoredMore(disk, w.lba, old(w.written), data, w.sectors);
      var at := 0;
      while at < |data|
        invariant at <= |data| && w.fill < 512 && w.Counted(bytes)
        invariant w.Holds(bytes, before + at)
        invariant WritingTo(w.lba) && Continues(v, old(log), log)
        invariant Stored(disk, w.lba, bytes, w.sectors)
        modifies this`disk, this`log, w`fill, w`sectors, w.sector
      {
        var part := w.Fill(data, at, bytes, before + at);
        at := at + part;
        if w.fill == 512 {
          var ok := WriteFull(reliable, w, bytes, before + at);
          if !ok { return Bad; }
        }
      }
      r := Good;
    }

    // ----- sync_one -----

    /** No commit is under way. */
    ghost predicate Ready()
      reads this
    {
      log != [] && Valid() && Now().phase == Idle
    }

    /** The payload is durable and its header is being written. */
    ghost predicate SealingTo(lba: nat, payload: seq<byte>)
      reads this
    {
      && log != [] && Valid() && restoreError == Good && lba == SlotLba(v, Inactive(activeSlot))
      && |payload| < 0x1_0000_0000
      && Now().phase == Sealing(Saved(NextGeneration(generation), payload, Now().attempts))
    }

    /** An operation failed; before is the disk at the last recorded step. */
    ghost method GiveUp(before: Disk)
      requires log != [] && VolumeOk(v) && FaultyRun(v, log) && Now().disk == before && Degraded(before, disk)
      requires restoreError == Good && Now().active == activeSlot && Now().generation == generation
      modifies this`log
      ensures Ready() && Continues(v, old(log), log) && |log| == |old(log)| + 1
      ensures Now().candidate == old(Now().candidate)
    {
      hide FaultyRun, Degraded, Inv;
      var m := Now().(disk := disk, phase := Idle);
      assert Step(v, Now(), m) by { assert Abort(Now(), m); }
      DegradedKeepsData(v, before, disk);
      ContinuesOne(v, log, m);
      Record(m);
    }

    ghost method Abandon(lba: nat)
      requires WritingTo(lba) && restoreError == Good
      modifies this`log
      ensures Ready() && Continues(v, old(log), log)
    {
      hide FaultyRun, Degraded, Inv;
      DegradedSame(disk);
      GiveUp(disk);
    }

    /** Writing zeros over the old header of the inactive slot. */
    method EraseHeader(reliable: bool, lba: nat) returns (ok: bool)
      requires Ready() && restoreError == Good && lba == SlotLba(v, Inactive(activeSlot))
      modifies this`disk, this`log
      ensures Continues(v, old(log), log) && (ok ==> DataDurable(v, old(disk), disk))
      ensures if ok then WritingTo(lba) else Ready()
      ensures reliable ==> ok
    {
      hide FaultyRun, Degraded, Inv, Latest, Issued, Flushed, Reboot, FaultyReboot, Continues, DataKept, DataDurable;
      ghost var applied;
      ghost var m, d, log0 := Now(), disk, log;
      ok, applied := Write(reliable, lba, BLANK);
      assert BeginErase(v, m, m.(disk := disk, phase := Erasing));
      assert lba == SlotLba(v, Inactive(activeSlot)) && !Outside(v, lba);
      IssuedKeepsData(v, d, lba, BLANK, applied);
      ContinuesOne(v, log, m.(disk := disk, phase := Erasing));
      Record(m.(disk := disk, phase := Erasing));
      ghost var log1 := log;
      if !ok {
        DegradedSame(disk);
        GiveUp(disk);
        ContinuesOn(v, log0, log1, log);
        return;
      }
      ReadsIssued(d, lba, BLANK, lba);
      ErasedDurable(v, d, lba);
      d := disk;
      ok := Flush(reliable);
      if !ok {
        GiveUp(d);
        ContinuesOn(v, log0, log1, log);
        return;
      }
      m := Now();
      assert EraseFlushed(v, m, m.(disk := disk, phase := Writing, candidate := None));
      FlushDegrades(d);
      DegradedKeepsData(v, d, disk);
      ContinuesOne(v, log1, m.(disk := disk, phase := Writing, candidate := None));
      Record(m.(disk := disk, phase := Writing, candidate := None));
      ContinuesOn(v, log0, log1, log);
    }

    /** The last, padded sector of the payload. */
    method FinishPayload(reliable: bool, w: Writer) returns (ok: bool)
      requires WritingTo(w.lba) && w.Valid(v.cap) && Stored(disk, w.lba, w.written, w.sectors)
      modifies this`disk, this`log, w.sector
      ensures WritingTo(w.lba) && Continues(v, old(log), log)
      ensures ok ==> WholePayload(disk, w.lba, w.written)
      ensures reliable ==> ok
    {
      hide FaultyRun, Inv, Issued, Reads, Latest, CrcMore, PayloadWrite, Stored, Formatted, Valid;
      if w.fill > 0 {
        ghost var held := w.sector[..w.fill];
        forall k | w.fill <= k < 512 { w.sector[k] := 0; }
        var last: Sector := w.sector[..];
        assert last == held + Zeros(512 - w.fill);
        assert last == Block(w.written, w.sectors);
        ghost var d := disk;
        ok := WriteSector(reliable, w, last);
        if ok { StoredLast(d, w.lba, w.written, w.sectors, last); }
      } else {
        StoredAll(disk, w.lba, w.written, w.sectors);
        ok := true;
      }
    }

    method FlushPayload(reliable: bool, lba: nat, ghost payload: seq<byte>) returns (ok: bool)
      requires WritingTo(lba) && restoreError == Good && WholePayload(disk, lba, payload) && Fits(v, payload)
      modifies this`disk, this`log
      ensures Continues(v, old(log), log) && (ok ==> Now().attempts > old(Now().attempts))
      ensures if ok then SealingTo(lba, payload) else Ready()
      ensures reliable ==> ok
    {
      hide FaultyRun, Degraded, Inv, Latest, Issued, Flushed, Reboot, FaultyReboot, Block;
      ghost var m, d := Now(), disk;
      ok := Flush(reliable);
      if !ok { GiveUp(d); return; }
      ghost var s := Saved(NextGeneration(generation), payload, m.attempts + 1);
      ghost var m' := m.(disk := disk, phase := Sealing(s), attempts := m.attempts + 1);
      assert PayloadFlushed(v, m, m') by { WholePayloadReads(d, lba, payload); }
      FlushDegrades(d);
      DegradedKeepsData(v, d, disk);
      ContinuesOne(v, log, m');
      Record(m');
    }

    /** The header, which makes the snapshot count. */
    method WriteHeader(reliable: bool, lba: nat, header: Sector, ghost payload: seq<byte>) returns (ok: bool)
      requires SealingTo(lba, payload)
      requires header == Header(v.version, NextGeneration(generation), |payload|, Crc32(payload))
      requires DataDurable(v, disk, disk)
      modifies this`disk, this`log, this`activeSlot, this`generation
      ensures Ready() && Committing(v, old(log), log, payload) && (reliable ==> ok)
      ensures !ok ==>
                && Now().committed == old(Now().committed) && activeSlot == old(activeSlot)
                && generation == old(generation)
      ensures ok ==> activeSlot == Inactive(old(activeSlot)) && generation == NextGeneration(old(generation))
                     && Now().committed == Some(old(Now().phase.saved)) && Now().candidate == old(Now().committed)
                     && DataKept(v, old(disk), disk)
    {
      hide FaultyRun, Degraded, Inv, Latest, Issued, Flushed, Reboot, FaultyReboot, Header, Crc32, Continues,
        Committing, DataKept, DataDurable;
      ghost var applied;
      ghost var m, d, log0, d0 := Now(), disk, log, disk;
      ok, applied := Write(reliable, lba, header);
      assert lba == SlotLba(v, Inactive(activeSlot)) && !Outside(v, lba);
      IssuedKeepsData(v, d, lba, header, applied);
      DurableKept(v, d, d, disk);
      ContinuesSame(v, log);
      ContinuesCommitting(v, log, log, payload);
      CommittingOne(v, log, log, m.(disk := disk, candidate := Some(m.phase.saved)), payload);
      assert header == HeaderOf(v, m.phase.saved);
      assert StoreProtocol.WriteHeader(v, m, m.(disk := disk, candidate := Some(m.phase.saved)));
      Record(m.(disk := disk, candidate := Some(m.phase.saved)));
      ghost var log1, d1 := log, disk;
      if !ok {
        DegradedSame(disk);
        GiveUp(disk);
        ContinuesMeans(v, log1, log);
        CommittingGivenUp(v, log0, log1, log, payload);
        return;
      }
      ReadsIssued(d, lba, header, lba);
      d := disk;
      ok := Flush(reliable);
      if !ok {
        GiveUp(d);
        ContinuesMeans(v, log1, log);
        CommittingGivenUp(v, log0, log1, log, payload);
        return;
      }
      FlushDegrades(d);
      DegradedKeepsData(v, d, disk);
      DataKeptOn(v, d0, d, disk);
      DurableKept(v, d0, d, disk);
      m := Now();
      activeSlot := if activeSlot == 0 then 1 else 0;
      generation := NextGeneration(generation);
      ghost var m' := m.(disk := disk, active := activeSlot, generation := generation, phase := Idle,
                         committed := Some(m.phase.saved), candidate := m.committed);
      assert Commit(v, m, m');
      CommittingOne(v, log0, log, m', payload);
      Record(m');
    }

    /** fs_export_stream() handing its pieces to write_payload. */
    method ExportTo(reliable: bool, w: Writer, pieces: seq<seq<byte>>) returns (r: Outcome)
      requires WritingTo(w.lba) && w.Counted([]) && w.fill == 0 && w.sector.Length == 512 && w.written == []
      requires w.sectors == 0
      modifies this`disk, this`log, w, w.sector
      ensures WritingTo(w.lba) && Continues(v, old(log), log)
      ensures r == Good ==> w.Valid(v.cap) && Stored(disk, w.lba, w.written, w.sectors) && w.written == Joined(pieces)
      ensures r == NoSpace ==> |Joined(pieces)| > v.cap
      ensures r == Good || r == NoSpace || (r == Bad && !reliable)
    {
      hide FaultyRun, Inv, Issued, Latest, CrcMore, Reads, Formatted, Valid;
      assert w.Valid(v.cap) && Joined([]) == [] && pieces[..0] == [];
      for i := 0 to |pieces|
        invariant WritingTo(w.lba) && Continues(v, old(log), log)
        invariant w.Valid(v.cap) && Stored(disk, w.lba, w.written, w.sectors) && w.written == Joined(pieces[..i])
      {
        r := WritePayload(reliable, w, pieces[i]);
        assert pieces[..i + 1][..i] == pieces[..i];
        if r != Good {
          JoinedGrows(pieces, i + 1);
          return;
        }
      }
      assert pieces[..|pieces|] == pieces;
      r := Good;
    }

    /** The exporter, and the last sector after it. */
    method WriteAll(reliable: bool, w: Writer, pieces: seq<seq<byte>>, exported: Outcome) returns (r: Outcome)
      requires WritingTo(w.lba) && w.Counted([]) && w.fill == 0 && w.sector.Length == 512 && w.written == []
      requires w.sectors == 0
      modifies this`disk, this`log, w, w.sector
      ensures WritingTo(w.lba) && Continues(v, old(log), log)
      ensures r == Good ==> exported == Good && w.Counted(Joined(pieces)) && |Joined(pieces)| <= v.cap
      ensures r == Good ==> WholePayload(disk, w.lba, Joined(pieces))
      ensures reliable ==> (r == Good <==> exported == Good && |Joined(pieces)| <= v.cap)
    {
      hide FaultyRun, Inv, Issued, Latest, CrcMore, Reads, Formatted, Valid, Stored, WholePayload, Joined, Continues;
      ghost var log0 := log;
      r := ExportTo(reliable, w, pieces);
      ghost var log1 := log;
      if r == Good { r := exported; }
      if r == Good {
        var ok := FinishPayload(reliable, w);
        ContinuesOn(v, log0, log1, log);
        if !ok { r := Bad; }
      }
    }

    lemma NowIs()
      requires log != [] && Valid()
      ensures VolumeOk(v) && FaultyRun(v, log) && Now().disk == disk
      ensures (Now().committed.Some? ==> Now().committed.value.attempt <= Now().attempts)
    {
      hide FaultyRun, PayloadSettled, Settled, HeaderOf, Possible;
    }

    lemma RoomFor()
      requires Ready()
      ensures 4 <= v.cap
    {
    }

    /** Everything before the header: the old header is erased, the payload written and flushed. */
    method SealPayload(reliable: bool, lba: nat, pieces: seq<seq<byte>>, exported: Outcome) returns (r: Outcome,
        length: nat, checksum: u32)
      requires Ready() && restoreError == Good && lba == SlotLba(v, Inactive(activeSlot))
      requires exported == Good ==> |Joined(pieces)| >= 4 && v.imports(Joined(pieces))
      modifies this`disk, this`log
      ensures Continues(v, old(log), log)
      ensures r != Good ==> Ready()
      ensures r == Good ==> exported == Good && |Joined(pieces)| <= v.cap && SealingTo(lba, Joined(pieces)) && DataDurable(v, old(disk), disk)
                            && length == |Joined(pieces)| && checksum == Crc32(Joined(pieces))
                            && Now().attempts > old(Now().attempts)
      ensures reliable ==> (r == Good <==> exported == Good && |Joined(pieces)| <= v.cap)
    {
      hide FaultyRun, Inv, Issued, Latest, CrcMore, Stored, Formatted, Degraded, Joined, Valid, WholePayload, CrcEnd,
        Continues, DataDurable, DataKept;
      ghost var log0, d0 := log, disk;
      var w := new Writer(lba);
      length, checksum := 0, 0;
      var ok := EraseHeader(reliable, lba);
      if !ok { return Bad, 0, 0; }
      ghost var log1, d1 := log, disk;
      NowIs();
      r := WriteAll(reliable, w, pieces, exported);
      ghost var log2 := log;
      ContinuesOn(v, log0, log1, log2);
      ContinuesMeans(v, log0, log2);
      if r == Good {
        ok := FlushPayload(reliable, lba, Joined(pieces));
        if !ok { r := Bad; }
      } else {
        Abandon(lba);
      }
      NowIs();
      ContinuesOn(v, log1, log2, log);
      ContinuesOn(v, log0, log1, log);
      ContinuesMeans(v, log1, log);
      if r == Good { DurableKept(v, d0, d1, disk); }
      length, checksum := w.length, CrcEnd(w.checksum);
    }

    /** sync_one(): pieces are what the exporter passes to write_payload before it ends with exported. */
    method SyncOne(reliable: bool, pieces: seq<seq<byte>>, exported: Outcome) returns (r: Outcome)
      requires Ready()
      requires exported == Good ==> |Joined(pieces)| >= 4 && v.imports(Joined(pieces))
      modifies this`disk, this`log, this`activeSlot, this`generation
      ensures Ready() && restoreError == old(restoreError) && Committing(v, old(log), log, Joined(pieces))
      ensures old(restoreError) != Good ==> r == restoreError && disk == old(disk) && log == old(log)
      ensures reliable && restoreError == Good ==> (r == Good <==> exported == Good && |Joined(pieces)| <= v.cap)
      ensures exported != Good || |Joined(pieces)| > v.cap ==> Continues(v, old(log), log)
      ensures r != Good ==> activeSlot == old(activeSlot) && generation == old(generation)
                            && Now().committed == old(Now().committed)
      ensures r == Good ==>
                && exported == Good && |Joined(pieces)| <= v.cap && activeSlot == Inactive(old(activeSlot))
                && generation == NextGeneration(old(generation))
                && Now().committed.Some? && Now().committed.value.payload == Joined(pieces)
                && Now().committed.value.generation == generation
                && Now().committed.value.attempt > old(Now().attempts)
      ensures r == Good ==> Now().candidate == old(Now().committed) && DataDurable(v, old(disk), disk)
    {
      hide FaultyRun, Inv, Latest, Formatted, Joined, Valid, Header, Crc32, Continues, Committing, DataDurable,
        Working, DataKept;
      ghost var log0, d0, payload := log, disk, Joined(pieces);
      ContinuesSame(v, log0);
      ContinuesCommitting(v, log0, log0, payload);
      if restoreError != Good { return restoreError; }
      NowIs();
      var slot := if activeSlot == 0 then 1 else 0;
      var lba := SlotLba(v, slot);
      var length, checksum;
      r, length, checksum := SealPayload(reliable, lba, pieces, exported);
      ghost var log1 := log;
      NowIs();
      ContinuesMeans(v, log0, log1);
      ContinuesCommitting(v, log0, log1, payload);
      if r != Good {
        SameCommitted(v, log0[|log0| - 1], log1[|log1| - 1]);
        return;
      }
      DurableSelf(v, d0, disk);
      var header := Header(v.version, (generation + 1) % 0x1_0000_0000, length, checksum);
      ghost var d1 := disk;
      var ok := WriteHeader(reliable, lba, header, payload);
      if ok { DurableKept(v, d0, d1, disk); }
      CommittingOn(v, log0, log1, log, payload);
      SameCommitted(v, log0[|log0| - 1], log1[|log1| - 1]);
      r := if ok then Good else Bad;
    }

    // ----- File data -----

    /** Writing one sector of file data, which may fail. */
    method WriteData(reliable: bool, lba: nat, data: Sector) returns (ok: bool)
      requires Ready() && restoreError == Good && Outside(v, lba)
      modifies this`disk, this`log
      ensures reliable ==> ok
      ensures Ready() && exists applied :: (ok ==> applied) && disk == Issued(old(disk), lba, data, applied)
      ensures log == old(log) + [old(Now()).(disk := disk)]
    {
      hide FaultyRun, Inv, Latest, Formatted, Issued;
      ghost var applied;
      ghost var m := Now();
      ok, applied := Write(reliable, lba, data);
      assert DataWrite(v, m, m.(disk := disk));
      Record(m.(disk := disk));
    }

    // ----- Reading back -----

    /** store_read_bytes(); the sectors in bad cannot be read. */
    method StoreReadBytes(slot: int, offset: nat, dest: array<byte>, bad: set<nat>) returns (r: Outcome)
      modifies dest
      ensures r == Good || r == Bad
      ensures r == Good <==> 0 <= slot <= 1 && offset + dest.Length <= v.cap
                             && forall i: nat :: Touched(offset, dest.Length, i) ==> SlotLba(v, slot) + 1 + i !in bad
      ensures r == Good ==>
                forall k :: 0 <= k < dest.Length ==>
                  dest[k] == PayloadAt(v, Latest(disk.durable, disk.unflushed), slot, v.cap)[offset + k]
    {
      hide Latest, Touched;
      TouchedNone(offset);
      if slot < 0 || slot > 1 || offset > v.cap || dest.Length > v.cap - offset { return Bad; }
      ghost var image := Latest(disk.durable, disk.unflushed);
      var at := 0;
      while at < dest.Length
        invariant at <= dest.Length && (at > 0 && at < dest.Length ==> (offset + at) % 512 == 0)
        invariant forall i: nat :: Touched(offset, at, i) ==> SlotLba(v, slot) + 1 + i !in bad
        invariant forall k :: 0 <= k < at ==>
                    dest[k] == At(image, SlotLba(v, slot) + 1 + (offset + k) / 512)[(offset + k) % 512]
        modifies dest
      {
        var skip := (offset + at) % 512;
        var part := Min(dest.Length - at, 512 - skip);
        var block := (offset + at) / 512;
        var next := at + part;
        TouchedNext(offset, at, next, dest.Length);
        if SlotLba(v, slot) + 1 + block in bad { return Bad; }
        var sector := Reads(disk, SlotLba(v, slot) + 1 + block);
        forall k | 0 <= k < part { dest[at + k] := sector[skip + k]; }
        at := next;
      }
      r := Good;
    }

    /** restore() */
    method Restore(slot: int, header: Sector, bad: set<nat>, importer: seq<byte> -> Outcome) returns (r: Outcome)
      requires header == HeaderAt(v, Latest(disk.durable, disk.unflushed), slot)
      requires ValidHeader(v.version, header, v.cap)
      ensures r == RestoreSlot(v, Latest(disk.durable, disk.unflushed), bad, importer, slot)
    {
      hide Latest, At, CrcMore, ValidHeader, Length, Checksum, CrcEnd, PayloadAt;
      CrcMoreEmpty(0xffff_ffff);
      ghost var image := Latest(disk.durable, disk.unflushed);
      var length: nat := Length(header);
      var checksum: bv32 := 0xffff_ffff;
      var off: nat := 0;
      ghost var bytes, i := [], 0;
      while off < length
        invariant off == 512 * i && off < length + 512
        invariant bytes == PayloadAt(v, image, slot, Min(off, length))
        invariant checksum == CrcMore(0xffff_ffff, bytes)
        invariant forall lba: nat :: SlotLba(v, slot) < lba <= SlotLba(v, slot) + i ==> lba !in bad
        decreases length - off
      {
        var lba := SlotLba(v, slot) + 1 + off / 512;
        if lba in bad { return Bad; }
        var sector := At(Latest(disk.durable, disk.unflushed), lba);
        var part := sector[..Min(512, length - off)];
        checksum := CrcMore(checksum, part);
        CrcMoreAppend(0xffff_ffff, bytes, part);
        PayloadNext(v, image, slot, off, part);
        bytes := bytes + part;
        off, i := off + 512, i + 1;
      }
      if CrcEnd(checksum) != Checksum(header) { return Bad; }
      r := importer(PayloadAt(v, Latest(disk.durable, disk.unflushed), slot, length));
    }

    /** store_init() for one volume. */
    method StoreInit(bad: set<nat>, importer: seq<byte> -> Outcome)
      modifies this`activeSlot, this`generation, this`restoreError
      ensures Mounted(activeSlot, generation, restoreError) ==
              Mount(v, Latest(disk.durable, disk.unflushed), bad, importer)
    {
      hide Latest, ValidHeader, RestoreSlot, Generation, Newer;
      activeSlot, generation, restoreError := -1, 0, Good;
      ghost var image := Latest(disk.durable, disk.unflushed);
      BlankIsInvalid(v.version, v.cap);
      var h0, h1 := Reads(disk, v.lba0), Reads(disk, v.lba1);
      var valid0 := v.lba0 !in bad && ValidHeader(v.version, h0, v.cap);
      var valid1 := v.lba1 !in bad && ValidHeader(v.version, h1, v.cap);
      var blank := v.lba0 !in bad && h0 == BLANK && v.lba1 !in bad && h1 == BLANK;
      BlankBoth(v, image, bad);
      var first := if valid1 && (!valid0 || Newer(Generation(h1), Generation(h0))) then 1 else 0;
      var done := false;
      for k := 0 to 2
        invariant !done ==> activeSlot == -1 && generation == 0 && restoreError == Good
        invariant !done && k > 0 ==> TrySlot(v, image, bad, importer, first) == Bad
        invariant !done && k > 1 ==> TrySlot(v, image, bad, importer, 1 - first) == Bad
        invariant done ==> Mounted(activeSlot, generation, restoreError) == Mount(v, image, bad, importer)
                           && (activeSlot >= 0 || restoreError != Good)
      {
        var i := if k == 0 then first else 1 - first;
        if !done && (if i == 0 then valid0 else valid1) {
          var h := if i == 0 then h0 else h1;
          var result := Restore(i, h, bad, importer);
          if result == Good {
            activeSlot, generation, done := i, Generation(h), true;
          } else if Exhausted(result) {
            restoreError, done := result, true;
          }
        }
      }
      if activeSlot < 0 && !blank && restoreError == Good { restoreError := Bad; }
    }

    /** Power is lost, keeping some of the unflushed writes, and the kernel starts again. */
    method Restart(keep: seq<bool>, bad: set<nat>, importer: seq<byte> -> Outcome)
      requires log != [] && Valid()
      requires |keep| == |disk.unflushed| && Importer(v, importer)
      modifies this`disk, this`log, this`activeSlot, this`generation, this`restoreError
      ensures Ready() && old(log) <= log
      ensures disk == Disk(Survived(old(disk.durable), old(disk.unflushed), keep), [])
      ensures Mounted(activeSlot, generation, restoreError) == Mount(v, disk.durable, bad, importer)
      ensures bad == {} && (forall p :: !Exhausted(importer(p))) && restoreError == Good ==> Step(v, old(Now()), Now())
      ensures restoreError != Good ==> Now().committed == old(Now().committed)
      ensures restoreError == Good ==> Now() == Rebooted(v, old(Now()), disk.durable, activeSlot)
    {
      hide Survived, FaultyRun, Inv, Mount, Importer, RestoredSlot, HeaderAt, Restorable, Generation, Degraded;
      var image := Survived(disk.durable, disk.unflushed, keep);
      ghost var d, m := disk, Now();
      assert CrashImage(d, image);
      CrashDegrades(d, image);
      disk := Disk(image, []);
      assert Latest(disk.durable, disk.unflushed) == image;
      StoreInit(bad, importer);
      ghost var next :=
        if restoreError == Good then Rebooted(v, m, image, activeSlot) else m.(disk := disk, phase := Idle);
      if restoreError != Good {
        assert Step(v, m, next) by { assert Abort(m, next); }
      } else {
        RestartSteps(v, m, image, bad, importer);
      }
      Record(next);
    }
  }

  lemma BlankBoth(v: Volume, image: Image, bad: set<nat>)
    ensures BlankVolume(v, image, bad) <==>
              && v.lba0 !in bad && HeaderAt(v, image, 0) == BLANK && v.lba1 !in bad && HeaderAt(v, image, 1) == BLANK
  {
    hide At;
    assert SlotLba(v, 0) == v.lba0 && SlotLba(v, 1) == v.lba1;
  }

  /** A start that leaves writing enabled is a step of the machine. */
  lemma RestartSteps(v: Volume, m: Machine, image: Image, bad: set<nat>, importer: seq<byte> -> Outcome)
    requires CrashImage(m.disk, image) && Importer(v, importer) && Mount(v, image, bad, importer).error == Good
    ensures
      var mounted := Mount(v, image, bad, importer);
      && FaultyStep(v, m, Rebooted(v, m, image, mounted.slot))
      && Rebooted(v, m, image, mounted.slot).active == mounted.slot
      && Rebooted(v, m, image, mounted.slot).generation == mounted.generation
      && (bad == {} && (forall p :: !Exhausted(importer(p))) ==> Step(v, m, Rebooted(v, m, image, mounted.slot)))
  {
    hide CrashImage, RestoredSlot, HeaderAt, Restorable, Generation, Importer, Mount;
    var mounted := Mount(v, image, bad, importer);
    if mounted.slot == -1 {
      MountedEmpty(v, image, bad, importer);
      assert Reboot(v, m, Rebooted(v, m, image, -1));
      MountGeneration(v, image, bad, importer);
    } else {
      MountedIsRestorable(v, image, bad, importer);
      assert FaultyReboot(v, m, Rebooted(v, m, image, mounted.slot));
      if bad == {} && (forall p :: !Exhausted(importer(p))) {
        MountRestores(v, image, importer);
        assert Reboot(v, m, Rebooted(v, m, image, mounted.slot));
      }
    }
  }

  lemma MountGeneration(v: Volume, image: Image, bad: set<nat>, importer: seq<byte> -> Outcome)
    requires Mount(v, image, bad, importer).slot == -1
    ensures Mount(v, image, bad, importer).generation == 0
  {
    hide HeaderFound, Newer, TrySlot, Generation, HeaderAt, BlankVolume;
  }
}
