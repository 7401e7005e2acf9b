/** What every run of commits, crashes and restarts of a volume keeps. */
module StoreRuns {
  import opened Wrappers
  import opened Snapshot
  import opened StoreProtocol

  ghost predicate Run(v: Volume, run: seq<Machine>) {
    run != [] && Formatted(v, run[0]) && forall i, j :: 0 <= i && j == i + 1 && j < |run| ==> Step(v, run[i], run[j])
  }

  /** A run in which a start may also fail to read a slot. */
  ghost predicate FaultyRun(v: Volume, run: seq<Machine>) {
    run != [] && Formatted(v, run[0]) && forall i, j :: 0 <= i && j == i + 1 && j < |run| ==> FaultyStep(v, run[i], run[j])
  }

  lemma FormattedInv(v: Volume, m: Machine)
    requires Formatted(v, m)
    ensures Inv(v, m)
  {
  }

  lemma {:induction false} RunInv(v: Volume, run: seq<Machine>, i: nat)
    requires VolumeOk(v) && FaultyRun(v, run) && i < |run|
    ensures Inv(v, run[i])
    decreases i
  {
    hide Inv, FaultyStep, Formatted;
    if i == 0 {
      FormattedInv(v, run[0]);
    } else {
      RunInv(v, run, i - 1);
      StepKeeps(v, run[i - 1], run[i]);
    }
  }

  // ----- Whole snapshots only -----

  /** s was sealed, payload and all, at or before point i. */
  ghost predicate SealedBy(run: seq<Machine>, i: nat, s: Saved) {
    exists j: nat :: j <= i && j < |run| && run[j].phase == Sealing(s)
  }

  /** Where the committed snapshot and the candidate of a step come from. */
  lemma SavedOrigin(v: Volume, m: Machine, m': Machine)
    requires FaultyStep(v, m, m')
    ensures m'.committed.Some? ==>
              m'.committed == m.committed || m'.committed == m.candidate || m.phase == Sealing(m'.committed.value)
    ensures m'.candidate.Some? ==>
              m'.candidate == m.committed || m'.candidate == m.candidate || m.phase == Sealing(m'.candidate.value)
  {
    hide CrashImage, RestoredSlot, Restorable, Latest, HeaderOf, Issued, Degraded, Fits, Block;
  }

  lemma {:induction false} SavedWereSealed(v: Volume, run: seq<Machine>, i: nat)
    requires FaultyRun(v, run) && i < |run|
    ensures run[i].committed.Some? ==> SealedBy(run, i, run[i].committed.value)
    ensures run[i].candidate.Some? ==> SealedBy(run, i, run[i].candidate.value)
    decreases i
  {
    hide FaultyStep;
    if i > 0 {
      SavedWereSealed(v, run, i - 1);
      SavedOrigin(v, run[i - 1], run[i]);
      forall s | SealedBy(run, i - 1, s) ensures SealedBy(run, i, s) {
        var j: nat :| j <= i - 1 && j < |run| && run[j].phase == Sealing(s);
      }
      forall s | run[i - 1].phase == Sealing(s) ensures SealedBy(run, i, s) {
        assert i - 1 <= i;
      }
    }
  }

  /** What a start finds in an image. */
  function Recovered(v: Volume, image: Image): Option<seq<byte>> {
    var slot := RestoredSlot(v, image);
    if slot == -1 then None else Some(PayloadAt(v, image, slot, Length(HeaderAt(v, image, slot))))
  }

  /** At every point of a run, whatever a crash keeps, the next start finds one whole snapshot: the
      last one committed, or the one whose header was being written. */
  lemma CrashAtomicity(v: Volume, run: seq<Machine>, i: nat, image: Image)
    requires VolumeOk(v) && FaultyRun(v, run) && i < |run| && CrashImage(run[i].disk, image)
    ensures
      var m := run[i];
      || (m.committed.None? && Recovered(v, image) == None)
      || (m.committed.Some? && Recovered(v, image) == Some(m.committed.value.payload))
      || (CandidateWins(m) && Recovered(v, image) == Some(m.candidate.value.payload))
    ensures Recovered(v, image).Some? ==>
              exists s :: SealedBy(run, i, s) && Recovered(v, image) == Some(s.payload)
  {
    hide FaultyRun, CrashImage, RestoredSlot, Restorable, Length, Generation, PayloadAt, SealedBy, Inv;
    var m := run[i];
    RunInv(v, run, i);
    SavedWereSealed(v, run, i);
    RestoredIs(v, m, image);
  }

  lemma RestoredIs(v: Volume, m: Machine, image: Image)
    requires VolumeOk(v) && Inv(v, m) && CrashImage(m.disk, image)
    ensures m.committed.Some? ==> RestoredSlot(v, image) != -1
    ensures
      var slot := RestoredSlot(v, image);
      slot != -1 ==>
        if slot == m.active then m.committed.Some? && ReadsAs(v, image, slot, m.committed.value)
        else CandidateWins(m) && slot == Inactive(m.active) && ReadsAs(v, image, slot, m.candidate.value)
  {
    hide CrashImage, RestoredSlot, ReadsAs, Possible, Settled, PayloadSettled, HeaderOf;
    RestoredAfterCrash(v, m, image);
    SlotsAfterCrash(v, m, image);
  }

  // ----- Nothing committed is ever lost -----

  lemma CommittedAdvances(v: Volume, m: Machine, m': Machine)
    requires VolumeOk(v) && Inv(v, m) && Step(v, m, m') && m.committed.Some?
    ensures m'.committed.Some? && m'.committed.value.attempt >= m.committed.value.attempt
  {
    hide CrashImage, RestoredSlot, Restorable, Latest, HeaderOf, Issued, Degraded, Fits, Block, Settled,
      PayloadSettled, Possible;
    if Reboot(v, m, m') {
      var image :| CrashImage(m.disk, image) && m' == Rebooted(v, m, image, RestoredSlot(v, image));
      RestoredAfterCrash(v, m, image);
    }
  }

  lemma RunIsFaultyRun(v: Volume, run: seq<Machine>)
    requires Run(v, run)
    ensures FaultyRun(v, run)
  {
    hide Step, Formatted, FaultyReboot;
  }

  lemma {:induction false} CommittedNeverOlder(v: Volume, run: seq<Machine>, i: nat, j: nat)
    requires VolumeOk(v) && Run(v, run) && i <= j < |run| && run[i].committed.Some?
    ensures run[j].committed.Some? && run[j].committed.value.attempt >= run[i].committed.value.attempt
    decreases j
  {
    hide Inv, Step, Formatted, FaultyRun;
    if i < j {
      CommittedNeverOlder(v, run, i, j - 1);
      RunIsFaultyRun(v, run);
      RunInv(v, run, j - 1);
      CommittedAdvances(v, run[j - 1], run[j]);
    }
  }

  /** Once a snapshot is committed, every later start that can read the disk, whatever crashes came between,
      finds that snapshot or one sealed after it. */
  lemma CommittedSurvives(v: Volume, run: seq<Machine>, i: nat, j: nat, image: Image)
    requires VolumeOk(v) && Run(v, run) && i <= j < |run| && run[i].committed.Some?
    requires CrashImage(run[j].disk, image)
    ensures exists s :: SealedBy(run, j, s) && s.attempt >= run[i].committed.value.attempt
                        && Recovered(v, image) == Some(s.payload)
  {
    hide Inv, Run, FaultyRun, CrashImage, RestoredSlot, Restorable, Length, Generation, PayloadAt, SealedBy;
    CommittedNeverOlder(v, run, i, j);
    RunIsFaultyRun(v, run);
    RunInv(v, run, j);
    SavedWereSealed(v, run, j);
    RestoredIs(v, run[j], image);
    var m := run[j];
    var s := if RestoredSlot(v, image) == m.active then m.committed.value else m.candidate.value;
    assert SealedBy(run, j, s);
  }

  // ----- Slots -----

  /** No step but a restart writes into the slot in use. */
  lemma ActiveSlotUntouched(v: Volume, m: Machine, m': Machine, lba: nat, x: Sector)
    requires VolumeOk(v) && Inv(v, m) && Step(v, m, m') && !Reboot(v, m, m')
    requires m.active != -1 && InSlot(v, m.active, lba) && Possible(m'.disk, lba, x)
    ensures Possible(m.disk, lba, x)
  {
    hide CrashImage, Reboot, Latest, Issued, Flushed, Fits, Block, Settled, PayloadSettled, Possible, HeaderOf;
    assert forall at :: InSlot(v, Inactive(m.active), at) || Outside(v, at) ==> at != lba;
    if m'.disk == Flushed(m.disk) {
      FlushKeepsPossible(m.disk, lba, x);
    } else if m.phase == Writing && !Abort(m, m') && !DataWrite(v, m, m') {
      var at: nat, data, applied :| InSlot(v, Inactive(m.active), at) && m'.disk == Issued(m.disk, at, data, applied);
      IssueElsewhere(m.disk, at, data, applied, lba, x);
    } else if DataWrite(v, m, m') {
      var at: nat, data, applied :| Outside(v, at) && m' == m.(disk := Issued(m.disk, at, data, applied));
      IssueElsewhere(m.disk, at, data, applied, lba, x);
    } else if !Abort(m, m') {
      var at := SlotLba(v, Inactive(m.active));
      assert InSlot(v, Inactive(m.active), at);
      var data, applied :| m'.disk == Issued(m.disk, at, data, applied);
      IssueElsewhere(m.disk, at, data, applied, lba, x);
    }
  }

  /** Two valid slots are always one generation apart, and the later one is tried first, also when the
      32-bit generation wraps. */
  lemma GenerationsDifferByOne(v: Volume, run: seq<Machine>, i: nat, image: Image)
    requires VolumeOk(v) && FaultyRun(v, run) && i < |run| && CrashImage(run[i].disk, image)
    requires ValidHeader(v.version, HeaderAt(v, image, 0), v.cap)
    requires ValidHeader(v.version, HeaderAt(v, image, 1), v.cap)
    ensures
      var m := run[i];
      var later := if m.committed.Some? && CandidateWins(m) then Inactive(m.active) else m.active;
      && m.committed.Some? && m.candidate.Some? && m.committed.value.attempt != m.candidate.value.attempt
      && Generation(HeaderAt(v, image, later)) == NextGeneration(Generation(HeaderAt(v, image, 1 - later)))
      && FirstSlot(v, image) == later
  {
    hide FaultyRun, CrashImage, RestoredSlot, Restorable, Length, Generation, PayloadAt, Settled, PayloadSettled,
      HeaderOf, Possible, ValidHeader, Newer, NextGeneration;
    var m := run[i];
    RunInv(v, run, i);
    SlotsAfterCrash(v, m, image);
    if HeaderAt(v, image, 0) == BLANK { BlankNotRestorable(v, image, 0); }
    if HeaderAt(v, image, 1) == BLANK { BlankNotRestorable(v, image, 1); }
    NextIsNewer(Generation(HeaderAt(v, image, 0)));
    NextIsNewer(Generation(HeaderAt(v, image, 1)));
  }

  // ----- What a start finds -----

  /** The payload of the newest snapshot. */
  function NewestPayload(m: Machine): Option<seq<byte>> {
    if m.committed.Some? then Some(m.committed.value.payload) else None
  }

  /** What a start finds, in terms of the machine. */
  lemma FoundAt(v: Volume, run: seq<Machine>, k: nat, image: Image)
    requires VolumeOk(v) && FaultyRun(v, run) && k < |run| && CrashImage(run[k].disk, image)
    ensures
      || Recovered(v, image) == NewestPayload(run[k])
      || (CandidateWins(run[k]) && Recovered(v, image) == Some(run[k].candidate.value.payload))
  {
    hide FaultyRun, CrashImage, Recovered, SealedBy;
    CrashAtomicity(v, run, k, image);
  }
}
