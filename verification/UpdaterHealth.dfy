/** The other half of a self-update: when a binary that works is kept. */
module UpdaterHealth {
  import opened Digests
  import opened Updater

  /** What an uninterrupted update leaves: the new binary installed, the installed one backed up, and
      a marker for the version the command announced. Nothing else changes. */
  lemma UpdateInstalls(s: System, cmd: Command, running: string, crash: nat)
    requires Installs(cmd, running) && s.disk.install.Whole? && crash >= 7
    ensures Apply(s, Update(cmd, running, crash)).disk ==
            Disk(Whole(cmd.bin), s.disk.install, Missing, Pending(cmd.target), s.disk.count, s.disk.version)
  {
  }

  /** A swapped-in binary on trial. */
  predicate OnTrial(s: System, was: Bin, bin: Bin, target: string) {
    s.disk.install == Whole(bin) && s.disk.prev == Whole(was) && was != bin && s.disk.pending == Pending(target)
  }

  /** One start and one healthy report. */
  function Tried(s: System, boot: nat, report: nat): System {
    Apply(Apply(s, BootUp(boot)), ReportHealthy(report))
  }

  /** The binary is confirmed as the source promises it: recorded under its target, marker and counter
      gone, and from now on the good one. */
  predicate Confirmed(s: System, bin: Bin, target: string) {
    && s.disk.install == Whole(bin) && s.disk.pending.NoMarker? && s.disk.count == 0
    && s.disk.version == Some(target) && s.good == bin
  }

  /** A trial ends in a confirmation if and only if the start found a count below two and wrote its
      own, the report ran to its end, and the announced version is the binary's own. */
  lemma ConfirmedExactly(s: System, was: Bin, bin: Bin, target: string, boot: nat, report: nat)
    requires OnTrial(s, was, bin, target)
    ensures Confirmed(Tried(s, boot, report), bin, target) <==>
            s.disk.count < 2 && boot >= 2 && report >= 3 && bin.version == target
  {
  }

  /** What a report cut short leaves of such a trial: nothing before its first write, the recorded
      version before its second, and only the counter before its third. */
  lemma ReportCutShort(s: System, was: Bin, bin: Bin, target: string, boot: nat, report: nat)
    requires OnTrial(s, was, bin, target) && s.disk.count < 2 && boot >= 2 && bin.version == target
    ensures Tried(s, boot, report).disk ==
            Disk(Whole(bin), Whole(was), s.disk.staged,
                 if report >= 2 then NoMarker else Pending(target),
                 if report >= 3 then 0 else s.disk.count + 1,
                 if report >= 1 then Some(target) else s.disk.version)
    ensures Tried(s, boot, report).good == if report >= 2 then bin else s.good
  {
  }

  /** Under an announced version that is not the binary's, a healthy report never confirms: it clears
      the counter and leaves the marker. */
  lemma WrongTargetIsNeverConfirmed(s: System, was: Bin, bin: Bin, target: string, boot: nat, report: nat)
    requires OnTrial(s, was, bin, target) && s.disk.count < 2 && boot >= 2 && bin.version != target
    ensures OnTrial(Tried(s, boot, report), was, bin, target)
    ensures Tried(s, boot, report).disk.count == (if report >= 1 then 0 else s.disk.count + 1)
    ensures Tried(s, boot, report).disk.version == s.disk.version && Tried(s, boot, report).good == s.good
  {
  }

  // ---------------------------------------------------------------- kept for good

  /** Without a readable marker, starts and healthy reports leave the disk as it is, whatever crashes
      and however many there are, except that a report may clear the counter. */
  lemma {:induction false} UnmarkedStartsKeepTheBinary(s: System, steps: seq<Step>)
    requires !s.disk.pending.Pending? && forall i | 0 <= i < |steps| :: !steps[i].Update?
    ensures After(s, steps).disk.install == s.disk.install && After(s, steps).disk.pending == s.disk.pending
    ensures After(s, steps).disk.version == s.disk.version && After(s, steps).good == s.good
    decreases |steps|
  {
    if steps != [] {
      var before := steps[..|steps| - 1];
      assert forall i | 0 <= i < |before| :: before[i] == steps[i];
      UnmarkedStartsKeepTheBinary(s, before);
    }
  }

  /** Installed after any number of starts that never report healthy. */
  ghost predicate KeptForGood(d: Disk, bin: Bin) {
    forall k: nat :: Boots(d, k).install == Whole(bin)
  }

  lemma ReplacedOnce(d: Disk, bin: Bin, k: nat)
    requires Boots(d, k).install != Whole(bin)
    ensures !KeptForGood(d, bin)
  {
    assert KeptForGood(d, bin) ==> Boots(d, k).install == Whole(bin);
  }

  /** A binary on trial stays installed through any number of later starts that never report healthy
      if and only if its own start was counted, the report got as far as clearing the marker, and the
      announced version is the binary's own. */
  lemma KeptForGoodExactly(s: System, was: Bin, bin: Bin, target: string, boot: nat, report: nat)
    requires OnTrial(s, was, bin, target)
    ensures KeptForGood(Tried(s, boot, report).disk, bin) <==>
            s.disk.count < 2 && boot >= 2 && report >= 2 && bin.version == target
  {
    var end := Tried(s, boot, report);
    if s.disk.count < 2 && boot >= 2 && report >= 2 && bin.version == target {
      forall k: nat
        ensures Boots(end.disk, k).install == Whole(bin)
      {
        QuietBoots(end.disk, k);
      }
    } else if end.disk.pending.Pending? && !end.disk.prev.Missing? {
      PrevIsInstalledByThirdBoot(end.disk);
      ReplacedOnce(end.disk, bin, 3);
    } else {
      assert end.disk.install == Whole(was);
      ReplacedOnce(end.disk, bin, 0);
    }
  }

  /** The whole way, from a disk that counts fewer than two starts: an uninterrupted update of a binary
      that carries its announced version, a counted start and a complete healthy report. The update
      is confirmed, no later starts bring the old binary back, nor do later healthy reports, wherever
      they crash, until the next update. */
  lemma HealthyUpdateIsKept(s: System, cmd: Command, running: string, crash: nat, boot: nat, report: nat, k: nat, steps: seq<Step>)
    requires s.disk.install.Whole? && s.disk.count < 2
    requires Installs(cmd, running) && cmd.bin.version == cmd.target
    requires crash >= 7 && boot >= 2 && report >= 3
    requires forall i | 0 <= i < |steps| :: !steps[i].Update?
    ensures var end := Tried(Apply(s, Update(cmd, running, crash)), boot, report);
            && Confirmed(end, cmd.bin, cmd.target)
            && Boots(end.disk, k).install == Whole(cmd.bin)
            && After(end, steps).disk.install == Whole(cmd.bin) && After(end, steps).good == cmd.bin
  {
    var installed := Apply(s, Update(cmd, running, crash));
    UpdateInstalls(s, cmd, running, crash);
    QuietBoots(Tried(installed, boot, report).disk, k);
    UnmarkedStartsKeepTheBinary(Tried(installed, boot, report), steps);
  }

  /** Seen from the command: after an uninterrupted update, a start and a report cut short anywhere,
      the new binary is confirmed, or stays for good, exactly under these conditions. */
  lemma UpdateConfirmedExactly(s: System, cmd: Command, running: string, crash: nat, boot: nat, report: nat)
    requires s.disk.install.Whole? && s.disk.install != Whole(cmd.bin) && Installs(cmd, running) && crash >= 7
    ensures var end := Tried(Apply(s, Update(cmd, running, crash)), boot, report);
            && (Confirmed(end, cmd.bin, cmd.target) <==>
                  s.disk.count < 2 && boot >= 2 && report >= 3 && cmd.bin.version == cmd.target)
            && (KeptForGood(end.disk, cmd.bin) <==>
                  s.disk.count < 2 && boot >= 2 && report >= 2 && cmd.bin.version == cmd.target)
  {
    var installed := Apply(s, Update(cmd, running, crash));
    UpdateInstalls(s, cmd, running, crash);
    ConfirmedExactly(installed, s.disk.install.bin, cmd.bin, cmd.target, boot, report);
    KeptForGoodExactly(installed, s.disk.install.bin, cmd.bin, cmd.target, boot, report);
  }

  /** A binary whose announced version is not its own, started and reporting healthy time after time,
      is still on trial, and three starts without a report bring the old one back. */
  lemma {:induction false} WrongTargetStaysOnTrial(s: System, was: Bin, bin: Bin, target: string, n: nat) returns (end: System)
    requires OnTrial(s, was, bin, target) && s.disk.count == 0 && bin.version != target
    ensures end == TriedOften(s, n) && OnTrial(end, was, bin, target) && end.disk.count == 0
    ensures Boots(end.disk, 2).install == Whole(bin) && Boots(end.disk, 3).install == Whole(was)
    decreases n
  {
    if n == 0 {
      end := s;
    } else {
      var before := WrongTargetStaysOnTrial(s, was, bin, target, n - 1);
      WrongTargetIsNeverConfirmed(before, was, bin, target, 2, 3);
      end := Tried(before, 2, 3);
    }
    UnhealthyBinaryIsReplaced(end.disk, was, bin, 2);
    UnhealthyBinaryIsReplaced(end.disk, was, bin, 3);
  }

  function TriedOften(s: System, n: nat): System {
    if n == 0 then s else Tried(TriedOften(s, n - 1), 2, 3)
  }
}
