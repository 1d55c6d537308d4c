/** Self-update with rollback as sequences of file operations that can be cut short by a crash
    after any of them: `Apply`, the boot branch with its counter file, `Rollback` and
    `ConfirmHealthy`. Renames stay on one filesystem and are atomic; copies and plain writes can
    be torn. */
module Updater {
  import opened Digests

  datatype Bin = Bin(version: string, digest: nat)
  datatype File = Missing | Partial | Whole(bin: Bin)
  /** A torn marker does not parse, so it reads as no pending update. */
  datatype Marker = NoMarker | Torn | Pending(target: string)

  /** `count` is what `readBootCounter` returns: 0 for a missing or torn file. */
  datatype Disk = Disk(
    install: File, prev: File, staged: File, pending: Marker, count: nat, version: Option<string>)

  datatype Download = Good | Corrupt | Aborted
  datatype Command = Command(manifestOk: bool, target: string, force: bool, bin: Bin, download: Download)

  // ---------------------------------------------------------------- traces of file operations

  /** The disk after each file operation of `Apply`, the untouched disk first. */
  function ApplyTrace(d: Disk, cmd: Command, running: string): (r: seq<Disk>)
    ensures |r| >= 1 && r[0] == d
  {
    if !cmd.manifestOk || (!cmd.force && cmd.target == running) then [d]
    else
      var fetching := d.(staged := Partial);
      match cmd.download
      case Aborted => [d, fetching]
      case Corrupt => [d, fetching, d.(staged := Missing)]
      case Good =>
        var fetched := d.(staged := Whole(cmd.bin));
        var backup := if d.install.Missing? then [] else [fetched.(prev := Partial), fetched.(prev := d.install)];
        var saved := if d.install.Missing? then fetched else fetched.(prev := d.install);
        [d, fetching, fetched] + backup
        + [saved.(pending := Torn),
           saved.(pending := Pending(cmd.target)),
           saved.(pending := Pending(cmd.target), install := Whole(cmd.bin), staged := Missing)]
  }

  function RollbackTrace(d: Disk): (r: seq<Disk>)
    ensures |r| >= 1 && r[0] == d
  {
    if d.prev.Missing? || !d.pending.Pending? then [d]
    else
      var swapped := d.(install := d.prev, prev := Missing);
      [d, swapped, swapped.(pending := NoMarker)]
  }

  /** The pending-update branch of a start: roll back on the third start, else count this one. */
  function BootTrace(d: Disk): (r: seq<Disk>)
    ensures |r| >= 1 && r[0] == d
  {
    if !d.pending.Pending? then [d]
    else if d.count >= 2 then
      var rolled := RollbackTrace(d);
      rolled + [rolled[|rolled| - 1].(count := 0)]
    else [d, d.(count := 0), d.(count := d.count + 1)]
  }

  /** The callback of the first healthy heartbeat, which a start that found a marker installs. */
  function HealthyTrace(d: Disk): (r: seq<Disk>)
    ensures |r| >= 1 && r[0] == d
  {
    if d.install.Whole? && d.pending == Pending(d.install.bin.version) then
      var recorded := d.(version := Some(d.install.bin.version));
      [d, recorded, recorded.(pending := NoMarker), recorded.(pending := NoMarker, count := 0)]
    else [d, d.(count := 0)]
  }

  /** A start installs the callback when it finds a marker, counts itself and lives on. */
  predicate Arms(d: Disk, crash: nat) {
    d.pending.Pending? && d.count < 2 && crash >= 2
  }

  /** The disk a crash after `n` operations leaves; a late crash is no crash. */
  function At(trace: seq<Disk>, n: nat): Disk
    requires |trace| >= 1
  {
    if n < |trace| then trace[n] else trace[|trace| - 1]
  }

  // ---------------------------------------------------------------- the operations

  class Agent {
    var install: File
    var prev: File
    var staged: File
    var pending: Marker
    var count: nat
    var version: Option<string>
    /** Whether this process will call back on its first healthy heartbeat. */
    var armed: bool

    function State(): Disk
      reads this
    {
      Disk(install, prev, staged, pending, count, version)
    }

    constructor (bin: Bin)
      ensures State() == Disk(Whole(bin), Missing, Missing, NoMarker, 0, None) && !armed
    {
      install, prev, staged, pending, count, version := Whole(bin), Missing, Missing, NoMarker, 0, None;
      armed := false;
    }

    /** `Updater.Apply`, killed after `crash` file operations. */
    method Apply(cmd: Command, running: string, crash: nat)
      modifies this
      ensures State() == At(ApplyTrace(old(State()), cmd, running), crash) && armed == old(armed)
    {
      if !cmd.manifestOk || (!cmd.force && cmd.target == running) || crash == 0 {
        return;
      }
      staged := Partial;
      if crash == 1 || cmd.download.Aborted? {
        return;
      }
      if cmd.download.Corrupt? {
        staged := Missing;
        return;
      }
      staged := Whole(cmd.bin);
      if crash == 2 {
        return;
      }
      var done := 2;
      if !install.Missing? {
        prev := Partial;
        if crash == 3 {
          return;
        }
        prev := install;
        if crash == 4 {
          return;
        }
        done := 4;
      }
      pending := Torn;
      if crash == done + 1 {
        return;
      }
      pending := Pending(cmd.target);
      if crash == done + 2 {
        return;
      }
      install, staged := staged, Missing;
    }

    /** `ops` is the number of file operations of an uninterrupted rollback. */
    method Rollback(crash: nat) returns (ops: nat)
      modifies this`install, this`prev, this`pending
      ensures State() == At(RollbackTrace(old(State())), crash)
      ensures ops + 1 == |RollbackTrace(old(State()))|
    {
      if !pending.Pending? || prev.Missing? {
        return 0;
      }
      ops := 2;
      if crash == 0 {
        return;
      }
      install, prev := prev, Missing;
      if crash == 1 {
        return;
      }
      pending := NoMarker;
    }

    /** The start of `run`, killed after `crash` file operations. */
    method Boot(crash: nat)
      modifies this
      ensures State() == At(BootTrace(old(State())), crash) && armed == Arms(old(State()), crash)
    {
      armed := false;
      if !pending.Pending? {
        return;
      }
      if count >= 2 {
        var ops := Rollback(crash);
        if crash > ops {
          count := 0;
        }
        return;
      }
      if crash == 0 {
        return;
      }
      var n := count + 1;
      count := 0;
      if crash == 1 {
        return;
      }
      count := n;
      armed := true;
    }

    /** The first healthy heartbeat: without the callback nothing happens. */
    method ConfirmHealthy(crash: nat)
      modifies this
      ensures State() == if old(armed) then At(HealthyTrace(old(State())), crash) else old(State())
      ensures !armed
    {
      var calls := armed;
      armed := false;
      if !calls || crash == 0 {
        return;
      }
      if install.Whole? && pending == Pending(install.bin.version) {
        version := Some(install.bin.version);
        if crash == 1 {
          return;
        }
        pending := NoMarker;
        if crash == 2 {
          return;
        }
      }
      count := 0;
    }
  }

  // ---------------------------------------------------------------- runs with crashes

  /** `good` is the last binary known to be good; `candidate` is the last one an update brought;
      `armed` is whether the running process will call back on its first healthy heartbeat. */
  datatype System = System(disk: Disk, good: Bin, candidate: Bin, armed: bool)

  datatype Step =
    | Update(cmd: Command, running: string, crash: nat)
    | BootUp(crash: nat)
    | ReportHealthy(crash: nat)

  function Apply(s: System, step: Step): System {
    match step
    case Update(cmd, running, crash) =>
      var disk := At(ApplyTrace(s.disk, cmd, running), crash);
      // An update that gives up leaves the process running; any other end replaces or kills it.
      s.(disk := disk, candidate := if disk.install == s.disk.install then s.candidate else cmd.bin,
         armed := s.armed && !Installs(cmd, running) && crash + 1 >= |ApplyTrace(s.disk, cmd, running)|)
    case BootUp(crash) => s.(disk := At(BootTrace(s.disk), crash), armed := Arms(s.disk, crash))
    case ReportHealthy(crash) =>
      var disk := if s.armed then At(HealthyTrace(s.disk), crash) else s.disk;
      // Once its marker is cleared, the binary that reported healthy is the good one.
      s.(disk := disk, armed := false,
         good := if s.disk.pending.Pending? && disk.pending.NoMarker? && disk.install.Whole?
                 then disk.install.bin else s.good)
  }

  function After(start: System, steps: seq<Step>): System {
    if steps == [] then start else Apply(After(start, steps[..|steps| - 1]), steps[|steps| - 1])
  }

  predicate Safe(s: System) {
    && (s.disk.install == Whole(s.good) || s.disk.install == Whole(s.candidate))
    && (s.disk.pending.Pending? ==> s.disk.install == Whole(s.good) || s.disk.prev == Whole(s.good))
    && (!s.disk.pending.Pending? ==> s.disk.install == Whole(s.good))
    && (s.disk.pending.Pending? && !s.disk.prev.Missing? ==> s.disk.prev == Whole(s.good))
  }

  /** The command gets as far as the backup of the installed binary. */
  predicate Installs(cmd: Command, running: string) {
    cmd.manifestOk && (cmd.force || cmd.target != running) && cmd.download.Good?
  }

  /** An update over a readable marker that dies in its backup copy, or that backs up a binary
      which is not the good one. `Apply` itself never looks at the marker. */
  predicate Harmful(s: System, step: Step) {
    && step.Update? && s.disk.pending.Pending? && Installs(step.cmd, step.running)
    && (step.crash == 3 || (step.crash >= 4 && s.disk.install != Whole(s.good)))
  }

  /** The exact guard, for every step from every safe state. */
  lemma StepSafeExactlyWhenHarmless(s: System, step: Step)
    requires Safe(s)
    ensures Safe(Apply(s, step)) <==> !Harmful(s, step)
  {
  }

  predicate HarmlessRun(start: System, steps: seq<Step>) {
    steps == []
    || (HarmlessRun(start, steps[..|steps| - 1]) && !Harmful(After(start, steps[..|steps| - 1]), steps[|steps| - 1]))
  }

  predicate SafeThroughout(start: System, steps: seq<Step>) {
    Safe(After(start, steps)) && (steps != [] ==> SafeThroughout(start, steps[..|steps| - 1]))
  }

  /** Runs of updates, starts and healthy reports, each cut short anywhere: every point of a run is
      safe if and only if no update of the run was harmful. `SafeExactlyWhenGoodComesBack` says what
      safe means: the install path holds the good binary or the candidate, complete, and three
      starts that never report healthy bring the good one back. */
  lemma {:induction false} EveryCrashPointIsSafeExactly(start: System, steps: seq<Step>)
    requires start.disk.install == Whole(start.good) && !start.disk.pending.Pending?
    ensures SafeThroughout(start, steps) <==> HarmlessRun(start, steps)
    decreases |steps|
  {
    if steps != [] {
      var before := steps[..|steps| - 1];
      EveryCrashPointIsSafeExactly(start, before);
      if SafeThroughout(start, before) { StepSafeExactlyWhenHarmless(After(start, before), steps[|steps| - 1]); }
    }
  }

  /** Without a readable marker no update is harmful, whatever the command and the crash point. */
  lemma {:induction false} UnmarkedUpdatesAreSafe(start: System, steps: seq<Step>)
    requires start.disk.install == Whole(start.good) && !start.disk.pending.Pending?
    requires forall n | 0 <= n < |steps| && steps[n].Update? :: !After(start, steps[..n]).disk.pending.Pending?
    ensures SafeThroughout(start, steps)
    decreases |steps|
  {
    if steps != [] {
      var before := steps[..|steps| - 1];
      forall n | 0 <= n < |before| && before[n].Update?
        ensures !After(start, before[..n]).disk.pending.Pending?
      {
        assert before[n] == steps[n] && before[..n] == steps[..n];
      }
      UnmarkedUpdatesAreSafe(start, before);
      StepSafeExactlyWhenHarmless(After(start, before), steps[|steps| - 1]);
    }
  }

  /** Where the good binary is after `crash` operations of an update: the backup keeps it exactly
      when it was the installed one, or when the update died before the backup began. */
  lemma BackupKeepsGoodExactlyWhenInstalled(d: Disk, cmd: Command, running: string, good: Bin, crash: nat)
    requires Installs(cmd, running) && d.install.Whole? && cmd.bin != good
    ensures var end := At(ApplyTrace(d, cmd, running), crash);
            (end.install == Whole(good) || end.prev == Whole(good)) <==>
            d.install == Whole(good) || (crash <= 2 && d.prev == Whole(good))
  {
  }

  // ---------------------------------------------------------------- rollback by the third boot

  /** `k` complete starts in a row, none of which reports healthy. */
  function Boots(d: Disk, k: nat): Disk {
    if k == 0 then d else (var b := BootTrace(Boots(d, k - 1)); b[|b| - 1])
  }

  predicate Swapped(d: Disk, good: Bin, bad: Bin) {
    d.pending.Pending? && d.install == Whole(bad) && d.prev == Whole(good)
  }

  /** A swapped-in binary that never reports healthy runs for 2 - count starts; it is replaced by
      the old binary exactly from the next start on, by the third start at the latest. */
  lemma {:induction false} UnhealthyBinaryIsReplaced(d: Disk, good: Bin, bad: Bin, k: nat)
    requires Swapped(d, good, bad) && good != bad
    ensures var end := Boots(d, k);
            if k + d.count >= 3 && k >= 1
            then end.install == Whole(good) && end.pending.NoMarker? && end.count == 0
            else Swapped(end, good, bad) && end.count == d.count + k
    decreases k
  {
    if k > 0 { UnhealthyBinaryIsReplaced(d, good, bad, k - 1); }
  }

  /** A rollback cut short anywhere: the next complete start has the good binary at the install
      path, if the interrupted one did not. */
  lemma InterruptedRollbackRestoresInstallPath(d: Disk, good: Bin, bad: Bin, crash: nat)
    requires Swapped(d, good, bad) && d.count >= 2
    ensures Boots(At(BootTrace(d), crash), 1).install == Whole(good)
  {
  }

  /** Its marker is another matter: cut after the rename and before the marker is cleared, the
      rollback can never run again and the marker stays for ever; cut anywhere else it goes. */
  lemma {:induction false} MarkerSticksExactlyAfterRename(d: Disk, good: Bin, bad: Bin, crash: nat, k: nat)
    requires Swapped(d, good, bad) && d.count >= 2 && k >= 1
    ensures var end := Boots(At(BootTrace(d), crash), k);
            end.install == Whole(good) && (end.pending.Pending? <==> crash == 1) && (crash == 1 ==> end.prev.Missing?)
    decreases k
  {
    if k > 1 { MarkerSticksExactlyAfterRename(d, good, bad, crash, k - 1); }
  }

  // ---------------------------------------------------------------- what a harmful update does

  /** By the third complete start, whatever lies at the prev path under a readable marker is
      installed. */
  lemma PrevIsInstalledByThirdBoot(d: Disk)
    requires d.pending.Pending? && !d.prev.Missing?
    ensures Boots(d, 3).install == d.prev
  {
    assert Boots(d, 1) == At(BootTrace(d), |BootTrace(d)| - 1);
    assert Boots(d, 2) == At(BootTrace(Boots(d, 1)), |BootTrace(Boots(d, 1))| - 1);
  }

  lemma QuietBoot(d: Disk)
    requires !d.pending.Pending? || d.prev.Missing?
    ensures var trace := BootTrace(d);
            var end := trace[|trace| - 1];
            end.install == d.install && (!end.pending.Pending? || end.prev.Missing?)
  {
  }

  lemma {:induction false} QuietBoots(d: Disk, k: nat)
    requires !d.pending.Pending? || d.prev.Missing?
    ensures Boots(d, k).install == d.install && (!Boots(d, k).pending.Pending? || Boots(d, k).prev.Missing?)
  {
    if k > 0 {
      QuietBoots(d, k - 1);
      QuietBoot(Boots(d, k - 1));
    }
  }

  /** What `Safe` means: the install path is good or new, and three starts without a healthy report
      bring the good binary back. */
  lemma SafeExactlyWhenGoodComesBack(s: System)
    ensures Safe(s) <==>
            && (s.disk.install == Whole(s.good) || s.disk.install == Whole(s.candidate))
            && Boots(s.disk, 3).install == Whole(s.good)
  {
    if s.disk.pending.Pending? && !s.disk.prev.Missing? {
      PrevIsInstalledByThirdBoot(s.disk);
    } else {
      QuietBoots(s.disk, 3);
    }
  }

  /** The guard a caller can check before an update, for whatever crash: from a safe state, every
      crash point of the update is safe if and only if no marker is readable or the command does not
      get as far as installing. */
  lemma UpdateSafeAtEveryCrashExactly(s: System, cmd: Command, running: string)
    requires Safe(s)
    ensures (forall crash: nat :: Safe(Apply(s, Update(cmd, running, crash)))) <==>
            !(s.disk.pending.Pending? && Installs(cmd, running))
  {
    forall crash: nat
      ensures Safe(Apply(s, Update(cmd, running, crash))) <==> !Harmful(s, Update(cmd, running, crash))
    {
      StepSafeExactlyWhenHarmless(s, Update(cmd, running, crash));
    }
    if s.disk.pending.Pending? && Installs(cmd, running) {
      assert Harmful(s, Update(cmd, running, 3));
    }
  }

  /** The guard seen from outside: after an update cut short anywhere, three starts that never
      report healthy bring the good binary back if and only if the update was not harmful. */
  lemma GoodBinaryComesBackExactly(s: System, cmd: Command, running: string, crash: nat)
    requires Safe(s)
    ensures var d := At(ApplyTrace(s.disk, cmd, running), crash);
            Boots(d, 3).install == Whole(s.good) <==> !Harmful(s, Update(cmd, running, crash))
  {
    var d := At(ApplyTrace(s.disk, cmd, running), crash);
    StepSafeExactlyWhenHarmless(s, Update(cmd, running, crash));
    if d.pending.Pending? && !d.prev.Missing? {
      PrevIsInstalledByThirdBoot(d);
    } else {
      QuietBoots(d, 3);
    }
  }

  lemma AfterOneMore(start: System, steps: seq<Step>, step: Step)
    ensures After(start, steps + [step]) == Apply(After(start, steps), step)
  {
    assert (steps + [step])[..|steps|] == steps;
  }

  /** A reachable failure: an update dies between its marker and its swap, the old binary starts
      and reports healthy, which does not clear a marker for another version, and the retried
      update dies in its backup copy. The third start then installs the torn copy. */
  lemma RetriedUpdateInstallsTornCopy(start: System, cmd: Command, running: string)
    requires start.disk.install == Whole(start.good) && !start.disk.pending.Pending? && start.disk.count == 0
    requires Installs(cmd, running) && cmd.target != start.good.version
    ensures var steps := [Update(cmd, running, 6), BootUp(2), ReportHealthy(1), Update(cmd, running, 3),
                          BootUp(2), BootUp(2), BootUp(4)];
            After(start, steps).disk.install == Partial
  {
    var s1 := [Update(cmd, running, 6)];
    var s2 := s1 + [BootUp(2)];
    var s3 := s2 + [ReportHealthy(1)];
    var s4 := s3 + [Update(cmd, running, 3)];
    var s5 := s4 + [BootUp(2)];
    var s6 := s5 + [BootUp(2)];
    AfterOneMore(start, [], Update(cmd, running, 6));
    assert [] + s1 == s1;
    AfterOneMore(start, s1, BootUp(2));
    AfterOneMore(start, s2, ReportHealthy(1));
    AfterOneMore(start, s3, Update(cmd, running, 3));
    var d := After(start, s4).disk;
    assert d.prev.Partial? && d.pending.Pending? && d.count == 0;
    AfterOneMore(start, s4, BootUp(2));
    AfterOneMore(start, s5, BootUp(2));
    AfterOneMore(start, s6, BootUp(4));
    assert s6 + [BootUp(4)] == [Update(cmd, running, 6), BootUp(2), ReportHealthy(1), Update(cmd, running, 3),
                                BootUp(2), BootUp(2), BootUp(4)];
  }

  // ---------------------------------------------------------------- counters left behind or torn

  /** A confirmation cut short between clearing the marker and clearing the counter leaves the
      count behind: the next update gets 2 - count starts to report healthy, not two, and none at
      all when the count was 2. */
  lemma InterruptedConfirmationShortensNextTrial(d: Disk, cmd: Command, running: string, k: nat)
    requires d.install.Whole? && d.pending == Pending(d.install.bin.version)
    requires cmd.manifestOk && (cmd.force || cmd.target != running) && cmd.download.Good?
    requires cmd.bin != d.install.bin && k >= 1
    ensures var stale := At(HealthyTrace(d), 2);
            var updated := ApplyTrace(stale, cmd, running);
            && !stale.pending.Pending?
            && Swapped(updated[|updated| - 1], d.install.bin, cmd.bin)
            && (Boots(updated[|updated| - 1], k).install == d.install <==> k + d.count >= 3)
  {
    var updated := ApplyTrace(At(HealthyTrace(d), 2), cmd, running);
    UnhealthyBinaryIsReplaced(updated[|updated| - 1], d.install.bin, cmd.bin, k);
  }

  function TornBoots(d: Disk, k: nat): Disk {
    if k == 0 then d else At(BootTrace(TornBoots(d, k - 1)), 1)
  }

  /** Starts that die while the counter file is rewritten are not counted: the unhealthy binary
      stays, however many of them there are. */
  lemma {:induction false} TornCounterNeverRollsBack(d: Disk, good: Bin, bad: Bin, k: nat)
    requires Swapped(d, good, bad) && d.count < 2
    ensures Swapped(TornBoots(d, k), good, bad) && (k >= 1 ==> TornBoots(d, k).count == 0)
    decreases k
  {
    if k > 0 { TornCounterNeverRollsBack(d, good, bad, k - 1); }
  }

  // ---------------------------------------------------------------- starts that crash anywhere

  /** Starts in a row, start `i` killed after `crashes[i]` file operations. */
  function CrashyBoots(d: Disk, crashes: seq<nat>): Disk {
    if crashes == [] then d
    else At(BootTrace(CrashyBoots(d, crashes[..|crashes| - 1])), crashes[|crashes| - 1])
  }

  /** The starts that got as far as a file operation. */
  function Effective(crashes: seq<nat>): seq<nat> {
    if crashes == [] then []
    else
      Effective(crashes[..|crashes| - 1]) + if crashes[|crashes| - 1] >= 1 then [crashes[|crashes| - 1]] else []
  }

  /** Two starts in a row wrote their count, and a third one got going. */
  predicate CountedTwiceThenStarted(starts: seq<nat>) {
    exists i :: 0 <= i < |starts| - 2 && starts[i] >= 2 && starts[i + 1] >= 2
  }

  /** How many starts at the end wrote their count. */
  function Streak(starts: seq<nat>): nat {
    if starts == [] || starts[|starts| - 1] < 2 then 0 else 1 + Streak(starts[..|starts| - 1])
  }

  lemma StreakOfTwo(starts: seq<nat>)
    ensures Streak(starts) >= 2 <==> |starts| >= 2 && starts[|starts| - 1] >= 2 && starts[|starts| - 2] >= 2
  {
    if |starts| >= 2 { assert starts[..|starts| - 1][|starts| - 2] == starts[|starts| - 2]; }
  }

  lemma OneMoreStart(starts: seq<nat>, c: nat)
    ensures CountedTwiceThenStarted(starts + [c]) <==> CountedTwiceThenStarted(starts) || Streak(starts) >= 2
    ensures Streak(starts + [c]) == if c < 2 then 0 else 1 + Streak(starts)
  {
    var more := starts + [c];
    StreakOfTwo(starts);
    assert more[..|more| - 1] == starts;
    if CountedTwiceThenStarted(starts) {
      var i :| 0 <= i < |starts| - 2 && starts[i] >= 2 && starts[i + 1] >= 2;
      assert more[i] >= 2 && more[i + 1] >= 2;
    }
    if Streak(starts) >= 2 {
      assert more[|starts| - 2] >= 2 && more[|starts| - 2 + 1] >= 2;
    }
    if CountedTwiceThenStarted(more) {
      var i :| 0 <= i < |more| - 2 && more[i] >= 2 && more[i + 1] >= 2;
      assert starts[i] >= 2 && starts[i + 1] >= 2;
    }
  }

  /** The old binary is back and no backup is left that another rollback could install. */
  predicate Replaced(d: Disk, good: Bin) {
    d.install == Whole(good) && (d.pending.Pending? ==> d.prev.Missing?)
  }

  lemma OneMoreBoot(d: Disk, good: Bin, bad: Bin, c: nat)
    ensures Replaced(d, good) ==> Replaced(At(BootTrace(d), c), good)
    ensures Swapped(d, good, bad) && c >= 1 && d.count >= 2 ==> Replaced(At(BootTrace(d), c), good)
    ensures Swapped(d, good, bad) && c >= 1 && d.count < 2 ==>
              var next := At(BootTrace(d), c);
              Swapped(next, good, bad) && next.count == if c < 2 then 0 else d.count + 1
  {
  }

  /** A count found on the disk is as good as that many counted starts. */
  function Earlier(count: nat): seq<nat> {
    if count == 0 then [] else if count == 1 then [2] else [2, 2]
  }

  /** `count` and `streak` agree as far as the boot branch can tell. */
  predicate SameCount(count: nat, streak: nat) {
    count == streak || (count >= 2 && streak >= 2)
  }

  lemma EarlierStreak(count: nat)
    ensures SameCount(count, Streak(Earlier(count))) && !CountedTwiceThenStarted(Earlier(count))
  {
    StreakOfTwo([2, 2]);
    assert Streak([2]) == 1 + Streak([2][..0]);
  }

  lemma {:induction false} CrashyBootsCount(d: Disk, good: Bin, bad: Bin, crashes: seq<nat>)
    requires Swapped(d, good, bad)
    ensures var end, starts := CrashyBoots(d, crashes), Earlier(d.count) + Effective(crashes);
            if CountedTwiceThenStarted(starts) then Replaced(end, good)
            else Swapped(end, good, bad) && SameCount(end.count, Streak(starts))
    decreases |crashes|
  {
    if crashes == [] {
      EarlierStreak(d.count);
      assert Earlier(d.count) + [] == Earlier(d.count);
    } else {
      var before, c := crashes[..|crashes| - 1], crashes[|crashes| - 1];
      var starts := Earlier(d.count) + Effective(before);
      CrashyBootsCount(d, good, bad, before);
      OneMoreStart(starts, c);
      OneMoreBoot(CrashyBoots(d, before), good, bad, c);
      if c == 0 {
        assert Effective(crashes) == Effective(before);
      } else {
        assert Earlier(d.count) + Effective(crashes) == starts + [c];
      }
    }
  }

  /** For starts that crash anywhere and any count found on the disk: an unhealthy binary is
      replaced by the old one exactly when two effective starts in a row were counted, those behind
      the found count included, and another one followed. */
  lemma {:induction false} UnhealthyReplacedExactly(d: Disk, good: Bin, bad: Bin, crashes: seq<nat>)
    requires Swapped(d, good, bad) && good != bad
    ensures CrashyBoots(d, crashes).install == Whole(good) <==>
            CountedTwiceThenStarted(Earlier(d.count) + Effective(crashes))
  {
    CrashyBootsCount(d, good, bad, crashes);
  }
}
