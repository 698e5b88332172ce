/** The development refresh: it leaves evidence before it touches anything, and
    removes the evidence last. A throw or a crash may come at any step. */
module DevelopmentRefresh {
  import opened Basics

  type Digest = nat

  /** Installed bytes: exactly one payload's, or something else. */
  datatype Bytes = Exactly(digest: Digest) | Torn

  /** What survives a crash. `other` is any other unfinished maintenance record. */
  datatype Disk = Disk(
    marker: Option<nat>, other: bool, plugin: Bytes, bridge: Bytes, pointer: Option<Digest>)

  predicate Evidence(d: Disk) { d.marker.Some? || d.other }

  /** Both installed packages and the selected pointer are the payload's. */
  predicate IsWhole(d: Disk, payload: Digest) {
    d.plugin == Exactly(payload) && d.bridge == Exactly(payload) && d.pointer == Some(payload)
  }

  predicate SameComponents(a: Disk, b: Disk) {
    a.plugin == b.plugin && a.bridge == b.bridge && a.pointer == b.pointer
  }

  datatype Installer = Installer(leaves: Bytes, throws: bool)
  datatype Selection = SelectDone | SelectRefused | SelectThrewAfterWriting

  /** How each step of one installation goes. The Home lock is released after the
      marker is gone, and its release may throw. */
  datatype Script = Script(
    reserved: bool, residue: bool, isManager: bool, leaseFree: bool, homeLockFree: bool,
    evidenceId: nat, markerThrows: bool,
    copyPluginThrows: bool, plugin: Installer, copyBridgeThrows: bool, bridge: Installer,
    firstReleaseThrows: bool, selection: Selection, foreignMarker: Option<nat>,
    unlinkThrows: bool, homeReleaseThrows: bool, lastReleaseThrows: bool)

  /** How the steps around the installation go; the cold-start lock is released last of all. */
  datatype Surroundings = Surroundings(
    inputsValid: bool, firstLaunch: bool, managerReady: bool, coldLockFree: bool,
    homeLockFree: bool, staged: bool, serviceStopped: bool, coldReleaseThrows: bool)

  datatype Status = FirstInstall | Current | Updated | Threw

  // ---- the disk states of one refresh, in order ----

  /** The writes of the commit, whether they were all made, and whether the lease was let go. */
  datatype CommitRun = CommitRun(writes: seq<Disk>, leaseReleased: bool, done: bool)

  /** The marker and the two installations; whether the third write was made and nothing threw. */
  function RunPlacing(d: Disk, s: Script): (seq<Disk>, bool) {
    if s.markerThrows then ([], false)
    else
      var marked := d.(marker := Some(s.evidenceId));
      if s.copyPluginThrows then ([marked], false)
      else
        var half := marked.(plugin := s.plugin.leaves);
        if s.plugin.throws || s.copyBridgeThrows then ([marked, half], false)
        else ([marked, half, half.(bridge := s.bridge.leaves)], !s.bridge.throws)
  }

  function RunCommit(d: Disk, payload: Digest, s: Script): CommitRun {
    var (writes, placed) := RunPlacing(d, s);
    if !placed || s.plugin.leaves != Exactly(payload) || s.bridge.leaves != Exactly(payload) || s.firstReleaseThrows
    then CommitRun(writes, false, false)
    else if s.selection.SelectRefused? then CommitRun(writes, true, false)
    else RunSelected(writes[2].(pointer := Some(payload)), writes, s)
  }

  /** From the written pointer on. */
  function RunSelected(d: Disk, writes: seq<Disk>, s: Script): CommitRun {
    if s.selection.SelectThrewAfterWriting? then CommitRun(writes + [d], true, false)
    else
      var seen := if s.foreignMarker.Some? then d.(marker := s.foreignMarker) else d;
      var more := writes + if s.foreignMarker.Some? then [d, seen] else [d];
      if seen.marker != Some(s.evidenceId) || s.unlinkThrows then CommitRun(more, true, false)
      else CommitRun(more + [seen.(marker := None)], true, true)
  }

  /** Whether the installation gets as far as the commit. */
  predicate Installs(d: Disk, s: Script) { TakesLease(d, s) && s.homeLockFree }

  /** The lease is taken once nothing speaks against the installation. */
  predicate TakesLease(d: Disk, s: Script) {
    s.reserved && !Evidence(d) && !s.residue && s.isManager && s.leaseFree
  }

  /** When the lease is still held at the end: it was not released before the pointer
      was written, because the Home was busy or a step before that threw or failed its
      check, and the last attempt to release it threw too. */
  predicate LeaseStays(d: Disk, payload: Digest, s: Script) {
    TakesLease(d, s) && s.lastReleaseThrows && !(s.homeLockFree && RunCommit(d, payload, s).leaseReleased)
  }

  function InstallWrites(d: Disk, payload: Digest, s: Script): seq<Disk> {
    if Installs(d, s) then RunCommit(d, payload, s).writes else []
  }

  predicate Commits(d: Disk, payload: Digest, s: Script) {
    Installs(d, s) && RunCommit(d, payload, s).done
  }

  /** Whether the refresh gets as far as the installation. */
  predicate Proceeds(d: Disk, payload: Digest, around: Surroundings) {
    && around.inputsValid && !Evidence(d) && !around.firstLaunch && around.managerReady
    && !(d.plugin == Exactly(payload) && d.pointer == Some(payload))
    && around.coldLockFree && around.homeLockFree && around.staged && around.serviceStopped
  }

  function RefreshTrace(d: Disk, payload: Digest, around: Surroundings, s: Script): (trace: seq<Disk>)
    ensures trace != [] && trace[0] == d
  {
    if Proceeds(d, payload, around) then [d] + InstallWrites(d, payload, s) else [d]
  }

  function Last(trace: seq<Disk>): Disk
    requires trace != []
  {
    trace[|trace| - 1]
  }

  function RefreshStatus(d: Disk, payload: Digest, around: Surroundings, s: Script): Status {
    if !around.inputsValid || Evidence(d) then Threw
    else if around.firstLaunch then FirstInstall
    else if !around.managerReady then Threw
    else if d.plugin == Exactly(payload) && d.pointer == Some(payload) then
      if d.bridge == Exactly(payload) then Current else Threw
    else if Proceeds(d, payload, around) && Commits(d, payload, s) && !s.homeReleaseThrows && !around.coldReleaseThrows
    then Updated
    else Threw
  }

  class Home {
    var disk: Disk
    ghost var trace: seq<Disk>
    var leaseHeld: bool
    var acquired: nat
    var released: nat

    constructor (d: Disk)
      ensures disk == d && trace == [d] && !leaseHeld && acquired == released == 0
    {
      disk, trace := d, [d];
      leaseHeld, acquired, released := false, 0, 0;
    }

    method Write(d: Disk)
      modifies this`disk, this`trace
      ensures disk == d && trace == old(trace) + [d]
    {
      disk := d;
      trace := trace + [d];
    }

    /** The marker, and each archive copied and installed. */
    method Place(s: Script) returns (placed: bool)
      requires trace != [] && disk == Last(trace)
      modifies this`disk, this`trace
      ensures placed == RunPlacing(old(disk), s).1 && trace == old(trace) + RunPlacing(old(disk), s).0
      ensures trace != [] && disk == Last(trace)
      ensures placed ==> disk.plugin == s.plugin.leaves && disk.bridge == s.bridge.leaves
    {
      placed := false;
      if s.markerThrows {
        return;
      }
      Write(disk.(marker := Some(s.evidenceId)));
      if s.copyPluginThrows {
        return;
      }
      Write(disk.(plugin := s.plugin.leaves));
      if s.plugin.throws || s.copyBridgeThrows {
        return;
      }
      Write(disk.(bridge := s.bridge.leaves));
      placed := !s.bridge.throws;
    }

    /** The steps under both locks: marker, archives and installs, verification,
        release of the lease, pointer, removal of the marker. */
    method Commit(payload: Digest, s: Script) returns (done: bool, leaseReleased: bool)
      requires leaseHeld && trace != [] && disk == Last(trace)
      modifies this
      ensures var r := RunCommit(old(disk), payload, s);
              done == r.done && leaseReleased == r.leaseReleased && trace == old(trace) + r.writes
      ensures trace != [] && disk == Last(trace) && acquired == old(acquired)
      ensures leaseHeld == !leaseReleased && released == old(released) + if leaseReleased then 1 else 0
    {
      done, leaseReleased := false, false;
      var placed := Place(s);
      if !placed || disk.plugin != Exactly(payload) || disk.bridge != Exactly(payload) || s.firstReleaseThrows {
        return;
      }
      leaseHeld, released, leaseReleased := false, released + 1, true;
      if s.selection.SelectRefused? {
        return;
      }
      ghost var before := trace;
      Write(disk.(pointer := Some(payload)));
      done := AfterSelection(s, before);
    }

    /** From the written pointer on: the marker is read again and removed. */
    method AfterSelection(s: Script, ghost before: seq<Disk>) returns (done: bool)
      requires trace == before + [disk]
      modifies this`disk, this`trace
      ensures forall writes :: RunSelected(old(disk), writes, s).done == done &&
                RunSelected(old(disk), writes, s).leaseReleased
      ensures forall earlier, writes :: before == earlier + writes ==>
                trace == earlier + RunSelected(old(disk), writes, s).writes
      ensures trace != [] && disk == Last(trace)
    {
      done := false;
      if s.selection.SelectThrewAfterWriting? {
        return;
      }
      if s.foreignMarker.Some? {
        Write(disk.(marker := s.foreignMarker));
      }
      if disk.marker != Some(s.evidenceId) || s.unlinkThrows {
        return;
      }
      Write(disk.(marker := None));
      done := true;
    }

    /** `installDevelopmentPayload`: the lease is acquired, then released exactly
        once, except exactly where `LeaseStays`. */
    method InstallPayload(payload: Digest, s: Script) returns (ok: bool)
      requires !leaseHeld && trace != [] && disk == Last(trace)
      modifies this
      ensures trace == old(trace) + InstallWrites(old(disk), payload, s) && disk == Last(trace)
      ensures ok <==> Commits(old(disk), payload, s) && !s.homeReleaseThrows
      ensures acquired == old(acquired) + if TakesLease(old(disk), s) then 1 else 0
      ensures acquired - old(acquired) == released - old(released) + if leaseHeld then 1 else 0
      ensures leaseHeld <==> LeaseStays(old(disk), payload, s)
      ensures acquired > old(acquired) <==>
                s.reserved && old(disk).marker.None? && !old(disk).other && !s.residue && s.isManager && s.leaseFree
      ensures trace != old(trace) ==> acquired > old(acquired) && s.homeLockFree && !s.markerThrows
    {
      if !s.reserved || Evidence(disk) || s.residue || !s.isManager || !s.leaseFree {
        return false;
      }
      leaseHeld, acquired := true, acquired + 1;
      var leaseReleased := false;
      ok := false;
      if s.homeLockFree {
        ok, leaseReleased := Commit(payload, s);
        if s.homeReleaseThrows {
          ok := false;
        }
      }
      // The finally block.
      if !leaseReleased {
        ok := false;
        if !s.lastReleaseThrows {
          leaseHeld, released := false, released + 1;
        }
      }
    }

    /** `refreshDevelopmentRuntime`. */
    method Refresh(payload: Digest, around: Surroundings, s: Script) returns (status: Status)
      requires trace == [disk] && !leaseHeld
      modifies this
      ensures trace == RefreshTrace(old(disk), payload, around, s) && disk == Last(trace)
      ensures status == RefreshStatus(old(disk), payload, around, s)
      ensures acquired == old(acquired) +
                if Proceeds(old(disk), payload, around) && TakesLease(old(disk), s) then 1 else 0
      ensures acquired - old(acquired) == released - old(released) + if leaseHeld then 1 else 0
      ensures leaseHeld <==> Proceeds(old(disk), payload, around) && LeaseStays(old(disk), payload, s)
    {
      if !around.inputsValid || Evidence(disk) {
        return Threw;
      }
      if around.firstLaunch {
        return FirstInstall;
      }
      if !around.managerReady {
        return Threw;
      }
      if disk.plugin == Exactly(payload) && disk.pointer == Some(payload) {
        return if disk.bridge == Exactly(payload) then Current else Threw;
      }
      if !around.coldLockFree {
        return Threw;
      }
      status := Threw;
      if around.homeLockFree && around.staged && around.serviceStopped {
        var ok := InstallPayload(payload, s);
        if ok {
          status := Updated;
        }
      }
      if around.coldReleaseThrows {
        status := Threw;
      }
    }
  }

  // ---- what one refresh leaves, wherever it ends ----

  /** Nothing is written after evidence was found; and whenever no evidence is on the
      disk, the components are those at the start, or wholly the payload's. */
  ghost predicate SafeTrace(start: Disk, trace: seq<Disk>, payload: Digest) {
    && trace != [] && trace[0] == start
    && (Evidence(start) ==> trace == [start])
    && (forall i :: 0 <= i < |trace| && !Evidence(trace[i]) ==>
          SameComponents(start, trace[i]) || IsWhole(trace[i], payload))
  }

  /** During the commit the evidence is there until everything is the payload's. */
  lemma CommitIsSafe(d: Disk, payload: Digest, s: Script)
    requires !Evidence(d)
    ensures var r := RunCommit(d, payload, s);
            && (forall i :: 0 <= i < |r.writes| && !Evidence(r.writes[i]) ==>
                  i == |r.writes| - 1 && r.done && IsWhole(r.writes[i], payload))
            && (r.done ==> r.writes != [] && r.leaseReleased)
            && (r.done ==> !Evidence(Last(r.writes)) && IsWhole(Last(r.writes), payload))
  {
  }

  lemma RefreshIsSafe(d: Disk, payload: Digest, around: Surroundings, s: Script)
    ensures SafeTrace(d, RefreshTrace(d, payload, around, s), payload)
  {
    var trace := RefreshTrace(d, payload, around, s);
    if Proceeds(d, payload, around) {
      CommitIsSafe(d, payload, s);
      assert forall i :: 0 < i < |trace| ==> trace[i] == InstallWrites(d, payload, s)[i - 1];
    }
  }

  /** An update that is reported is complete, and a current state is left alone. */
  lemma StatusIsTrue(d: Disk, payload: Digest, around: Surroundings, s: Script)
    ensures var end := Last(RefreshTrace(d, payload, around, s));
            match RefreshStatus(d, payload, around, s)
            case Updated => !Evidence(end) && IsWhole(end, payload)
            case Current => end == d && IsWhole(d, payload)
            case FirstInstall => end == d
            case Threw => Evidence(end) || end == d || IsWhole(end, payload)
  {
    if !Evidence(d) {
      CommitIsSafe(d, payload, s);
    }
    RefreshIsSafe(d, payload, around, s);
  }

  /** A refresh that throws and leaves no evidence has changed the components exactly
      when the commit was complete and the release of the Home lock or of the
      cold-start lock threw after it; they are then wholly the payload's. */
  lemma ThrownYetChanged(d: Disk, payload: Digest, around: Surroundings, s: Script)
    ensures var end := Last(RefreshTrace(d, payload, around, s));
            && (RefreshStatus(d, payload, around, s) == Threw && !Evidence(end) && !SameComponents(d, end)
                <==> Proceeds(d, payload, around) && Commits(d, payload, s) &&
                     (s.homeReleaseThrows || around.coldReleaseThrows))
            && (Proceeds(d, payload, around) && Commits(d, payload, s) ==> !Evidence(end) && IsWhole(end, payload))
            && (RefreshStatus(d, payload, around, s) == Threw && !Evidence(end) && SameComponents(d, end) ==> end == d)
  {
    var trace := RefreshTrace(d, payload, around, s);
    if Proceeds(d, payload, around) && Installs(d, s) {
      CommitIsSafe(d, payload, s);
      var writes := RunCommit(d, payload, s).writes;
      assert trace == [d] + writes;
      assert writes != [] ==> Last(trace) == writes[|writes| - 1];
    }
  }

  /** Such a run: everything goes well, and then the Home lock cannot be released. */
  lemma ReleaseThrowsAfterCommit(before: Digest, payload: Digest)
    returns (d: Disk, around: Surroundings, s: Script)
    requires before != payload
    ensures d == Disk(None, false, Exactly(before), Exactly(before), Some(before))
    ensures RefreshStatus(d, payload, around, s) == Threw
    ensures Last(RefreshTrace(d, payload, around, s)) == Disk(None, false, Exactly(payload), Exactly(payload), Some(payload))
  {
    d := Disk(None, false, Exactly(before), Exactly(before), Some(before));
    around := Surroundings(true, false, true, true, true, true, true, false);
    var clean := Installer(Exactly(payload), false);
    s := Script(true, false, true, true, true, 0, false, false, clean, false, clean, false, SelectDone, None, false, true, false);
  }

  /** A refresh that ends with the lease held throws, and has not moved the pointer. */
  lemma HeldLeaseMovesNothing(d: Disk, payload: Digest, around: Surroundings, s: Script)
    requires Proceeds(d, payload, around) && LeaseStays(d, payload, s)
    ensures RefreshStatus(d, payload, around, s) == Threw
    ensures Last(RefreshTrace(d, payload, around, s)).pointer == d.pointer
  {
    if s.homeLockFree {
      assert RefreshTrace(d, payload, around, s) == [d] + RunCommit(d, payload, s).writes;
    }
  }

  /** Such a run: both payloads are in place, and neither attempt to release the lease
      goes through. */
  lemma LeaseLeftHeld(before: Digest, payload: Digest) returns (d: Disk, around: Surroundings, s: Script)
    requires before != payload
    ensures d == Disk(None, false, Exactly(before), Exactly(before), Some(before))
    ensures Proceeds(d, payload, around) && LeaseStays(d, payload, s)
    ensures Last(RefreshTrace(d, payload, around, s))
         == Disk(Some(s.evidenceId), false, Exactly(payload), Exactly(payload), Some(before))
  {
    d := Disk(None, false, Exactly(before), Exactly(before), Some(before));
    around := Surroundings(true, false, true, true, true, true, true, false);
    var clean := Installer(Exactly(payload), false);
    s := Script(true, false, true, true, true, 0, false, false, clean, false, clean, true, SelectDone, None, false, false, true);
  }

  // ---- the same in the fields of the disk, the surroundings and the throws ----

  /** Every gate before the first write, in the order they are passed. */
  ghost predicate GatesPassed(d: Disk, payload: Digest, around: Surroundings, s: Script) {
    && around.inputsValid && d.marker.None? && !d.other && !around.firstLaunch && around.managerReady
    && (d.plugin != Exactly(payload) || d.pointer != Some(payload))
    && around.coldLockFree && around.homeLockFree && around.staged && around.serviceStopped
    && s.reserved && !s.residue && s.isManager && s.leaseFree
  }

  /** The lease is taken exactly past every gate, and something is written exactly when
      the Home lock is got then and the marker does not throw. One gate that fails is
      enough for the disk to stay as it is. */
  lemma GatesExactly(d: Disk, payload: Digest, around: Surroundings, s: Script)
    ensures Proceeds(d, payload, around) && TakesLease(d, s) <==> GatesPassed(d, payload, around, s)
    ensures RefreshTrace(d, payload, around, s) != [d] <==>
              GatesPassed(d, payload, around, s) && s.homeLockFree && !s.markerThrows
  {
    if Proceeds(d, payload, around) && Installs(d, s) && !s.markerThrows {
      assert RunCommit(d, payload, s).writes != [];
    }
  }

  /** Both packages are in place and verified, and the lease was let go before the pointer. */
  ghost predicate ReachedSelection(payload: Digest, s: Script) {
    && s.homeLockFree && !s.markerThrows
    && !s.copyPluginThrows && s.plugin == Installer(Exactly(payload), false)
    && !s.copyBridgeThrows && s.bridge == Installer(Exactly(payload), false)
    && !s.firstReleaseThrows
  }

  /** Which status is answered, and when the commit is complete. */
  lemma StatusExactly(d: Disk, payload: Digest, around: Surroundings, s: Script)
    ensures RefreshStatus(d, payload, around, s) == FirstInstall <==>
              around.inputsValid && d.marker.None? && !d.other && around.firstLaunch
    ensures RefreshStatus(d, payload, around, s) == Current <==>
              around.inputsValid && d.marker.None? && !d.other && !around.firstLaunch && around.managerReady &&
              d.plugin == d.bridge == Exactly(payload) && d.pointer == Some(payload)
    ensures Proceeds(d, payload, around) && Commits(d, payload, s) <==>
              GatesPassed(d, payload, around, s) && ReachedSelection(payload, s) && s.selection == SelectDone &&
              (s.foreignMarker.None? || s.foreignMarker == Some(s.evidenceId)) && !s.unlinkThrows
    ensures RefreshStatus(d, payload, around, s) == Updated <==>
              Proceeds(d, payload, around) && Commits(d, payload, s) && !s.homeReleaseThrows && !around.coldReleaseThrows
  {
  }

  /** The pointer is written, and the lease let go in time, exactly where this says. */
  lemma SelectionExactly(d: Disk, payload: Digest, around: Surroundings, s: Script)
    ensures (exists k :: 0 <= k < |RefreshTrace(d, payload, around, s)| &&
               RefreshTrace(d, payload, around, s)[k].pointer != d.pointer) <==>
              GatesPassed(d, payload, around, s) && ReachedSelection(payload, s) && !s.selection.SelectRefused? &&
              d.pointer != Some(payload)
    ensures TakesLease(d, s) ==>
              (LeaseStays(d, payload, s) <==> s.lastReleaseThrows && !ReachedSelection(payload, s))
  {
    var trace := RefreshTrace(d, payload, around, s);
    if Proceeds(d, payload, around) && Installs(d, s) {
      var r := RunCommit(d, payload, s);
      assert trace == [d] + r.writes;
      if ReachedSelection(payload, s) && !s.selection.SelectRefused? {
        assert trace[4].pointer == Some(payload);
      }
    }
  }

  /** How far it gets: each write is made exactly when nothing before it threw. */
  lemma LengthExactly(d: Disk, payload: Digest, around: Surroundings, s: Script)
    ensures var n := |RefreshTrace(d, payload, around, s)|;
            var started := GatesPassed(d, payload, around, s) && s.homeLockFree && !s.markerThrows;
            var selected := started && ReachedSelection(payload, s) && !s.selection.SelectRefused?;
            && (n > 1 <==> started)
            && (n > 2 <==> started && !s.copyPluginThrows)
            && (n > 3 <==> started && !s.copyPluginThrows && !s.plugin.throws && !s.copyBridgeThrows)
            && (n > 4 <==> selected)
            && (n > 5 <==> selected && s.selection.SelectDone? && (s.foreignMarker.Some? || !s.unlinkThrows))
            && (n > 6 <==> selected && s.selection.SelectDone? && s.foreignMarker == Some(s.evidenceId) && !s.unlinkThrows)
  {
    if Proceeds(d, payload, around) && Installs(d, s) {
      assert RefreshTrace(d, payload, around, s) == [d] + RunCommit(d, payload, s).writes;
    }
  }

  /** The disk states in order: the marker, the plugin, the bridge, the pointer, and at
      last the marker away again; a run is some of these from the first on. */
  lemma StatesInOrder(d: Disk, payload: Digest, around: Surroundings, s: Script, k: nat)
    requires k < |RefreshTrace(d, payload, around, s)|
    ensures var t := RefreshTrace(d, payload, around, s);
            && t[0] == d && |t| <= 7
            && (k == 1 ==> t[1] == d.(marker := Some(s.evidenceId)))
            && (k == 2 ==> t[2] == t[1].(plugin := s.plugin.leaves))
            && (k == 3 ==> t[3] == t[2].(bridge := s.bridge.leaves))
            && (k == 4 ==> t[4] == t[3].(pointer := Some(payload)))
            && (k == 5 ==> t[5] == t[4].(marker := s.foreignMarker))
            && (k == 6 ==> s.foreignMarker.Some? && t[6] == t[5].(marker := None))
  {
    if Proceeds(d, payload, around) && Installs(d, s) {
      assert RefreshTrace(d, payload, around, s) == [d] + RunCommit(d, payload, s).writes;
    }
  }

  // ---- any sequence of refreshes, each cut short anywhere ----

  /** One refresh, cut short by a crash after the given number of disk states, or run to its end. */
  datatype Attempt = Attempt(payload: Digest, around: Surroundings, script: Script, cut: nat)

  function AttemptTrace(d: Disk, a: Attempt): (trace: seq<Disk>)
    ensures trace != [] && trace[0] == d
  {
    var whole := RefreshTrace(d, a.payload, a.around, a.script);
    if 0 < a.cut < |whole| then whole[..a.cut] else whole
  }

  lemma CrashKeepsSafe(d: Disk, a: Attempt)
    ensures SafeTrace(d, AttemptTrace(d, a), a.payload)
  {
    RefreshIsSafe(d, a.payload, a.around, a.script);
  }

  /** The attempt got through its commit, up to the last write. */
  predicate Committed(d: Disk, a: Attempt) {
    && Proceeds(d, a.payload, a.around) && Commits(d, a.payload, a.script)
    && !(0 < a.cut < |RefreshTrace(d, a.payload, a.around, a.script)|)
  }

  /** Without evidence an attempt leaves the components as it found them, until it has
      committed; they are wholly its payload's then, and stay so to its end. */
  lemma AttemptKeeps(d: Disk, a: Attempt, k: nat)
    requires k < |AttemptTrace(d, a)| && !Evidence(AttemptTrace(d, a)[k])
    ensures SameComponents(d, AttemptTrace(d, a)[k]) ||
            (Committed(d, a) && k == |AttemptTrace(d, a)| - 1 && IsWhole(AttemptTrace(d, a)[k], a.payload))
  {
    var whole := RefreshTrace(d, a.payload, a.around, a.script);
    if Proceeds(d, a.payload, a.around) && Installs(d, a.script) && k > 0 {
      CommitIsSafe(d, a.payload, a.script);
      assert whole == [d] + RunCommit(d, a.payload, a.script).writes;
      assert whole[k] == RunCommit(d, a.payload, a.script).writes[k - 1];
    }
  }

  lemma CommittedIsWhole(d: Disk, a: Attempt)
    requires Committed(d, a)
    ensures !Evidence(Last(AttemptTrace(d, a))) && IsWhole(Last(AttemptTrace(d, a)), a.payload)
  {
    CommitIsSafe(d, a.payload, a.script);
    assert Last([d] + RunCommit(d, a.payload, a.script).writes) == Last(RunCommit(d, a.payload, a.script).writes);
  }

  // ---- a history: each attempt finds the disk the one before left ----

  type Trace = t: seq<Disk> | t != [] witness [Disk(None, false, Torn, Torn, None)]

  /** What an attempt did: its disk states, and whether it committed its payload. */
  datatype Done = Done(trace: Trace, committed: bool, payload: Digest)

  function Did(d: Disk, a: Attempt): Done { Done(AttemptTrace(d, a), Committed(d, a), a.payload) }

  function History(start: Disk, attempts: seq<Attempt>): (h: seq<Done>)
    ensures |h| == |attempts|
    decreases |attempts|
  {
    if attempts == [] then []
    else
      var first := Did(start, attempts[0]);
      [first] + History(Last(first.trace), attempts[1..])
  }

  /** The disk that attempt i of a history finds. */
  function DiskBefore(start: Disk, h: seq<Done>, i: nat): Disk
    requires i <= |h|
  {
    if i == 0 then start else Last(h[i - 1].trace)
  }

  /** Each attempt of the history is a run of the refresh on the disk it finds. */
  lemma {:induction false} HistoryIsRuns(start: Disk, attempts: seq<Attempt>, i: nat)
    requires i < |attempts|
    ensures var h := History(start, attempts);
            h[i] == Did(DiskBefore(start, h, i), attempts[i])
    decreases i
  {
    if i == 0 {
    } else {
      HistoryIsRuns(Last(Did(start, attempts[0]).trace), attempts[1..], i - 1);
    }
  }

  /** What the last attempt before i that committed left, or the start. */
  function LastCommitted(start: Disk, h: seq<Done>, i: nat): Disk
    requires i <= |h|
  {
    if i == 0 then start
    else if h[i - 1].committed then Last(h[i - 1].trace)
    else LastCommitted(start, h, i - 1)
  }

  /** What is needed of an attempt that finds the disk d. */
  ghost predicate Sound(d: Disk, x: Done) {
    && SafeTrace(d, x.trace, x.payload)
    && (forall k :: 0 <= k < |x.trace| ==> KeptAt(d, x, k))
    && (x.committed ==> !Evidence(Last(x.trace)) && IsWhole(Last(x.trace), x.payload))
  }

  predicate KeptAt(d: Disk, x: Done, k: nat)
    requires k < |x.trace|
  {
    !Evidence(x.trace[k]) ==>
      || SameComponents(d, x.trace[k])
      || (x.committed && k == |x.trace| - 1 && IsWhole(x.trace[k], x.payload))
  }

  ghost predicate SoundHistory(start: Disk, h: seq<Done>) {
    forall i :: 0 <= i < |h| ==> SoundAt(start, h, i)
  }

  ghost predicate SoundAt(start: Disk, h: seq<Done>, i: nat)
    requires i < |h|
  {
    Sound(DiskBefore(start, h, i), h[i])
  }

  lemma DidIsSound(d: Disk, a: Attempt)
    ensures Sound(d, Did(d, a))
  {
    CrashKeepsSafe(d, a);
    var x := Did(d, a);
    forall k | 0 <= k < |x.trace| ensures KeptAt(d, x, k) {
      if !Evidence(x.trace[k]) {
        AttemptKeeps(d, a, k);
      }
    }
    if x.committed {
      CommittedIsWhole(d, a);
    }
  }

  lemma HistoryIsSound(start: Disk, attempts: seq<Attempt>)
    ensures SoundHistory(start, History(start, attempts))
  {
    var h := History(start, attempts);
    forall i | 0 <= i < |h| ensures SoundAt(start, h, i) {
      HistoryIsRuns(start, attempts, i);
      DidIsSound(DiskBefore(start, h, i), attempts[i]);
    }
  }

  /** Between two attempts, without evidence the last commit is what is there. */
  lemma {:induction false} BetweenAttempts(start: Disk, h: seq<Done>, i: nat)
    requires SoundHistory(start, h) && i <= |h| && !Evidence(DiskBefore(start, h, i))
    ensures SameComponents(LastCommitted(start, h, i), DiskBefore(start, h, i))
  {
    if i == 0 {
    } else {
      var d, x := DiskBefore(start, h, i - 1), h[i - 1];
      assert SoundAt(start, h, i - 1);
      assert !Evidence(d);
      BetweenAttempts(start, h, i - 1);
      assert KeptAt(d, x, |x.trace| - 1);
    }
  }

  /** The start while nothing has committed, else wholly the payload of the last attempt
      that did. */
  ghost predicate CommittedOrStart(start: Disk, h: seq<Done>, i: nat, d: Disk)
    requires i <= |h|
  {
    || (d == start && NoneCommitted(h, 0, i))
    || exists j :: 0 <= j < i && LastOneCommitted(h, j, i) && !Evidence(d) && IsWhole(d, h[j].payload)
  }

  predicate NoneCommitted(h: seq<Done>, from: nat, to: nat)
    requires to <= |h|
  {
    forall j :: from <= j < to ==> !h[j].committed
  }

  predicate LastOneCommitted(h: seq<Done>, j: nat, i: nat)
    requires j < i <= |h|
  {
    h[j].committed && NoneCommitted(h, j + 1, i)
  }

  lemma {:induction false} LastCommittedIs(start: Disk, h: seq<Done>, i: nat)
    requires SoundHistory(start, h) && i <= |h|
    ensures CommittedOrStart(start, h, i, LastCommitted(start, h, i))
  {
    if i == 0 {
    } else if h[i - 1].committed {
      assert SoundAt(start, h, i - 1);
      assert LastOneCommitted(h, i - 1, i);
    } else {
      LastCommittedIs(start, h, i - 1);
      var d := LastCommitted(start, h, i);
      if j :| 0 <= j < i - 1 && LastOneCommitted(h, j, i - 1) && !Evidence(d) && IsWhole(d, h[j].payload) {
        assert LastOneCommitted(h, j, i);
      }
    }
  }

  /** Whenever no evidence is on the disk, over any history of refreshes that end, throw
      or crash anywhere, plugin, bridge and pointer are untouched since the last commit,
      or this attempt has committed and they are wholly its payload's. The last commit
      left one payload whole; before any there is only the start. */
  lemma NoEvidenceNoMixture(start: Disk, attempts: seq<Attempt>, i: nat, k: nat)
    requires i < |attempts| && k < |History(start, attempts)[i].trace|
    requires !Evidence(History(start, attempts)[i].trace[k])
    ensures var h := History(start, attempts);
            && CommittedOrStart(start, h, i, LastCommitted(start, h, i))
            && (|| SameComponents(LastCommitted(start, h, i), h[i].trace[k])
                || (h[i].committed && k == |h[i].trace| - 1 && IsWhole(h[i].trace[k], attempts[i].payload)))
  {
    var h := History(start, attempts);
    HistoryIsSound(start, attempts);
    HistoryIsRuns(start, attempts, i);
    NotMixed(start, h, i, k);
  }

  lemma NotMixed(start: Disk, h: seq<Done>, i: nat, k: nat)
    requires SoundHistory(start, h) && i < |h| && k < |h[i].trace| && !Evidence(h[i].trace[k])
    ensures CommittedOrStart(start, h, i, LastCommitted(start, h, i))
    ensures || SameComponents(LastCommitted(start, h, i), h[i].trace[k])
            || (h[i].committed && k == |h[i].trace| - 1 && IsWhole(h[i].trace[k], h[i].payload))
  {
    LastCommittedIs(start, h, i);
    assert SoundAt(start, h, i) && KeptAt(DiskBefore(start, h, i), h[i], k);
    if !Evidence(DiskBefore(start, h, i)) {
      BetweenAttempts(start, h, i);
    }
  }

  lemma {:induction false} Frozen(start: Disk, h: seq<Done>, i: nat, j: nat)
    requires SoundHistory(start, h) && i < j < |h| && Evidence(Last(h[i].trace))
    ensures h[j].trace == [Last(h[i].trace)]
  {
    assert SoundAt(start, h, j);
    if j == i + 1 {
    } else {
      Frozen(start, h, i, j - 1);
    }
  }

  /** Once a refresh has left evidence, every later one leaves everything as it is. */
  lemma EvidenceFreezes(start: Disk, attempts: seq<Attempt>, i: nat, j: nat)
    requires i < j < |attempts| && Evidence(Last(History(start, attempts)[i].trace))
    ensures History(start, attempts)[j].trace == [Last(History(start, attempts)[i].trace)]
  {
    HistoryIsSound(start, attempts);
    Frozen(start, History(start, attempts), i, j);
  }
}
