/** One component handoff: the previous owner has passed its reservation to a
    launcher, which moves the selected pointer and starts the new supervisor.
    Every process may die, and every message may come, at any moment. */
module Handoff {
  import opened Basics
  import Wait = WaitForOldGone

  type Pid = nat
  type Digest = nat

  /** A process as a message names it. */
  datatype Identity = Identity(pid: Pid, startedAt: nat)

  /** The run-owner record of the Home. */
  datatype Record =
    | Free
    | Owned(owner: Pid)
    | Launching(launcher: Pid, original: Pid)
    | Authorized(launcher: Pid, original: Pid, target: Identity)

  datatype Phase = Waiting | Selected | Spawned | AuthorizedPhase | Accepted | Failed

  /** How far the launcher is. A `Record` step of the protocol is its own state,
      since the launcher may fail on either side of it. */
  datatype Pc =
    | Begin | Recorded0 | Checked | OldGone | PointerMoved | Recorded1
    | ChildStarted | Recorded2 | GotReady | TargetBound | Recorded3
    | TokenSent | GotAccepted | Done
    | Failing | Ended | Crashed

  datatype Commit = Commit(digest: Digest, oldPid: Pid, cleanStop: bool, tokenMatches: bool)

  /** `cleared` are cold starts left over from before the previous owner took the
      Home: they saw it free and may still write the pointer. */
  datatype Config = Config(launcher: Pid, original: Pid, commit: Commit, initial: Digest, cleared: set<Pid>)

  datatype State = State(
    alive: set<Pid>, everUsed: set<Pid>,
    record: Record, pointer: Digest,
    oldConnected: bool,
    pc: Pc, receipts: seq<Phase>,
    child: Option<Pid>, ready: Option<Identity>, accepted: Option<Identity>,
    token: bool,
    released: bool,            // history: the new owner has let the Home go
    cleared: set<Pid>)         // processes that saw a free Home and may still write the pointer

  datatype Event =
    // the launcher
    | RecordPhase
    | Check
    | SeeOldGone(answer: Wait.Liveness)
    | Select
    | Spawn(pid: Pid)
    | ReceiveReady(ready: Identity)
    | Authorize
    | SendToken
    | ReceiveAccepted(accepted: Identity)
    | Fail
    | RecordFailed
    | SkipFailed
    | Crash
    // everybody else
    | OldDisconnects
    | Dies(pid: Pid)
    | ChildAccepts
    | Release(pid: Pid)
    | Reclaim
    | Acquire(pid: Pid)
    | HandOn(next: Pid)
    | LaterSelect(digest: Digest)
    | RivalCheck(pid: Pid)
    | RivalWrite(pid: Pid, digest: Digest)

  /** The reservation has just been passed on; the original owner still runs. */
  ghost function Start(c: Config): State {
    State({c.launcher, c.original}, {c.launcher, c.original} + c.cleared, Launching(c.launcher, c.original), c.initial, true,
          Begin, [], None, None, None, false, false, c.cleared)
  }

  predicate Terminal(pc: Pc) { pc == Done || pc == Ended || pc == Crashed }

  /** Selection needs the current launcher occupancy, before authorization. */
  predicate MaySelect(record: Record, self: Pid) {
    record.Launching? && record.launcher == self
  }

  ghost predicate Enabled(c: Config, s: State, e: Event) {
    match e
    case RecordPhase => s.pc == Begin || s.pc == PointerMoved || s.pc == ChildStarted || s.pc == TargetBound || s.pc == GotAccepted
    case Check =>
      && s.pc == Recorded0 && c.commit.cleanStop && c.commit.tokenMatches
      && s.record.Launching? && s.record.launcher == c.launcher && s.record.original == c.commit.oldPid
    case SeeOldGone(answer) =>
      // The wait returns normally, and its answers are sound.
      && s.pc == Checked && Wait.Judged(!s.oldConnected, answer).Ok? && s.record.Launching?
      && (answer == Wait.Dead ==> s.record.original !in s.alive)
    case Select => s.pc == OldGone && MaySelect(s.record, c.launcher)
    case Spawn(pid) => s.pc == Recorded1 && pid !in s.everUsed
    case ReceiveReady(ready) => s.pc == Recorded2 && s.child == Some(ready.pid)
    case Authorize => s.pc == GotReady && s.record.Launching? && s.record.launcher == c.launcher
    case SendToken => s.pc == Recorded3
    case ReceiveAccepted(accepted) => s.pc == TokenSent && s.ready == Some(accepted)
    case Fail => !Terminal(s.pc) && s.pc != Failing
    case RecordFailed => s.pc == Failing
    case SkipFailed => s.pc == Failing
    case Crash => !Terminal(s.pc)
    case OldDisconnects => true
    case Dies(pid) => pid != c.launcher
    case ChildAccepts =>
      // Only the authorized target can accept, and only with the token.
      && s.token && s.record.Authorized? && s.child == Some(s.record.target.pid) && s.record.target.pid in s.alive
    case Release(pid) => s.record == Owned(pid) && pid in s.alive
    case Reclaim => s.record.Owned? && s.record.owner !in s.alive
    case Acquire(pid) => s.record == Free && (pid in s.alive || pid !in s.everUsed)
    case HandOn(next) => s.record.Owned? && next != c.launcher
    case LaterSelect(_) => s.record.Launching? && s.record.launcher != c.launcher
    case RivalCheck(pid) => s.record == Free && pid != c.launcher
    case RivalWrite(pid, _) => pid in s.cleared
  }

  function Written(pc: Pc): Phase {
    match pc
    case Begin => Waiting
    case PointerMoved => Selected
    case ChildStarted => Spawned
    case TargetBound => AuthorizedPhase
    case _ => Accepted
  }

  function AfterRecord(pc: Pc): Pc {
    match pc
    case Begin => Recorded0
    case PointerMoved => Recorded1
    case ChildStarted => Recorded2
    case TargetBound => Recorded3
    case _ => Done
  }

  /** Letting the Home go ends the exclusion this handoff gave. */
  ghost function LetGo(s: State, record: Record): State { s.(record := record, released := true) }

  ghost function Next(c: Config, s: State, e: Event): State
    requires Enabled(c, s, e)
  {
    match e
    case RecordPhase => s.(receipts := s.receipts + [Written(s.pc)], pc := AfterRecord(s.pc))
    case Check => s.(pc := Checked)
    case SeeOldGone(_) => s.(pc := OldGone)
    case Select => s.(pointer := c.commit.digest, pc := PointerMoved)
    case Spawn(pid) =>
      s.(alive := s.alive + {pid}, everUsed := s.everUsed + {pid}, child := Some(pid), pc := ChildStarted)
    case ReceiveReady(ready) => s.(ready := Some(ready), pc := GotReady)
    case Authorize =>
      s.(record := Authorized(c.launcher, s.record.original, if s.ready.Some? then s.ready.value else Identity(0, 0)),
         pc := TargetBound)
    case SendToken => s.(token := true, pc := TokenSent)
    case ReceiveAccepted(accepted) => s.(accepted := Some(accepted), pc := GotAccepted)
    case Fail => s.(pc := Failing)
    case RecordFailed => s.(receipts := s.receipts + [Failed], pc := Ended)
    case SkipFailed => s.(pc := Ended)
    case Crash => s.(alive := s.alive - {c.launcher}, pc := Crashed)
    case OldDisconnects => s.(oldConnected := false)
    case Dies(pid) => s.(alive := s.alive - {pid})
    case ChildAccepts => s.(record := Owned(s.record.target.pid))
    case Release(_) => LetGo(s, Free)
    case Reclaim => LetGo(s, Free)
    case Acquire(pid) => s.(record := Owned(pid), alive := s.alive + {pid}, everUsed := s.everUsed + {pid})
    case HandOn(next) => LetGo(s, Launching(next, s.record.owner))
    case LaterSelect(digest) => s.(pointer := digest)
    case RivalCheck(pid) => s.(cleared := s.cleared + {pid})
    case RivalWrite(pid, digest) => s.(cleared := s.cleared - {pid}, pointer := digest)
  }

  ghost predicate Run(c: Config, s: State, events: seq<Event>, end: State)
    decreases |events|
  {
    if events == [] then s == end
    else Enabled(c, s, events[0]) && Run(c, Next(c, s, events[0]), events[1..], end)
  }

  ghost predicate Reachable(c: Config, s: State) { exists events :: Run(c, Start(c), events, s) }

  // ---- the invariant ----

  /** Before the pointer is moved. */
  predicate Early(pc: Pc) { pc == Begin || pc == Recorded0 || pc == Checked || pc == OldGone }

  /** The launcher is still on the main path, past the wait for the old owner. */
  predicate PastWait(pc: Pc) {
    pc == OldGone || pc == PointerMoved || pc == Recorded1 || pc == ChildStarted || pc == Recorded2 || pc == GotReady
    || pc == TargetBound || pc == Recorded3 || pc == TokenSent || pc == GotAccepted || pc == Done
  }

  const PHASES := [Waiting, Selected, Spawned, AuthorizedPhase, Accepted]

  /** How many phases have been recorded at a place of the main path. */
  function Count(pc: Pc): nat {
    if pc == Begin then 0
    else if Early(pc) || pc == PointerMoved then 1
    else if pc == Recorded1 || pc == ChildStarted then 2
    else if pc == Recorded2 || pc == GotReady || pc == TargetBound then 3
    else if pc == Done then 5
    else 4
  }

  predicate MainPath(pc: Pc) { Early(pc) || PastWait(pc) }

  ghost predicate Processes(c: Config, s: State) {
    && s.alive <= s.everUsed && {c.original, c.launcher} <= s.everUsed
    && (s.child.Some? ==> s.child.value in s.everUsed && s.child.value != c.original && s.child.value != c.launcher)
    && (s.ready.Some? ==> s.child == Some(s.ready.value.pid))
    && (s.accepted.Some? ==> s.accepted == s.ready && s.token)
    && (s.token ==> s.ready.Some?)
  }

  ghost predicate Exclusion(c: Config, s: State) {
    && (!s.released ==>
          || s.record == Launching(c.launcher, c.original)
          || (s.record.Authorized? && s.record.launcher == c.launcher && s.record.original == c.original &&
              s.ready == Some(s.record.target))
          || (s.record.Owned? && s.child == Some(s.record.owner) && s.token))
    && (s.released ==> s.token && !s.record.Authorized? && (s.record.Launching? ==> s.record.launcher != c.launcher))
    && (!s.released ==> s.cleared <= c.cleared)
  }

  ghost predicate OldIsGone(c: Config, s: State) {
    && (PastWait(s.pc) || s.child.Some? ==> c.original !in s.alive && !s.oldConnected)
    && (c.cleared == {} && s.pointer != c.initial ==> c.original !in s.alive)
  }

  ghost predicate PointerState(c: Config, s: State) {
    && (Early(s.pc) ==> s.child.None? && s.record == Launching(c.launcher, c.original))
    && (c.cleared == {} ==>
          && (Early(s.pc) ==> s.pointer == c.initial)
          && (!s.released ==> s.pointer == c.initial || s.pointer == c.commit.digest)
          && (!s.released && (s.child.Some? || (PastWait(s.pc) && !Early(s.pc))) ==> s.pointer == c.commit.digest))
  }

  predicate PastReady(pc: Pc) {
    pc == GotReady || pc == TargetBound || pc == Recorded3 || pc == TokenSent || pc == GotAccepted || pc == Done
  }

  ghost predicate LauncherState(s: State) {
    && (s.pc == PointerMoved || s.pc == Recorded1 ==> s.child.None?)
    && (s.pc == ChildStarted || s.pc == Recorded2 ==> s.child.Some? && s.ready.None?)
    && (s.child.None? ==> s.ready.None?)
    && (PastReady(s.pc) ==> s.ready.Some?)
    && (s.pc == GotReady ==> !s.token)
    && (s.pc == TargetBound || s.pc == Recorded3 ==> s.record.Authorized? && !s.token)
    && (s.pc == TokenSent || s.pc == GotAccepted || s.pc == Done ==> s.token)
    && (s.pc == GotAccepted || s.pc == Done ==> s.accepted.Some?)
    && (s.accepted.Some? ==> s.token)
  }

  /** The first `n` phases. */
  function Recorded(n: nat): seq<Phase>
    requires n <= 5
  {
    PHASES[..n]
  }

  /** The first phases in order; off the main path at most four of them, and at
      the end perhaps the failure. */
  ghost predicate Receipts(s: State) {
    if MainPath(s.pc) then s.receipts == Recorded(Count(s.pc))
    else exists n :: 0 <= n <= 4 && BrokenOff(s, n)
  }

  ghost predicate BrokenOff(s: State, n: nat)
    requires n <= 4
  {
    && (s.receipts == Recorded(n) || (s.pc == Ended && s.receipts == Recorded(n) + [Failed]))
    && (s.token ==> n == 4)
  }

  ghost predicate Core(c: Config, s: State) {
    Processes(c, s) && Exclusion(c, s) && OldIsGone(c, s) && PointerState(c, s) && LauncherState(s)
  }

  ghost predicate Inv(c: Config, s: State) { Core(c, s) && Receipts(s) }

  lemma ProcessesKept(c: Config, s: State, e: Event)
    requires c.launcher != c.original && Core(c, s) && Enabled(c, s, e)
    ensures Processes(c, Next(c, s, e))
  {
  }

  lemma LauncherKeepsOldIsGone(c: Config, s: State, e: Event)
    requires Core(c, s) && Enabled(c, s, e) && ByLauncher(e)
    ensures OldIsGone(c, Next(c, s, e))
  {
  }

  lemma OthersKeepOldIsGone(c: Config, s: State, e: Event)
    requires c.launcher != c.original && Core(c, s) && Enabled(c, s, e) && !ByLauncher(e)
    ensures OldIsGone(c, Next(c, s, e))
  {
  }

  lemma OldIsGoneKept(c: Config, s: State, e: Event)
    requires c.launcher != c.original && Core(c, s) && Enabled(c, s, e)
    ensures OldIsGone(c, Next(c, s, e))
  {
    if ByLauncher(e) {
      LauncherKeepsOldIsGone(c, s, e);
    } else {
      OthersKeepOldIsGone(c, s, e);
    }
  }

  predicate ByLauncher(e: Event) {
    e.RecordPhase? || e.Check? || e.SeeOldGone? || e.Select? || e.Spawn? || e.ReceiveReady? || e.Authorize? ||
    e.SendToken? || e.ReceiveAccepted? || e.Fail? || e.RecordFailed? || e.SkipFailed? || e.Crash?
  }

  lemma LauncherKeepsExclusion(c: Config, s: State, e: Event)
    requires c.launcher != c.original && Core(c, s) && Enabled(c, s, e) && ByLauncher(e)
    ensures Exclusion(c, Next(c, s, e))
  {
  }

  lemma OthersKeepExclusion(c: Config, s: State, e: Event)
    requires c.launcher != c.original && Core(c, s) && Enabled(c, s, e) && !ByLauncher(e)
    ensures Exclusion(c, Next(c, s, e))
  {
  }

  lemma SelectKeepsPointerState(c: Config, s: State)
    requires PointerState(c, s) && Enabled(c, s, Select)
    ensures PointerState(c, Next(c, s, Select))
  {
  }

  lemma RecordKeepsPointerState(c: Config, s: State)
    requires PointerState(c, s) && Enabled(c, s, RecordPhase)
    ensures PointerState(c, Next(c, s, RecordPhase))
  {
  }

  lemma EndKeepsPointerState(c: Config, s: State, e: Event)
    requires PointerState(c, s) && Enabled(c, s, e) && (e.Fail? || e.RecordFailed? || e.SkipFailed? || e.Crash?)
    ensures PointerState(c, Next(c, s, e))
  {
  }

  lemma LauncherKeepsPointerState(c: Config, s: State, e: Event)
    requires PointerState(c, s) && LauncherState(s) && Enabled(c, s, e) && ByLauncher(e)
    requires !e.Select? && !e.RecordPhase? && !(e.Fail? || e.RecordFailed? || e.SkipFailed? || e.Crash?)
    ensures PointerState(c, Next(c, s, e))
  {
  }

  lemma OthersKeepPointerState(c: Config, s: State, e: Event)
    requires c.launcher != c.original && Core(c, s) && Enabled(c, s, e) && !ByLauncher(e)
    ensures PointerState(c, Next(c, s, e))
  {
  }

  lemma RecordingKeepsLauncherState(c: Config, s: State, e: Event)
    requires LauncherState(s) && Enabled(c, s, e) && (e.RecordPhase? || e.RecordFailed? || e.SkipFailed? || e.Fail? || e.Crash?)
    ensures LauncherState(Next(c, s, e))
  {
  }

  lemma MovingKeepsLauncherState(c: Config, s: State, e: Event)
    requires Core(c, s) && Enabled(c, s, e) && ByLauncher(e)
    requires !e.RecordPhase? && !e.RecordFailed? && !e.SkipFailed? && !e.Fail? && !e.Crash?
    ensures LauncherState(Next(c, s, e))
  {
  }

  lemma OthersKeepLauncherState(c: Config, s: State, e: Event)
    requires c.launcher != c.original && Core(c, s) && Enabled(c, s, e) && !ByLauncher(e)
    ensures LauncherState(Next(c, s, e))
  {
  }

  lemma ExclusionKept(c: Config, s: State, e: Event)
    requires c.launcher != c.original && Core(c, s) && Enabled(c, s, e)
    ensures Exclusion(c, Next(c, s, e)) && PointerState(c, Next(c, s, e)) && LauncherState(Next(c, s, e))
  {
    if ByLauncher(e) {
      LauncherKeepsExclusion(c, s, e);
      match e {
        case Select => SelectKeepsPointerState(c, s);
        case RecordPhase => RecordKeepsPointerState(c, s);
        case Fail => EndKeepsPointerState(c, s, e);
        case RecordFailed => EndKeepsPointerState(c, s, e);
        case SkipFailed => EndKeepsPointerState(c, s, e);
        case Crash => EndKeepsPointerState(c, s, e);
        case _ => LauncherKeepsPointerState(c, s, e);
      }
      if e.RecordPhase? || e.RecordFailed? || e.SkipFailed? || e.Fail? || e.Crash? {
        RecordingKeepsLauncherState(c, s, e);
      } else {
        MovingKeepsLauncherState(c, s, e);
      }
    } else {
      OthersKeepExclusion(c, s, e);
      OthersKeepPointerState(c, s, e);
      OthersKeepLauncherState(c, s, e);
    }
  }

  lemma RecordKeepsReceipts(c: Config, s: State)
    requires Inv(c, s) && Enabled(c, s, RecordPhase)
    ensures Receipts(Next(c, s, RecordPhase))
  {
  }

  lemma TokenAfterFour(c: Config, s: State)
    requires Processes(c, s) && LauncherState(s) && PointerState(c, s) && s.token && MainPath(s.pc)
    ensures Count(s.pc) >= 4
  {
  }

  lemma FailureKeepsReceipts(c: Config, s: State, e: Event)
    requires Receipts(s) && Enabled(c, s, e) && (s.token && MainPath(s.pc) ==> Count(s.pc) >= 4)
    requires e == Fail || e == RecordFailed || e == SkipFailed || e == Crash
    ensures Receipts(Next(c, s, e))
  {
    var next := Next(c, s, e);
    if MainPath(s.pc) {
      assert BrokenOff(next, Count(s.pc));
    } else {
      var n :| 0 <= n <= 4 && BrokenOff(s, n);
      assert BrokenOff(next, n);
    }
  }

  lemma OthersKeepReceipts(c: Config, s: State, e: Event)
    requires Inv(c, s) && Enabled(c, s, e) && Next(c, s, e).receipts == s.receipts
    requires MainPath(s.pc) ==> MainPath(Next(c, s, e).pc) && Count(Next(c, s, e).pc) == Count(s.pc)
    requires !MainPath(s.pc) ==> Next(c, s, e).pc == s.pc && Next(c, s, e).token == s.token
    ensures Receipts(Next(c, s, e))
  {
    var next := Next(c, s, e);
    if !MainPath(s.pc) {
      var n :| 0 <= n <= 4 && BrokenOff(s, n);
      assert BrokenOff(next, n);
    }
  }

  lemma ReceiptsKept(c: Config, s: State, e: Event)
    requires Inv(c, s) && Enabled(c, s, e)
    ensures Receipts(Next(c, s, e))
  {
    if e == RecordPhase {
      RecordKeepsReceipts(c, s);
    } else if e == Fail || e == RecordFailed || e == SkipFailed || e == Crash {
      if s.token && MainPath(s.pc) {
        TokenAfterFour(c, s);
      }
      FailureKeepsReceipts(c, s, e);
    } else {
      OthersKeepReceipts(c, s, e);
    }
  }

  lemma {:induction false} RunKeeps(c: Config, s: State, events: seq<Event>, end: State)
    requires c.launcher != c.original && Inv(c, s) && Run(c, s, events, end)
    ensures Inv(c, end)
    decreases |events|
  {
    if events == [] {
    } else {
      var e := events[0];
      ProcessesKept(c, s, e);
      OldIsGoneKept(c, s, e);
      ExclusionKept(c, s, e);
      ReceiptsKept(c, s, e);
      RunKeeps(c, Next(c, s, e), events[1..], end);
    }
  }

  lemma ReachableInv(c: Config, s: State)
    requires c.launcher != c.original && Reachable(c, s)
    ensures Inv(c, s)
  {
    var events :| Run(c, Start(c), events, s);
    assert Recorded(0) == [];
    RunKeeps(c, Start(c), events, s);
  }

  // ---- the results ----

  /** In any reachable state, neither does the new supervisor start nor the launcher
      select while the previous owner is alive or still connected; nor does anybody
      move the pointer while it is alive, if no cold start was left over. */
  lemma NothingMovesWhileOldLives(c: Config, s: State, e: Event)
    requires c.launcher != c.original && Reachable(c, s) && Enabled(c, s, e)
    ensures Next(c, s, e).child != s.child || e.Select? ==> c.original !in s.alive && !s.oldConnected
    ensures c.cleared == {} && Next(c, s, e).pointer != s.pointer ==> c.original !in s.alive
  {
    ReachableInv(c, s);
  }

  /** No step of any process on any run moves the pointer while the previous owner lives. */
  ghost predicate Quiet(c: Config) {
    forall s, e :: Reachable(c, s) && Enabled(c, s, e) && Next(c, s, e).pointer != s.pointer ==> c.original !in s.alive
  }

  /** A left over cold start can write at once: the pointer moves and the previous
      owner is alive. */
  lemma LeftOverMovesPointer(c: Config, pid: Pid, digest: Digest)
    requires pid in c.cleared && digest != c.initial
    ensures Reachable(c, Start(c)) && Enabled(c, Start(c), RivalWrite(pid, digest))
    ensures Next(c, Start(c), RivalWrite(pid, digest)).pointer != Start(c).pointer && c.original in Start(c).alive
  {
    assert Run(c, Start(c), [], Start(c));
  }

  /** So the pointer is quiet on every run exactly when none was left over. */
  lemma QuietIffNoneLeftOver(c: Config)
    requires c.launcher != c.original
    ensures Quiet(c) <==> c.cleared == {}
  {
    if c.cleared == {} {
      forall s, e | Reachable(c, s) && Enabled(c, s, e) && Next(c, s, e).pointer != s.pointer
        ensures c.original !in s.alive
      {
        NothingMovesWhileOldLives(c, s, e);
      }
    } else {
      var pid :| pid in c.cleared;
      LeftOverMovesPointer(c, pid, c.initial + 1);
    }
  }

  /** Once gone, the previous owner stays gone. */
  lemma {:induction false} GoneStaysGone(c: Config, s: State, events: seq<Event>, end: State)
    requires c.original !in s.alive && c.original in s.everUsed && Run(c, s, events, end)
    ensures c.original !in end.alive
    decreases |events|
  {
    if events == [] {
    } else {
      GoneStaysGone(c, Next(c, s, events[0]), events[1..], end);
    }
  }

  /** The receipts are the first phases in order, followed by a failure only
      when the last phase was not recorded. */
  lemma ReceiptOrder(c: Config, s: State)
    requires c.launcher != c.original && Reachable(c, s)
    ensures exists n :: 0 <= n <= 5 && (s.receipts == Recorded(n) || (n < 5 && s.receipts == Recorded(n) + [Failed]))
  {
    ReachableInv(c, s);
    if MainPath(s.pc) {
      assert s.receipts == Recorded(Count(s.pc));
    } else {
      var n :| 0 <= n <= 4 && BrokenOff(s, n);
      assert s.receipts == Recorded(n) || s.receipts == Recorded(n) + [Failed];
    }
  }

  /** The token leaves the launcher only for the process it spawned, which named
      itself ready, and only after its authorization was recorded. */
  lemma TokenAfterAuthorization(c: Config, s: State)
    requires c.launcher != c.original && Reachable(c, s) && s.token
    ensures s.ready.Some? && s.child == Some(s.ready.value.pid)
    ensures Recorded(4) <= s.receipts
    ensures s.record.Authorized? ==> s.record.target == s.ready.value
  {
    ReachableInv(c, s);
    if MainPath(s.pc) {
      assert Count(s.pc) >= 4;
      assert Recorded(4) <= Recorded(5);
    }
  }

  /** An accepted receipt means the child's two messages name the same process,
      the one spawned, and the previous owner is gone. */
  lemma AcceptedAgrees(c: Config, s: State)
    requires c.launcher != c.original && Reachable(c, s) && Accepted in s.receipts
    ensures s.accepted.Some? && s.accepted == s.ready && s.child == Some(s.accepted.value.pid)
    ensures c.original !in s.alive && s.token
  {
    AcceptedIsDone(c, s);
  }

  lemma AcceptedIsDone(c: Config, s: State)
    requires c.launcher != c.original && Reachable(c, s) && Accepted in s.receipts
    ensures Inv(c, s) && s.pc == Done
  {
    ReachableInv(c, s);
    assert forall n :: 0 <= n <= 4 ==> Accepted !in Recorded(n);
    assert MainPath(s.pc) ==> Count(s.pc) == 5;
  }

  /** Without the token the Home stays closed to everybody else: the record is still
      this handoff's and nobody new is cleared to write the pointer. If no cold start
      was left over, the pointer is the old one or the committed one. */
  lemma FailsClosed(c: Config, s: State)
    requires c.launcher != c.original && Reachable(c, s) && !s.token
    ensures s.record.Launching? || s.record.Authorized?
    ensures s.record.launcher == c.launcher && s.record.original == c.original && s.cleared <= c.cleared
    ensures c.original in s.alive ==> s.child.None?
    ensures c.cleared == {} ==> s.pointer == c.initial || s.pointer == c.commit.digest
    ensures c.cleared == {} && c.original in s.alive ==> s.pointer == c.initial
  {
    ReachableInv(c, s);
  }

  /** Until the new owner lets the Home go, nothing moves the pointer. */
  ghost predicate Pinned(c: Config, s: State) {
    forall events, end :: Run(c, s, events, end) && end.released == s.released ==> end.pointer == c.commit.digest
  }

  /** What keeps it: the handoff is done and nobody is cleared to write. */
  ghost predicate Settled(c: Config, s: State) {
    Inv(c, s) && s.pc == Done && s.cleared == {} && s.pointer == c.commit.digest
  }

  lemma {:induction false} StaysPinned(c: Config, s: State, events: seq<Event>, end: State)
    requires c.launcher != c.original && Settled(c, s) && !s.released && Run(c, s, events, end) && !end.released
    ensures end.pointer == c.commit.digest
    decreases |events|
  {
    if events == [] {
    } else {
      var e, next := events[0], Next(c, s, events[0]);
      if next.released {
        ReleasedStays(c, next, events[1..], end);
      } else {
        ProcessesKept(c, s, e);
        OldIsGoneKept(c, s, e);
        ExclusionKept(c, s, e);
        ReceiptsKept(c, s, e);
        StaysPinned(c, next, events[1..], end);
      }
    }
  }

  lemma {:induction false} ReleasedStays(c: Config, s: State, events: seq<Event>, end: State)
    requires s.released && Run(c, s, events, end)
    ensures end.released
    decreases |events|
  {
    if events == [] {
    } else {
      ReleasedStays(c, Next(c, s, events[0]), events[1..], end);
    }
  }

  lemma TwoSteps(c: Config, s: State, a: Event, b: Event)
    requires Enabled(c, s, a) && Enabled(c, Next(c, s, a), b)
    ensures Run(c, s, [a, b], Next(c, Next(c, s, a), b))
  {
  }

  /** Some process can still move the pointer once the new owner has let go. */
  lemma ReleasedCanMove(c: Config, s: State, digest: Digest)
    requires Inv(c, s) && s.released
    ensures exists events, end :: Run(c, s, events, end) && end.released && end.pointer == digest
  {
    var other := c.launcher + 1;
    match s.record
    case Free =>
      TwoSteps(c, s, RivalCheck(other), RivalWrite(other, digest));
    case Owned(owner) =>
      TwoSteps(c, s, HandOn(other), LaterSelect(digest));
    case Launching(_, _) =>
      TwoSteps(c, s, LaterSelect(digest), LaterSelect(digest));
  }

  /** After an accepted receipt the pointer is the committed one, and stays it,
      exactly when it is the committed one now, the new owner has not let the Home go
      and no left over cold start may still write: a handoff that is recorded after the
      owner let go may find it moved already, and so may one where a left over cold
      start wrote after the selection. */
  lemma AcceptedPointerExact(c: Config, s: State)
    requires c.launcher != c.original && Reachable(c, s) && Accepted in s.receipts
    ensures Pinned(c, s) <==> !s.released && s.cleared == {} && s.pointer == c.commit.digest
    ensures c.cleared == {} ==> (Pinned(c, s) <==> !s.released)
  {
    AcceptedIsDone(c, s);
    if s.released {
      ReleasedCanMove(c, s, c.commit.digest + 1);
    } else if s.cleared != {} {
      var pid :| pid in s.cleared;
      OneStep(c, s, RivalWrite(pid, c.commit.digest + 1));
    } else if s.pointer != c.commit.digest {
      assert Run(c, s, [], s);
    } else {
      forall events, end | Run(c, s, events, end) && end.released == s.released
        ensures end.pointer == c.commit.digest
      {
        StaysPinned(c, s, events, end);
      }
    }
  }

  // ---- what a commit that is not sound leads to ----

  /** The stop was confirmed, the token is this launcher's and the commit names the
      owner that passed the reservation on. */
  predicate SoundCommit(c: Config) {
    c.commit.cleanStop && c.commit.tokenMatches && c.commit.oldPid == c.original
  }

  /** Nothing but the first receipt and a failure. */
  ghost predicate Refused(c: Config, s: State) {
    && s.child.None? && s.ready.None? && s.accepted.None? && !s.token && !s.released
    && s.record == Launching(c.launcher, c.original) && s.cleared <= c.cleared
    && (c.cleared == {} ==> s.pointer == c.initial)
    && (s.receipts == [] || s.receipts == [Waiting] || s.receipts == [Waiting, Failed] || s.receipts == [Failed])
  }

  ghost predicate RefusedInv(c: Config, s: State) {
    && Refused(c, s)
    && (s.pc == Begin || s.pc == Recorded0 || s.pc == Failing || s.pc == Ended || s.pc == Crashed)
    && (s.pc == Begin ==> s.receipts == [])
    && (s.pc == Recorded0 ==> s.receipts == [Waiting])
    && (s.pc == Failing ==> s.receipts == [] || s.receipts == [Waiting])
  }

  lemma LauncherRefused(c: Config, s: State, e: Event)
    requires !SoundCommit(c) && RefusedInv(c, s) && Enabled(c, s, e) && ByLauncher(e)
    ensures RefusedInv(c, Next(c, s, e))
  {
  }

  lemma OthersRefused(c: Config, s: State, e: Event)
    requires RefusedInv(c, s) && Enabled(c, s, e) && !ByLauncher(e)
    ensures RefusedInv(c, Next(c, s, e))
  {
  }

  lemma {:induction false} RunRefused(c: Config, s: State, events: seq<Event>, end: State)
    requires !SoundCommit(c) && RefusedInv(c, s) && Run(c, s, events, end)
    ensures RefusedInv(c, end)
    decreases |events|
  {
    if events == [] {
    } else {
      if ByLauncher(events[0]) {
        LauncherRefused(c, s, events[0]);
      } else {
        OthersRefused(c, s, events[0]);
      }
      RunRefused(c, Next(c, s, events[0]), events[1..], end);
    }
  }

  /** An unsound commit moves and starts nothing, on any run. */
  lemma UnsoundIsRefused(c: Config, s: State)
    requires !SoundCommit(c) && Reachable(c, s)
    ensures Refused(c, s)
  {
    var events :| Run(c, Start(c), events, s);
    RunRefused(c, Start(c), events, s);
  }

  /** So a selection, a start of the new supervisor, its token and its acceptance are
      each recorded on some run exactly when the commit is sound. */
  lemma CarriedThroughIffSound(c: Config)
    requires c.launcher != c.original
    ensures (exists s :: Reachable(c, s) && Selected in s.receipts) <==> SoundCommit(c)
    ensures (exists s :: Reachable(c, s) && s.child.Some?) <==> SoundCommit(c)
    ensures (exists s :: Reachable(c, s) && s.token) <==> SoundCommit(c)
    ensures (exists s :: Reachable(c, s) && Accepted in s.receipts) <==> SoundCommit(c)
    ensures c.cleared == {} && c.commit.digest != c.initial ==>
              ((exists s :: Reachable(c, s) && s.pointer != c.initial) <==> SoundCommit(c))
  {
    if SoundCommit(c) {
      var s := ReachRecorded(c);
      assert s.receipts[1] == Selected && s.receipts[4] == Accepted;
    } else {
      forall s | Reachable(c, s) ensures Refused(c, s) {
        UnsoundIsRefused(c, s);
      }
    }
  }

  lemma ReachRecorded(c: Config) returns (s: State)
    requires c.launcher != c.original && SoundCommit(c)
    ensures Reachable(c, s) && s.receipts == PHASES && s.child.Some? && s.token && s.pointer == c.commit.digest
  {
    var pid := FreshPid({c.launcher, c.original} + c.cleared);
    s := ReachAccepted(c, Identity(pid, 0));
    ReachableInv(c, s);
    s := ReachNext(c, s, RecordPhase);
    assert Recorded(4) + [Accepted] == PHASES;
  }

  lemma {:induction false} FreshPid(used: set<Pid>) returns (pid: Pid)
    ensures forall p :: p in used ==> p < pid
  {
    if used == {} {
      pid := 0;
    } else {
      var p :| p in used;
      var above := FreshPid(used - {p});
      assert forall q :: q in used ==> q == p || q in used - {p};
      pid := if above > p then above else p + 1;
    }
  }

  /** From wherever the launcher still runs it may fail, and record that. */
  lemma FailureIsRecorded(c: Config, s: State) returns (end: State)
    requires Reachable(c, s) && !Terminal(s.pc) && s.pc != Failing
    ensures Reachable(c, end) && end == s.(receipts := s.receipts + [Failed], pc := Ended)
  {
    end := ReachNext(c, s, Fail);
    end := ReachNext(c, end, RecordFailed);
  }

  lemma OneStep(c: Config, s: State, e: Event)
    requires Enabled(c, s, e)
    ensures Run(c, s, [e], Next(c, s, e))
  {
    assert [e][1..] == [];
  }

  lemma {:induction false} RunThen(c: Config, s: State, events: seq<Event>, mid: State, e: Event)
    requires Run(c, s, events, mid) && Enabled(c, mid, e)
    ensures Run(c, s, events + [e], Next(c, mid, e))
    decreases |events|
  {
    if events == [] {
      assert events + [e] == [e] && [e][1..] == [];
    } else {
      assert (events + [e])[1..] == events[1..] + [e];
      RunThen(c, Next(c, s, events[0]), events[1..], mid, e);
    }
  }

  lemma ReachNext(c: Config, s: State, e: Event) returns (next: State)
    requires Reachable(c, s) && Enabled(c, s, e)
    ensures next == Next(c, s, e) && Reachable(c, next)
  {
    var events :| Run(c, Start(c), events, s);
    RunThen(c, Start(c), events, s, e);
    next := Next(c, s, e);
  }

  /** A sound commit can be carried through until the old owner is seen gone... */
  lemma ReachOldGone(c: Config) returns (s: State)
    requires c.launcher != c.original && c.commit.cleanStop && c.commit.tokenMatches && c.commit.oldPid == c.original
    ensures Reachable(c, s) && s == State({c.launcher}, {c.launcher, c.original} + c.cleared,
              Launching(c.launcher, c.original), c.initial, false, OldGone, [Waiting],
              None, None, None, false, false, c.cleared)
  {
    assert Run(c, Start(c), [], Start(c));
    s := ReachNext(c, Start(c), RecordPhase);
    s := ReachNext(c, s, Check);
    s := ReachNext(c, s, OldDisconnects);
    s := ReachNext(c, s, Dies(c.original));
    s := ReachNext(c, s, SeeOldGone(Wait.Dead));
    assert s.alive == {c.launcher};
    assert s.receipts == [Waiting];
  }

  /** ... up to the recorded selection... */
  lemma ReachSelected(c: Config) returns (s: State)
    requires c.launcher != c.original && c.commit.cleanStop && c.commit.tokenMatches && c.commit.oldPid == c.original
    ensures Reachable(c, s) && s == State({c.launcher}, {c.launcher, c.original} + c.cleared,
              Launching(c.launcher, c.original), c.commit.digest, false, Recorded1, [Waiting, Selected],
              None, None, None, false, false, c.cleared)
  {
    s := ReachOldGone(c);
    s := ReachNext(c, s, Select);
    s := ReachNext(c, s, RecordPhase);
    assert s.receipts == [Waiting, Selected];
  }

  /** ... up to the message of the new process that it is ready... */
  lemma ReachReady(c: Config, child: Identity) returns (s: State)
    requires c.launcher != c.original && c.commit.cleanStop && c.commit.tokenMatches && c.commit.oldPid == c.original
    requires child.pid != c.launcher && child.pid != c.original && child.pid !in c.cleared
    ensures Reachable(c, s) && s.record == Launching(c.launcher, c.original) && s.pc == GotReady && child.pid in s.alive
    ensures s.child == Some(child.pid) && s.ready == Some(child) && !s.token && s.accepted.None?
    ensures s.receipts == Recorded(3) && !s.released && s.cleared == c.cleared && s.pointer == c.commit.digest
  {
    s := ReachSelected(c);
    s := ReachNext(c, s, Spawn(child.pid));
    s := ReachNext(c, s, RecordPhase);
    s := ReachNext(c, s, ReceiveReady(child));
    assert s.receipts == Recorded(3);
  }

  /** ... and up to the acceptance by the new owner. */
  lemma ReachAccepted(c: Config, child: Identity) returns (s: State)
    requires c.launcher != c.original && c.commit.cleanStop && c.commit.tokenMatches && c.commit.oldPid == c.original
    requires child.pid != c.launcher && child.pid != c.original && child.pid !in c.cleared
    ensures Reachable(c, s) && s.record == Owned(child.pid) && s.pc == GotAccepted && child.pid in s.alive
    ensures s.receipts == Recorded(4) && !s.released && s.cleared == c.cleared && s.pointer == c.commit.digest
  {
    s := ReachReady(c, child);
    s := ReachNext(c, s, Authorize);
    s := ReachNext(c, s, RecordPhase);
    s := ReachNext(c, s, SendToken);
    s := ReachNext(c, s, ChildAccepts);
    s := ReachNext(c, s, ReceiveAccepted(child));
    assert s.receipts == Recorded(4);
  }

  /** The accepted receipt alone does not pin the pointer: in this run the new
      owner lets the Home go, and another process moves the pointer, before the
      launcher records the acceptance. */
  lemma AcceptedMayFindPointerMoved(c: Config, child: Identity, other: Pid, digest: Digest) returns (s: State)
    requires c.launcher != c.original && c.commit.cleanStop && c.commit.tokenMatches && c.commit.oldPid == c.original
    requires child.pid != c.launcher && child.pid != c.original && child.pid !in c.cleared && other != c.launcher
    ensures Reachable(c, s) && Accepted in s.receipts && s.pointer == digest && s.released
  {
    s := ReachAccepted(c, child);
    s := ReachNext(c, s, Release(child.pid));
    s := ReachNext(c, s, RivalCheck(other));
    s := ReachNext(c, s, RivalWrite(other, digest));
    s := ReachNext(c, s, RecordPhase);
    assert s.receipts[4] == Accepted;
  }
}
