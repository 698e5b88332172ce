/** Stopping every owned space through a server that may answer anything. */
module StopSpaces {
  import opened Basics

  datatype SpaceStatus = Running | Starting | Inactive

  /** A row as it arrives: possibly null, possibly without a usable id or flag. */
  datatype Row = NullRow | Row(id: Option<string>, managed: Option<bool>, status: SpaceStatus)

  datatype State = State(
    protocolVersion: int, unavailable: bool, serviceEpoch: string, revision: string,
    managerId: Option<string>, spaces: Option<seq<Row>>)

  datatype Context = Context(serviceEpoch: string, expectedRevision: string)

  datatype Plan = Plan(id: string, serviceEpoch: string, stateRevision: string)

  datatype JobStatus = Succeeded | Failed | Cancelled | Unfinished

  datatype Job = Job(id: string, status: JobStatus)

  datatype JobReply = JobIs(job: Job) | Unreachable | OtherError

  datatype Message = EpochChanged | TargetMissing | OwnershipChanged

  datatype StopResult = StopResult(
    stopped: seq<string>, failed: Option<string>, job: Option<Job>,
    remaining: seq<string>, message: Option<Message>)

  /** StillWaiting: the server has not answered often enough for the call to return. */
  datatype Outcome = Returned(result: StopResult) | Threw | StillWaiting

  predicate Active(status: SpaceStatus) { status == Running || status == Starting }

  // ---- what the client reads out of a state ----

  /** None stands for the exception. */
  function MutationContext(state: State): Option<Context> {
    if state.protocolVersion != 2 || state.unavailable then None
    else if !HexDigest(state.serviceEpoch) || !HexDigest(state.revision) then None
    else Some(Context(state.serviceEpoch, state.revision))
  }

  predicate UsableRow(row: Row) {
    row.Row? && row.id.Some? && row.id.value != "" && row.managed.Some?
  }

  predicate OwnedOrdinary(row: Row, managerId: Option<string>) {
    row.Row? && row.id.Some? && row.managed == Some(true) && row.id != Some("web") && row.id != managerId
  }

  predicate HasTargets(state: State) {
    && MutationContext(state).Some?
    && state.managerId.Some? && !Blank(state.managerId.value)
    && state.spaces.Some? && forall i :: 0 <= i < |state.spaces.value| ==> UsableRow(state.spaces.value[i])
  }

  /** The ids of the owned, ordinary, active rows, in the order of the rows. */
  function TargetIds(rows: seq<Row>, managerId: Option<string>): seq<string> {
    if rows == [] then []
    else
      var n := |rows| - 1;
      TargetIds(rows[..n], managerId) + if IsTarget(rows[n], managerId) then [rows[n].id.value] else []
  }

  predicate IsTarget(row: Row, managerId: Option<string>) {
    OwnedOrdinary(row, managerId) && Active(row.status)
  }

  /** An id is a target iff some row makes it one. */
  lemma {:induction false} TargetIdsExact(rows: seq<Row>, managerId: Option<string>, id: string)
    ensures id in TargetIds(rows, managerId) <==> exists i :: 0 <= i < |rows| && IsTarget(rows[i], managerId) && rows[i].id == Some(id)
  {
    if rows == [] {
    } else {
      var n := |rows| - 1;
      TargetIdsExact(rows[..n], managerId, id);
      if i :| 0 <= i < |rows| && IsTarget(rows[i], managerId) && rows[i].id == Some(id) {
        assert i < n ==> IsTarget(rows[..n][i], managerId);
      }
    }
  }

  /** That is: a managed row with the id is running or starting, and the id is neither the
      web space's nor the manager's. */
  lemma TargetsAre(rows: seq<Row>, managerId: Option<string>, id: string)
    ensures id in TargetIds(rows, managerId) <==>
              id != "web" && Some(id) != managerId &&
              (Row(Some(id), Some(true), Running) in rows || Row(Some(id), Some(true), Starting) in rows)
  {
    TargetIdsExact(rows, managerId, id);
    if i :| 0 <= i < |rows| && IsTarget(rows[i], managerId) && rows[i].id == Some(id) {
      assert rows[i] == Row(Some(id), Some(true), rows[i].status);
    }
  }

  lemma TargetIdsStep(rows: seq<Row>, i: nat, managerId: Option<string>)
    requires i < |rows|
    ensures TargetIds(rows[..i + 1], managerId) == TargetIds(rows[..i], managerId) +
            if IsTarget(rows[i], managerId) then [rows[i].id.value] else []
  {
    assert rows[..i + 1][..i] == rows[..i];
  }

  method OwnedOrdinaryStopTargets(state: State) returns (targets: Option<seq<string>>)
    ensures targets.Some? <==> HasTargets(state)
    ensures targets.Some? ==> targets.value == TargetIds(state.spaces.value, state.managerId)
  {
    if MutationContext(state).None? || state.managerId.None? || Blank(state.managerId.value) || state.spaces.None? {
      return None;
    }
    var rows, ids := state.spaces.value, [];
    for i := 0 to |rows|
      invariant forall j :: 0 <= j < i ==> UsableRow(rows[j])
      invariant ids == TargetIds(rows[..i], state.managerId)
    {
      TargetIdsStep(rows, i, state.managerId);
      var space := rows[i];
      if !UsableRow(space) {
        return None;
      }
      if space.id == Some("web") || space.id == state.managerId || space.managed != Some(true) {
        continue;
      }
      if space.status == Running || space.status == Starting {
        ids := ids + [space.id.value];
      }
    }
    assert rows[..|rows|] == rows;
    targets := Some(ids);
  }

  predicate PlanMatches(plan: Plan, context: Context) {
    && plan.serviceEpoch != "" && plan.stateRevision != ""
    && HexDigest(plan.serviceEpoch) && HexDigest(plan.stateRevision)
    && plan.serviceEpoch == context.serviceEpoch && plan.stateRevision == context.expectedRevision
  }

  datatype Lookup = HitNull | Absent | Present(row: Row)

  /** The first row with the id; a null row on the way there is an exception. */
  function Find(rows: seq<Row>, id: string): Lookup {
    if rows == [] then Absent
    else if rows[0] == NullRow then HitNull
    else if rows[0].id == Some(id) then Present(rows[0])
    else Find(rows[1..], id)
  }

  /** The state lists the space as owned and ordinary, and as active or not. */
  predicate Shows(state: State, id: string, active: bool) {
    && state.spaces.Some?
    && var found := Find(state.spaces.value, id);
       found.Present? && OwnedOrdinary(found.row, state.managerId) && Active(found.row.status) == active
  }

  // ---- the server and the record of its calls ----

  datatype Call =
    | StateCall(state: Option<State>)
    | PreviewCall(spaceId: string, asked: Context, plan: Option<Plan>)
    | SubmitCall(planId: string, context: Context, submitted: Option<Job>)
    | JobCall(polled: string, answer: JobReply)

  /** The replies are arbitrary functions of how many calls came before; None is
      an exception. The server gives up answering polls after `horizon` calls. */
  datatype Replies = Replies(
    states: nat -> Option<State>, plans: nat -> Option<Plan>, submits: nat -> Option<Job>, jobs: nat -> JobReply,
    horizon: nat)

  class Server {
    const replies: Replies
    var calls: seq<Call>

    constructor (replies: Replies)
      ensures this.replies == replies && calls == []
    {
      this.replies, calls := replies, [];
    }

    method GetState() returns (r: Option<State>)
      modifies this
      ensures r == replies.states(|old(calls)|) && calls == old(calls) + [StateCall(r)]
    {
      r := replies.states(|calls|);
      calls := calls + [StateCall(r)];
    }

    method Preview(spaceId: string, context: Context) returns (r: Option<Plan>)
      modifies this
      ensures r == replies.plans(|old(calls)|) && calls == old(calls) + [PreviewCall(spaceId, context, r)]
    {
      r := replies.plans(|calls|);
      calls := calls + [PreviewCall(spaceId, context, r)];
    }

    method Submit(planId: string, context: Context) returns (r: Option<Job>)
      modifies this
      ensures r == replies.submits(|old(calls)|) && calls == old(calls) + [SubmitCall(planId, context, r)]
    {
      r := replies.submits(|calls|);
      calls := calls + [SubmitCall(planId, context, r)];
    }

    method GetJob(id: string) returns (r: JobReply)
      modifies this
      ensures r == replies.jobs(|old(calls)|) && calls == old(calls) + [JobCall(id, r)]
    {
      r := replies.jobs(|calls|);
      calls := calls + [JobCall(id, r)];
    }
  }

  /** Call i submits a plan, and may: the two calls just before it are the state
      and the preview it rests on. That state is under the initial epoch and shows
      the space owned and active, and the plan matches that state. */
  predicate Licensed(calls: seq<Call>, i: nat, epoch: string)
    requires i < |calls| && calls[i].SubmitCall?
  {
    && i >= 2 && calls[i - 1].PreviewCall? && calls[i - 2].StateCall?
    && calls[i - 1].plan.Some? && calls[i - 2].state.Some?
    && var plan, state, context := calls[i - 1].plan.value, calls[i - 2].state.value, calls[i].context;
       && MutationContext(state) == Some(context) && calls[i - 1].asked == context
       && context.serviceEpoch == epoch && PlanMatches(plan, context) && calls[i].planId == plan.id
       && Shows(state, calls[i - 1].spaceId, true)
  }

  predicate LicensedAt(calls: seq<Call>, i: nat, epoch: string)
    requires i < |calls|
  {
    calls[i].SubmitCall? ==> Licensed(calls, i, epoch)
  }

  ghost predicate AllLicensed(calls: seq<Call>, epoch: string) {
    forall i :: 0 <= i < |calls| ==> LicensedAt(calls, i, epoch)
  }

  /** The space of every submission, in order. */
  function Submitted(calls: seq<Call>): seq<string> {
    if calls == [] then []
    else
      var n := |calls| - 1;
      Submitted(calls[..n]) +
      if calls[n].SubmitCall? && n > 0 && calls[n - 1].PreviewCall? then [calls[n - 1].spaceId] else []
  }

  lemma SubmittedStep(calls: seq<Call>, call: Call)
    ensures Submitted(calls + [call]) == Submitted(calls) +
            if call.SubmitCall? && calls != [] && calls[|calls| - 1].PreviewCall?
            then [calls[|calls| - 1].spaceId] else []
  {
  }

  predicate ReportsSuccess(call: Call) {
    JobOf(call).Some? && JobOf(call).value.status == Succeeded
  }

  /** The job of the last call that reported a success. */
  function LastSuccess(calls: seq<Call>): Option<Job> {
    if calls == [] then None
    else
      var n := |calls| - 1;
      if ReportsSuccess(calls[n]) then JobOf(calls[n]) else LastSuccess(calls[..n])
  }

  lemma NoSuccessAdded(calls: seq<Call>, call: Call)
    requires !ReportsSuccess(call)
    ensures LastSuccess(calls + [call]) == LastSuccess(calls)
  {
    assert (calls + [call])[..|calls|] == calls;
  }

  /** A state showed the space owned but not active, or its stop was submitted and
      the polling right after it ended in success. */
  ghost predicate KnownStopped(calls: seq<Call>, id: string) {
    || (exists i :: 0 <= i < |calls| && ShownStopped(calls[i], id))
    || (exists i, j :: 0 < i <= j < |calls| && StopSucceeded(calls, i, j, id))
  }

  predicate ShownStopped(call: Call, id: string) {
    call.StateCall? && call.state.Some? && Shows(call.state.value, id, false)
  }

  ghost predicate StopSucceeded(calls: seq<Call>, i: nat, j: nat, id: string)
    requires 0 < i <= j < |calls|
  {
    && calls[i].SubmitCall? && calls[i - 1].PreviewCall? && calls[i - 1].spaceId == id
    && (forall k :: i < k <= j ==> calls[k].JobCall?) && ReportsSuccess(calls[j])
  }

  lemma KnownStoppedGrows(calls: seq<Call>, later: seq<Call>, id: string)
    requires KnownStopped(calls, id) && calls <= later
    ensures KnownStopped(later, id)
  {
    if i :| 0 <= i < |calls| && ShownStopped(calls[i], id) {
      assert ShownStopped(later[i], id);
    } else {
      var i, j :| 0 < i <= j < |calls| && StopSucceeded(calls, i, j, id);
      assert StopSucceeded(later, i, j, id);
    }
  }

  // ---- the protocol: each part with the calls it adds ----

  datatype Wait = Settled(job: Job) | Disconnected(job: Job) | WaitThrew | Polling

  predicate Terminal(job: Job) { job.status != Unfinished }

  function WaitRun(r: Replies, calls: seq<Call>, job: Job): (Wait, seq<Call>)
    decreases r.horizon - |calls|
  {
    if Terminal(job) then (Settled(job), calls)
    else if |calls| >= r.horizon then (Polling, calls)
    else
      var reply := r.jobs(|calls|);
      var more := calls + [JobCall(job.id, reply)];
      match reply
      case Unreachable => (Disconnected(job), more)
      case OtherError => (WaitThrew, more)
      case JobIs(next) => WaitRun(r, more, next)
  }

  method WaitForJob(api: Server, job: Job) returns (w: Wait)
    modifies api
    ensures (w, api.calls) == WaitRun(api.replies, old(api.calls), job)
  {
    var current := job;
    if Terminal(current) {
      return Settled(current);
    }
    while |api.calls| < api.replies.horizon
      invariant !Terminal(current)
      invariant WaitRun(api.replies, old(api.calls), job) == WaitRun(api.replies, api.calls, current)
      decreases api.replies.horizon - |api.calls|
    {
      var reply := api.GetJob(current.id);
      match reply
      case Unreachable => return Disconnected(current);
      case OtherError => return WaitThrew;
      case JobIs(next) =>
        current := next;
        if Terminal(current) {
          return Settled(current);
        }
    }
    return Polling;
  }

  datatype TargetEnd =
    | AlreadyStopped
    | Stopped(job: Job)
    | Refused(message: Message)
    | JobFailed(job: Job)
    | TargetThrew
    | TargetWaiting

  /** What the state says about a target: go on with this context, or how it ends. */
  function Verdict(answer: Option<State>, spaceId: string, epoch: string): Result<Context, TargetEnd> {
    if answer.None? || MutationContext(answer.value).None? then Err(TargetThrew)
    else
      var state, context := answer.value, MutationContext(answer.value).value;
      if context.serviceEpoch != epoch then Err(Refused(EpochChanged))
      else if state.spaces.None? then Err(TargetThrew)
      else match Find(state.spaces.value, spaceId)
        case HitNull => Err(TargetThrew)
        case Absent => Err(Refused(TargetMissing))
        case Present(row) =>
          if !row.Row? || row.managed != Some(true) || row.id == Some("web") || row.id == state.managerId
          then Err(Refused(OwnershipChanged))
          else if !Active(row.status) then Err(AlreadyStopped)
          else Ok(context)
  }

  function WaitEnd(w: Wait): TargetEnd {
    match w
    case WaitThrew => TargetThrew
    case Polling => TargetWaiting
    case Disconnected(job) => JobFailed(job)
    case Settled(job) => if job.status != Succeeded then JobFailed(job) else Stopped(job)
  }

  /** One round of the loop. */
  function OneRun(r: Replies, calls: seq<Call>, spaceId: string, epoch: string): (TargetEnd, seq<Call>) {
    var answer := r.states(|calls|);
    var seen := calls + [StateCall(answer)];
    var verdict := Verdict(answer, spaceId, epoch);
    if verdict.Err? then (verdict.error, seen) else PlannedRun(r, seen, spaceId, verdict.value)
  }

  /** The calls of a submission, after the state it rests on. */
  function Submission(calls: seq<Call>, spaceId: string, context: Context, plan: Plan, job: Option<Job>): seq<Call> {
    calls + [PreviewCall(spaceId, context, Some(plan))] + [SubmitCall(plan.id, context, job)]
  }

  /** A plan that matches its context is under the context's epoch, so the epoch
      test between preview and submission is not part of this. */
  function PlannedRun(r: Replies, calls: seq<Call>, spaceId: string, context: Context): (TargetEnd, seq<Call>) {
    var plan := r.plans(|calls|);
    if plan.None? || !PlanMatches(plan.value, context)
    then (TargetThrew, calls + [PreviewCall(spaceId, context, plan)])
    else SubmittedRun(r, calls, spaceId, context, plan.value)
  }

  function SubmittedRun(r: Replies, calls: seq<Call>, spaceId: string, context: Context, plan: Plan): (TargetEnd, seq<Call>) {
    var job := r.submits(|calls| + 1);
    var submitted := Submission(calls, spaceId, context, plan, job);
    if job.None? then (TargetThrew, submitted)
    else
      var (w, polled) := WaitRun(r, submitted, job.value);
      (WaitEnd(w), polled)
  }

  method CheckTarget(api: Server, spaceId: string, epoch: string) returns (r: Result<Context, TargetEnd>)
    modifies api
    ensures r == Verdict(api.replies.states(|old(api.calls)|), spaceId, epoch)
    ensures api.calls == old(api.calls) + [StateCall(api.replies.states(|old(api.calls)|))]
  {
    var answer := api.GetState();
    if answer.None? || MutationContext(answer.value).None? {
      return Err(TargetThrew);
    }
    var state, context := answer.value, MutationContext(answer.value).value;
    if context.serviceEpoch != epoch {
      return Err(Refused(EpochChanged));
    }
    if state.spaces.None? {
      return Err(TargetThrew);
    }
    var found := Find(state.spaces.value, spaceId);
    FindHasId(state.spaces.value, spaceId);
    if found.HitNull? {
      return Err(TargetThrew);
    }
    if found.Absent? {
      return Err(Refused(TargetMissing));
    }
    var current := found.row;
    if current.managed != Some(true) || current.id == Some("web") || current.id == state.managerId {
      return Err(Refused(OwnershipChanged));
    }
    if current.status != Running && current.status != Starting {
      return Err(AlreadyStopped);
    }
    return Ok(context);
  }

  method StopOne(api: Server, spaceId: string, epoch: string) returns (end: TargetEnd)
    modifies api
    ensures (end, api.calls) == OneRun(api.replies, old(api.calls), spaceId, epoch)
  {
    var verdict := CheckTarget(api, spaceId, epoch);
    if verdict.Err? {
      return verdict.error;
    }
    var context := verdict.value;
    VerdictContext(api.replies.states(|old(api.calls)|), spaceId, epoch);
    var plan := api.Preview(spaceId, context);
    if plan.None? || !PlanMatches(plan.value, context) {
      return TargetThrew;
    }
    if plan.value.serviceEpoch != epoch {
      assert false;  // a plan that matches its context is under the context's epoch
    }
    var submitted := api.Submit(plan.value.id, context);
    if submitted.None? {
      return TargetThrew;
    }
    var settled := WaitForJob(api, submitted.value);
    match settled
    case WaitThrew => return TargetThrew;
    case Polling => return TargetWaiting;
    case Disconnected(job) => return JobFailed(job);
    case Settled(job) =>
      if job.status != Succeeded {
        return JobFailed(job);
      }
      return Stopped(job);
  }

  /** The elements of `all` that are not in `gone`, in order. */
  function Remaining(all: seq<string>, gone: seq<string>): seq<string> {
    if all == [] then [] else (if all[0] in gone then [] else [all[0]]) + Remaining(all[1..], gone)
  }

  /** The outcome of a round that ends the loop. */
  function Ending(end: TargetEnd, targets: seq<string>, k: nat, lastJob: Option<Job>): Outcome
    requires k < |targets|
  {
    var remaining := Remaining(targets, targets[..k]);
    match end
    case Refused(message) => Returned(StopResult(targets[..k], Some(targets[k]), lastJob, remaining, Some(message)))
    case JobFailed(job) => Returned(StopResult(targets[..k], Some(targets[k]), Some(job), remaining, None))
    case TargetWaiting => StillWaiting
    case _ => Threw
  }

  /** The rounds from the k-th target on. */
  function EachRun(r: Replies, calls: seq<Call>, targets: seq<string>, k: nat, epoch: string, lastJob: Option<Job>)
    : (Outcome, seq<Call>)
    requires k <= |targets|
    decreases |targets| - k
  {
    if k == |targets| then (Returned(StopResult(targets, None, lastJob, [], None)), calls)
    else
      var (end, later) := OneRun(r, calls, targets[k], epoch);
      match end
      case AlreadyStopped => EachRun(r, later, targets, k + 1, epoch, lastJob)
      case Stopped(job) => EachRun(r, later, targets, k + 1, epoch, Some(job))
      case _ => (Ending(end, targets, k, lastJob), later)
  }

  function StopRun(r: Replies): (Outcome, seq<Call>) {
    var initial := r.states(0);
    var calls := [StateCall(initial)];
    if initial.None? || !HasTargets(initial.value) then (Threw, calls)
    else EachRun(r, calls, TargetsOf(initial.value), 0, initial.value.serviceEpoch, None)
  }

  function TargetsOf(state: State): seq<string>
    requires HasTargets(state)
  {
    TargetIds(state.spaces.value, state.managerId)
  }

  method StopOwnedSpaces(api: Server) returns (outcome: Outcome)
    requires api.calls == []
    modifies api
    ensures (outcome, api.calls) == StopRun(api.replies)
  {
    var initial := api.GetState();
    assert api.calls == [StateCall(initial)];
    if initial.None? {
      return Threw;
    }
    var ids := OwnedOrdinaryStopTargets(initial.value);
    if ids.None? {
      return Threw;
    }
    var targets, epoch := ids.value, initial.value.serviceEpoch;
    var stopped: seq<string>, lastJob: Option<Job> := [], None;
    for k := 0 to |targets|
      invariant stopped == targets[..k]
      invariant StopRun(api.replies) == EachRun(api.replies, api.calls, targets, k, epoch, lastJob)
    {
      var remaining := Remaining(targets, stopped);
      var end := StopOne(api, targets[k], epoch);
      match end {
        case TargetThrew => return Threw;
        case TargetWaiting => return StillWaiting;
        case Refused(message) =>
          return Returned(StopResult(stopped, Some(targets[k]), lastJob, remaining, Some(message)));
        case JobFailed(job) => return Returned(StopResult(stopped, Some(targets[k]), Some(job), remaining, None));
        case AlreadyStopped =>
        case Stopped(job) => lastJob := Some(job);
      }
      stopped := stopped + [targets[k]];
    }
    assert targets[..|targets|] == targets;
    outcome := Returned(StopResult(stopped, None, lastJob, [], None));
  }

  // ---- what a wait adds ----

  /** The job a submission or a poll answered with. */
  function JobOf(call: Call): Option<Job> {
    if call.SubmitCall? then call.submitted
    else if call.JobCall? && call.answer.JobIs? then Some(call.answer.job)
    else None
  }

  /** Call k polls the job that the call before it answered with. */
  predicate PollsOn(calls: seq<Call>, k: nat)
    requires 0 < k < |calls|
  {
    calls[k].JobCall? && JobOf(calls[k - 1]).Some? && calls[k].polled == JobOf(calls[k - 1]).value.id
  }

  /** Only polls are added from one call on, each of the job answered just before. */
  ghost predicate OnlyPolls(calls: seq<Call>, later: seq<Call>) {
    && 0 < |calls| && calls <= later && Submitted(later) == Submitted(calls)
    && forall k :: |calls| <= k < |later| ==> PollsOn(later, k)
  }

  lemma OnePoll(calls: seq<Call>, job: Job, reply: JobReply)
    requires calls != [] && JobOf(calls[|calls| - 1]) == Some(job)
    ensures OnlyPolls(calls, calls + [JobCall(job.id, reply)])
  {
    SubmittedStep(calls, JobCall(job.id, reply));
  }

  lemma PollsChain(a: seq<Call>, b: seq<Call>, c: seq<Call>)
    requires OnlyPolls(a, b) && OnlyPolls(b, c)
    ensures OnlyPolls(a, c)
  {
    forall k | |a| <= k < |c| ensures PollsOn(c, k) {
      assert k < |b| ==> PollsOn(b, k);
    }
  }

  /** A wait only polls; it ends with the terminal job of the last answer, or with
      the job it asked for when the service disconnected. */
  lemma {:induction false} WaitFits(r: Replies, calls: seq<Call>, job: Job)
    requires calls != [] && JobOf(calls[|calls| - 1]) == Some(job)
    ensures var (w, later) := WaitRun(r, calls, job);
            && OnlyPolls(calls, later) && (later[|later| - 1].SubmitCall? || later[|later| - 1].JobCall?)
            && JobEnds(later[|later| - 1], WaitEnd(w)) && (w.Polling? ==> |later| >= r.horizon)
            && (w.Settled? ==> Terminal(w.job) && JobOf(later[|later| - 1]) == Some(w.job))
            && (w.Disconnected? ==> !Terminal(w.job) && later[|later| - 1] == JobCall(w.job.id, Unreachable))
    decreases r.horizon - |calls|
  {
    if Terminal(job) || |calls| >= r.horizon {
    } else {
      var reply := r.jobs(|calls|);
      var more := calls + [JobCall(job.id, reply)];
      OnePoll(calls, job, reply);
      if reply.JobIs? {
        WaitFits(r, more, reply.job);
        PollsChain(calls, more, WaitRun(r, more, reply.job).1);
      }
    }
  }

  /** On a disconnect the job is the one answered last. */
  lemma {:induction false} WaitDisconnects(r: Replies, calls: seq<Call>, job: Job)
    requires calls != [] && JobOf(calls[|calls| - 1]) == Some(job)
    ensures var (w, later) := WaitRun(r, calls, job);
            w.Disconnected? ==> |later| >= 2 && JobOf(later[|later| - 2]) == Some(w.job)
    decreases r.horizon - |calls|
  {
    if Terminal(job) || |calls| >= r.horizon {
    } else {
      var reply := r.jobs(|calls|);
      var more := calls + [JobCall(job.id, reply)];
      assert more[|more| - 2] == calls[|calls| - 1];
      if reply.JobIs? {
        WaitDisconnects(r, more, reply.job);
      }
    }
  }

  // ---- what a round adds ----

  /** Why a target is refused, read off the state it was checked against. */
  predicate RefusalFits(state: State, spaceId: string, epoch: string, message: Message) {
    match message
    case EpochChanged => state.serviceEpoch != epoch
    case TargetMissing => state.serviceEpoch == epoch && state.spaces.Some? && Find(state.spaces.value, spaceId).Absent?
    case OwnershipChanged =>
      && state.serviceEpoch == epoch && state.spaces.Some?
      && var found := Find(state.spaces.value, spaceId);
         found.Present? && !OwnedOrdinary(found.row, state.managerId)
  }

  lemma {:induction false} FindHasId(rows: seq<Row>, id: string)
    ensures Find(rows, id).Present? ==> Find(rows, id).row.Row? && Find(rows, id).row.id == Some(id)
  {
    if rows == [] || rows[0] == NullRow || rows[0].id == Some(id) {
    } else {
      FindHasId(rows[1..], id);
    }
  }

  predicate UnusableState(answer: Option<State>, spaceId: string, epoch: string) {
    || answer.None? || MutationContext(answer.value).None?
    || (answer.value.serviceEpoch == epoch &&
        (answer.value.spaces.None? || Find(answer.value.spaces.value, spaceId).HitNull?))
  }

  predicate EndsFrom(answer: Option<State>, spaceId: string, epoch: string, end: TargetEnd) {
    match end
    case TargetThrew => UnusableState(answer, spaceId, epoch)
    case AlreadyStopped =>
      !UnusableState(answer, spaceId, epoch) && answer.value.serviceEpoch == epoch && Shows(answer.value, spaceId, false)
    case Refused(message) => !UnusableState(answer, spaceId, epoch) && RefusalFits(answer.value, spaceId, epoch, message)
    case _ => false
  }

  /** The end that a submission or a poll as the last call means. */
  predicate JobEnds(call: Call, end: TargetEnd)
    requires call.SubmitCall? || call.JobCall?
  {
    if JobOf(call).Some? then
      var job := JobOf(call).value;
      end == if !Terminal(job) then TargetWaiting else if job.status == Succeeded then Stopped(job) else JobFailed(job)
    else if call.JobCall? && call.answer.Unreachable? then
      end.JobFailed? && end.job.id == call.polled && !Terminal(end.job)
    else end == TargetThrew
  }

  /** The last call of a round says how the round ends. */
  predicate EndsOn(call: Call, spaceId: string, epoch: string, end: TargetEnd) {
    match call
    case StateCall(state) => EndsFrom(state, spaceId, epoch, end)
    case PreviewCall(_, asked, plan) => end == TargetThrew && (plan.None? || !PlanMatches(plan.value, asked))
    case _ => JobEnds(call, end)
  }

  /** One call never means two ends. */
  lemma OneEnd(call: Call, spaceId: string, epoch: string, a: TargetEnd, b: TargetEnd)
    requires EndsOn(call, spaceId, epoch, a) && EndsOn(call, spaceId, epoch, b)
    ensures a == b || (a.JobFailed? && b.JobFailed?)
  {
  }

  lemma VerdictFits(answer: Option<State>, spaceId: string, epoch: string)
    ensures match Verdict(answer, spaceId, epoch)
            case Err(end) => EndsFrom(answer, spaceId, epoch, end)
            case Ok(context) => answer.Some? && MutationContext(answer.value) == Some(context) &&
                                context.serviceEpoch == epoch && Shows(answer.value, spaceId, true)
  {
    if answer.Some? && answer.value.spaces.Some? {
      FindHasId(answer.value.spaces.value, spaceId);
    }
  }

  lemma VerdictContext(answer: Option<State>, spaceId: string, epoch: string)
    ensures Verdict(answer, spaceId, epoch).Ok? ==> Verdict(answer, spaceId, epoch).value.serviceEpoch == epoch
  {
    VerdictFits(answer, spaceId, epoch);
  }

  /** What a round leaves: licensed calls, at most one submission, and the reason for its end. */
  ghost predicate RoundFits(calls: seq<Call>, later: seq<Call>, spaceId: string, epoch: string, end: TargetEnd) {
    && calls < later && (AllLicensed(calls, epoch) ==> AllLicensed(later, epoch))
    && (Submitted(later) == Submitted(calls) || Submitted(later) == Submitted(calls) + [spaceId])
    && (end.AlreadyStopped? || end.Refused? ==>
          && |later| == |calls| + 1 && Submitted(later) == Submitted(calls) && later[|calls|].StateCall?
          && LastSuccess(later) == LastSuccess(calls))
    && (end.Stopped? ==> LastSuccess(later) == Some(end.job))
    && EndsOn(later[|later| - 1], spaceId, epoch, end)
    && (end.Stopped? || end.JobFailed? ==>
          Submitted(later) == Submitted(calls) + [spaceId] && (end.job.status == Succeeded <==> end.Stopped?))
    && (end.AlreadyStopped? || end.Stopped? ==> KnownStopped(later, spaceId))
  }

  lemma LicenceCarries(calls: seq<Call>, later: seq<Call>, epoch: string)
    requires AllLicensed(calls, epoch) && calls <= later
    requires forall k :: |calls| <= k < |later| ==> !later[k].SubmitCall?
    ensures AllLicensed(later, epoch)
  {
    forall i | 0 <= i < |later| ensures LicensedAt(later, i, epoch) {
      assert i < |calls| ==> LicensedAt(calls, i, epoch);
    }
  }

  lemma NewLicence(calls: seq<Call>, later: seq<Call>, epoch: string)
    requires AllLicensed(calls, epoch) && calls < later && |later| == |calls| + 1
    requires later[|calls|].SubmitCall? && Licensed(later, |calls|, epoch)
    ensures AllLicensed(later, epoch)
  {
    forall i | 0 <= i < |later| ensures LicensedAt(later, i, epoch) {
      assert i < |calls| ==> LicensedAt(calls, i, epoch);
    }
  }

  /** A state call alone submits nothing. */
  lemma StateOnly(calls: seq<Call>, answer: Option<State>, epoch: string)
    ensures var seen := calls + [StateCall(answer)];
            && Submitted(seen) == Submitted(calls) && (AllLicensed(calls, epoch) ==> AllLicensed(seen, epoch))
  {
    SubmittedStep(calls, StateCall(answer));
    if AllLicensed(calls, epoch) {
      LicenceCarries(calls, calls + [StateCall(answer)], epoch);
    }
  }

  lemma SubmissionAdds(calls: seq<Call>, spaceId: string, context: Context, plan: Plan, job: Option<Job>)
    requires calls != [] && calls[|calls| - 1].StateCall?
    ensures Submitted(Submission(calls, spaceId, context, plan, job)) == Submitted(calls) + [spaceId]
  {
    var planned := calls + [PreviewCall(spaceId, context, Some(plan))];
    SubmittedStep(calls, PreviewCall(spaceId, context, Some(plan)));
    SubmittedStep(planned, SubmitCall(plan.id, context, job));
  }

  lemma SubmissionFits(calls: seq<Call>, spaceId: string, context: Context, plan: Plan, job: Option<Job>, epoch: string)
    requires calls != [] && calls[|calls| - 1].StateCall? && calls[|calls| - 1].state.Some?
    requires MutationContext(calls[|calls| - 1].state.value) == Some(context) && context.serviceEpoch == epoch
    requires Shows(calls[|calls| - 1].state.value, spaceId, true) && PlanMatches(plan, context)
    ensures var later := Submission(calls, spaceId, context, plan, job);
            && Submitted(later) == Submitted(calls) + [spaceId] && (AllLicensed(calls, epoch) ==> AllLicensed(later, epoch))
  {
    var planned := calls + [PreviewCall(spaceId, context, Some(plan))];
    var later := Submission(calls, spaceId, context, plan, job);
    SubmissionAdds(calls, spaceId, context, plan, job);
    if AllLicensed(calls, epoch) {
      LicenceCarries(calls, planned, epoch);
      NewLicence(planned, later, epoch);
    }
  }

  /** A wait after a submission keeps the licences, and its success is the space's stop. */
  lemma AfterWait(calls: seq<Call>, later: seq<Call>, spaceId: string, epoch: string, w: Wait)
    requires |calls| >= 2 && calls[|calls| - 1].SubmitCall? && calls[|calls| - 2].PreviewCall?
    requires calls[|calls| - 2].spaceId == spaceId && OnlyPolls(calls, later)
    requires w.Settled? ==> JobOf(later[|later| - 1]) == Some(w.job)
    ensures AllLicensed(calls, epoch) ==> AllLicensed(later, epoch)
    ensures w.Settled? && w.job.status == Succeeded ==> KnownStopped(later, spaceId)
  {
    forall k | |calls| <= k < |later| ensures later[k].JobCall? {
      assert PollsOn(later, k);
    }
    if AllLicensed(calls, epoch) {
      LicenceCarries(calls, later, epoch);
    }
    if w.Settled? && w.job.status == Succeeded {
      assert StopSucceeded(later, |calls| - 1, |later| - 1, spaceId);
    }
  }

  lemma PreviewOnly(calls: seq<Call>, spaceId: string, context: Context, plan: Option<Plan>, epoch: string)
    requires plan.None? || !PlanMatches(plan.value, context)
    ensures RoundFits(calls, calls + [PreviewCall(spaceId, context, plan)], spaceId, epoch, TargetThrew)
  {
    SubmittedStep(calls, PreviewCall(spaceId, context, plan));
    if AllLicensed(calls, epoch) {
      LicenceCarries(calls, calls + [PreviewCall(spaceId, context, plan)], epoch);
    }
  }

  /** From a licensed submission on. */
  lemma SubmittedFits(
    r: Replies, calls: seq<Call>, submitted: seq<Call>, spaceId: string, epoch: string, job: Job)
    requires calls < submitted && |submitted| >= 2
    requires submitted[|submitted| - 1].SubmitCall? && submitted[|submitted| - 1].submitted == Some(job)
    requires submitted[|submitted| - 2].PreviewCall? && submitted[|submitted| - 2].spaceId == spaceId
    requires Submitted(submitted) == Submitted(calls) + [spaceId]
    requires AllLicensed(calls, epoch) ==> AllLicensed(submitted, epoch)
    ensures var (w, later) := WaitRun(r, submitted, job);
            RoundFits(calls, later, spaceId, epoch, WaitEnd(w))
  {
    WaitFits(r, submitted, job);
    var (w, later) := WaitRun(r, submitted, job);
    AfterWait(submitted, later, spaceId, epoch, w);
  }

  lemma SubmitThrows(calls: seq<Call>, spaceId: string, context: Context, plan: Plan, epoch: string)
    requires var later := Submission(calls, spaceId, context, plan, None);
             Submitted(later) == Submitted(calls) + [spaceId] && (AllLicensed(calls, epoch) ==> AllLicensed(later, epoch))
    ensures RoundFits(calls, Submission(calls, spaceId, context, plan, None), spaceId, epoch, TargetThrew)
  {
  }

  lemma SubmittedRunFits(r: Replies, calls: seq<Call>, spaceId: string, context: Context, plan: Plan, epoch: string)
    requires var later := Submission(calls, spaceId, context, plan, r.submits(|calls| + 1));
             Submitted(later) == Submitted(calls) + [spaceId] && (AllLicensed(calls, epoch) ==> AllLicensed(later, epoch))
    ensures var (end, later) := SubmittedRun(r, calls, spaceId, context, plan);
            && RoundFits(calls, later, spaceId, epoch, end) && !end.AlreadyStopped? && !end.Refused?
  {
    var job := r.submits(|calls| + 1);
    if job.Some? {
      SubmittedFits(r, calls, Submission(calls, spaceId, context, plan, job), spaceId, epoch, job.value);
    } else {
      SubmitThrows(calls, spaceId, context, plan, epoch);
    }
  }

  lemma PlannedFits(r: Replies, calls: seq<Call>, spaceId: string, context: Context, epoch: string)
    requires calls != [] && calls[|calls| - 1].StateCall? && calls[|calls| - 1].state.Some?
    requires MutationContext(calls[|calls| - 1].state.value) == Some(context) && context.serviceEpoch == epoch
    requires Shows(calls[|calls| - 1].state.value, spaceId, true)
    ensures var (end, later) := PlannedRun(r, calls, spaceId, context);
            && RoundFits(calls, later, spaceId, epoch, end) && !end.AlreadyStopped? && !end.Refused?
  {
    var plan := r.plans(|calls|);
    if plan.None? || !PlanMatches(plan.value, context) {
      PreviewOnly(calls, spaceId, context, plan, epoch);
    } else {
      SubmissionFits(calls, spaceId, context, plan.value, r.submits(|calls| + 1), epoch);
      SubmittedRunFits(r, calls, spaceId, context, plan.value, epoch);
    }
  }

  lemma RoundExtends(calls: seq<Call>, seen: seq<Call>, later: seq<Call>, spaceId: string, epoch: string, end: TargetEnd)
    requires calls < seen && Submitted(seen) == Submitted(calls) && (AllLicensed(calls, epoch) ==> AllLicensed(seen, epoch))
    requires RoundFits(seen, later, spaceId, epoch, end) && !end.AlreadyStopped? && !end.Refused?
    ensures RoundFits(calls, later, spaceId, epoch, end)
  {
  }

  lemma OneFits(r: Replies, calls: seq<Call>, spaceId: string, epoch: string)
    ensures var (end, later) := OneRun(r, calls, spaceId, epoch);
            RoundFits(calls, later, spaceId, epoch, end)
  {
    var answer := r.states(|calls|);
    var seen := calls + [StateCall(answer)];
    StateOnly(calls, answer, epoch);
    NoSuccessAdded(calls, StateCall(answer));
    VerdictFits(answer, spaceId, epoch);
    var verdict := Verdict(answer, spaceId, epoch);
    if verdict.Ok? {
      PlannedFits(r, seen, spaceId, verdict.value, epoch);
      var (end, later) := PlannedRun(r, seen, spaceId, verdict.value);
      RoundExtends(calls, seen, later, spaceId, epoch, end);
    } else {
      assert seen[|calls|] == StateCall(answer);
      assert verdict.error.AlreadyStopped? ==> ShownStopped(seen[|calls|], spaceId);
    }
  }

  // ---- what the loop does, against any server ----

  /** What a returned result says, after the first `done` targets were stopped: a
      message, or the job of a failure without one, is what the last call means for
      the next target; any other job is the last that was reported a success. */
  ghost predicate ResultFits(result: StopResult, targets: seq<string>, done: nat, calls: seq<Call>, epoch: string)
    requires done <= |targets| && calls != []
  {
    && result.stopped == targets[..done]
    && (forall id :: id in result.stopped ==> KnownStopped(calls, id))
    && (if done == |targets| then result.failed.None? && result.remaining == [] && result.message.None?
        else result.failed == Some(targets[done]) && result.remaining == Remaining(targets, targets[..done]))
    && (result.message.Some? ==> EndsOn(calls[|calls| - 1], targets[done], epoch, Refused(result.message.value)))
    && (if result.failed.Some? && result.message.None?
        then result.job.Some? && EndsOn(calls[|calls| - 1], targets[done], epoch, JobFailed(result.job.value))
        else result.job == LastSuccess(calls))
  }

  ghost predicate AllKnown(ids: seq<string>, calls: seq<Call>) {
    forall id :: id in ids ==> KnownStopped(calls, id)
  }

  lemma AllKnownGrows(ids: seq<string>, calls: seq<Call>, later: seq<Call>)
    requires AllKnown(ids, calls) && calls <= later
    ensures AllKnown(ids, later)
  {
    forall id | id in ids ensures KnownStopped(later, id) {
      KnownStoppedGrows(calls, later, id);
    }
  }

  lemma OneMoreKnown(targets: seq<string>, k: nat, calls: seq<Call>, later: seq<Call>)
    requires k < |targets| && AllKnown(targets[..k], calls) && calls <= later && KnownStopped(later, targets[k])
    ensures AllKnown(targets[..k + 1], later)
  {
    AllKnownGrows(targets[..k], calls, later);
    assert targets[..k + 1] == targets[..k] + [targets[k]];
  }

  lemma OneMore(targets: seq<string>, k: nat, before: seq<string>, after: seq<string>)
    requires k < |targets| && multiset(before) <= multiset(targets[..k])
    requires after == before || after == before + [targets[k]]
    ensures multiset(after) <= multiset(targets[..k + 1]) <= multiset(targets)
  {
    assert targets[..k + 1] == targets[..k] + [targets[k]];
    assert targets == targets[..k + 1] + targets[k + 1..];
  }

  /** What holds between the rounds. */
  ghost predicate Ready(calls: seq<Call>, targets: seq<string>, k: nat, epoch: string, lastJob: Option<Job>)
    requires k <= |targets|
  {
    && calls != [] && AllLicensed(calls, epoch) && AllKnown(targets[..k], calls)
    && multiset(Submitted(calls)) <= multiset(targets[..k])
    && lastJob == LastSuccess(calls)
  }

  /** What holds at the end, with the first `done` targets stopped: the call throws, or
      still waits, exactly when that is what its last call means for the next target. */
  ghost predicate EndFits(
    outcome: Outcome, calls: seq<Call>, later: seq<Call>, targets: seq<string>, done: nat, epoch: string)
    requires done <= |targets|
  {
    && calls != [] && calls <= later && AllLicensed(later, epoch)
    && multiset(Submitted(later)) <= multiset(targets)
    && (outcome.Returned? ==> ResultFits(outcome.result, targets, done, later, epoch))
    && (outcome.Threw? <==> done < |targets| && EndsOn(later[|later| - 1], targets[done], epoch, TargetThrew))
    && (outcome.StillWaiting? <==> done < |targets| && EndsOn(later[|later| - 1], targets[done], epoch, TargetWaiting))
  }

  function JobAfter(end: TargetEnd, lastJob: Option<Job>): Option<Job> {
    if end.Stopped? then Some(end.job) else lastJob
  }

  lemma RoundGoesOn(
    calls: seq<Call>, later: seq<Call>, targets: seq<string>, k: nat, epoch: string, end: TargetEnd, lastJob: Option<Job>)
    requires k < |targets| && Ready(calls, targets, k, epoch, lastJob)
    requires RoundFits(calls, later, targets[k], epoch, end) && (end.AlreadyStopped? || end.Stopped?)
    ensures Ready(later, targets, k + 1, epoch, JobAfter(end, lastJob))
  {
    OneMore(targets, k, Submitted(calls), Submitted(later));
    OneMoreKnown(targets, k, calls, later);
  }

  lemma EndDecides(call: Call, spaceId: string, epoch: string, end: TargetEnd)
    requires EndsOn(call, spaceId, epoch, end)
    ensures EndsOn(call, spaceId, epoch, TargetThrew) <==> end == TargetThrew
    ensures EndsOn(call, spaceId, epoch, TargetWaiting) <==> end == TargetWaiting
  {
    if EndsOn(call, spaceId, epoch, TargetThrew) {
      OneEnd(call, spaceId, epoch, end, TargetThrew);
    }
    if EndsOn(call, spaceId, epoch, TargetWaiting) {
      OneEnd(call, spaceId, epoch, end, TargetWaiting);
    }
  }

  lemma RoundEnds(
    calls: seq<Call>, later: seq<Call>, targets: seq<string>, k: nat, epoch: string, end: TargetEnd, lastJob: Option<Job>)
    requires k < |targets| && Ready(calls, targets, k, epoch, lastJob)
    requires RoundFits(calls, later, targets[k], epoch, end) && !end.AlreadyStopped? && !end.Stopped?
    ensures EndFits(Ending(end, targets, k, lastJob), calls, later, targets, k, epoch)
  {
    OneMore(targets, k, Submitted(calls), Submitted(later));
    AllKnownGrows(targets[..k], calls, later);
    EndDecides(later[|later| - 1], targets[k], epoch, end);
  }

  lemma EndFitsFrom(
    outcome: Outcome, calls: seq<Call>, later: seq<Call>, last: seq<Call>, targets: seq<string>, done: nat, epoch: string)
    requires done <= |targets| && calls != [] && calls <= later && EndFits(outcome, later, last, targets, done, epoch)
    ensures EndFits(outcome, calls, last, targets, done, epoch)
  {
  }

  lemma RoundsDone(calls: seq<Call>, targets: seq<string>, epoch: string, lastJob: Option<Job>)
    requires Ready(calls, targets, |targets|, epoch, lastJob)
    ensures EndFits(Returned(StopResult(targets, None, lastJob, [], None)), calls, calls, targets, |targets|, epoch)
  {
    assert targets[..|targets|] == targets;
  }

  /** The last round of a run, if it does not stop every target. */
  function DoneCount(r: Replies, calls: seq<Call>, targets: seq<string>, k: nat, epoch: string): (n: nat)
    requires k <= |targets|
    ensures k <= n <= |targets|
    decreases |targets| - k
  {
    if k == |targets| then k
    else
      var (end, later) := OneRun(r, calls, targets[k], epoch);
      if end.AlreadyStopped? || end.Stopped? then DoneCount(r, later, targets, k + 1, epoch) else k
  }

  predicate GoesOn(end: TargetEnd) { end.AlreadyStopped? || end.Stopped? }

  /** What a run comes to once no round goes on. */
  function LastPart(r: Replies, calls: seq<Call>, targets: seq<string>, k: nat, epoch: string, lastJob: Option<Job>)
    : (Outcome, seq<Call>)
    requires k <= |targets|
  {
    if k == |targets| then (Returned(StopResult(targets, None, lastJob, [], None)), calls)
    else
      var (end, later) := OneRun(r, calls, targets[k], epoch);
      (Ending(end, targets, k, lastJob), later)
  }

  /** The rounds that go on lead, ready, to a last part. */
  lemma {:induction false} EachLeads(
    r: Replies, calls: seq<Call>, targets: seq<string>, k: nat, epoch: string, lastJob: Option<Job>)
    returns (at: seq<Call>, job: Option<Job>)
    requires k <= |targets| && Ready(calls, targets, k, epoch, lastJob)
    ensures var n := DoneCount(r, calls, targets, k, epoch);
            && calls <= at && Ready(at, targets, n, epoch, job)
            && EachRun(r, calls, targets, k, epoch, lastJob) == LastPart(r, at, targets, n, epoch, job)
            && (n < |targets| ==> !GoesOn(OneRun(r, at, targets[n], epoch).0))
    decreases |targets| - k
  {
    at, job := calls, lastJob;
    if k == |targets| {
    } else {
      var (end, later) := OneRun(r, calls, targets[k], epoch);
      if GoesOn(end) {
        OneFits(r, calls, targets[k], epoch);
        RoundGoesOn(calls, later, targets, k, epoch, end, lastJob);
        at, job := EachLeads(r, later, targets, k + 1, epoch, JobAfter(end, lastJob));
      }
    }
  }

  lemma LastPartFits(r: Replies, at: seq<Call>, targets: seq<string>, n: nat, epoch: string, job: Option<Job>)
    requires n <= |targets| && Ready(at, targets, n, epoch, job)
    requires n < |targets| ==> !GoesOn(OneRun(r, at, targets[n], epoch).0)
    ensures var (outcome, later) := LastPart(r, at, targets, n, epoch, job);
            EndFits(outcome, at, later, targets, n, epoch)
  {
    if n == |targets| {
      RoundsDone(at, targets, epoch, job);
    } else {
      var (end, later) := OneRun(r, at, targets[n], epoch);
      OneFits(r, at, targets[n], epoch);
      RoundEnds(at, later, targets, n, epoch, end, job);
    }
  }

  /** The whole call, against any server: it throws at once or works on the targets of
      the first state. Every submission is licensed, none is made twice for one entry of
      the targets, and whatever is returned fits. */
  lemma StopRunFits(r: Replies)
    ensures var (outcome, calls) := StopRun(r);
            var first := [StateCall(r.states(0))];
            if r.states(0).None? || !HasTargets(r.states(0).value) then outcome == Threw && calls == first
            else
              var targets, epoch := TargetsOf(r.states(0).value), r.states(0).value.serviceEpoch;
              EndFits(outcome, first, calls, targets, DoneCount(r, first, targets, 0, epoch), epoch)
  {
    var first := [StateCall(r.states(0))];
    assert first[..0] == [] && Submitted(first[..0]) == [] && Submitted(first) == [];
    if r.states(0).Some? && HasTargets(r.states(0).value) {
      var targets, epoch := TargetsOf(r.states(0).value), r.states(0).value.serviceEpoch;
      assert Ready(first, targets, 0, epoch, None);
      var at, job := EachLeads(r, first, targets, 0, epoch, None);
      var n := DoneCount(r, first, targets, 0, epoch);
      LastPartFits(r, at, targets, n, epoch, job);
      var (outcome, last) := LastPart(r, at, targets, n, epoch, job);
      EndFitsFrom(outcome, first, at, last, targets, n, epoch);
    }
  }

  // ---- what the split into stopped and remaining is worth ----

  predicate Distinct(ids: seq<string>) {
    forall i, j :: 0 <= i < j < |ids| ==> ids[i] != ids[j]
  }

  predicate SplitAt(targets: seq<string>, done: nat)
    requires done <= |targets|
  {
    targets[..done] + Remaining(targets, targets[..done]) == targets
  }

  lemma {:induction false} RemainingAll(ids: seq<string>, gone: seq<string>)
    requires forall id :: id in ids ==> id !in gone
    ensures Remaining(ids, gone) == ids
  {
    if ids == [] {
    } else {
      RemainingAll(ids[1..], gone);
    }
  }

  lemma {:induction false} RemainingAfter(front: seq<string>, back: seq<string>, gone: seq<string>)
    requires forall id :: id in front ==> id in gone
    ensures Remaining(front + back, gone) == Remaining(back, gone)
  {
    if front == [] {
      assert front + back == back;
    } else {
      assert (front + back)[1..] == front[1..] + back;
      RemainingAfter(front[1..], back, gone);
    }
  }

  lemma {:induction false} RemainingMembers(ids: seq<string>, gone: seq<string>)
    ensures forall id :: id in Remaining(ids, gone) ==> id !in gone
  {
    if ids == [] {
    } else {
      RemainingMembers(ids[1..], gone);
    }
  }

  lemma RepeatedNotSplit(targets: seq<string>, i: nat, j: nat)
    requires i < j < |targets| && targets[i] == targets[j]
    ensures !SplitAt(targets, j)
  {
    var front := targets[..j];
    assert targets[i] == front[i] && targets[j] in front;
    var rest := Remaining(targets, front);
    assert SplitAt(targets, j) ==> (front + rest)[j] == rest[0] && targets[j] in rest;
    RemainingMembers(targets, front);
  }

  /** The stopped and the remaining ids always make up the targets, wherever the
      run ends, exactly when the server listed no target twice. */
  lemma SplitIffDistinct(targets: seq<string>)
    ensures (forall done: nat :: done <= |targets| ==> SplitAt(targets, done)) <==> Distinct(targets)
  {
    if Distinct(targets) {
      forall done: nat | done <= |targets| ensures SplitAt(targets, done) {
        var front, back := targets[..done], targets[done..];
        assert targets == front + back;
        RemainingAfter(front, back, front);
        RemainingAll(back, front);
      }
    } else {
      var i, j :| 0 <= i < j < |targets| && targets[i] == targets[j];
      RepeatedNotSplit(targets, i, j);
    }
  }

  /** Whatever the call returns splits the targets of the first state. */
  predicate ReturnsSplit(r: Replies)
    requires r.states(0).Some? && HasTargets(r.states(0).value)
  {
    var outcome := StopRun(r).0;
    outcome.Returned? ==> outcome.result.stopped + outcome.result.remaining == TargetsOf(r.states(0).value)
  }

  lemma DistinctRunsSplit(r: Replies)
    requires r.states(0).Some? && HasTargets(r.states(0).value) && Distinct(TargetsOf(r.states(0).value))
    ensures ReturnsSplit(r)
  {
    var targets, epoch := TargetsOf(r.states(0).value), r.states(0).value.serviceEpoch;
    var done := DoneCount(r, [StateCall(r.states(0))], targets, 0, epoch);
    StopRunFits(r);
    SplitIffDistinct(targets);
    assert SplitAt(targets, done);
    assert targets[..|targets|] == targets;
  }

  // ---- when a state lists a target twice ----

  predicate NoTargetTwice(rows: seq<Row>, managerId: Option<string>) {
    forall i, j :: 0 <= i < j < |rows| && IsTarget(rows[i], managerId) && IsTarget(rows[j], managerId) ==>
      rows[i].id != rows[j].id
  }

  lemma DistinctSnoc(ids: seq<string>, id: string)
    ensures Distinct(ids + [id]) <==> Distinct(ids) && id !in ids
  {
    var all := ids + [id];
    if Distinct(all) {
      assert forall i :: 0 <= i < |ids| ==> ids[i] == all[i] && all[i] != all[|ids|];
    }
  }

  lemma TwiceAtEnd(rows: seq<Row>, managerId: Option<string>)
    requires rows != []
    ensures var n := |rows| - 1;
            NoTargetTwice(rows, managerId) <==>
              NoTargetTwice(rows[..n], managerId) &&
              (IsTarget(rows[n], managerId) ==> rows[n].id.value !in TargetIds(rows[..n], managerId))
  {
    var front, last := rows[..|rows| - 1], rows[|rows| - 1];
    assert forall i :: 0 <= i < |front| ==> front[i] == rows[i];
    if IsTarget(last, managerId) {
      TargetIdsExact(front, managerId, last.id.value);
    }
  }

  lemma {:induction false} TargetsDistinctIff(rows: seq<Row>, managerId: Option<string>)
    ensures Distinct(TargetIds(rows, managerId)) <==> NoTargetTwice(rows, managerId)
  {
    if rows == [] {
    } else {
      var n := |rows| - 1;
      var front := rows[..n];
      TargetsDistinctIff(front, managerId);
      TwiceAtEnd(rows, managerId);
      if IsTarget(rows[n], managerId) {
        DistinctSnoc(TargetIds(front, managerId), rows[n].id.value);
      } else {
        assert TargetIds(rows, managerId) == TargetIds(front, managerId);
      }
    }
  }

  // ---- a server that makes the call lose a repeated target ----

  function StillRows(ids: seq<string>): seq<Row> {
    if ids == [] then [] else [Row(Some(ids[0]), Some(true), Inactive)] + StillRows(ids[1..])
  }

  /** After the first state, it shows every target inactive for j rounds and then lists nothing. */
  function Losing(state: State, ids: seq<string>, j: nat): Replies {
    Replies(
      n => Some(if n == 0 then state else state.(spaces := Some(if n <= j then StillRows(ids) else []))),
      _ => None, _ => None, _ => Unreachable, 0)
  }

  lemma {:induction false} FindStill(ids: seq<string>, id: string)
    requires id in ids
    ensures Find(StillRows(ids), id) == Present(Row(Some(id), Some(true), Inactive))
  {
    var rows := StillRows(ids);
    if ids[0] == id {
    } else {
      assert rows[1..] == StillRows(ids[1..]);
      FindStill(ids[1..], id);
    }
  }

  lemma TargetIsOrdinary(state: State, id: string)
    requires HasTargets(state) && id in TargetsOf(state)
    ensures id != "web" && Some(id) != state.managerId
  {
    TargetIdsExact(state.spaces.value, state.managerId, id);
  }

  lemma LosingVerdict(state: State, ids: seq<string>, j: nat, n: nat, id: string)
    requires HasTargets(state) && ids == TargetsOf(state) && id in ids && n > 0
    ensures Verdict(Losing(state, ids, j).states(n), id, state.serviceEpoch)
         == Err(if n <= j then AlreadyStopped else Refused(TargetMissing))
  {
    FindStill(ids, id);
    TargetIsOrdinary(state, id);
  }

  /** The first j targets are taken for stopped, and the next one is refused. */
  lemma {:induction false} LosingRounds(state: State, ids: seq<string>, j: nat, calls: seq<Call>, k: nat)
    requires HasTargets(state) && ids == TargetsOf(state) && k <= j < |ids| && |calls| == k + 1
    ensures EachRun(Losing(state, ids, j), calls, ids, k, state.serviceEpoch, None).0
         == Returned(StopResult(ids[..j], Some(ids[j]), None, Remaining(ids, ids[..j]), Some(TargetMissing)))
    decreases j - k
  {
    var r := Losing(state, ids, j);
    LosingVerdict(state, ids, j, k + 1, ids[k]);
    var seen := calls + [StateCall(r.states(k + 1))];
    assert OneRun(r, calls, ids[k], state.serviceEpoch).1 == seen;
    if k == j {
    } else {
      LosingRounds(state, ids, j, seen, k + 1);
    }
  }

  /** The failing run, whatever state lists a target twice: the second of the two ends in
      failed, and neither in stopped, which has it once, nor in remaining. */
  lemma SplitLosesATarget(state: State, i: nat, j: nat)
    requires HasTargets(state) && i < j < |TargetsOf(state)| && TargetsOf(state)[i] == TargetsOf(state)[j]
    ensures var r, ids := Losing(state, TargetsOf(state), j), TargetsOf(state);
            && r.states(0) == Some(state)
            && StopRun(r).0 ==
                 Returned(StopResult(ids[..j], Some(ids[j]), None, Remaining(ids, ids[..j]), Some(TargetMissing)))
            && !ReturnsSplit(r)
  {
    var ids := TargetsOf(state);
    LosingRounds(state, ids, j, [StateCall(Some(state))], 0);
    RepeatedNotSplit(ids, i, j);
  }

  /** Of the call: from a given first state, all servers make it return a split of the
      targets exactly when that state lists no target twice. */
  lemma ReturnsSplitIffDistinct(state: State)
    requires HasTargets(state)
    ensures (forall r: Replies :: r.states(0) == Some(state) ==> ReturnsSplit(r)) <==> Distinct(TargetsOf(state))
  {
    var ids := TargetsOf(state);
    if Distinct(ids) {
      forall r: Replies | r.states(0) == Some(state) ensures ReturnsSplit(r) {
        DistinctRunsSplit(r);
      }
    } else {
      var i, j :| 0 <= i < j < |ids| && ids[i] == ids[j];
      SplitLosesATarget(state, i, j);
    }
  }

  /** With distinct targets no run ever submits a space twice. */
  lemma SubmittedOnce(r: Replies)
    requires r.states(0).Some? && HasTargets(r.states(0).value) && Distinct(TargetsOf(r.states(0).value))
    ensures Distinct(Submitted(StopRun(r).1))
  {
    StopRunFits(r);
    PartOfDistinct(TargetsOf(r.states(0).value), Submitted(StopRun(r).1));
  }

  lemma PartOfDistinct(targets: seq<string>, submitted: seq<string>)
    requires Distinct(targets) && multiset(submitted) <= multiset(targets)
    ensures Distinct(submitted)
  {
    forall i, j | 0 <= i < j < |submitted| ensures submitted[i] != submitted[j] {
      if submitted[i] == submitted[j] {
        var id := submitted[i];
        assert submitted == submitted[..i] + [id] + submitted[i + 1..j] + [id] + submitted[j + 1..];
        assert multiset(submitted)[id] >= 2;
        DistinctCount(targets, id);
        assert false;
      }
    }
  }

  lemma {:induction false} DistinctCount(ids: seq<string>, id: string)
    requires Distinct(ids)
    ensures multiset(ids)[id] <= 1
  {
    if ids == [] {
    } else {
      assert ids == [ids[0]] + ids[1..];
      DistinctCount(ids[1..], id);
      assert id == ids[0] ==> id !in ids[1..];
    }
  }

  // ---- the same in the fields of states, rows and plans ----

  /** A client context is made of a state of protocol 2 that is available, from its two digests. */
  lemma ContextExactly(state: State)
    ensures MutationContext(state).Some? <==>
              state.protocolVersion == 2 && !state.unavailable && HexDigest(state.serviceEpoch) && HexDigest(state.revision)
    ensures MutationContext(state).Some? ==> MutationContext(state) == Some(Context(state.serviceEpoch, state.revision))
  {
  }

  /** The call works on a first state exactly if it gives a context, names a manager, and
      lists only rows with an id and a flag. */
  lemma TargetsReadIff(state: State)
    ensures HasTargets(state) <==>
              && state.protocolVersion == 2 && !state.unavailable && HexDigest(state.serviceEpoch) && HexDigest(state.revision)
              && state.managerId.Some? && !Blank(state.managerId.value) && state.spaces.Some?
              && forall row :: row in state.spaces.value ==> row.Row? && row.id.Some? && row.id.value != "" && row.managed.Some?
  {
    if state.spaces.Some? {
      var rows := state.spaces.value;
      assert (forall i :: 0 <= i < |rows| ==> UsableRow(rows[i])) <==> forall row :: row in rows ==> UsableRow(row);
    }
  }

  /** The k-th row is the first with the id, and no null row comes before it. */
  predicate FirstRow(rows: seq<Row>, id: string, k: nat) {
    k < |rows| && rows[k].Row? && rows[k].id == Some(id) && OtherRows(rows[..k], id)
  }

  predicate OtherRows(rows: seq<Row>, id: string) {
    forall j :: 0 <= j < |rows| ==> rows[j].Row? && rows[j].id != Some(id)
  }

  ghost predicate NullFirst(rows: seq<Row>, id: string) {
    exists k :: 0 <= k < |rows| && rows[k] == NullRow && OtherRows(rows[..k], id)
  }

  lemma {:induction false} FindExactly(rows: seq<Row>, id: string)
    ensures Find(rows, id).Absent? <==> OtherRows(rows, id)
    ensures Find(rows, id).HitNull? <==> NullFirst(rows, id)
    ensures Find(rows, id).Present? ==> exists k: nat :: FirstRow(rows, id, k) && rows[k] == Find(rows, id).row
    ensures forall k: nat :: FirstRow(rows, id, k) ==> Find(rows, id) == Present(rows[k])
  {
    if rows == [] {
    } else if rows[0] == NullRow {
      assert rows[..0] == [] && NullFirst(rows, id);
    } else if rows[0].id == Some(id) {
      assert rows[..0] == [] && FirstRow(rows, id, 0);
      forall k | 0 < k <= |rows| ensures !OtherRows(rows[..k], id) {
        assert rows[..k][0] == rows[0];
      }
    } else {
      FindExactly(rows[1..], id);
      LaterRows(rows, id);
      if Find(rows, id).Present? {
        var k: nat :| FirstRow(rows[1..], id, k) && rows[1..][k] == Find(rows[1..], id).row;
        assert FirstRow(rows, id, k + 1);
      }
    }
  }

  lemma OtherFirst(rows: seq<Row>, id: string, k: nat)
    requires 0 < k <= |rows| && rows[0].Row? && rows[0].id != Some(id)
    ensures OtherRows(rows[..k], id) <==> OtherRows(rows[1..][..k - 1], id)
  {
    var tail := rows[1..][..k - 1];
    assert forall j :: 0 <= j < |tail| ==> tail[j] == rows[..k][j + 1];
    assert forall j :: 0 < j < k ==> rows[..k][j] == tail[j - 1];
  }

  lemma LaterRows(rows: seq<Row>, id: string)
    requires rows != [] && rows[0].Row? && rows[0].id != Some(id)
    ensures OtherRows(rows, id) <==> OtherRows(rows[1..], id)
    ensures NullFirst(rows, id) <==> NullFirst(rows[1..], id)
    ensures forall k: nat :: FirstRow(rows, id, k) ==> k > 0 && FirstRow(rows[1..], id, k - 1) && rows[1..][k - 1] == rows[k]
    ensures forall k: nat :: FirstRow(rows[1..], id, k) ==> FirstRow(rows, id, k + 1) && rows[k + 1] == rows[1..][k]
  {
    var tail := rows[1..];
    assert rows[..|rows|] == rows && tail[..|tail|] == tail;
    OtherFirst(rows, id, |rows|);
    forall k: nat | k < |tail| ensures OtherRows(rows[..k + 1], id) <==> OtherRows(tail[..k], id) {
      OtherFirst(rows, id, k + 1);
    }
    if k :| 0 <= k < |tail| && tail[k] == NullRow && OtherRows(tail[..k], id) {
      assert rows[k + 1] == NullRow && OtherRows(rows[..k + 1], id);
    }
    if k :| 0 <= k < |rows| && rows[k] == NullRow && OtherRows(rows[..k], id) {
      assert k > 0 && tail[k - 1] == NullRow;
    }
  }

  /** A row that may be stopped: managed, and neither the web space nor the manager's. */
  predicate MayStop(row: Row, state: State) {
    row.Row? && row.managed == Some(true) && row.id != Some("web") && row.id != state.managerId
  }

  /** The state is of the epoch, and its first row with the id is this one. */
  predicate ShowsRow(state: State, spaceId: string, epoch: string, k: nat) {
    state.serviceEpoch == epoch && state.spaces.Some? && FirstRow(state.spaces.value, spaceId, k)
  }

  /** How a round may end on the state it asks for. */
  lemma StateEnds(answer: Option<State>, spaceId: string, epoch: string)
    ensures answer.None? ==> EndsFrom(answer, spaceId, epoch, TargetThrew)
    ensures answer.Some? && MutationContext(answer.value).Some? ==>
              var state := answer.value;
              && (EndsFrom(answer, spaceId, epoch, Refused(EpochChanged)) <==> state.serviceEpoch != epoch)
              && (EndsFrom(answer, spaceId, epoch, Refused(TargetMissing)) <==>
                    state.serviceEpoch == epoch && state.spaces.Some? && OtherRows(state.spaces.value, spaceId))
              && (EndsFrom(answer, spaceId, epoch, Refused(OwnershipChanged)) <==>
                    exists k: nat :: ShowsRow(state, spaceId, epoch, k) && !MayStop(state.spaces.value[k], state))
              && (EndsFrom(answer, spaceId, epoch, AlreadyStopped) <==>
                    exists k: nat :: ShowsRow(state, spaceId, epoch, k) && MayStop(state.spaces.value[k], state) &&
                                     state.spaces.value[k].status == Inactive)
              && (EndsFrom(answer, spaceId, epoch, TargetThrew) <==>
                    state.serviceEpoch == epoch && (state.spaces.None? || NullFirst(state.spaces.value, spaceId)))
    ensures answer.Some? && MutationContext(answer.value).None? ==> EndsFrom(answer, spaceId, epoch, TargetThrew)
  {
    if answer.Some? && answer.value.spaces.Some? {
      FindExactly(answer.value.spaces.value, spaceId);
    }
  }

  /** Call i submits the plan that the call before it answered for a space which the
      state before that showed as one to be stopped; state, preview, plan and submission
      are all of the first state's epoch and of one revision. */
  ghost predicate SubmitsRightly(calls: seq<Call>, i: nat, epoch: string)
    requires i < |calls| && calls[i].SubmitCall?
  {
    && i >= 2 && calls[i - 2].StateCall? && calls[i - 2].state.Some? && calls[i - 1].PreviewCall? && calls[i - 1].plan.Some?
    && var state, plan := calls[i - 2].state.value, calls[i - 1].plan.value;
       && state.serviceEpoch == plan.serviceEpoch == epoch && state.revision == plan.stateRevision
       && calls[i - 1].asked == calls[i].context == Context(state.serviceEpoch, state.revision)
       && calls[i].planId == plan.id
       && exists k: nat :: ShowsRow(state, calls[i - 1].spaceId, epoch, k) && MayStop(state.spaces.value[k], state) &&
                           state.spaces.value[k].status != Inactive
  }

  lemma LicenceReads(calls: seq<Call>, i: nat, epoch: string)
    requires i < |calls| && calls[i].SubmitCall? && Licensed(calls, i, epoch)
    ensures SubmitsRightly(calls, i, epoch)
  {
    var state := calls[i - 2].state.value;
    FindExactly(state.spaces.value, calls[i - 1].spaceId);
    FindHasId(state.spaces.value, calls[i - 1].spaceId);
  }

  /** So of every submission of every run. */
  lemma RunSubmitsRightly(r: Replies, i: nat)
    requires i < |StopRun(r).1| && StopRun(r).1[i].SubmitCall?
    ensures r.states(0).Some? && SubmitsRightly(StopRun(r).1, i, r.states(0).value.serviceEpoch)
  {
    var calls := StopRun(r).1;
    StopRunFits(r);
    assert LicensedAt(calls, i, r.states(0).value.serviceEpoch);
    LicenceReads(calls, i, r.states(0).value.serviceEpoch);
  }

  /** How a round may end on a preview or on a job's answer. */
  lemma AnswerEnds(call: Call, spaceId: string, epoch: string)
    ensures call.PreviewCall? ==>
              (EndsOn(call, spaceId, epoch, TargetThrew) <==>
                 call.plan.None? || call.plan.value.serviceEpoch != call.asked.serviceEpoch ||
                 call.plan.value.stateRevision != call.asked.expectedRevision ||
                 !HexDigest(call.asked.serviceEpoch) || !HexDigest(call.asked.expectedRevision))
    ensures call.SubmitCall? && call.submitted.None? ==> EndsOn(call, spaceId, epoch, TargetThrew)
    ensures call.JobCall? && call.answer.OtherError? ==> EndsOn(call, spaceId, epoch, TargetThrew)
    ensures (call.SubmitCall? || call.JobCall?) && JobOf(call).Some? ==>
              var job := JobOf(call).value;
              && (job.status == Succeeded <==> EndsOn(call, spaceId, epoch, Stopped(job)))
              && (job.status == Failed || job.status == Cancelled <==> EndsOn(call, spaceId, epoch, JobFailed(job)))
              && (job.status == Unfinished <==> EndsOn(call, spaceId, epoch, TargetWaiting))
  {
  }

  lemma {:induction false} EachWaits(r: Replies, calls: seq<Call>, targets: seq<string>, k: nat, epoch: string, lastJob: Option<Job>)
    requires k <= |targets|
    ensures var (outcome, later) := EachRun(r, calls, targets, k, epoch, lastJob);
            outcome.StillWaiting? ==> |later| >= r.horizon
    decreases |targets| - k
  {
    if k == |targets| {
    } else {
      var (end, later) := OneRun(r, calls, targets[k], epoch);
      if GoesOn(end) {
        EachWaits(r, later, targets, k + 1, epoch, JobAfter(end, lastJob));
      } else {
        OneWaits(r, calls, targets[k], epoch);
      }
    }
  }

  lemma OneWaits(r: Replies, calls: seq<Call>, spaceId: string, epoch: string)
    ensures var (end, later) := OneRun(r, calls, spaceId, epoch);
            end.TargetWaiting? ==> |later| >= r.horizon
  {
    var answer := r.states(|calls|);
    var seen := calls + [StateCall(answer)];
    var verdict := Verdict(answer, spaceId, epoch);
    VerdictFits(answer, spaceId, epoch);
    if verdict.Ok? {
      var plan := r.plans(|seen|);
      if plan.Some? && PlanMatches(plan.value, verdict.value) {
        SubmittedWaits(r, seen, spaceId, verdict.value, plan.value);
      }
    }
  }

  lemma SubmittedWaits(r: Replies, calls: seq<Call>, spaceId: string, context: Context, plan: Plan)
    ensures var (end, later) := SubmittedRun(r, calls, spaceId, context, plan);
            end.TargetWaiting? ==> |later| >= r.horizon
  {
    var job := r.submits(|calls| + 1);
    if job.Some? {
      var submitted := Submission(calls, spaceId, context, plan, job);
      WaitFits(r, submitted, job.value);
      var (w, polled) := WaitRun(r, submitted, job.value);
      assert w.Polling? ==> |polled| >= r.horizon;
      assert SubmittedRun(r, calls, spaceId, context, plan) == (WaitEnd(w), polled);
    }
  }

  /** The call is left waiting only by a server that has stopped answering polls. */
  lemma WaitsToHorizon(r: Replies)
    ensures StopRun(r).0.StillWaiting? ==> |StopRun(r).1| >= r.horizon
  {
    if r.states(0).Some? && HasTargets(r.states(0).value) {
      EachWaits(r, [StateCall(r.states(0))], TargetsOf(r.states(0).value), 0, r.states(0).value.serviceEpoch, None);
    }
  }
}
