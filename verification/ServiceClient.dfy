/** The public status of the desktop's supervisor connection. */
module ServiceStatus {
  datatype Status = Idle | Connecting | Connected | Stopped | Unavailable
}

/** The desktop client of the supervisor: connect, start and dispose calls that
    interleave with one asynchronous run. The code between two awaits is one step. */
module ServiceClient {
  import opened Basics
  import opened ServiceStatus

  type Endpoint = nat

  datatype Args = Args(nodeExe: string, cliBin: string)

  /** Where a run is suspended; a returned run still awaits its `finally`. */
  datatype Stage = Attaching | Bootstrapping | Returned

  /** `offers` and `bootstraps` are history: the paths offered by `start` since they
      were last dropped, and the calls of the bootstrap function. A run is named
      by the generation it began with. */
  datatype State = State(
    generation: nat, disposed: bool, status: Status, inflight: Option<nat>,
    allowBootstrap: bool, startArgs: Option<Args>, endpoint: Option<Endpoint>, api: Option<Endpoint>,
    runs: map<nat, Stage>, offers: seq<Args>, bootstraps: seq<(nat, Args)>)

  const INITIAL := State(0, false, Idle, None, false, None, None, None, map[], [], [])

  // ---- what attach answers ----

  datatype EndpointField = NotAnObject | Fields(origin: Option<string>, bearer: Option<string>, endpoint: Endpoint)

  datatype AttachResult = NoResult | AttachResult(endpoint: Option<EndpointField>, blocked: bool, stale: bool, missing: bool)

  datatype Kind = IsEndpoint | IsMissing | IsBlocked

  function ClassifyAttach(r: AttachResult): (kind: Kind)
    ensures kind.IsMissing? ==> r.AttachResult? && r.missing && !r.blocked && !r.stale
    ensures kind.IsEndpoint? ==> r.AttachResult? && r.endpoint.Some? && r.endpoint.value.Fields?
  {
    if r.NoResult? then IsBlocked
    else if r.endpoint.Some? && r.endpoint.value.Fields? then
      if r.endpoint.value.origin.Some? && r.endpoint.value.bearer.Some? then IsEndpoint else IsBlocked
    else if r.blocked then IsBlocked
    else if r.stale then IsBlocked
    else if r.missing then IsMissing
    else IsBlocked
  }

  // ---- the steps ----

  predicate Live(s: State, g: nat) { !s.disposed && s.generation == g }

  function Settle(s: State, g: nat, status: Status, endpoint: Option<Endpoint>): State {
    if !Live(s, g) then s
    else s.(status := status, endpoint := endpoint, api := endpoint,
            allowBootstrap := false, startArgs := None, offers := [])
  }

  function Queue(s: State, args: Option<Args>): State {
    if s.disposed || (s.status == Connected && s.api.Some?) then s
    else
      var t :=
        if args.None? then s
        else s.(allowBootstrap := true, startArgs := if s.startArgs.Some? then s.startArgs else args,
                offers := s.offers + [args.value]);
      if t.inflight.Some? then t
      else
        var g := t.generation + 1;
        t.(generation := g, status := Connecting, inflight := Some(g), runs := t.runs[g := Attaching])
  }

  function Started(s: State, args: Args): State {
    if s.disposed || (s.status == Connected && s.api.Some?) then s
    else if Blank(args.nodeExe) || Blank(args.cliBin) then
      if s.inflight.Some? then s else Settle(s, s.generation, Unavailable, None)
    else Queue(s, Some(args))
  }

  function Disposed(s: State): State {
    s.(disposed := true, generation := s.generation + 1, endpoint := None, api := None,
       allowBootstrap := false, startArgs := None, status := Idle, offers := [])
  }

  function Return(s: State, g: nat): State { s.(runs := s.runs[g := Returned]) }

  function AttachResolved(s: State, g: nat, r: AttachResult): State {
    if !Live(s, g) then Return(s, g)
    else match ClassifyAttach(r)
      case IsEndpoint => Return(Settle(s, g, Connected, Some(r.endpoint.value.endpoint)), g)
      case IsBlocked => Return(Settle(s, g, Unavailable, None), g)
      case IsMissing =>
        if !s.allowBootstrap || s.startArgs.None? then Return(Settle(s, g, Stopped, None), g)
        else s.(runs := s.runs[g := Bootstrapping], bootstraps := s.bootstraps + [(g, s.startArgs.value)])
  }

  function BootstrapResolved(s: State, g: nat, connected: Option<Endpoint>): State {
    if !Live(s, g) then Return(s, g)
    else if connected.None? then Return(Settle(s, g, Unavailable, None), g)
    else Return(Settle(s, g, Connected, connected), g)
  }

  function RunThrew(s: State, g: nat): State {
    Return(Settle(s, g, Unavailable, None), g)
  }

  function Finished(s: State, g: nat): State {
    s.(runs := s.runs - {g}, inflight := if s.inflight == Some(g) then None else s.inflight)
  }

  /** A throw anywhere between two awaits, also from a callback, is `Throws`. */
  datatype Event =
    | Connect
    | Start(args: Args)
    | Dispose
    | AttachResolves(g: nat, result: AttachResult)
    | BootstrapResolves(g: nat, connected: Option<Endpoint>)
    | Throws(g: nat)
    | Finally(g: nat)

  predicate Enabled(s: State, e: Event) {
    match e
    case AttachResolves(g, _) => g in s.runs && s.runs[g] == Attaching
    case BootstrapResolves(g, _) => g in s.runs && s.runs[g] == Bootstrapping
    case Throws(g) => g in s.runs && s.runs[g] != Returned
    case Finally(g) => g in s.runs && s.runs[g] == Returned
    case _ => true
  }

  function Next(s: State, e: Event): State {
    match e
    case Connect => Queue(s, None)
    case Start(args) => Started(s, args)
    case Dispose => Disposed(s)
    case AttachResolves(g, r) => AttachResolved(s, g, r)
    case BootstrapResolves(g, c) => BootstrapResolved(s, g, c)
    case Throws(g) => RunThrew(s, g)
    case Finally(g) => Finished(s, g)
  }

  // ---- the class ----

  class DesktopServiceClient {
    var generation: nat
    var disposed: bool
    var status: Status
    var inflight: Option<nat>
    var allowBootstrap: bool
    var startArgs: Option<Args>
    var endpoint: Option<Endpoint>
    var api: Option<Endpoint>
    ghost var runs: map<nat, Stage>
    ghost var offers: seq<Args>
    ghost var bootstraps: seq<(nat, Args)>

    ghost function Value(): State
      reads this
    {
      State(generation, disposed, status, inflight, allowBootstrap, startArgs, endpoint, api, runs, offers, bootstraps)
    }

    constructor ()
      ensures Value() == INITIAL
    {
      generation, disposed, status, inflight := 0, false, Idle, None;
      allowBootstrap, startArgs, endpoint, api := false, None, None, None;
      runs, offers, bootstraps := map[], [], [];
    }

    predicate IsLive(g: nat)
      reads this
      ensures IsLive(g) <==> Live(Value(), g)
    {
      !disposed && generation == g
    }

    method ConnectNow()
      modifies this
      ensures Value() == Next(old(Value()), Connect)
    {
      Enqueue(None);
    }

    method StartNow(args: Args)
      modifies this
      ensures Value() == Next(old(Value()), Start(args))
    {
      if disposed || (status == Connected && api.Some?) {
        return;
      }
      if Blank(args.nodeExe) || Blank(args.cliBin) {
        if inflight.None? {
          Become(generation, Unavailable, None);
        }
        return;
      }
      Enqueue(Some(args));
    }

    method DisposeNow()
      modifies this
      ensures Value() == Next(old(Value()), Dispose)
    {
      disposed, generation := true, generation + 1;
      endpoint, api, allowBootstrap, startArgs, offers := None, None, false, None, [];
      status := Idle;
    }

    /** `queue`, and `run` up to its first await. */
    method Enqueue(args: Option<Args>)
      modifies this
      ensures Value() == Queue(old(Value()), args)
    {
      if disposed || (status == Connected && api.Some?) {
        return;
      }
      if args.Some? {
        allowBootstrap := true;
        if startArgs.None? {
          startArgs := args;
        }
        offers := offers + [args.value];
      }
      if inflight.Some? {
        return;
      }
      generation := generation + 1;
      status := Connecting;
      runs := runs[generation := Attaching];
      inflight := Some(generation);
    }

    /** `becomeConnected`, `becomeStopped` and `becomeUnavailable`. */
    method Become(g: nat, next: Status, e: Option<Endpoint>)
      modifies this
      ensures Value() == Settle(old(Value()), g, next, e)
    {
      if !IsLive(g) {
        return;
      }
      endpoint, api, status := e, e, next;
      allowBootstrap, startArgs, offers := false, None, [];
    }

    method ResumeAttached(g: nat, r: AttachResult)
      requires Enabled(Value(), AttachResolves(g, r))
      modifies this
      ensures Value() == Next(old(Value()), AttachResolves(g, r))
    {
      if !IsLive(g) {
        runs := runs[g := Returned];
        return;
      }
      match ClassifyAttach(r)
      case IsEndpoint =>
        Become(g, Connected, Some(r.endpoint.value.endpoint));
        runs := runs[g := Returned];
      case IsBlocked =>
        Become(g, Unavailable, None);
        runs := runs[g := Returned];
      case IsMissing =>
        if !allowBootstrap || startArgs.None? {
          Become(g, Stopped, None);
          runs := runs[g := Returned];
        } else {
          runs := runs[g := Bootstrapping];
          bootstraps := bootstraps + [(g, startArgs.value)];
        }
    }

    method ResumeBootstrapped(g: nat, connected: Option<Endpoint>)
      requires Enabled(Value(), BootstrapResolves(g, connected))
      modifies this
      ensures Value() == Next(old(Value()), BootstrapResolves(g, connected))
    {
      if IsLive(g) {
        if connected.None? {
          Become(g, Unavailable, None);
        } else {
          Become(g, Connected, connected);
        }
      }
      runs := runs[g := Returned];
    }

    method ResumeThrown(g: nat)
      requires Enabled(Value(), Throws(g))
      modifies this
      ensures Value() == Next(old(Value()), Throws(g))
    {
      if IsLive(g) {
        Become(g, Unavailable, None);
      }
      runs := runs[g := Returned];
    }

    method ResumeFinally(g: nat)
      requires Enabled(Value(), Finally(g))
      modifies this
      ensures Value() == Next(old(Value()), Finally(g))
    {
      runs := runs - {g};
      if inflight == Some(g) {
        inflight := None;
      }
    }

    /** `entryUrl` up to its await: what it captures, or None when it throws. */
    method EntryBegin() returns (captured: Option<(nat, Endpoint)>)
      ensures captured == Captured(Value())
    {
      if disposed || status != Connected || endpoint.None? {
        return None;
      }
      return Some((generation, endpoint.value));
    }

    /** `entryUrl` after its await. */
    method EntryEnd(captured: (nat, Endpoint)) returns (ok: bool)
      ensures ok <==> StillValid(Value(), captured)
    {
      ok := IsLive(captured.0) && endpoint == Some(captured.1);
    }
  }

  function Captured(s: State): Option<(nat, Endpoint)> {
    if s.disposed || s.status != Connected || s.endpoint.None? then None else Some((s.generation, s.endpoint.value))
  }

  predicate StillValid(s: State, captured: (nat, Endpoint)) {
    Live(s, captured.0) && s.endpoint == Some(captured.1)
  }

  // ---- what every step keeps ----

  predicate InProgress(s: State) {
    s.inflight.Some? && s.inflight.value in s.runs && s.runs[s.inflight.value] != Returned
  }

  /** At most one run, the one in flight; while nothing is disposed it is live
      exactly as long as the status is connecting. */
  ghost predicate Inv(s: State) {
    && (s.status == Connected <==> s.endpoint.Some?) && s.api == s.endpoint
    && s.runs.Keys == (if s.inflight.Some? then {s.inflight.value} else {})
    && (s.inflight.Some? ==> s.inflight.value <= s.generation)
    && (s.status == Connecting <==> !s.disposed && InProgress(s))
    && (!s.disposed && InProgress(s) ==> s.inflight.value == s.generation)
    && (s.disposed ==> s.status == Idle && s.offers == [])
    && (s.status == Connected ==> s.offers == [])
    && (s.allowBootstrap <==> s.offers != [])
    && s.startArgs == (if s.offers == [] then None else Some(s.offers[0]))
    && OncePerRun(s)
  }

  ghost predicate OncePerRun(s: State) {
    && (forall i, j :: 0 <= i < j < |s.bootstraps| ==> s.bootstraps[i].0 != s.bootstraps[j].0)
    && (forall i :: 0 <= i < |s.bootstraps| ==> s.bootstraps[i].0 <= s.generation)
    && (forall i :: 0 <= i < |s.bootstraps| ==>
          s.bootstraps[i].0 in s.runs ==> s.runs[s.bootstraps[i].0] != Attaching)
  }

  lemma CallKeeps(s: State, e: Event)
    requires Inv(s) && (e.Connect? || e.Start? || e.Dispose?)
    ensures Inv(Next(s, e))
  {
  }

  lemma AttachKeeps(s: State, e: Event)
    requires Inv(s) && Enabled(s, e) && e.AttachResolves?
    ensures Inv(Next(s, e))
  {
    assert Next(s, e).runs.Keys == s.runs.Keys;
  }

  lemma RunEndKeeps(s: State, e: Event)
    requires Inv(s) && Enabled(s, e) && (e.BootstrapResolves? || e.Throws?)
    ensures Inv(Next(s, e))
  {
    assert Next(s, e).runs.Keys == s.runs.Keys;
  }

  lemma FinallyKeeps(s: State, e: Event)
    requires Inv(s) && Enabled(s, e) && e.Finally?
    ensures Inv(Next(s, e))
  {
    assert Next(s, e).runs.Keys == {};
  }

  lemma StepKeeps(s: State, e: Event)
    requires Inv(s) && Enabled(s, e)
    ensures Inv(Next(s, e))
  {
    match e
    case AttachResolves(_, _) => AttachKeeps(s, e);
    case BootstrapResolves(_, _) => RunEndKeeps(s, e);
    case Throws(_) => RunEndKeeps(s, e);
    case Finally(_) => FinallyKeeps(s, e);
    case _ => CallKeeps(s, e);
  }

  /** A run whose generation is no longer live changes nothing but itself. */
  lemma StaleRunChangesNothing(s: State, e: Event)
    requires e.AttachResolves? || e.BootstrapResolves? || e.Throws? || e.Finally?
    requires Enabled(s, e) && !Live(s, e.g)
    ensures var t := Next(s, e);
            t == s.(runs := t.runs, inflight := t.inflight) && (t.inflight == s.inflight || t.inflight.None?)
    ensures forall g :: g != e.g ==> (g in s.runs <==> g in Next(s, e).runs)
  {
  }

  ghost predicate Run(states: seq<State>, events: seq<Event>) {
    && |states| == |events| + 1 && states[0] == INITIAL
    && forall i :: 0 <= i < |events| ==> IsStep(states[i], events[i], states[i + 1])
  }

  ghost predicate IsStep(s: State, e: Event, t: State) {
    Enabled(s, e) && t == Next(s, e)
  }

  lemma {:induction false} RunKeeps(states: seq<State>, events: seq<Event>, k: nat)
    requires Run(states, events) && k < |states|
    ensures Inv(states[k])
  {
    if k == 0 {
    } else {
      RunKeeps(states, events, k - 1);
      assert IsStep(states[k - 1], events[k - 1], states[k]);
      StepKeeps(states[k - 1], events[k - 1]);
    }
  }

  /** Connected exactly when endpoint and client are both there; one run at most;
      one bootstrap per run at most. */
  lemma ReachableStates(states: seq<State>, events: seq<Event>, k: nat)
    requires Run(states, events) && k < |states|
    ensures states[k].status == Connected <==> states[k].endpoint.Some? && states[k].api.Some?
    ensures |states[k].runs| <= 1
    ensures forall i, j :: 0 <= i < j < |states[k].bootstraps| ==> states[k].bootstraps[i].0 != states[k].bootstraps[j].0
  {
    RunKeeps(states, events, k);
    assert |states[k].runs| == |states[k].runs.Keys|;
  }

  /** After dispose the client stays idle and bare, whatever still resolves. */
  lemma {:induction false} DisposedStaysIdle(states: seq<State>, events: seq<Event>, i: nat, k: nat)
    requires Run(states, events) && i < k < |states| && events[i] == Dispose
    ensures states[k].disposed && states[k].status == Idle && states[k].endpoint.None? && states[k].api.None?
    ensures states[k].bootstraps == states[i].bootstraps
  {
    RunKeeps(states, events, k - 1);
    RunKeeps(states, events, k);
    assert IsStep(states[k - 1], events[k - 1], states[k]);
    if k - 1 > i {
      DisposedStaysIdle(states, events, i, k - 1);
    }
  }

  lemma ConnectedStep(s: State, e: Event)
    requires Inv(s) && Enabled(s, e) && s.status == Connected
    ensures var t := Next(s, e);
            t.disposed || t.(runs := s.runs, inflight := s.inflight) == s
  {
  }

  lemma DisposedStep(s: State, e: Event)
    requires Inv(s) && Enabled(s, e) && s.disposed
    ensures Next(s, e).disposed && Next(s, e).bootstraps == s.bootstraps
  {
  }

  /** Once connected, only dispose ends the connection: the client never
      reconnects, and never changes its endpoint. */
  lemma {:induction false} ConnectedUntilDisposed(states: seq<State>, events: seq<Event>, i: nat, k: nat)
    requires Run(states, events) && i <= k < |states| && states[i].status == Connected
    ensures states[k].disposed ||
            (states[k].status == Connected && states[k].endpoint == states[i].endpoint &&
             states[k].generation == states[i].generation && states[k].bootstraps == states[i].bootstraps)
  {
    if k == i {
    } else {
      ConnectedUntilDisposed(states, events, i, k - 1);
      RunKeeps(states, events, k - 1);
      assert IsStep(states[k - 1], events[k - 1], states[k]);
      if states[k - 1].disposed {
        DisposedStep(states[k - 1], events[k - 1]);
      } else {
        ConnectedStep(states[k - 1], events[k - 1]);
      }
    }
  }

  /** So the check after the await of `entryUrl` refuses exactly the disposed client. */
  lemma EntryCheckIsDisposal(states: seq<State>, events: seq<Event>, i: nat, k: nat)
    requires Run(states, events) && i <= k < |states| && Captured(states[i]).Some?
    ensures StillValid(states[k], Captured(states[i]).value) <==> !states[k].disposed
    ensures !states[k].disposed ==> Captured(states[k]) == Captured(states[i])
  {
    ConnectedUntilDisposed(states, events, i, k);
  }

  // ---- when the supervisor is bootstrapped ----

  predicate Supplies(e: Event, args: Args) {
    e == Start(args) && !Blank(args.nodeExe) && !Blank(args.cliBin)
  }

  lemma OfferStep(s: State, e: Event, args: Args)
    requires Enabled(s, e) && args in Next(s, e).offers && args !in s.offers
    ensures Supplies(e, args)
  {
  }

  /** The offers still standing were all made by `start` calls of this history. */
  lemma {:induction false} OffersCameFromStart(states: seq<State>, events: seq<Event>, k: nat, args: Args)
    returns (i: nat)
    requires Run(states, events) && k < |states| && args in states[k].offers
    ensures i < k && Supplies(events[i], args)
    decreases k
  {
    assert k > 0 ==> IsStep(states[k - 1], events[k - 1], states[k]);
    if k > 0 && args in states[k - 1].offers {
      i := OffersCameFromStart(states, events, k - 1, args);
    } else {
      OfferStep(states[k - 1], events[k - 1], args);
      i := k - 1;
    }
  }

  lemma BootstrapStep(s: State, e: Event)
    requires Inv(s) && Enabled(s, e)
    ensures Next(s, e).bootstraps == s.bootstraps ||
            (e.AttachResolves? && ClassifyAttach(e.result) == IsMissing && s.offers != [] &&
             Next(s, e).bootstraps == s.bootstraps + [(e.g, s.offers[0])])
  {
  }

  /** Every bootstrap has its attach answer, classified as missing, and before that
      a `start` that supplied exactly the paths it uses. */
  lemma {:induction false} BootstrapHasCause(states: seq<State>, events: seq<Event>, k: nat, b: nat)
    returns (i: nat, j: nat)
    requires Run(states, events) && k < |states| && b < |states[k].bootstraps|
    ensures i < j < k && Supplies(events[i], states[k].bootstraps[b].1)
    ensures events[j].AttachResolves? && events[j].g == states[k].bootstraps[b].0
    ensures ClassifyAttach(events[j].result) == IsMissing
    decreases k
  {
    RunKeeps(states, events, k - 1);
    assert IsStep(states[k - 1], events[k - 1], states[k]);
    BootstrapStep(states[k - 1], events[k - 1]);
    if b < |states[k - 1].bootstraps| {
      i, j := BootstrapHasCause(states, events, k - 1, b);
    } else {
      j := k - 1;
      i := OffersCameFromStart(states, events, k - 1, states[k].bootstraps[b].1);
    }
  }

  /** A history without such a `start`, in particular one of `connect` calls only,
      never bootstraps. */
  lemma ConnectOnlyNeverBootstraps(states: seq<State>, events: seq<Event>, k: nat)
    requires Run(states, events) && k < |states|
    requires forall i :: 0 <= i < |events| ==> events[i].Start? ==> Blank(events[i].args.nodeExe) || Blank(events[i].args.cliBin)
    ensures states[k].bootstraps == []
  {
    if states[k].bootstraps != [] {
      var i, j := BootstrapHasCause(states, events, k, 0);
    }
  }

  /** The run that joins is decided when attach answers: it bootstraps exactly when
      the answer is missing and an offer stands, and with the first standing offer. */
  lemma BootstrapsIffOfferStands(states: seq<State>, events: seq<Event>, k: nat)
    requires Run(states, events) && k < |events| && events[k].AttachResolves? && !states[k].disposed
    ensures |states[k + 1].bootstraps| > |states[k].bootstraps| <==>
            ClassifyAttach(events[k].result) == IsMissing && states[k].offers != []
    ensures |states[k + 1].bootstraps| > |states[k].bootstraps| ==>
            states[k + 1].bootstraps == states[k].bootstraps + [(events[k].g, states[k].offers[0])]
  {
    RunKeeps(states, events, k);
    assert IsStep(states[k], events[k], states[k + 1]);
    assert InProgress(states[k]);
  }

  // ---- where each answer leads, on every run ----

  /** The answer carries an endpoint object with both its texts. */
  predicate GivesEndpoint(r: AttachResult) {
    r.AttachResult? && match r.endpoint
      case Some(Fields(origin, bearer, _)) => origin.Some? && bearer.Some?
      case _ => false
  }

  /** A verified absence: missing, and neither an endpoint object nor blocked nor stale. */
  predicate SaysMissing(r: AttachResult) {
    r.AttachResult? && r.missing && !r.blocked && !r.stale && (r.endpoint.None? || r.endpoint.value.NotAnObject?)
  }

  /** A live run is connected with exactly the endpoint of the answer, stopped on an
      absence that no offer answers to, bootstrapping on one that an offer does, and
      unavailable on every other answer. */
  lemma AttachLeads(states: seq<State>, events: seq<Event>, k: nat)
    requires Run(states, events) && k < |events| && events[k].AttachResolves?
    requires !states[k].disposed && states[k].generation == events[k].g
    ensures var s, r, t := states[k], events[k].result, states[k + 1];
            && (t.status == Connected <==> GivesEndpoint(r))
            && (GivesEndpoint(r) ==> t.endpoint == t.api == Some(r.endpoint.value.endpoint))
            && (t.status == Stopped <==> SaysMissing(r) && s.offers == [])
            && (t.status == Connecting <==> SaysMissing(r) && s.offers != [])
            && (t.status == Unavailable <==> !GivesEndpoint(r) && !SaysMissing(r))
            && t.bootstraps == s.bootstraps + (if SaysMissing(r) && s.offers != [] then [(events[k].g, s.offers[0])] else [])
            && t.offers == (if SaysMissing(r) then s.offers else [])
            && t.generation == s.generation && t.inflight == s.inflight
            && t.runs == s.runs[events[k].g := if SaysMissing(r) && s.offers != [] then Bootstrapping else Returned]
  {
    RunKeeps(states, events, k);
    assert IsStep(states[k], events[k], states[k + 1]);
  }

  /** A live bootstrap connects with the endpoint it answers, or is unavailable without
      one; a throw in a live run is unavailable. */
  lemma RunEndLeads(states: seq<State>, events: seq<Event>, k: nat)
    requires Run(states, events) && k < |events| && (events[k].BootstrapResolves? || events[k].Throws?)
    requires !states[k].disposed && states[k].generation == events[k].g
    ensures var s, e, t := states[k], events[k], states[k + 1];
            && (t.status == Connected <==> e.BootstrapResolves? && e.connected.Some?)
            && (t.status == Connected ==> t.endpoint == t.api == e.connected)
            && (t.status == Unavailable <==> !(e.BootstrapResolves? && e.connected.Some?))
            && t.offers == [] && t.bootstraps == s.bootstraps
            && t.generation == s.generation && t.inflight == s.inflight && t.runs == s.runs[e.g := Returned]
  {
    RunKeeps(states, events, k);
    assert IsStep(states[k], events[k], states[k + 1]);
  }

  /** A call before the connection: without a run in flight it begins one with the next
      generation; a start first adds its offer, and one without both paths begins
      nothing and is unavailable. On a disposed or connected client calls do nothing. */
  lemma CallLeads(states: seq<State>, events: seq<Event>, k: nat)
    requires Run(states, events) && k < |events| && (events[k].Connect? || events[k].Start?)
    ensures var s, e, t := states[k], events[k], states[k + 1];
            var blank := e.Start? && (Blank(e.args.nodeExe) || Blank(e.args.cliBin));
            if s.disposed || s.status == Connected then t == s
            else if blank then
              t == if s.inflight.Some? then s else s.(status := Unavailable, allowBootstrap := false, startArgs := None, offers := [])
            else
              && t.offers == s.offers + (if e.Start? then [e.args] else [])
              && t.bootstraps == s.bootstraps && t.disposed == s.disposed && t.endpoint == s.endpoint
              && (s.inflight.Some? ==> t.status == s.status && t.generation == s.generation && t.runs == s.runs && t.inflight == s.inflight)
              && (s.inflight.None? ==> t.status == Connecting && t.generation == s.generation + 1 &&
                                       t.inflight == Some(t.generation) && t.runs == map[t.generation := Attaching])
  {
    RunKeeps(states, events, k);
    assert IsStep(states[k], events[k], states[k + 1]);
    assert states[k].inflight.None? ==> states[k].runs == map[];
  }

  /** Dispose makes the client idle, empty and of another generation; what is in flight goes on. */
  lemma DisposeLeads(states: seq<State>, events: seq<Event>, k: nat)
    requires Run(states, events) && k < |events| && events[k].Dispose?
    ensures var s, t := states[k], states[k + 1];
            && t.disposed && t.generation == s.generation + 1 && t.status == Idle && t.endpoint == t.api == None
            && t.offers == [] && t.inflight == s.inflight && t.runs == s.runs && t.bootstraps == s.bootstraps
  {
    assert IsStep(states[k], events[k], states[k + 1]);
  }

  /** Once a run's `finally` has come, nothing is in flight and the status stays. */
  lemma FinallyLeads(states: seq<State>, events: seq<Event>, k: nat)
    requires Run(states, events) && k < |events| && events[k].Finally?
    ensures states[k + 1] == states[k].(runs := map[], inflight := None)
  {
    RunKeeps(states, events, k);
    assert IsStep(states[k], events[k], states[k + 1]);
    assert states[k].runs - {events[k].g} == map[];
  }

  /** A link can be asked for exactly while the client is connected, and it is then the
      endpoint of that connection. */
  lemma EntryOpensIffConnected(states: seq<State>, events: seq<Event>, k: nat)
    requires Run(states, events) && k < |states|
    ensures Captured(states[k]).Some? <==> states[k].status == Connected
    ensures Captured(states[k]).Some? ==> Captured(states[k]) == Some((states[k].generation, states[k].endpoint.value))
  {
    RunKeeps(states, events, k);
  }

  /** An offer that lands after a run has returned and before its `finally` does
      not start anything; it stands, and a later plain `connect` acts on it. */
  lemma LateOfferIsKept(args: Args, missing: AttachResult) returns (states: seq<State>, events: seq<Event>)
    requires !Blank(args.nodeExe) && !Blank(args.cliBin) && ClassifyAttach(missing) == IsMissing
    ensures Run(states, events)
    ensures events == [Connect, AttachResolves(1, missing), Start(args), Finally(1), Connect, AttachResolves(2, missing)]
    ensures states[4].status == Stopped && states[4].inflight.None? && states[4].bootstraps == []
    ensures states[6].bootstraps == [(2, args)]
  {
    events := [Connect, AttachResolves(1, missing), Start(args), Finally(1), Connect, AttachResolves(2, missing)];
    var s1 := Next(INITIAL, events[0]);
    var s2 := Next(s1, events[1]);
    var s3 := Next(s2, events[2]);
    var s4 := Next(s3, events[3]);
    var s5 := Next(s4, events[4]);
    var s6 := Next(s5, events[5]);
    states := [INITIAL, s1, s2, s3, s4, s5, s6];
  }
}
