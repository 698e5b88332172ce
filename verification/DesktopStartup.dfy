/** The one normal launch: attach first, then start once, only after a verified absence. */
module DesktopStartup {
  import opened Basics
  import opened ServiceStatus

  /** What the port shows at one moment. */
  datatype Look = Look(status: Status, canStart: bool)

  /** `pending` is the connect call that has not settled; `connects` and `starts`
      count the calls made of the port. */
  datatype State = State(
    isOpen: bool, pending: bool, starting: bool, decided: bool, connects: nat, starts: nat)

  const INITIAL := State(false, false, false, false, 0, 0)

  datatype Event =
    | Open
    | ConnectResolves(look: Look)
    | ConnectRejects
    | EnvironmentPrepared(look: Look)
    | StartSettles

  predicate Enabled(s: State, e: Event) {
    match e
    case ConnectResolves(_) => s.pending
    case ConnectRejects => s.pending
    case StartSettles => s.starting
    case _ => true
  }

  function StartWhenReady(s: State, look: Look): State {
    if s.starting || s.decided then s
    else match look.status
      case Idle => s
      case Connecting => s
      case Stopped =>
        if !look.canStart then s
        else s.(decided := true, starting := true, starts := s.starts + 1)
      case _ => s.(decided := true)
  }

  function Next(s: State, e: Event): State {
    match e
    case Open => if s.isOpen then s else s.(isOpen := true, pending := true, connects := s.connects + 1)
    case ConnectResolves(look) => StartWhenReady(s.(pending := false), look)
    case ConnectRejects => s.(pending := false)
    case EnvironmentPrepared(look) => StartWhenReady(s, look)
    case StartSettles => s.(starting := false)
  }

  class Startup {
    var isOpen: bool
    ghost var pending: bool
    var starting: bool
    var decided: bool
    ghost var connects: nat
    ghost var starts: nat

    ghost function Value(): State
      reads this
    {
      State(isOpen, pending, starting, decided, connects, starts)
    }

    constructor ()
      ensures Value() == INITIAL
    {
      isOpen, pending, starting, decided, connects, starts := false, false, false, false, 0, 0;
    }

    method OpenNow()
      modifies this
      ensures Value() == Next(old(Value()), Open)
    {
      if !isOpen {
        isOpen, pending, connects := true, true, connects + 1;
      }
    }

    method ConnectResolved(look: Look)
      requires pending
      modifies this
      ensures Value() == Next(old(Value()), ConnectResolves(look))
    {
      pending := false;
      Decide(look);
    }

    method Prepared(look: Look)
      modifies this
      ensures Value() == Next(old(Value()), EnvironmentPrepared(look))
    {
      Decide(look);
    }

    method Decide(look: Look)
      modifies this
      ensures Value() == StartWhenReady(old(Value()), look)
    {
      if starting || decided {
        return;
      }
      if look.status == Idle || look.status == Connecting {
        return;
      }
      if look.status != Stopped {
        decided := true;
        return;
      }
      if !look.canStart {
        return;
      }
      // Consumed before the call, so a start that throws is not tried again.
      decided := true;
      starts := starts + 1;
      starting := true;
    }

    method StartSettled()
      requires starting
      modifies this
      ensures Value() == Next(old(Value()), StartSettles)
    {
      starting := false;
    }
  }

  // ---- what a whole run comes to ----

  ghost predicate Run(states: seq<State>, events: seq<Event>) {
    && |states| == |events| + 1 && states[0] == INITIAL
    && forall i :: 0 <= i < |events| ==> Enabled(states[i], events[i]) && states[i + 1] == Next(states[i], events[i])
  }

  predicate Looks(e: Event) { e.ConnectResolves? || e.EnvironmentPrepared? }

  /** A look that settles the matter, one way or the other. */
  predicate Decisive(e: Event) {
    && Looks(e)
    && (e.look.status == Connected || e.look.status == Unavailable || (e.look.status == Stopped && e.look.canStart))
  }

  ghost predicate FirstDecisive(events: seq<Event>, d: nat) {
    d < |events| && Decisive(events[d]) && forall i :: 0 <= i < d ==> !Decisive(events[i])
  }

  /** The index of the first decisive look, if there is one. */
  function Decision(events: seq<Event>): (d: Option<nat>)
    ensures d.Some? ==> FirstDecisive(events, d.value)
    ensures d.None? ==> forall i :: 0 <= i < |events| ==> !Decisive(events[i])
  {
    if events == [] then None
    else
      var n := |events| - 1;
      var front := events[..n];
      assert forall i :: 0 <= i < n ==> front[i] == events[i];
      if Decision(front).Some? then Decision(front) else if Decisive(events[n]) then Some(n) else None
  }

  /** The connect was called once if `open` ever was. The start was called once if
      the first decisive look saw the service stopped, and otherwise never. */
  predicate Tracks(s: State, events: seq<Event>) {
    && (s.isOpen <==> Open in events) && s.connects == (if Open in events then 1 else 0)
    && (s.starting ==> s.decided) && (s.decided <==> Decision(events).Some?)
    && var d := Decision(events);
       s.starts == (if d.Some? && events[d.value].look.status == Stopped then 1 else 0)
  }

  lemma TrackStep(s: State, events: seq<Event>, e: Event)
    requires Tracks(s, events)
    ensures Tracks(Next(s, e), events + [e])
  {
  }

  lemma {:induction false} StartedExactlyWhen(states: seq<State>, events: seq<Event>, k: nat)
    requires Run(states, events) && k < |states|
    ensures Tracks(states[k], events[..k])
  {
    if k == 0 {
    } else {
      StartedExactlyWhen(states, events, k - 1);
      TrackStep(states[k - 1], events[..k - 1], events[k - 1]);
      assert events[..k] == events[..k - 1] + [events[k - 1]];
    }
  }

  /** The step that starts sees stopped and ready, and nothing before it saw the
      service connected or unavailable. */
  lemma StartOnlyWhenAbsent(states: seq<State>, events: seq<Event>, k: nat)
    requires Run(states, events) && k < |events| && states[k + 1].starts > states[k].starts
    ensures Looks(events[k]) && events[k].look == Look(Stopped, true)
    ensures forall i :: 0 <= i < k && Looks(events[i]) ==>
              events[i].look.status != Connected && events[i].look.status != Unavailable
    ensures forall j :: k < j < |states| ==> states[j].starts == states[k + 1].starts
  {
    StartedExactlyWhen(states, events, k);
    assert forall i :: 0 <= i < k ==> events[..k][i] == events[i];
    forall j | k < j < |states| ensures states[j].starts == states[k + 1].starts {
      StartsGrow(states, events, k + 1, j);
      StartedExactlyWhen(states, events, j);
    }
  }

  lemma {:induction false} StartsGrow(states: seq<State>, events: seq<Event>, i: nat, j: nat)
    requires Run(states, events) && i <= j < |states|
    ensures states[i].starts <= states[j].starts
  {
    if i == j {
    } else {
      StartsGrow(states, events, i, j - 1);
    }
  }

  /** In the looks alone: started exactly once if some look saw the service stopped and
      ready before any saw it connected or unavailable, and else never; connected
      exactly once if it was ever opened, and else never. */
  lemma StartedIff(states: seq<State>, events: seq<Event>, k: nat)
    requires Run(states, events) && k < |states|
    ensures states[k].starts == (if exists d: nat :: SeesReadyFirst(events[..k], d) then 1 else 0)
    ensures states[k].connects == (if Open in events[..k] then 1 else 0)
  {
    StartedExactlyWhen(states, events, k);
    var past := events[..k];
    if d: nat :| SeesReadyFirst(past, d) {
      assert Decisive(past[d]);
      FirstReadyIsFirst(past, d);
    }
    var d := Decision(past);
    if d.Some? && past[d.value].look.status == Stopped {
      assert SeesReadyFirst(past, d.value);
    }
  }

  /** A look saw the service stopped and ready, none before it saw it there or unavailable,
      and no look before it was the same. */
  ghost predicate SeesReadyFirst(events: seq<Event>, d: nat) {
    && d < |events| && Looks(events[d]) && events[d].look == Look(Stopped, true)
    && forall i :: 0 <= i < d && Looks(events[i]) ==>
         events[i].look.status != Connected && events[i].look.status != Unavailable && events[i].look != Look(Stopped, true)
  }

  lemma FirstReadyIsFirst(events: seq<Event>, d: nat)
    requires SeesReadyFirst(events, d)
    ensures Decision(events) == Some(d)
  {
    var e := Decision(events);
    assert e.Some? && Decisive(events[d]);
  }
}
