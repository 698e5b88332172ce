/** Pending blueprint previews: a map of single-use plans and the byte total
    that summarises it. */
module PlanStore {
  import opened Basics

  const MAX_COUNT := 16
  const MAX_TOTAL_BYTES := 16 * 1024 * 1024
  const TTL_MS := 5 * 60_000

  /** What a plan saw of its target; two observations match when all agree. */
  datatype Observation = Observation(
    serviceEpoch: string, stateRevision: string,
    dshVersion: Option<string>, hostBaseVersion: Option<string>, hostWebAppVersion: Option<string>,
    homeSettingsDigest: string, homePatchDigest: string, runtimeFingerprint: string,
    llmCatalogRevision: nat, llmCatalogDigest: string)

  predicate ObservationsMatch(left: Observation, right: Observation) {
    && left.serviceEpoch == right.serviceEpoch
    && left.stateRevision == right.stateRevision
    && left.dshVersion == right.dshVersion
    && left.hostBaseVersion == right.hostBaseVersion
    && left.hostWebAppVersion == right.hostWebAppVersion
    && left.homeSettingsDigest == right.homeSettingsDigest
    && left.homePatchDigest == right.homePatchDigest
    && left.runtimeFingerprint == right.runtimeFingerprint
    && left.llmCatalogRevision == right.llmCatalogRevision
    && left.llmCatalogDigest == right.llmCatalogDigest
  }

  type PlanId = nat

  datatype StagedPlan = StagedPlan(
    id: PlanId, expiresAt: int, bytes: nat, consumed: bool, blueprint: string, observation: Observation)

  type Plans = map<PlanId, StagedPlan>

  datatype PlanError = TooMany | TooLarge | NoLongerValid | TargetChanged

  // ---- the byte total a map stands for ----

  ghost function TotalBytes(plans: Plans): nat {
    if plans == map[] then 0
    else var id :| id in plans; plans[id].bytes + TotalBytes(plans - {id})
  }

  lemma {:induction false} TotalWithout(plans: Plans, id: PlanId)
    requires id in plans
    ensures TotalBytes(plans) == plans[id].bytes + TotalBytes(plans - {id})
    decreases |plans|
  {
    var pick :| pick in plans && TotalBytes(plans) == plans[pick].bytes + TotalBytes(plans - {pick});
    if pick == id {
    } else {
      TotalWithout(plans - {pick}, id);
      TotalWithout(plans - {id}, pick);
      assert plans - {pick} - {id} == plans - {id} - {pick};
    }
  }

  lemma TotalWith(plans: Plans, id: PlanId, plan: StagedPlan)
    requires id !in plans
    ensures TotalBytes(plans[id := plan]) == TotalBytes(plans) + plan.bytes
  {
    TotalWithout(plans[id := plan], id);
    assert plans[id := plan] - {id} == plans;
  }

  // ---- the value each operation leaves ----

  function Unexpired(plans: Plans, now: int): Plans {
    map id | id in plans && plans[id].expiresAt > now && !plans[id].consumed :: plans[id]
  }

  function CapError(count: nat, total: int, bytes: nat): Option<PlanError> {
    if count >= MAX_COUNT then Some(TooMany)
    else if total + bytes > MAX_TOTAL_BYTES then Some(TooLarge)
    else None
  }

  function Consumed(plans: Plans, id: PlanId, live: Observation, now: int): (Plans, Result<StagedPlan, PlanError>) {
    var kept := Unexpired(plans, now);
    if id !in kept then (kept, Err(NoLongerValid))
    else if !ObservationsMatch(kept[id].observation, live) then (kept - {id}, Err(TargetChanged))
    else (kept - {id}, Ok(kept[id].(consumed := true)))
  }

  lemma MatchingIsEquality(left: Observation, right: Observation)
    ensures ObservationsMatch(left, right) <==> left == right
  {
  }

  /** A plan is handed out exactly when it is there, unexpired and saw the target as it
      is now; it is dropped when the target changed; and in either case, as on any
      other answer, what is left is every other unexpired plan. */
  lemma ConsumedExactly(plans: Plans, id: PlanId, live: Observation, now: int)
    requires forall p :: p in plans ==> !plans[p].consumed
    ensures var (after, r) := Consumed(plans, id, live, now);
            && (r.Ok? <==> id in plans && plans[id].expiresAt > now && plans[id].observation == live)
            && (r.Ok? ==> r.value == plans[id].(consumed := true))
            && (r == Err(TargetChanged) <==> id in plans && plans[id].expiresAt > now && plans[id].observation != live)
            && (r.Err? ==> r == Err(TargetChanged) || r == Err(NoLongerValid))
            && (forall other :: other in after <==> other in plans && plans[other].expiresAt > now && other != id)
            && (forall other :: other in after ==> after[other] == plans[other])
  {
    if id in plans {
      MatchingIsEquality(plans[id].observation, live);
    }
  }

  class Store {
    var plans: Plans
    var totalPlanBytes: int

    ghost predicate Valid()
      reads this
    {
      && totalPlanBytes == TotalBytes(plans)
      && forall id :: id in plans ==> plans[id].id == id && !plans[id].consumed
    }

    constructor ()
      ensures Valid() && plans == map[]
    {
      plans := map[];
      totalPlanBytes := 0;
    }

    /** The clamp to zero never acts: the total drops by exactly the plan's bytes. */
    method DeletePlan(id: PlanId)
      requires Valid()
      modifies this
      ensures Valid() && plans == old(plans) - {id}
      ensures id in old(plans) ==> totalPlanBytes == old(totalPlanBytes) - old(plans)[id].bytes
    {
      if id !in plans {
        assert plans - {id} == plans;
        return;
      }
      TotalWithout(plans, id);
      var staged := plans[id];
      plans := plans - {id};
      totalPlanBytes := if totalPlanBytes - staged.bytes > 0 then totalPlanBytes - staged.bytes else 0;
    }

    method PrunePlans(now: int)
      requires Valid()
      modifies this
      ensures Valid() && plans == Unexpired(old(plans), now)
      ensures forall id :: id in plans <==> id in old(plans) && old(plans)[id].expiresAt > now
      ensures forall id :: id in plans ==> plans[id] == old(plans)[id]
    {
      var pending := plans.Keys;
      while pending != {}
        invariant Valid() && pending <= plans.Keys <= old(plans).Keys
        invariant forall id :: id in plans ==> plans[id] == old(plans)[id]
        invariant forall id :: id in old(plans) && id !in plans ==> old(plans)[id].expiresAt <= now
        invariant forall id :: id in plans && id !in pending ==> plans[id].expiresAt > now
        decreases pending
      {
        var id :| id in pending;
        pending := pending - {id};
        if plans[id].expiresAt <= now || plans[id].consumed {
          DeletePlan(id);
        }
      }
    }

    /** `preview` up to the await: prune, then check both caps. */
    method CheckCaps(now: int, bytes: nat) returns (error: Option<PlanError>)
      requires Valid()
      modifies this
      ensures Valid() && plans == Unexpired(old(plans), now)
      ensures error == CapError(|plans|, TotalBytes(plans), bytes)
      ensures error == Some(TooMany) <==> |plans| >= 16
      ensures error == Some(TooLarge) <==> |plans| < 16 && TotalBytes(plans) + bytes > 16_777_216
    {
      PrunePlans(now);
      if |plans| >= MAX_COUNT {
        return Some(TooMany);
      }
      if totalPlanBytes + bytes > MAX_TOTAL_BYTES {
        return Some(TooLarge);
      }
      return None;
    }

    /** `preview` after the await: the caps are not looked at again. */
    method InsertPlan(id: PlanId, checkedAt: int, bytes: nat, blueprint: string, observation: Observation)
      returns (expiresAt: int)
      requires Valid() && id !in plans
      modifies this
      ensures Valid() && expiresAt == checkedAt + 300_000
      ensures plans == old(plans)[id := StagedPlan(id, expiresAt, bytes, false, blueprint, observation)]
    {
      expiresAt := checkedAt + TTL_MS;
      var plan := StagedPlan(id, expiresAt, bytes, false, blueprint, observation);
      TotalWith(plans, id, plan);
      plans := plans[id := plan];
      totalPlanBytes := totalPlanBytes + bytes;
    }

    method ConsumePlan(id: PlanId, live: Observation, now: int) returns (r: Result<StagedPlan, PlanError>)
      requires Valid()
      modifies this
      ensures Valid() && (plans, r) == Consumed(old(plans), id, live, now)
      ensures r.Ok? <==> id in old(plans) && old(plans)[id].expiresAt > now && old(plans)[id].observation == live
      ensures r.Ok? ==> r.value == old(plans)[id].(consumed := true)
      ensures r == Err(TargetChanged) <==>
                id in old(plans) && old(plans)[id].expiresAt > now && old(plans)[id].observation != live
      ensures r.Err? ==> r == Err(TargetChanged) || r == Err(NoLongerValid)
      ensures forall other :: other in plans <==> other in old(plans) && old(plans)[other].expiresAt > now && other != id
      ensures forall other :: other in plans ==> plans[other] == old(plans)[other]
    {
      ConsumedExactly(plans, id, live, now);
      PrunePlans(now);
      if id !in plans {
        return Err(NoLongerValid);
      }
      var staged := plans[id];
      if staged.consumed || staged.expiresAt <= now {
        assert false;  // pruning has removed such plans
      }
      if !ObservationsMatch(staged.observation, live) {
        DeletePlan(id);
        return Err(TargetChanged);
      }
      staged := staged.(consumed := true);
      DeletePlan(id);
      return Ok(staged);
    }
  }

  // ---- any interleaving of previews and consumes ----

  /** A preview that passed the caps and waits for its observation. */
  datatype Pending = Pending(checkedAt: int, bytes: nat)

  datatype Event =
    | Check(now: int, bytes: nat)
    | Insert(slot: nat, id: PlanId, blueprint: string, seen: Observation)
    | Abandon(slot: nat)
    | Consume(at: int, plan: PlanId, live: Observation)

  /** The store, the previews in flight, and two histories: every identifier
      drawn so far and every plan handed out, with the time of its consumption. */
  datatype System = System(
    plans: Plans, inFlight: seq<Pending>, drawn: set<PlanId>, returned: seq<Handout>)

  datatype Handout = Handout(plan: StagedPlan, at: int, live: Observation)

  const START := System(map[], [], {}, [])

  function Without<T>(s: seq<T>, i: nat): seq<T>
    requires i < |s|
  {
    s[..i] + s[i + 1..]
  }

  /** Random identifiers are taken to be new each time they are drawn. */
  ghost predicate Enabled(s: System, e: Event) {
    match e
    case Insert(slot, id, _, _) => slot < |s.inFlight| && id !in s.drawn
    case Abandon(slot) => slot < |s.inFlight|
    case _ => true
  }

  ghost function Next(s: System, e: Event): System
    requires Enabled(s, e)
  {
    match e
    case Check(now, bytes) =>
      var kept := Unexpired(s.plans, now);
      var waiting := if CapError(|kept|, TotalBytes(kept), bytes).None? then [Pending(now, bytes)] else [];
      s.(plans := kept, inFlight := s.inFlight + waiting)
    case Insert(slot, id, blueprint, seen) =>
      var p := s.inFlight[slot];
      s.(plans := s.plans[id := StagedPlan(id, p.checkedAt + TTL_MS, p.bytes, false, blueprint, seen)],
         inFlight := Without(s.inFlight, slot), drawn := s.drawn + {id})
    case Abandon(slot) => s.(inFlight := Without(s.inFlight, slot))
    case Consume(at, plan, live) =>
      var (kept, r) := Consumed(s.plans, plan, live, at);
      s.(plans := kept, returned := s.returned + if r.Ok? then [Handout(r.value, at, live)] else [])
  }

  /** A run never has more than `k` previews in flight, and no preview is larger than `largest`. */
  ghost predicate Run(s: System, events: seq<Event>, k: nat, largest: nat, end: System)
    decreases |events|
  {
    if events == [] then s == end
    else
      && Enabled(s, events[0])
      && (events[0].Check? ==> events[0].bytes <= largest)
      && |Next(s, events[0]).inFlight| <= k
      && Run(Next(s, events[0]), events[1..], k, largest, end)
  }

  function PendingBytes(pending: seq<Pending>): nat {
    if pending == [] then 0 else pending[0].bytes + PendingBytes(pending[1..])
  }

  /** Bytes that `k` overlapping previews can reach. */
  function ByteBound(k: nat, largest: nat): int { MAX_TOTAL_BYTES + (k - 1) * largest }

  ghost predicate Named(s: System) {
    && s.plans.Keys <= s.drawn
    && (forall id :: id in s.plans ==> s.plans[id].id == id && !s.plans[id].consumed)
  }

  ghost predicate Bounded(s: System, k: nat, largest: nat) {
    && |s.inFlight| <= k
    && (forall p :: p in s.inFlight ==> p.bytes <= largest)
    && |s.plans| + |s.inFlight| <= 15 + k
    && TotalBytes(s.plans) + PendingBytes(s.inFlight) <= ByteBound(k, largest)
  }

  ghost predicate HandedOut(s: System) {
    && (forall h :: h in s.returned ==> h.plan.id in s.drawn && h.plan.id !in s.plans && FairHandout(h))
    && (forall i, j :: 0 <= i < j < |s.returned| ==> s.returned[i].plan.id != s.returned[j].plan.id)
  }

  predicate FairHandout(h: Handout) {
    h.plan.expiresAt > h.at && h.plan.observation == h.live
  }

  ghost predicate Invariant(s: System, k: nat, largest: nat) {
    Named(s) && Bounded(s, k, largest) && HandedOut(s) && AllSmall(s.plans, largest)
  }

  ghost predicate AllSmall(plans: Plans, largest: nat) {
    forall id :: id in plans ==> plans[id].bytes <= largest
  }

  lemma SubmapSize(small: Plans, big: Plans)
    requires small.Keys <= big.Keys
    ensures |small| <= |big|
  {
    var rest := big.Keys - small.Keys;
    assert small.Keys + rest == big.Keys;
    assert |small.Keys| + |rest| == |big.Keys|;
  }

  lemma {:induction false} SubmapBytes(small: Plans, big: Plans)
    requires small.Keys <= big.Keys && forall id :: id in small ==> small[id] == big[id]
    ensures TotalBytes(small) <= TotalBytes(big)
    decreases |big|
  {
    if big == map[] {
      assert small == map[];
    } else {
      var id :| id in big;
      TotalWithout(big, id);
      if id in small {
        TotalWithout(small, id);
        SubmapBytes(small - {id}, big - {id});
      } else {
        SubmapBytes(small, big - {id});
      }
    }
  }

  lemma {:induction false} PendingAppend(a: seq<Pending>, b: seq<Pending>)
    ensures PendingBytes(a + b) == PendingBytes(a) + PendingBytes(b)
  {
    if a == [] {
      assert a + b == b;
    } else {
      PendingAppend(a[1..], b);
      assert (a + b)[1..] == a[1..] + b;
    }
  }

  lemma PendingWithout(pending: seq<Pending>, slot: nat)
    requires slot < |pending|
    ensures PendingBytes(Without(pending, slot)) + pending[slot].bytes == PendingBytes(pending)
    ensures forall p :: p in Without(pending, slot) ==> p in pending
  {
    PendingAppend(pending[..slot], pending[slot..]);
    PendingAppend(pending[..slot], pending[slot + 1..]);
    assert pending == pending[..slot] + pending[slot..];
    assert pending[slot..][1..] == pending[slot + 1..];
  }

  lemma {:induction false} PendingBound(pending: seq<Pending>, largest: nat)
    requires forall p :: p in pending ==> p.bytes <= largest
    ensures PendingBytes(pending) <= |pending| * largest
  {
    if pending == [] {
    } else {
      assert pending[0] in pending;
      PendingBound(pending[1..], largest);
      assert |pending| * largest == largest + (|pending| - 1) * largest;
    }
  }

  lemma UnexpiredShrinks(plans: Plans, now: int)
    ensures |Unexpired(plans, now)| <= |plans|
    ensures TotalBytes(Unexpired(plans, now)) <= TotalBytes(plans)
  {
    SubmapSize(Unexpired(plans, now), plans);
    SubmapBytes(Unexpired(plans, now), plans);
  }

  lemma OthersInFlight(pending: seq<Pending>, k: nat, largest: nat)
    requires |pending| < k && forall p :: p in pending ==> p.bytes <= largest
    ensures MAX_TOTAL_BYTES + PendingBytes(pending) <= ByteBound(k, largest)
  {
    PendingBound(pending, largest);
    MulMonotone(|pending|, k - 1, largest);
  }

  lemma MulMonotone(a: nat, b: nat, c: nat)
    requires a <= b
    ensures a * c <= b * c
  {
  }

  lemma CheckKeeps(s: System, e: Event, k: nat, largest: nat)
    requires Invariant(s, k, largest) && e.Check? && e.bytes <= largest && |Next(s, e).inFlight| <= k
    ensures Invariant(Next(s, e), k, largest)
  {
    UnexpiredShrinks(s.plans, e.now);
    var kept := Unexpired(s.plans, e.now);
    if CapError(|kept|, TotalBytes(kept), e.bytes).None? {
      PendingAppend(s.inFlight, [Pending(e.now, e.bytes)]);
      assert PendingBytes([Pending(e.now, e.bytes)]) == e.bytes;
      OthersInFlight(s.inFlight, k, largest);
    } else {
      assert s.inFlight + [] == s.inFlight;
    }
  }

  lemma SizeWith(plans: Plans, id: PlanId, plan: StagedPlan)
    requires id !in plans
    ensures |plans[id := plan]| == |plans| + 1
  {
    assert plans[id := plan].Keys == plans.Keys + {id};
    assert |plans| == |plans.Keys| && |plans[id := plan]| == |plans[id := plan].Keys|;
  }

  lemma InsertBounded(s: System, e: Event, k: nat, largest: nat)
    requires Bounded(s, k, largest) && s.plans.Keys <= s.drawn && e.Insert? && Enabled(s, e)
    ensures Bounded(Next(s, e), k, largest)
  {
    var p := s.inFlight[e.slot];
    var plan := StagedPlan(e.id, p.checkedAt + TTL_MS, p.bytes, false, e.blueprint, e.seen);
    TotalWith(s.plans, e.id, plan);
    PendingWithout(s.inFlight, e.slot);
    SizeWith(s.plans, e.id, plan);
  }

  lemma InsertKeeps(s: System, e: Event, k: nat, largest: nat)
    requires Invariant(s, k, largest) && e.Insert? && Enabled(s, e)
    ensures Invariant(Next(s, e), k, largest)
  {
    InsertBounded(s, e, k, largest);
  }

  lemma ConsumeBounded(s: System, e: Event, k: nat, largest: nat)
    requires Bounded(s, k, largest) && AllSmall(s.plans, largest) && e.Consume?
    ensures Bounded(Next(s, e), k, largest) && AllSmall(Next(s, e).plans, largest)
  {
    var (after, r) := Consumed(s.plans, e.plan, e.live, e.at);
    SubmapSize(after, s.plans);
    SubmapBytes(after, s.plans);
  }

  lemma ConsumeKeeps(s: System, e: Event, k: nat, largest: nat)
    requires Invariant(s, k, largest) && e.Consume?
    ensures Invariant(Next(s, e), k, largest)
  {
    ConsumeBounded(s, e, k, largest);
    ConsumeHandsOut(s, e);
  }

  lemma ConsumeHandsOut(s: System, e: Event)
    requires Named(s) && HandedOut(s) && e.Consume?
    ensures Named(Next(s, e)) && HandedOut(Next(s, e))
  {
    var next := Next(s, e);
    if e.plan in s.plans {
      MatchingIsEquality(s.plans[e.plan].observation, e.live);
    }
    forall i, j | 0 <= i < j < |next.returned|
      ensures next.returned[i].plan.id != next.returned[j].plan.id
    {
      if j == |s.returned| {
        assert next.returned[i] == s.returned[i] && s.returned[i] in s.returned;
      }
    }
  }

  lemma StepKeeps(s: System, e: Event, k: nat, largest: nat)
    requires Invariant(s, k, largest) && Enabled(s, e)
    requires e.Check? ==> e.bytes <= largest
    requires |Next(s, e).inFlight| <= k
    ensures Invariant(Next(s, e), k, largest)
  {
    match e
    case Check(_, _) => CheckKeeps(s, e, k, largest);
    case Insert(_, _, _, _) => InsertKeeps(s, e, k, largest);
    case Abandon(slot) => PendingWithout(s.inFlight, slot);
    case Consume(_, _, _) => ConsumeKeeps(s, e, k, largest);
  }

  lemma StartKeeps(k: nat, largest: nat)
    requires k >= 1
    ensures Invariant(START, k, largest)
  {
    MulMonotone(0, k - 1, largest);
  }

  lemma {:induction false} RunKeeps(s: System, events: seq<Event>, k: nat, largest: nat, end: System)
    requires Invariant(s, k, largest) && Run(s, events, k, largest, end)
    ensures Invariant(end, k, largest)
    decreases |events|
  {
    if events == [] {
    } else {
      StepKeeps(s, events[0], k, largest);
      RunKeeps(Next(s, events[0]), events[1..], k, largest, end);
    }
  }

  /** With at most `k` previews in flight, in any order of any events: never more
      than 15 + k plans (the cap itself when previews do not overlap), bytes
      above the cap by at most k - 1 previews, and every plan handed out was
      unexpired, saw the target it is applied to, and is handed out once. */
  lemma StoreBounds(events: seq<Event>, k: nat, largest: nat, end: System)
    requires k >= 1 && Run(START, events, k, largest, end)
    ensures |end.plans| <= 15 + k
    ensures TotalBytes(end.plans) <= ByteBound(k, largest)
    ensures forall h :: h in end.returned ==> h.plan.expiresAt > h.at && h.plan.observation == h.live
    ensures forall i, j :: 0 <= i < j < |end.returned| ==> end.returned[i].plan.id != end.returned[j].plan.id
  {
    StartKeeps(k, largest);
    RunKeeps(START, events, k, largest, end);
    assert forall h :: h in end.returned ==> FairHandout(h);
  }

  // ---- a staged plan is there to be consumed ----

  /** The events neither consume the plan nor come once it has expired. */
  predicate Spares(events: seq<Event>, id: PlanId, expiresAt: int) {
    forall i :: 0 <= i < |events| ==> SparesOne(events[i], id, expiresAt)
  }

  predicate SparesOne(e: Event, id: PlanId, expiresAt: int) {
    && (e.Check? ==> e.now < expiresAt)
    && (e.Consume? ==> e.plan != id && e.at < expiresAt)
  }

  lemma StepKeepsPlan(s: System, e: Event, id: PlanId)
    requires Named(s) && Enabled(s, e) && id in s.plans && SparesOne(e, id, s.plans[id].expiresAt)
    ensures id in Next(s, e).plans && Next(s, e).plans[id] == s.plans[id]
  {
    if e.Consume? {
      ConsumedExactly(s.plans, e.plan, e.live, e.at);
    }
  }

  lemma {:induction false} RunKeepsPlan(s: System, events: seq<Event>, k: nat, largest: nat, end: System, id: PlanId)
    requires Invariant(s, k, largest) && Run(s, events, k, largest, end)
    requires id in s.plans && Spares(events, id, s.plans[id].expiresAt)
    ensures id in end.plans && end.plans[id] == s.plans[id]
    decreases |events|
  {
    if events == [] {
    } else {
      assert SparesOne(events[0], id, s.plans[id].expiresAt);
      StepKeepsPlan(s, events[0], id);
      StepKeeps(s, events[0], k, largest);
      assert forall i :: 0 <= i < |events[1..]| ==> events[1..][i] == events[i + 1];
      RunKeepsPlan(Next(s, events[0]), events[1..], k, largest, end, id);
    }
  }

  /** On every run, whatever happens to other plans: a preview that is inserted and is
      neither consumed nor expired since is handed out, once, to a consume that sees
      what it saw. It lives five minutes from the moment its caps were checked. */
  lemma InsertedIsHandedOut(before: seq<Event>, s: System, insert: Event, events: seq<Event>, end: System,
                            at: int, k: nat, largest: nat)
    requires k >= 1 && Run(START, before, k, largest, s) && insert.Insert? && Enabled(s, insert)
    requires Run(Next(s, insert), events, k, largest, end)
    requires var expiresAt := s.inFlight[insert.slot].checkedAt + 300_000;
             Spares(events, insert.id, expiresAt) && at < expiresAt
    ensures var p := s.inFlight[insert.slot];
            var last := Next(end, Consume(at, insert.id, insert.seen));
            && last.returned == end.returned +
                 [Handout(StagedPlan(insert.id, p.checkedAt + 300_000, p.bytes, true, insert.blueprint, insert.seen), at, insert.seen)]
            && insert.id !in last.plans
  {
    StartKeeps(k, largest);
    RunKeeps(START, before, k, largest, s);
    StaysAfterInsert(s, insert, events, end, k, largest);
    HandsOut(end, insert.id, insert.seen, at);
  }

  lemma StaysAfterInsert(s: System, insert: Event, events: seq<Event>, end: System, k: nat, largest: nat)
    requires Invariant(s, k, largest) && insert.Insert? && Enabled(s, insert)
    requires Run(Next(s, insert), events, k, largest, end)
    requires Spares(events, insert.id, s.inFlight[insert.slot].checkedAt + 300_000)
    ensures var p := s.inFlight[insert.slot];
            && Named(end) && insert.id in end.plans
            && end.plans[insert.id] ==
                 StagedPlan(insert.id, p.checkedAt + 300_000, p.bytes, false, insert.blueprint, insert.seen)
  {
    InsertKeeps(s, insert, k, largest);
    RunKeepsPlan(Next(s, insert), events, k, largest, end, insert.id);
    RunKeeps(Next(s, insert), events, k, largest, end);
  }

  lemma HandsOut(s: System, id: PlanId, seen: Observation, at: int)
    requires Named(s) && id in s.plans && s.plans[id].expiresAt > at && s.plans[id].observation == seen
    ensures var next := Next(s, Consume(at, id, seen));
            next.returned == s.returned + [Handout(s.plans[id].(consumed := true), at, seen)] && id !in next.plans
  {
    ConsumedExactly(s.plans, id, seen, at);
  }

  lemma OneMoreTimes(n: nat, c: nat)
    ensures (n + 1) * c == n * c + c
  {
  }

  lemma SizeWithout(plans: Plans, id: PlanId)
    requires id in plans
    ensures |plans| == |plans - {id}| + 1
  {
    assert plans.Keys == (plans - {id}).Keys + {id};
    assert |plans| == |plans.Keys| && |plans - {id}| == |(plans - {id}).Keys|;
  }

  lemma {:induction false} TotalAtMost(plans: Plans, largest: nat)
    requires AllSmall(plans, largest)
    ensures TotalBytes(plans) <= |plans| * largest
    decreases |plans|
  {
    if plans == map[] {
    } else {
      var id :| id in plans;
      TotalWithout(plans, id);
      SizeWithout(plans, id);
      TotalAtMost(plans - {id}, largest);
      OneMoreTimes(|plans - {id}|, largest);
    }
  }

  // ---- both caps are passed by overlapping previews ----

  const SEEN := Observation("", "", None, None, None, "", "", "", 0, "")

  function UniformPlan(id: PlanId, bytes: nat): StagedPlan { StagedPlan(id, TTL_MS, bytes, false, "", SEEN) }

  function UniformPlans(n: nat, bytes: nat): Plans {
    map id | 0 <= id < n :: UniformPlan(id, bytes)
  }

  /** n plans and some previews in flight, all of one size. */
  ghost function Uniform(n: nat, waiting: nat, bytes: nat): System {
    System(UniformPlans(n, bytes), seq(waiting, _ => Pending(0, bytes)), UniformPlans(n, bytes).Keys, [])
  }

  lemma {:induction false} UniformSize(n: nat, bytes: nat)
    ensures |UniformPlans(n, bytes)| == n && TotalBytes(UniformPlans(n, bytes)) == n * bytes
  {
    if n == 0 {
      assert UniformPlans(0, bytes) == map[];
    } else {
      UniformSize(n - 1, bytes);
      OneMoreUniform(n - 1, bytes);
      OneMoreTimes(n - 1, bytes);
    }
  }

  lemma OneMoreUniform(n: nat, bytes: nat)
    ensures |UniformPlans(n + 1, bytes)| == |UniformPlans(n, bytes)| + 1
    ensures TotalBytes(UniformPlans(n + 1, bytes)) == TotalBytes(UniformPlans(n, bytes)) + bytes
  {
    var more := UniformPlans(n + 1, bytes);
    assert more - {n} == UniformPlans(n, bytes);
    SizeWithout(more, n);
    TotalWithout(more, n);
  }

  lemma UniformCheck(n: nat, waiting: nat, bytes: nat)
    requires n < 16 && 16 * bytes <= MAX_TOTAL_BYTES
    ensures Next(Uniform(n, waiting, bytes), Check(0, bytes)) == Uniform(n, waiting + 1, bytes)
  {
    UniformSize(n, bytes);
    MulMonotone(n + 1, 16, bytes);
    OneMoreTimes(n, bytes);
    assert Unexpired(UniformPlans(n, bytes), 0) == UniformPlans(n, bytes);
    assert Uniform(n, waiting, bytes).inFlight + [Pending(0, bytes)] == Uniform(n, waiting + 1, bytes).inFlight;
  }

  lemma UniformInsert(n: nat, waiting: nat, bytes: nat)
    requires waiting > 0
    ensures var insert := Insert(0, n, "", SEEN);
            Enabled(Uniform(n, waiting, bytes), insert) &&
            Next(Uniform(n, waiting, bytes), insert) == Uniform(n + 1, waiting - 1, bytes)
  {
  }

  lemma {:induction false} RunThen(s: System, events: seq<Event>, k: nat, largest: nat, mid: System, e: Event)
    requires Run(s, events, k, largest, mid) && Enabled(mid, e)
    requires (e.Check? ==> e.bytes <= largest) && |Next(mid, e).inFlight| <= k
    ensures Run(s, events + [e], k, largest, Next(mid, e))
    decreases |events|
  {
    if events == [] {
      assert events + [e] == [e] && [e][1..] == [];
    } else {
      assert (events + [e])[1..] == events[1..] + [e];
      RunThen(Next(s, events[0]), events[1..], k, largest, mid, e);
    }
  }

  ghost predicate Reaches(events: seq<Event>, k: nat, bytes: nat, s: System) {
    Run(START, events, k, bytes, s)
  }

  lemma ReachCheck(before: seq<Event>, n: nat, waiting: nat, k: nat, bytes: nat)
    requires n < 16 && waiting < k && 16 * bytes <= MAX_TOTAL_BYTES
    requires Reaches(before, k, bytes, Uniform(n, waiting, bytes))
    ensures Reaches(before + [Check(0, bytes)], k, bytes, Uniform(n, waiting + 1, bytes))
  {
    UniformCheck(n, waiting, bytes);
    RunThen(START, before, k, bytes, Uniform(n, waiting, bytes), Check(0, bytes));
  }

  lemma ReachInsert(before: seq<Event>, n: nat, waiting: nat, k: nat, bytes: nat)
    requires 0 < waiting <= k && Reaches(before, k, bytes, Uniform(n, waiting, bytes))
    ensures Reaches(before + [Insert(0, n, "", SEEN)], k, bytes, Uniform(n + 1, waiting - 1, bytes))
  {
    UniformInsert(n, waiting, bytes);
    RunThen(START, before, k, bytes, Uniform(n, waiting, bytes), Insert(0, n, "", SEEN));
  }

  lemma {:induction false} ReachUniform(n: nat, waiting: nat, k: nat, bytes: nat) returns (events: seq<Event>)
    requires 1 <= k && waiting <= k && 16 * bytes <= MAX_TOTAL_BYTES
    requires (n <= 15 && waiting == 0) || n == 15 || (n > 15 && n + waiting == 15 + k)
    ensures Reaches(events, k, bytes, Uniform(n, waiting, bytes))
    decreases n, waiting
  {
    if n > 15 {
      var before := ReachUniform(n - 1, waiting + 1, k, bytes);
      ReachInsert(before, n - 1, waiting + 1, k, bytes);
      events := before + [Insert(0, n - 1, "", SEEN)];
    } else if waiting > 0 {
      var before := ReachUniform(n, waiting - 1, k, bytes);
      ReachCheck(before, n, waiting - 1, k, bytes);
      events := before + [Check(0, bytes)];
    } else if n > 0 {
      var before := ReachUniform(n - 1, 0, k, bytes);
      ReachCheck(before, n - 1, 0, k, bytes);
      ReachInsert(before + [Check(0, bytes)], n - 1, 1, k, bytes);
      events := before + [Check(0, bytes)] + [Insert(0, n - 1, "", SEEN)];
    } else {
      events := [];
      assert UniformPlans(0, bytes) == map[] && Uniform(0, 0, bytes) == START;
    }
  }

  /** The cap of 16 plans holds on every run with at most `k` previews in flight. */
  ghost predicate CapHolds(k: nat) {
    forall events: seq<Event>, largest: nat, end: System ::
      Run(START, events, k, largest, end) ==> |end.plans| <= MAX_COUNT
  }

  /** For every number of overlapping previews some run ends with 15 + k plans,
      so the cap holds on every run exactly when previews do not overlap. */
  lemma CapHoldsIffNoOverlap(k: nat)
    requires k >= 1
    ensures CapHolds(k) <==> k == 1
    ensures exists events, end :: Reaches(events, k, 0, end) && |end.plans| == 15 + k
  {
    var events := ReachUniform(15 + k, 0, k, 0);
    UniformSize(15 + k, 0);
    var end := Uniform(15 + k, 0, 0);
    assert Reaches(events, k, 0, end) && |end.plans| == 15 + k;
    if k == 1 {
      forall run: seq<Event>, largest: nat, last: System | Run(START, run, k, largest, last)
        ensures |last.plans| <= MAX_COUNT
      {
        StoreBounds(run, k, largest, last);
      }
    } else {
      assert Run(START, events, k, 0, end);
    }
  }

  /** The cap of 16 MiB holds on every run with at most `k` previews in flight, none
      larger than `largest`. */
  ghost predicate ByteCapHolds(k: nat, largest: nat) {
    forall events: seq<Event>, end: System ::
      Run(START, events, k, largest, end) ==> TotalBytes(end.plans) <= MAX_TOTAL_BYTES
  }

  /** The byte cap holds on every run exactly when previews do not overlap, or are so
      small that as many plans as can ever be there fit. */
  lemma ByteCapHoldsIff(k: nat, largest: nat)
    requires k >= 1
    ensures ByteCapHolds(k, largest) <==> k == 1 || (15 + k) * largest <= MAX_TOTAL_BYTES
  {
    if k == 1 || (15 + k) * largest <= MAX_TOTAL_BYTES {
      forall events: seq<Event>, end: System | Run(START, events, k, largest, end)
        ensures TotalBytes(end.plans) <= MAX_TOTAL_BYTES
      {
        ByteCapOnRun(events, k, largest, end);
      }
    } else {
      var events, end := ByteCapPassed(k, largest);
    }
  }

  lemma ByteCapOnRun(events: seq<Event>, k: nat, largest: nat, end: System)
    requires k >= 1 && Run(START, events, k, largest, end)
    requires k == 1 || (15 + k) * largest <= MAX_TOTAL_BYTES
    ensures TotalBytes(end.plans) <= MAX_TOTAL_BYTES
  {
    StoreBounds(events, k, largest, end);
    if k == 1 {
      assert ByteBound(1, largest) == MAX_TOTAL_BYTES;
    } else {
      PlansSmall(events, k, largest, end);
      AllFit(end.plans, k, largest);
    }
  }

  lemma AllFit(plans: Plans, k: nat, largest: nat)
    requires AllSmall(plans, largest) && |plans| <= 15 + k
    ensures TotalBytes(plans) <= (15 + k) * largest
  {
    TotalAtMost(plans, largest);
    MulMonotone(|plans|, 15 + k, largest);
  }

  lemma PlansSmall(events: seq<Event>, k: nat, largest: nat, end: System)
    requires k >= 1 && Run(START, events, k, largest, end)
    ensures AllSmall(end.plans, largest)
  {
    StartKeeps(k, largest);
    RunKeeps(START, events, k, largest, end);
  }

  /** The run that passes it: 15 plans and then k previews at once, of 1 MiB each or the
      largest size there is. */
  lemma ByteCapPassed(k: nat, largest: nat) returns (events: seq<Event>, end: System)
    requires k > 1 && (15 + k) * largest > MAX_TOTAL_BYTES
    ensures Run(START, events, k, largest, end) && TotalBytes(end.plans) > MAX_TOTAL_BYTES
  {
    var bytes := if 16 * largest <= MAX_TOTAL_BYTES then largest else 1024 * 1024;
    events := ReachUniform(15 + k, 0, k, bytes);
    end := Uniform(15 + k, 0, bytes);
    UniformSize(15 + k, bytes);
    if bytes != largest {
      MulMonotone(17, 15 + k, bytes);
    }
    LargerAllowed(START, events, k, bytes, largest, end);
  }

  lemma {:induction false} LargerAllowed(s: System, events: seq<Event>, k: nat, small: nat, large: nat, end: System)
    requires small <= large && Run(s, events, k, small, end)
    ensures Run(s, events, k, large, end)
    decreases |events|
  {
    if events == [] {
    } else {
      LargerAllowed(Next(s, events[0]), events[1..], k, small, large, end);
    }
  }
}
