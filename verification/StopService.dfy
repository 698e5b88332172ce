/** Stopping the development service: one shutdown request, then watching the one
    durable job it created. */
module StopService {
  import opened Basics

  type Pid = nat

  datatype JobStatus = Queued | Running | Succeeded | Failed | Cancelled

  /** The durable job record, as far as it is compared. */
  datatype Receipt = Receipt(requestId: nat, planId: nat, status: JobStatus)

  /** What one poll sees; `receipt` is None when the record cannot be read. */
  datatype Poll = Poll(now: int, receipt: Option<Receipt>, held: bool, ownerDead: bool)

  datatype Owner = Owner(pid: Pid, epoch: string)

  /** `idle` stands for a healthy service without jobs or active spaces, `owner` for
      a live owner outside any handoff, `plan` for an answered preview. */
  datatype Request = Request(
    idle: bool, epoch: string, revision: string, owner: Option<Owner>,
    plan: Option<(string, string)>, planId: nat, requestId: nat, submitted: bool)

  predicate MayShutDown(r: Request) {
    r.idle && r.owner.Some? && r.owner.value.epoch == r.epoch && r.plan == Some((r.epoch, r.revision))
  }

  predicate IsReceipt(p: Poll, r: Request) {
    p.receipt.Some? && p.receipt.value.requestId == r.requestId && p.receipt.value.planId == r.planId
  }

  /** The very job of this request succeeded, the Home is free and the owner is dead. */
  predicate Gone(p: Poll, r: Request) {
    IsReceipt(p, r) && p.receipt.value.status == Succeeded && !p.held && p.ownerDead
  }

  predicate Waits(p: Poll, r: Request) {
    && IsReceipt(p, r) && p.receipt.value.status != Failed && p.receipt.value.status != Cancelled && !Gone(p, r)
  }

  /** The three ways a poll is read, by its fields: this request's job is done and all is
      gone, or the job is this request's and not over, or the wait gives up. */
  lemma PollExactly(p: Poll, r: Request)
    ensures Gone(p, r) <==> p.receipt == Some(Receipt(r.requestId, r.planId, Succeeded)) && !p.held && p.ownerDead
    ensures Waits(p, r) <==>
              exists status :: p.receipt == Some(Receipt(r.requestId, r.planId, status)) &&
                (status == Queued || status == Running || (status == Succeeded && (p.held || !p.ownerDead)))
  {
    if Waits(p, r) {
      assert p.receipt == Some(Receipt(r.requestId, r.planId, p.receipt.value.status));
    }
  }

  /** It asks for a shutdown at most once, only of the idle service whose owner and
      plan it has checked, and returns normally exactly when every poll before the
      deadline shows this request's job unfinished until one shows it gone. */
  method StopDevelopmentService(r: Request, polls: nat -> Poll, allowed: nat)
    returns (ok: bool, submissions: nat, looks: nat)
    requires forall k: nat :: polls(k).now < polls(k + 1).now
    ensures submissions == if MayShutDown(r) then 1 else 0
    ensures submissions == 1 <==>
              r.idle && r.owner.Some? && r.owner.value.epoch == r.epoch && r.plan == Some((r.epoch, r.revision))
    ensures ok <==> MayShutDown(r) && r.submitted && exists k: nat ::
              polls(k).now < polls(0).now + allowed && Gone(polls(k), r) && forall i: nat :: i < k ==> Waits(polls(i), r)
    ensures ok ==> Gone(polls(looks), r)
    ensures ok ==>
              && polls(looks).receipt == Some(Receipt(r.requestId, r.planId, Succeeded))
              && !polls(looks).held && polls(looks).ownerDead
    ensures looks <= allowed
  {
    ok, submissions, looks := false, 0, 0;
    if !r.idle || r.owner.None? || r.owner.value.epoch != r.epoch {
      return;
    }
    if r.plan != Some((r.epoch, r.revision)) {
      return;
    }
    submissions := 1;
    if !r.submitted {
      return;
    }
    var deadline := polls(0).now + allowed;
    while polls(looks).now < deadline
      invariant forall i: nat :: i < looks ==> Waits(polls(i), r)
      invariant polls(looks).now >= polls(0).now + looks
      invariant looks <= allowed
      decreases deadline - polls(looks).now
    {
      var poll := polls(looks);
      if !IsReceipt(poll, r) || poll.receipt.value.status == Failed || poll.receipt.value.status == Cancelled {
        return;
      }
      if poll.receipt.value.status == Succeeded && !poll.held && poll.ownerDead {
        return true, submissions, looks;
      }
      assert polls(looks).now < polls(looks + 1).now;
      looks := looks + 1;
    }
    LaterIsTooLate(polls, looks, deadline);
  }

  lemma LaterIsTooLate(polls: nat -> Poll, from: nat, deadline: int)
    requires forall k: nat :: polls(k).now < polls(k + 1).now
    requires polls(from).now >= deadline
    ensures forall k: nat :: k >= from ==> polls(k).now >= deadline
  {
    forall k: nat | k >= from ensures polls(k).now >= deadline {
      Advances(polls, from, k);
    }
  }

  lemma {:induction false} Advances(polls: nat -> Poll, from: nat, k: nat)
    requires forall i: nat :: polls(i).now < polls(i + 1).now
    requires from <= k
    ensures polls(k).now >= polls(from).now
    decreases k - from
  {
    if from == k {
    } else {
      Advances(polls, from + 1, k);
    }
  }
}
