/** The launcher's wait for the previous owner: it needs both the IPC to be
    disconnected and the process to be reported dead, by a deadline. */
module WaitForOldGone {
  import opened Basics

  datatype Liveness = Alive | Dead | Ambiguous
  datatype WaitError = OldAmbiguous | Timeout | OldAlive

  /** What the launcher sees at its k-th look: the clock, whether the disconnect
      has been seen, and the liveness answer. */
  datatype Observed = Observed(now: nat -> int, disconnected: nat -> bool, liveness: nat -> Liveness)

  /** Sleeping lets the clock advance; a disconnect is not undone. */
  ghost predicate Sane(o: Observed) {
    && (forall k: nat :: o.now(k) < o.now(k + 1))
    && (forall k: nat :: o.disconnected(k) ==> o.disconnected(k + 1))
  }

  /** The look that ends the wait. */
  predicate Stops(o: Observed, k: nat, deadline: int) {
    || o.now(k) >= deadline
    || (o.disconnected(k) && o.liveness(k) != Alive)
  }

  /** The verdict once the wait stops, from whether the disconnect has been seen and
      the liveness answer. */
  function Judged(disconnected: bool, answer: Liveness): Result<(), WaitError> {
    if !disconnected then Err(Timeout)
    else match answer
      case Dead => Ok(())
      case Alive => Err(OldAlive)
      case Ambiguous => Err(OldAmbiguous)
  }

  function Verdict(o: Observed, k: nat): Result<(), WaitError> { Judged(o.disconnected(k), o.liveness(k)) }

  /** The wait ends at the first look that stops it, with the verdict of that
      very look, after at most as many looks as milliseconds remain. It returns
      normally only on a look that is disconnected and answered dead. */
  method Wait(o: Observed, deadline: int) returns (r: Result<(), WaitError>, looks: nat)
    requires Sane(o)
    ensures Stops(o, looks, deadline) && forall k: nat :: k < looks ==> !Stops(o, k, deadline)
    ensures o.now(looks) >= deadline || (o.disconnected(looks) && o.liveness(looks) != Alive)
    ensures forall k: nat :: k < looks ==> o.now(k) < deadline && (!o.disconnected(k) || o.liveness(k) == Alive)
    ensures r == Verdict(o, looks)
    ensures r.Ok? <==> o.disconnected(looks) && o.liveness(looks) == Dead
    ensures r == Err(Timeout) <==> !o.disconnected(looks)
    ensures r == Err(OldAlive) <==> o.disconnected(looks) && o.liveness(looks) == Alive
    ensures r == Err(OldAmbiguous) <==> o.disconnected(looks) && o.liveness(looks) == Ambiguous
    ensures o.now(0) < deadline ==> looks <= deadline - o.now(0)
    ensures o.now(0) >= deadline ==> looks == 0
  {
    looks := 0;
    while o.now(looks) < deadline
      invariant forall k: nat :: k < looks ==> !Stops(o, k, deadline)
      invariant forall k: nat :: k < looks ==> o.now(k) < deadline && (!o.disconnected(k) || o.liveness(k) == Alive)
      invariant o.now(looks) >= o.now(0) + looks
      invariant o.now(0) < deadline ==> looks <= deadline - o.now(0)
      invariant o.now(0) >= deadline ==> looks == 0
      decreases deadline - o.now(looks)
    {
      var liveness := o.liveness(looks);
      if o.disconnected(looks) && liveness == Dead {
        return Ok(()), looks;
      }
      if o.disconnected(looks) && liveness == Ambiguous {
        return Err(OldAmbiguous), looks;
      }
      assert o.now(looks) < o.now(looks + 1);
      looks := looks + 1;
    }
    var liveness := o.liveness(looks);
    if !o.disconnected(looks) {
      return Err(Timeout), looks;
    }
    if liveness == Alive {
      return Err(OldAlive), looks;
    }
    if liveness == Ambiguous {
      return Err(OldAmbiguous), looks;
    }
    return Ok(()), looks;
  }

  /** With sound answers, a normal return means the previous owner is gone: it
      was reported dead, and a dead process does not come back. */
  lemma NormalReturnMeansGone(o: Observed, deadline: int, looks: nat, aliveAt: nat -> bool)
    requires Stops(o, looks, deadline) && Verdict(o, looks).Ok?
    requires forall k: nat :: o.liveness(k) == Dead ==> !aliveAt(k)
    requires forall k: nat :: !aliveAt(k) ==> !aliveAt(k + 1)
    ensures forall k: nat :: k >= looks ==> !aliveAt(k)
  {
    forall k: nat | k >= looks
      ensures !aliveAt(k)
    {
      StaysGone(aliveAt, looks, k);
    }
  }

  lemma {:induction false} StaysGone(aliveAt: nat -> bool, from: nat, k: nat)
    requires forall i: nat :: !aliveAt(i) ==> !aliveAt(i + 1)
    requires !aliveAt(from) && from <= k
    ensures !aliveAt(k)
    decreases k - from
  {
    if from == k {
    } else {
      StaysGone(aliveAt, from + 1, k);
    }
  }
}
