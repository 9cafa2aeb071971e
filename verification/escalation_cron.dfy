/**
 * The periodic escalation: pending cases no NGO accepted within five minutes
 * are handed to hospitals. One tick is modelled; the scheduling is not.
 */
module EscalationCron {
  import opened Wrappers
  import opened RescueRequestModel
  import opened Store

  /** How long a case may stay pending before it is escalated, in milliseconds. */
  const EscalationDelayMs: int := 5 * 60 * 1000

  /** The selection rule: pending, and created no later than five minutes before the tick. */
  predicate IsStale(c: RescueRequest, now: Time) {
    c.status == Pending && c.createdAt <= now - EscalationDelayMs
  }

  /** The update applied to a selected case. */
  function Escalated(c: RescueRequest, now: Time): (e: RescueRequest)
    ensures e.status == HospitalEscalated && e.escalatedAt == Some(now)
    ensures e == c.(status := e.status, escalatedAt := e.escalatedAt)
  {
    c.(status := HospitalEscalated, escalatedAt := Some(now))
  }

  /**
   * The cases after one tick at time `now`. Saving a case whose id is in
   * `failing` throws; that case is left as it was and the others go on.
   */
  function TickResult(cases: seq<RescueRequest>, now: Time, failing: set<CaseId>): (r: seq<RescueRequest>)
    ensures |r| == |cases|
    ensures forall i | 0 <= i < |cases| :: r[i] != cases[i] <==> IsStale(cases[i], now) && i !in failing
    ensures forall i | 0 <= i < |cases| && r[i] != cases[i] :: r[i] == Escalated(cases[i], now)
  {
    seq(|cases|, i requires 0 <= i < |cases| =>
      if IsStale(cases[i], now) && i !in failing then Escalated(cases[i], now) else cases[i])
  }

  /** A tick escalates every stale case whose save succeeds, and nothing else. */
  method EscalationTick(db: Db, now: Time, failing: set<CaseId>)
    requires db.Valid()
    modifies db
    ensures db.Valid()
    ensures db.cases == TickResult(old(db.cases), now, failing)
    ensures db.users == old(db.users) && db.ledger == old(db.ledger)
  {
    var i := 0;
    while i < |db.cases|
      invariant 0 <= i <= |db.cases| == |old(db.cases)|
      invariant db.Valid()
      invariant db.users == old(db.users) && db.ledger == old(db.ledger)
      invariant forall j | 0 <= j < |db.cases| ::
                  db.cases[j] == (if j < i then TickResult(old(db.cases), now, failing)[j] else old(db.cases)[j])
    {
      if IsStale(db.cases[i], now) && i !in failing {
        var rescue := db.cases[i];
        rescue := rescue.(status := HospitalEscalated);
        rescue := rescue.(escalatedAt := Some(now));
        UpdateCase(db.cases, db.users, db.ledger, i, rescue);
        db.cases := db.cases[i := rescue];
      }
      i := i + 1;
    }
  }

  /** The five-minute boundary is inclusive. */
  lemma BoundaryInclusive(c: RescueRequest)
    requires c.status == Pending
    ensures IsStale(c, c.createdAt + EscalationDelayMs)
    ensures c.createdAt + EscalationDelayMs > 0 ==> !IsStale(c, c.createdAt + EscalationDelayMs - 1)
  {
  }

  /** A case pending for six minutes is escalated; one pending for three is not. */
  lemma SixMinutesVersusThree(c: RescueRequest, now: Time)
    requires c.status == Pending && now >= 6 * 60 * 1000
    ensures c.createdAt == now - 6 * 60 * 1000 ==> TickResult([c], now, {})[0].status == HospitalEscalated
    ensures c.createdAt == now - 3 * 60 * 1000 ==> TickResult([c], now, {})[0] == c
  {
  }

  /** When nothing qualifies the tick changes nothing. */
  lemma NothingStaleNoChange(cases: seq<RescueRequest>, now: Time, failing: set<CaseId>)
    requires forall i | 0 <= i < |cases| :: !IsStale(cases[i], now)
    ensures TickResult(cases, now, failing) == cases
  {
  }

  /**
   * A second tick, at any later time, leaves every case the first one
   * escalated alone: it is no longer pending.
   */
  lemma SecondTickKeepsEscalated(cases: seq<RescueRequest>, t1: Time, t2: Time, f1: set<CaseId>, f2: set<CaseId>)
    ensures var once := TickResult(cases, t1, f1);
            forall i | 0 <= i < |cases| && once[i] != cases[i] :: TickResult(once, t2, f2)[i] == once[i]
  {
  }

  /** Ticking twice at the same time with the same failures is ticking once. */
  lemma TickIdempotent(cases: seq<RescueRequest>, now: Time, failing: set<CaseId>)
    ensures TickResult(TickResult(cases, now, failing), now, failing) == TickResult(cases, now, failing)
  {
  }

  /** A failing save affects only its own case. */
  lemma FailureIsolated(cases: seq<RescueRequest>, now: Time, failing: set<CaseId>, i: nat)
    requires i < |cases| && i !in failing
    ensures TickResult(cases, now, failing)[i] == TickResult(cases, now, {})[i]
  {
  }
}
