/**
 * What a hospital does: list escalated cases near it, list its ambulances, and
 * dispatch one of them to an escalated case.
 */
module HospitalController {
  import opened Wrappers
  import opened RescueRequestModel
  import opened UserModel
  import opened Replies
  import opened Queries
  import opened CaseRows
  import opened Store

  /** Hospitals see escalated cases within this many km. */
  const EscalatedRadiusKm: real := 10.0

  predicate WithinHospitalRadius(r: CaseRow) {
    r.distance.Some? && r.distance.value <= EscalatedRadiusKm
  }

  predicate IsEscalated(c: RescueRequest) {
    c.status == HospitalEscalated
  }

  /** The escalated cases, longest-escalated first, ties in id order. */
  function LongestEscalatedFirst(cases: seq<RescueRequest>): (es: seq<Entry<RescueRequest>>)
    ensures forall e :: e in es <==> e.id < |cases| && e.value == cases[e.id] && IsEscalated(e.value)
    ensures SortedLex(es, EscalatedKey, IdKey)
    ensures DistinctBy(es, IdKey)
  {
    SelectOrdered(cases, IsEscalated, EscalatedKey)
  }

  /** The rows within 10 km, nearest first; rows at the same distance keep their escalation order. */
  function NearestEscalated(rows: seq<CaseRow>): (r: seq<CaseRow>)
    ensures forall row :: row in r <==> row in rows && WithinHospitalRadius(row)
    ensures SortedLex(rows, RowEscalated, RowId) ==> SortedLex(r, RowDistance, RowEscalated)
    ensures forall row :: multiset(r)[row] == if WithinHospitalRadius(row) then multiset(rows)[row] else 0
    ensures DistinctBy(rows, RowId) ==> DistinctBy(r, RowId)
  {
    var near := Filter(rows, WithinHospitalRadius);
    var sorted := SortBy(near, RowDistance);
    SortKeepsMembers(near, RowDistance);
    FilterCounts(rows, WithinHospitalRadius);
    assert DistinctBy(rows, RowId) ==> DistinctBy(sorted, RowId) by {
      if DistinctBy(rows, RowId) {
        FilterKeepsDistinct(rows, WithinHospitalRadius, RowId);
        PermutationKeepsDistinct(sorted, near, RowId);
      }
    }
    assert SortedLex(rows, RowEscalated, RowId) ==> SortedLex(sorted, RowDistance, RowEscalated) by {
      if SortedLex(rows, RowEscalated, RowId) {
        FilterKeepsLex(rows, WithinHospitalRadius, RowEscalated, RowId);
        LexIsSorted(near, RowEscalated, RowId);
        StableSortIsLex(near, RowDistance, RowEscalated);
      }
    }
    sorted
  }

  /**
   * The escalated-cases listing: refused when the hospital has no location;
   * otherwise the escalated cases within 10 km, nearest first, ties
   * longest-escalated first.
   */
  function EscalatedCases(cases: seq<RescueRequest>, loc: UserLocation, dist: Distance): (r: Result<seq<CaseRow>, Failure>)
    ensures r.Err? <==> !HasLocation(loc)
    ensures r.Err? ==> r.error == BadRequest(LocationRequired)
    ensures r.Ok? ==> forall row :: row in r.value <==>
              && row.id < |cases| && row.request == cases[row.id]
              && row.request.status == HospitalEscalated
              && row.distance == DistanceFrom(loc, row.request, dist)
              && row.distance.value <= EscalatedRadiusKm
    ensures r.Ok? ==> SortedLex(r.value, RowDistance, RowEscalated)
    ensures r.Ok? ==> DistinctBy(r.value, RowId)
  {
    if !HasLocation(loc) then Err(BadRequest(LocationRequired))
    else
      var rows := Annotate(LongestEscalatedFirst(cases), loc, dist);
      AnnotateMembers(LongestEscalatedFirst(cases), loc, dist);
      Ok(NearestEscalated(rows))
  }

  /** The ambulances of a hospital, as listed to it: approved and linked to it. */
  predicate LinkedTo(a: Account, hospital: UserId) {
    a.role == Ambulance && a.linkedHospital == Some(hospital) && a.isApproved
  }

  /** An ambulance the hospital may dispatch: linked, approved and available. */
  predicate Dispatchable(a: Account, hospital: UserId) {
    LinkedTo(a, hospital) && a.isAvailable
  }

  function LinkedAmbulances(users: seq<Account>, hospital: UserId): (r: seq<Entry<Account>>)
    ensures forall e :: e in r <==> e.id < |users| && e.value == users[e.id] && LinkedTo(e.value, hospital)
    ensures forall i, j | 0 <= i < j < |r| :: r[i].id < r[j].id
  {
    Select(users, a => LinkedTo(a, hospital))
  }

  /** Dispatching: only an escalated case, which records the hospital, the ambulance and the time. */
  function Assign(c: RescueRequest, hospital: UserId, ambulance: UserId, now: Time): (r: Result<RescueRequest, Failure>)
    ensures r.Ok? <==> c.status == HospitalEscalated
    ensures r.Err? ==> r.error == BadRequest(WrongStatus(c.status))
    ensures r.Ok? ==> && r.value.status == AmbulanceAssigned
                      && r.value.assignedHospital == Some(hospital)
                      && r.value.assignedAmbulance == Some(ambulance)
                      && r.value.ambulanceAssignedAt == Some(now)
    ensures r.Ok? ==> r.value == c.(status := r.value.status, assignedHospital := r.value.assignedHospital,
                                    assignedAmbulance := r.value.assignedAmbulance,
                                    ambulanceAssignedAt := r.value.ambulanceAssignedAt)
  {
    if c.status != HospitalEscalated then Err(BadRequest(WrongStatus(c.status)))
    else Ok(c.(status := AmbulanceAssigned, assignedHospital := Some(hospital),
               assignedAmbulance := Some(ambulance), ambulanceAssignedAt := Some(now)))
  }

  /** Whether the dispatch request gets past the ambulance lookup. */
  predicate AmbulanceEligible(users: seq<Account>, hospital: UserId, ambulance: UserId) {
    ambulance < |users| && Dispatchable(users[ambulance], hospital)
  }

  /**
   * The dispatch handler. The ambulance id is checked for presence first, then
   * the ambulance for eligibility, then the case; only a successful
   * assignment changes the store, and it makes the ambulance unavailable.
   */
  method AssignAmbulance(db: Db, id: CaseId, hospital: UserId, ambulanceId: Option<UserId>, now: Time)
    returns (r: Result<RescueRequest, Failure>)
    requires db.Valid()
    modifies db
    ensures db.Valid()
    ensures ambulanceId.None? ==> r == Err(BadRequest(MissingAmbulanceId))
    ensures ambulanceId.Some? && !AmbulanceEligible(old(db.users), hospital, ambulanceId.value) ==> r == Err(NotFound)
    ensures ambulanceId.Some? && AmbulanceEligible(old(db.users), hospital, ambulanceId.value) ==>
              r == (if id < |old(db.cases)| then Assign(old(db.cases)[id], hospital, ambulanceId.value, now) else Err(NotFound))
    ensures r.Err? ==> db.cases == old(db.cases) && db.users == old(db.users)
    ensures r.Ok? ==> && db.cases == old(db.cases)[id := r.value]
                      && db.users == old(db.users)[ambulanceId.value := old(db.users)[ambulanceId.value].(isAvailable := false)]
    ensures db.ledger == old(db.ledger)
  {
    if ambulanceId.None? {
      return Err(BadRequest(MissingAmbulanceId));
    }
    var amb := ambulanceId.value;
    if !(amb < |db.users| && Dispatchable(db.users[amb], hospital)) {
      return Err(NotFound);
    }
    var ambulance := db.users[amb];
    if id >= |db.cases| {
      return Err(NotFound);
    }
    var rescue := db.cases[id];
    if rescue.status != HospitalEscalated {
      return Err(BadRequest(WrongStatus(rescue.status)));
    }
    rescue := rescue.(status := AmbulanceAssigned);
    rescue := rescue.(assignedHospital := Some(hospital));
    rescue := rescue.(assignedAmbulance := Some(amb));
    rescue := rescue.(ambulanceAssignedAt := Some(now));
    UpdateCase(db.cases, db.users, db.ledger, id, rescue);
    db.cases := db.cases[id := rescue];

    ambulance := ambulance.(isAvailable := false);
    UpdateAccount(db.cases, db.users, db.ledger, amb, ambulance);
    db.users := db.users[amb := ambulance];
    r := Ok(rescue);
  }

  /** A dispatched ambulance cannot be dispatched again until it is released. */
  lemma DispatchedAmbulanceIneligible(users: seq<Account>, hospital: UserId, other: UserId, ambulance: UserId)
    requires AmbulanceEligible(users, hospital, ambulance)
    ensures !AmbulanceEligible(users[ambulance := users[ambulance].(isAvailable := false)], other, ambulance)
  {
  }
}
