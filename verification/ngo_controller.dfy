/**
 * What an NGO does with pending cases: list the ones near it, accept one, or
 * decline one so that it is no longer shown.
 */
module NgoController {
  import opened Wrappers
  import opened RescueRequestModel
  import opened UserModel
  import opened Replies
  import opened Queries
  import opened CaseRows
  import opened Store

  /** NGOs see pending cases within this many km. */
  const NearbyRadiusKm: real := 50.0

  /** The store-side filter: pending, and not declined by this NGO. */
  predicate VisibleToNgo(c: RescueRequest, ngo: UserId) {
    c.status == Pending && ngo !in c.rejectedBy
  }

  predicate WithinNgoRadius(r: CaseRow) {
    r.distance.Some? && r.distance.value <= NearbyRadiusKm
  }

  datatype NearbyResult = NearbyResult(cases: seq<CaseRow>, locationSet: bool)

  /** The cases the NGO may see, oldest first, ties in id order. */
  function OldestFirst(cases: seq<RescueRequest>, ngo: UserId): (es: seq<Entry<RescueRequest>>)
    ensures forall e :: e in es <==> e.id < |cases| && e.value == cases[e.id] && VisibleToNgo(e.value, ngo)
    ensures SortedLex(es, CreatedKey, IdKey)
    ensures DistinctBy(es, IdKey)
  {
    SelectOrdered(cases, c => VisibleToNgo(c, ngo), CreatedKey)
  }

  /** The rows within the radius, nearest first; rows at the same distance keep their age order. */
  function Nearest(rows: seq<CaseRow>): (r: seq<CaseRow>)
    ensures forall row :: row in r <==> row in rows && WithinNgoRadius(row)
    ensures SortedLex(rows, RowCreated, RowId) ==> SortedLex(r, RowDistance, RowCreated)
    ensures forall row :: multiset(r)[row] == if WithinNgoRadius(row) then multiset(rows)[row] else 0
    ensures DistinctBy(rows, RowId) ==> DistinctBy(r, RowId)
  {
    var near := Filter(rows, WithinNgoRadius);
    var sorted := SortBy(near, RowDistance);
    SortKeepsMembers(near, RowDistance);
    FilterCounts(rows, WithinNgoRadius);
    assert DistinctBy(rows, RowId) ==> DistinctBy(sorted, RowId) by {
      if DistinctBy(rows, RowId) {
        FilterKeepsDistinct(rows, WithinNgoRadius, RowId);
        PermutationKeepsDistinct(sorted, near, RowId);
      }
    }
    assert SortedLex(rows, RowCreated, RowId) ==> SortedLex(sorted, RowDistance, RowCreated) by {
      if SortedLex(rows, RowCreated, RowId) {
        FilterKeepsLex(rows, WithinNgoRadius, RowCreated, RowId);
        LexIsSorted(near, RowCreated, RowId);
        StableSortIsLex(near, RowDistance, RowCreated);
      }
    }
    sorted
  }

  /**
   * The nearby-cases listing. Without a location every visible case is listed,
   * oldest first, with a null distance. With one, only visible cases within
   * 50 km are listed, nearest first, ties oldest first.
   */
  function NearbyCases(cases: seq<RescueRequest>, ngo: UserId, loc: UserLocation, dist: Distance): (r: NearbyResult)
    ensures r.locationSet == HasLocation(loc)
    ensures forall row :: row in r.cases <==>
              && row.id < |cases| && row.request == cases[row.id]
              && VisibleToNgo(row.request, ngo)
              && row.distance == DistanceFrom(loc, row.request, dist)
              && (HasLocation(loc) ==> row.distance.value <= NearbyRadiusKm)
    ensures HasLocation(loc) ==> SortedLex(r.cases, RowDistance, RowCreated)
    ensures !HasLocation(loc) ==> SortedLex(r.cases, RowCreated, RowId)
    ensures DistinctBy(r.cases, RowId)
  {
    var rows := Annotate(OldestFirst(cases, ngo), loc, dist);
    AnnotateMembers(OldestFirst(cases, ngo), loc, dist);
    if HasLocation(loc) then NearbyResult(Nearest(rows), true)
    else NearbyResult(rows, false)
  }

  /** Accepting: only a pending case, which becomes the caller's. */
  function Accept(c: RescueRequest, ngo: UserId, now: Time): (r: Result<RescueRequest, Failure>)
    ensures r.Ok? <==> c.status == Pending
    ensures r.Err? ==> r.error == BadRequest(WrongStatus(c.status))
    ensures r.Ok? ==> r.value.status == NgoAccepted && r.value.assignedNGO == Some(ngo) && r.value.acceptedAt == Some(now)
    ensures r.Ok? ==> r.value == c.(status := r.value.status, assignedNGO := r.value.assignedNGO, acceptedAt := r.value.acceptedAt)
  {
    if c.status != Pending then Err(BadRequest(WrongStatus(c.status)))
    else Ok(c.(status := NgoAccepted, assignedNGO := Some(ngo), acceptedAt := Some(now)))
  }

  /** Declining: only a pending case; the caller is recorded once and the status kept. */
  function Reject(c: RescueRequest, ngo: UserId): (r: Result<RescueRequest, Failure>)
    ensures r.Ok? <==> c.status == Pending
    ensures r.Err? ==> r.error == BadRequest(WrongStatus(c.status))
    ensures r.Ok? ==> r.value.status == c.status && ngo in r.value.rejectedBy
    ensures r.Ok? ==> r.value.rejectedBy == (if ngo in c.rejectedBy then c.rejectedBy else c.rejectedBy + [ngo])
    ensures r.Ok? ==> r.value == c.(rejectedBy := r.value.rejectedBy)
  {
    if c.status != Pending then Err(BadRequest(WrongStatus(c.status)))
    else if ngo in c.rejectedBy then Ok(c)
    else Ok(c.(rejectedBy := c.rejectedBy + [ngo]))
  }

  /** A second acceptance fails and the first NGO stays assigned. */
  lemma SecondAcceptFails(c: RescueRequest, first: UserId, second: UserId, t1: Time, t2: Time)
    requires Accept(c, first, t1).Ok?
    ensures Accept(Accept(c, first, t1).value, second, t2) == Err(BadRequest(WrongStatus(NgoAccepted)))
    ensures Accept(c, first, t1).value.assignedNGO == Some(first)
  {
  }

  /** Acceptance ignores who declined the case. */
  lemma AcceptIgnoresRejections(c: RescueRequest, ngo: UserId, now: Time)
    requires c.status == Pending && ngo in c.rejectedBy
    ensures Accept(c, ngo, now).Ok?
  {
  }

  /** Declining twice is declining once, and the list of decliners only grows. */
  lemma RejectIdempotent(c: RescueRequest, ngo: UserId)
    requires Reject(c, ngo).Ok?
    ensures Reject(Reject(c, ngo).value, ngo) == Reject(c, ngo)
    ensures c.rejectedBy <= Reject(c, ngo).value.rejectedBy
  {
  }

  /** After declining, the case no longer shows up in the caller's listing. */
  lemma RejectedCaseHidden(cases: seq<RescueRequest>, id: CaseId, ngo: UserId, loc: UserLocation, dist: Distance)
    requires id < |cases| && Reject(cases[id], ngo).Ok?
    ensures forall row | row in NearbyCases(cases[id := Reject(cases[id], ngo).value], ngo, loc, dist).cases :: row.id != id
  {
  }

  method AcceptCase(db: Db, id: CaseId, ngo: UserId, now: Time) returns (r: Result<RescueRequest, Failure>)
    requires db.Valid()
    modifies db
    ensures db.Valid()
    ensures id >= |old(db.cases)| ==> r == Err(NotFound)
    ensures id < |old(db.cases)| ==> r == Accept(old(db.cases)[id], ngo, now)
    ensures db.cases == (if r.Ok? then old(db.cases)[id := r.value] else old(db.cases))
    ensures db.users == old(db.users) && db.ledger == old(db.ledger)
  {
    if id >= |db.cases| {
      return Err(NotFound);
    }
    var rescue := db.cases[id];
    if rescue.status != Pending {
      return Err(BadRequest(WrongStatus(rescue.status)));
    }
    rescue := rescue.(status := NgoAccepted);
    rescue := rescue.(assignedNGO := Some(ngo));
    rescue := rescue.(acceptedAt := Some(now));
    UpdateCase(db.cases, db.users, db.ledger, id, rescue);
    db.cases := db.cases[id := rescue];
    r := Ok(rescue);
  }

  /** On success the reply carries no case; the store is written only when the caller was not yet recorded. */
  method RejectCase(db: Db, id: CaseId, ngo: UserId) returns (r: Result<(), Failure>)
    requires db.Valid()
    modifies db
    ensures db.Valid()
    ensures id >= |old(db.cases)| ==> r == Err(NotFound)
    ensures id < |old(db.cases)| ==> match Reject(old(db.cases)[id], ngo)
                                      case Ok(_) => r == Ok(())
                                      case Err(e) => r == Err(e)
    ensures db.cases == (if r.Ok? then old(db.cases)[id := Reject(old(db.cases)[id], ngo).value] else old(db.cases))
    ensures db.users == old(db.users) && db.ledger == old(db.ledger)
  {
    if id >= |db.cases| {
      return Err(NotFound);
    }
    var rescue := db.cases[id];
    if rescue.status != Pending {
      return Err(BadRequest(WrongStatus(rescue.status)));
    }
    if ngo !in rescue.rejectedBy {
      rescue := rescue.(rejectedBy := rescue.rejectedBy + [ngo]);
      UpdateCase(db.cases, db.users, db.ledger, id, rescue);
      db.cases := db.cases[id := rescue];
    }
    r := Ok(());
  }
}
