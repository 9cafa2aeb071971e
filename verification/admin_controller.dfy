/**
 * The administrator's operations on the lifecycle: approving organisation
 * accounts, overriding a case's status, and the pagination of the listings.
 */
module AdminController {
  import opened Wrappers
  import opened RescueRequestModel
  import opened UserModel
  import opened Replies
  import opened Queries
  import opened Store

  /** A query parameter parsed as an integer; absent, unparsable or zero gives the default. */
  function OrDefault(param: Option<int>, default: int): (r: int)
    ensures param.Some? && param.value != 0 ==> r == param.value
    ensures param.None? || param.value == 0 ==> r == default
  {
    if param.Some? && param.value != 0 then param.value else default
  }

  /**
   * The least integer not below total / limit, for a non-zero limit of either
   * sign: the bounds below pin down exactly that integer.
   */
  function CeilDiv(total: nat, limit: int): (r: int)
    requires limit != 0
    ensures limit > 0 ==> (r - 1) * limit < total <= r * limit
    ensures limit < 0 ==> r * limit <= total < (r - 1) * limit
  {
    if limit > 0 then (total + limit - 1) / limit else -(total / -limit)
  }

  datatype Paging = Paging(page: int, limit: int, skip: int, pages: int)

  /**
   * The pagination of a listing of `total` records: page 1 and 20 per page
   * by default, the records to skip, and the number of pages.
   */
  function Paginate(pageParam: Option<int>, limitParam: Option<int>, total: nat): (p: Paging)
    ensures p.page == OrDefault(pageParam, 1) && p.limit == OrDefault(limitParam, 20)
    ensures p.page != 0 && p.limit != 0
    ensures p.skip == (p.page - 1) * p.limit
    ensures p.pages == CeilDiv(total, p.limit)
    ensures p.limit > 0 ==> (p.pages - 1) * p.limit < total <= p.pages * p.limit
  {
    var page := OrDefault(pageParam, 1);
    var limit := OrDefault(limitParam, 20);
    var pages := CeilDiv(total, limit);
    Paging(page, limit, (page - 1) * limit, pages)
  }

  /** Multiplying by a positive page size keeps the order of page numbers. */
  lemma ScaleMonotone(a: int, b: int, limit: int)
    requires a <= b && limit > 0
    ensures a * limit <= b * limit
  {
    assert (b - a) * limit >= 0;
  }

  /** With a positive page size, a page from 1 up starts inside the listing exactly when it is one of the counted pages. */
  lemma PageWithinRange(pageParam: Option<int>, limitParam: Option<int>, total: nat)
    requires Paginate(pageParam, limitParam, total).limit > 0 && Paginate(pageParam, limitParam, total).page >= 1
    ensures var p := Paginate(pageParam, limitParam, total);
            p.page <= p.pages <==> p.skip < total
  {
    var p := Paginate(pageParam, limitParam, total);
    if p.page <= p.pages {
      ScaleMonotone(p.page - 1, p.pages - 1, p.limit);
    } else {
      ScaleMonotone(p.pages, p.page - 1, p.limit);
    }
  }

  /** Organisation accounts still awaiting approval. */
  predicate AwaitingApproval(a: Account) {
    IsOrgRole(a.role) && !a.isApproved
  }

  function AccountCreated(e: Entry<Account>): real {
    e.value.createdAt as real
  }

  /** The pending-approvals listing: unapproved organisation accounts, oldest first, ties in id order. */
  function PendingApprovals(users: seq<Account>): (r: seq<Entry<Account>>)
    ensures forall e :: e in r <==> e.id < |users| && e.value == users[e.id] && AwaitingApproval(e.value)
    ensures SortedLex(r, AccountCreated, IdKey)
    ensures DistinctBy(r, IdKey)
  {
    SelectOrdered(users, AwaitingApproval, AccountCreated)
  }

  /**
   * Approving or revoking: only organisation accounts; the account is
   * approved unless `approve` is exactly false (None stands for an absent or
   * non-boolean value).
   */
  function Approve(a: Account, approve: Option<bool>): (r: Result<Account, Failure>)
    ensures r.Ok? <==> IsOrgRole(a.role)
    ensures r.Err? ==> r.error == BadRequest(NotOrganisation)
    ensures r.Ok? ==> (r.value.isApproved <==> approve != Some(false))
    ensures r.Ok? ==> r.value == a.(isApproved := r.value.isApproved)
  {
    if !IsOrgRole(a.role) then Err(BadRequest(NotOrganisation))
    else Ok(a.(isApproved := approve != Some(false)))
  }

  method ApproveUser(db: Db, u: UserId, approve: Option<bool>) returns (r: Result<Account, Failure>)
    requires db.Valid()
    modifies db
    ensures db.Valid()
    ensures u >= |old(db.users)| ==> r == Err(NotFound)
    ensures u < |old(db.users)| ==> r == Approve(old(db.users)[u], approve)
    ensures db.users == (if r.Ok? then old(db.users)[u := r.value] else old(db.users))
    ensures db.cases == old(db.cases) && db.ledger == old(db.ledger)
  {
    if u >= |db.users| {
      return Err(NotFound);
    }
    var user := db.users[u];
    if !IsOrgRole(user.role) {
      return Err(BadRequest(NotOrganisation));
    }
    user := user.(isApproved := approve != Some(false));
    UpdateAccount(db.cases, db.users, db.ledger, u, user);
    db.users := db.users[u := user];
    r := Ok(user);
  }

  /**
   * The override: any status name the enumeration accepts, with the notes
   * (empty when absent or empty). An absent status leaves the status as it
   * is. The status is validated before the case is looked up, and an invalid
   * one is a thrown validation error.
   */
  function Override(cases: seq<RescueRequest>, id: CaseId, status: Option<string>, notes: Option<string>): (r: Result<RescueRequest, Failure>)
    ensures status.Some? && ParseStatus(status.value).None? ==> r == Err(ServerError)
    ensures r.Ok? <==> (status.None? || ParseStatus(status.value).Some?) && id < |cases|
    ensures r.Err? && id < |cases| ==> r == Err(ServerError)
    ensures (status.None? || ParseStatus(status.value).Some?) && id >= |cases| ==> r == Err(NotFound)
    ensures r.Ok? ==> StatusName(r.value.status) == (if status.Some? then status.value else StatusName(cases[id].status))
    ensures r.Ok? ==> r.value.adminNotes == (if notes.Some? then notes.value else "")
    ensures r.Ok? ==> r.value == cases[id].(status := r.value.status, adminNotes := r.value.adminNotes)
  {
    if status.Some? && ParseStatus(status.value).None? then Err(ServerError)
    else if id >= |cases| then Err(NotFound)
    else
      var s := if status.Some? then ParseStatus(status.value).value else cases[id].status;
      ParseStatusName(cases[id].status);
      Ok(cases[id].(status := s, adminNotes := if notes.Some? then notes.value else ""))
  }

  /** The override bypasses the progression: every status is reachable from every case. */
  lemma OverrideReachesAnyStatus(cases: seq<RescueRequest>, id: CaseId, s: Status, notes: Option<string>)
    requires id < |cases|
    ensures Override(cases, id, Some(StatusName(s)), notes).Ok?
    ensures Override(cases, id, Some(StatusName(s)), notes).value.status == s
  {
    ParseStatusName(s);
  }

  method OverrideRescueStatus(db: Db, id: CaseId, status: Option<string>, notes: Option<string>) returns (r: Result<RescueRequest, Failure>)
    requires db.Valid()
    modifies db
    ensures db.Valid()
    ensures r == Override(old(db.cases), id, status, notes)
    ensures status.Some? && ParseStatus(status.value).None? ==> r == Err(ServerError)
    ensures (status.None? || ParseStatus(status.value).Some?) && id >= |old(db.cases)| ==> r == Err(NotFound)
    ensures db.cases == (if r.Ok? then old(db.cases)[id := r.value] else old(db.cases))
    ensures db.users == old(db.users) && db.ledger == old(db.ledger)
  {
    if status.Some? && ParseStatus(status.value).None? {
      return Err(ServerError);
    }
    if id >= |db.cases| {
      return Err(NotFound);
    }
    var rescue := db.cases[id];
    if status.Some? {
      rescue := rescue.(status := ParseStatus(status.value).value);
    }
    rescue := rescue.(adminNotes := if notes.Some? then notes.value else "");
    UpdateCase(db.cases, db.users, db.ledger, id, rescue);
    db.cases := db.cases[id := rescue];
    r := Ok(rescue);
  }
}
