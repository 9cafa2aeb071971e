/**
 * What an ambulance does: look up its active task, and move its case along
 * the fixed progression, which on completion refunds the reporter's deposit
 * and makes the ambulance available again.
 */
module AmbulanceController {
  import opened Wrappers
  import opened RescueRequestModel
  import opened UserModel
  import opened WalletTransactionModel
  import opened Replies
  import opened Store

  /** The deposit returned on completion (declared separately from the one taken at submission). */
  const DepositAmount: real := 20.0

  /** The statuses in which a case is an ambulance's active task. */
  predicate IsActive(s: Status) {
    s == AmbulanceAssigned || s == EnRoute || s == PickedUp
  }

  /** The active-task lookup: the first case, in id order, assigned to the caller and still active. */
  function AssignedTask(cases: seq<RescueRequest>, ambulance: UserId): (r: Option<CaseId>)
    ensures r.Some? ==> r.value < |cases| && cases[r.value].assignedAmbulance == Some(ambulance) && IsActive(cases[r.value].status)
    ensures r.Some? ==> forall j | 0 <= j < r.value :: !(cases[j].assignedAmbulance == Some(ambulance) && IsActive(cases[j].status))
    ensures r.None? <==> forall j | 0 <= j < |cases| :: !(cases[j].assignedAmbulance == Some(ambulance) && IsActive(cases[j].status))
  {
    if cases == [] then None
    else
      var n := |cases| - 1;
      var earlier := AssignedTask(cases[..n], ambulance);
      if earlier.Some? then earlier
      else if cases[n].assignedAmbulance == Some(ambulance) && IsActive(cases[n].status) then Some(n)
      else None
  }

  /** The progression table: the one status an ambulance may request next. */
  function NextStatus(s: Status): (r: Option<Status>)
    ensures r.Some? <==> IsActive(s)
    ensures r == Some(EnRoute) <==> s == AmbulanceAssigned
    ensures r == Some(PickedUp) <==> s == EnRoute
    ensures r == Some(Delivered) <==> s == PickedUp
  {
    match s
    case AmbulanceAssigned => Some(EnRoute)
    case EnRoute => Some(PickedUp)
    case PickedUp => Some(Delivered)
    case _ => None
  }

  /**
   * The checks and the status change of a progress update, once the case is
   * found. A case with no ambulance makes the ownership check throw. Delivery
   * completes the case at once, setting both timestamps.
   */
  function Advance(c: RescueRequest, caller: UserId, requested: string, now: Time): (r: Result<RescueRequest, Failure>)
    ensures c.assignedAmbulance.None? ==> r == Err(ServerError)
    ensures c.assignedAmbulance.Some? && c.assignedAmbulance.value != caller ==> r == Err(Forbidden(NotAssignedAmbulance))
    ensures c.assignedAmbulance == Some(caller) && !IsActive(c.status) ==> r == Err(BadRequest(NoNextStep(c.status)))
    ensures c.assignedAmbulance == Some(caller) && IsActive(c.status) && requested != StatusName(NextStatus(c.status).value) ==>
              r == Err(BadRequest(UnexpectedStatus(NextStatus(c.status).value)))
    ensures r.Ok? <==> c.assignedAmbulance == Some(caller) && IsActive(c.status) && requested == StatusName(NextStatus(c.status).value)
    ensures r.Ok? && c.status == AmbulanceAssigned ==> r.value == c.(status := EnRoute, enRouteAt := Some(now))
    ensures r.Ok? && c.status == EnRoute ==> r.value == c.(status := PickedUp, pickedUpAt := Some(now))
    ensures r.Ok? && c.status == PickedUp ==> r.value == c.(status := Completed, deliveredAt := Some(now), completedAt := Some(now))
  {
    if c.assignedAmbulance.None? then Err(ServerError)
    else if c.assignedAmbulance.value != caller then Err(Forbidden(NotAssignedAmbulance))
    else
      match NextStatus(c.status)
      case None => Err(BadRequest(NoNextStep(c.status)))
      case Some(next) =>
        if requested != StatusName(next) then Err(BadRequest(UnexpectedStatus(next)))
        else if next == EnRoute then Ok(c.(status := EnRoute, enRouteAt := Some(now)))
        else if next == PickedUp then Ok(c.(status := PickedUp, pickedUpAt := Some(now)))
        else Ok(c.(status := Completed, deliveredAt := Some(now), completedAt := Some(now)))
  }

  /** Whether the completed case still owes its reporter the deposit. */
  predicate RefundDue(c: RescueRequest) {
    c.status == Completed && c.depositDeducted && !c.depositRefunded
  }

  /** The ledger entry recording the refund of case `id` to `reporter`. */
  function RefundEntry(reporter: UserId, id: CaseId, balanceAfter: real): (t: WalletTransaction)
    ensures t.user == reporter && t.kind == Refund && t.rescueRequest == Some(id)
    ensures Signed(t) == DepositAmount && t.balanceAfter == balanceAfter
  {
    WalletTransaction(reporter, DepositAmount, Refund, Some(id), None, None, balanceAfter)
  }

  /** The accounts after the deposit is credited back to `reporter` (when `refunded`). */
  function Refunded(users: seq<Account>, reporter: UserId, refunded: bool): seq<Account>
    requires refunded ==> reporter < |users|
  {
    if refunded then users[reporter := users[reporter].(walletBalance := users[reporter].walletBalance + DepositAmount)]
    else users
  }

  /** The accounts after the caller is made available again (when the case `completed`). */
  function Released(users: seq<Account>, ambulance: UserId, completed: bool): seq<Account> {
    if completed && ambulance < |users| then users[ambulance := users[ambulance].(isAvailable := true)]
    else users
  }

  /** Whether the refund of a just-updated case goes through: it is due and the reporter's account exists. */
  predicate RefundSucceeds(c: RescueRequest, users: seq<Account>) {
    RefundDue(c) && c.user < |users|
  }

  /** Recording a refund keeps the store consistent. */
  lemma RecordRefund(cases: seq<RescueRequest>, users: seq<Account>, ledger: seq<WalletTransaction>, id: CaseId)
    requires Consistent(cases, users, ledger)
    requires id < |cases| && cases[id].depositDeducted && !cases[id].depositRefunded && cases[id].user < |users|
    ensures var u := cases[id].user;
            Consistent(cases[id := cases[id].(depositRefunded := true)],
                       users[u := users[u].(walletBalance := users[u].walletBalance + DepositAmount)],
                       ledger + [RefundEntry(u, id, users[u].walletBalance + DepositAmount)])
  {
    var u := cases[id].user;
    var t := RefundEntry(u, id, users[u].walletBalance + DepositAmount);
    var cs := cases[id := cases[id].(depositRefunded := true)];
    WalletTransactionModel.AppendEntry(ledger, t);
    assert ValidAccount(users[u]);
    forall k | 0 <= k < |cs| ensures DepositAccounted(cs[k], k, ledger + [t]) {
      assert DepositAccounted(cases[k], k, ledger);
    }
    AppendLedgerEntry(cases, users, ledger, cs, t);
  }

  /**
   * The progress-update handler. Every refusal leaves the store as it was.
   * A successful update stores the new status; when it completes the case,
   * the deposit is refunded if still owed (a missing reporter account only
   * skips the refund) and the caller becomes available again.
   */
  method UpdateStatus(db: Db, id: CaseId, caller: UserId, requested: string, now: Time) returns (r: Result<RescueRequest, Failure>)
    requires db.Valid()
    modifies db
    ensures db.Valid()
    ensures id >= |old(db.cases)| ==> r == Err(NotFound)
    ensures id < |old(db.cases)| && Advance(old(db.cases)[id], caller, requested, now).Err? ==>
              r == Advance(old(db.cases)[id], caller, requested, now)
    ensures r.Err? ==> db.cases == old(db.cases) && db.users == old(db.users) && db.ledger == old(db.ledger)
    ensures id < |old(db.cases)| && Advance(old(db.cases)[id], caller, requested, now).Ok? ==>
              var c := Advance(old(db.cases)[id], caller, requested, now).value;
              var refunded := RefundSucceeds(c, old(db.users));
              && r == Ok(if refunded then c.(depositRefunded := true) else c)
              && db.cases == old(db.cases)[id := r.value]
              && db.ledger == old(db.ledger) +
                   (if refunded then [RefundEntry(c.user, id, old(db.users)[c.user].walletBalance + DepositAmount)] else [])
              && db.users == Released(Refunded(old(db.users), c.user, refunded), caller, c.status == Completed)
  {
    if id >= |db.cases| {
      return Err(NotFound);
    }
    var rescue := db.cases[id];
    if rescue.assignedAmbulance.None? {
      return Err(ServerError);
    }
    if rescue.assignedAmbulance.value != caller {
      return Err(Forbidden(NotAssignedAmbulance));
    }
    var expected := NextStatus(rescue.status);
    if expected.None? {
      return Err(BadRequest(NoNextStep(rescue.status)));
    }
    if requested != StatusName(expected.value) {
      return Err(BadRequest(UnexpectedStatus(expected.value)));
    }

    rescue := rescue.(status := expected.value);
    if expected.value == EnRoute {
      rescue := rescue.(enRouteAt := Some(now));
    }
    if expected.value == PickedUp {
      rescue := rescue.(pickedUpAt := Some(now));
    }
    if expected.value == Delivered {
      rescue := rescue.(deliveredAt := Some(now));
      rescue := rescue.(status := Completed);
      rescue := rescue.(completedAt := Some(now));
    }
    assert rescue == Advance(old(db.cases)[id], caller, requested, now).value;
    rescue := SaveAdvanced(db, id, caller, rescue);
    r := Ok(rescue);
  }

  /** Saving the advanced case `c` over case `id`, then settling the completion. */
  method SaveAdvanced(db: Db, id: CaseId, caller: UserId, c: RescueRequest) returns (saved: RescueRequest)
    requires db.Valid() && id < |db.cases|
    requires c.user == db.cases[id].user
    requires c.depositDeducted == db.cases[id].depositDeducted && c.depositRefunded == db.cases[id].depositRefunded
    modifies db
    ensures db.Valid()
    ensures var refunded := RefundSucceeds(c, old(db.users));
            && saved == (if refunded then c.(depositRefunded := true) else c)
            && db.cases == old(db.cases)[id := saved]
            && db.ledger == old(db.ledger) +
                 (if refunded then [RefundEntry(c.user, id, old(db.users)[c.user].walletBalance + DepositAmount)] else [])
            && db.users == Released(Refunded(old(db.users), c.user, refunded), caller, c.status == Completed)
  {
    UpdateCase(db.cases, db.users, db.ledger, id, c);
    db.cases := db.cases[id := c];
    saved := SettleCompletion(db, id, caller);
  }

  /**
   * The follow-up of a stored update: the deposit is refunded if due, and a
   * completed case makes `caller` available again.
   */
  method SettleCompletion(db: Db, id: CaseId, caller: UserId) returns (c: RescueRequest)
    requires db.Valid() && id < |db.cases|
    modifies db
    ensures db.Valid()
    ensures var c0 := old(db.cases)[id];
            var refunded := RefundSucceeds(c0, old(db.users));
            && c == (if refunded then c0.(depositRefunded := true) else c0)
            && db.cases == old(db.cases)[id := c]
            && db.ledger == old(db.ledger) +
                 (if refunded then [RefundEntry(c0.user, id, old(db.users)[c0.user].walletBalance + DepositAmount)] else [])
            && db.users == Released(Refunded(old(db.users), c0.user, refunded), caller, c0.status == Completed)
  {
    c := RefundDeposit(db, id);
    ReleaseAmbulance(db, caller, c.status == Completed);
  }

  /**
   * When case `id` is completed and still owes its deposit, the reporter is
   * credited, a refund entry is appended and the case is marked refunded;
   * when the reporter's account is missing the refund is skipped.
   */
  method RefundDeposit(db: Db, id: CaseId) returns (c: RescueRequest)
    requires db.Valid() && id < |db.cases|
    modifies db
    ensures db.Valid()
    ensures var c0 := old(db.cases)[id];
            var refunded := RefundSucceeds(c0, old(db.users));
            && c == (if refunded then c0.(depositRefunded := true) else c0)
            && db.cases == old(db.cases)[id := c]
            && db.ledger == old(db.ledger) +
                 (if refunded then [RefundEntry(c0.user, id, old(db.users)[c0.user].walletBalance + DepositAmount)] else [])
            && db.users == Refunded(old(db.users), c0.user, refunded)
  {
    c := db.cases[id];
    if c.status == Completed && c.depositDeducted && !c.depositRefunded {
      var reporter := c.user;
      if reporter < |db.users| {
        var balance := db.users[reporter].walletBalance + DepositAmount;
        RecordRefund(db.cases, db.users, db.ledger, id);
        db.users := db.users[reporter := db.users[reporter].(walletBalance := balance)];
        db.ledger := db.ledger + [RefundEntry(reporter, id, balance)];
        c := c.(depositRefunded := true);
        db.cases := db.cases[id := c];
      }
    }
  }

  /** A completed case makes the ambulance `caller` available again; nothing else changes. */
  method ReleaseAmbulance(db: Db, caller: UserId, completed: bool)
    requires db.Valid()
    modifies db
    ensures db.Valid()
    ensures db.users == Released(old(db.users), caller, completed)
    ensures db.cases == old(db.cases) && db.ledger == old(db.ledger)
  {
    if completed && caller < |db.users| {
      UpdateAccount(db.cases, db.users, db.ledger, caller, db.users[caller].(isAvailable := true));
      db.users := db.users[caller := db.users[caller].(isAvailable := true)];
    }
  }

  /** A refund leaves nothing owed, and a completed case admits no further update, so it is never refunded twice. */
  lemma RefundAtMostOnce(c: RescueRequest, caller: UserId, requested: string, now: Time)
    requires RefundDue(c)
    ensures !RefundDue(c.(depositRefunded := true))
    ensures Advance(c.(depositRefunded := true), caller, requested, now).Err?
  {
  }

  /** Requesting delivery never leaves a case in the delivered status. */
  lemma NeverRestsInDelivered(c: RescueRequest, caller: UserId, requested: string, now: Time)
    ensures Advance(c, caller, requested, now).Ok? ==> Advance(c, caller, requested, now).value.status != Delivered
  {
  }

  /** A completed case owes its deposit exactly when one was taken and not yet returned. */
  lemma CompletionRefundsDeposit(c: RescueRequest, caller: UserId, now: Time)
    requires c.status == PickedUp && c.assignedAmbulance == Some(caller)
    ensures Advance(c, caller, "delivered", now).Ok?
    ensures RefundDue(Advance(c, caller, "delivered", now).value) <==> c.depositDeducted && !c.depositRefunded
  {
  }
}
