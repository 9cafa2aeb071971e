/**
 * Wallet top-up: validating the amount of a new order and converting it to
 * paise, and crediting the wallet once the gateway's signature checks out.
 */
module PaymentController {
  import opened Wrappers
  import opened UserModel
  import opened RescueRequestModel
  import opened WalletTransactionModel
  import opened Replies
  import opened Store
  import opened FormFields

  /** The smallest top-up accepted, in rupees. */
  const MinTopUp: real := 10.0

  /** Rounding to the nearest integer, halves upwards. */
  function RoundHalfUp(x: real): (r: int)
    ensures (r as real) - 0.5 <= x < (r as real) + 0.5
  {
    (x + 0.5).Floor
  }

  /** An amount in rupees converted to paise, rounded to the nearest paisa. */
  function Paise(amount: real): (p: int)
    ensures (p as real) - 0.5 <= amount * 100.0 < (p as real) + 0.5
  {
    RoundHalfUp(amount * 100.0)
  }

  /** For a whole number of rupees the conversion is exact. */
  lemma WholeRupeesToPaise(rupees: int)
    ensures Paise(rupees as real) == 100 * rupees
  {
    var p := Paise(rupees as real);
    assert (p - 100 * rupees) as real < 0.5;
    assert (100 * rupees - p) as real <= 0.5;
  }

  /**
   * The order-creation check: the amount must be truthy, a number, and at
   * least 10; the order is then made out for that many paise.
   */
  function CreateOrder(amount: Field, toNumber: string -> Option<real>): (r: Result<int, Failure>)
    ensures r.Ok? <==> Truthy(amount) && ToNumber(amount, toNumber).Some? && ToNumber(amount, toNumber).value >= MinTopUp
    ensures r.Err? ==> r.error == BadRequest(MinimumTopUp)
    ensures r.Ok? ==> r.value == Paise(ToNumber(amount, toNumber).value) && r.value >= 1000
  {
    if !Truthy(amount) then Err(BadRequest(MinimumTopUp))
    else
      var n := ToNumber(amount, toNumber);
      if n.None? || n.value < MinTopUp then Err(BadRequest(MinimumTopUp))
      else Ok(Paise(n.value))
  }

  /** A text field is present when it is non-empty. */
  predicate Present(s: Option<string>) {
    s.Some? && s.value != ""
  }

  datatype Verification = Verification(orderId: Option<string>, paymentId: Option<string>, signature: Option<string>, amount: Field)

  /** The presence check of the verification request. */
  predicate FieldsPresent(v: Verification) {
    Present(v.orderId) && Present(v.paymentId) && Present(v.signature) && Truthy(v.amount)
  }

  /** The outcome of a verification on one wallet: the reply (the new balance), the balance after it, and whether a credit was recorded. */
  datatype CreditEffect = CreditEffect(reply: Result<real, Failure>, balance: real, credited: bool)

  /**
   * Balance and ledger go together: either a non-negative amount is added and
   * recorded, or nothing changes.
   */
  predicate CreditAtomic(balance: real, amount: Option<real>, e: CreditEffect) {
    if e.credited then e.reply == Ok(e.balance) && amount.Some? && amount.value >= 0.0 && e.balance == balance + amount.value
    else e.reply.Err? && e.balance == balance
  }

  /**
   * Verification as written: the balance is saved before the ledger entry is
   * created, so an amount the ledger refuses (a negative one) still changes
   * the balance. An amount that is no number makes the balance save throw.
   */
  function VerifyAsWritten(v: Verification, signatureValid: bool, balance: real, toNumber: string -> Option<real>): (e: CreditEffect)
    ensures e.credited <==> e.reply.Ok?
    ensures e.credited ==> CreditAtomic(balance, ToNumber(v.amount, toNumber), e)
  {
    if !FieldsPresent(v) then CreditEffect(Err(BadRequest(MissingFields)), balance, false)
    else if !signatureValid then CreditEffect(Err(BadRequest(InvalidSignature)), balance, false)
    else
      match ToNumber(v.amount, toNumber)
      case None => CreditEffect(Err(ServerError), balance, false)
      case Some(x) =>
        if balance + x < 0.0 then CreditEffect(Err(ServerError), balance, false)
        else if x < 0.0 then CreditEffect(Err(ServerError), balance + x, false)
        else CreditEffect(Ok(balance + x), balance + x, true)
  }

  /** A signed request for -5 on a balance of 100 leaves 95 and no ledger entry. */
  lemma AsWrittenNegativeAmount(toNumber: string -> Option<real>)
    ensures var v := Verification(Some("order_1"), Some("pay_1"), Some("sig"), Number(-5.0));
            var e := VerifyAsWritten(v, true, 100.0, toNumber);
            e.reply == Err(ServerError) && e.balance == 95.0 && !e.credited
            && !CreditAtomic(100.0, ToNumber(v.amount, toNumber), e)
  {
  }

  /** Verification as intended: a negative amount is refused before the wallet is touched. */
  function Verify(v: Verification, signatureValid: bool, balance: real, toNumber: string -> Option<real>): (e: CreditEffect)
    ensures CreditAtomic(balance, ToNumber(v.amount, toNumber), e)
    ensures !FieldsPresent(v) ==> e.reply == Err(BadRequest(MissingFields))
    ensures FieldsPresent(v) && !signatureValid ==> e.reply == Err(BadRequest(InvalidSignature))
    ensures e.credited <==> FieldsPresent(v) && signatureValid && ToNumber(v.amount, toNumber).Some?
                            && ToNumber(v.amount, toNumber).value >= 0.0
  {
    if !FieldsPresent(v) then CreditEffect(Err(BadRequest(MissingFields)), balance, false)
    else if !signatureValid then CreditEffect(Err(BadRequest(InvalidSignature)), balance, false)
    else
      match ToNumber(v.amount, toNumber)
      case None => CreditEffect(Err(ServerError), balance, false)
      case Some(x) =>
        if x < 0.0 then CreditEffect(Err(BadRequest(InvalidAmount)), balance, false)
        else CreditEffect(Ok(balance + x), balance + x, true)
  }

  /** On a valid account the correction changes only the refused requests: whenever either version credits, both agree. */
  lemma VerifyAgreesOnSuccess(v: Verification, signatureValid: bool, balance: real, toNumber: string -> Option<real>)
    requires balance >= 0.0
    ensures VerifyAsWritten(v, signatureValid, balance, toNumber).credited <==> Verify(v, signatureValid, balance, toNumber).credited
    ensures Verify(v, signatureValid, balance, toNumber).credited ==>
              VerifyAsWritten(v, signatureValid, balance, toNumber) == Verify(v, signatureValid, balance, toNumber)
  {
  }

  /** The ledger entry recording a top-up. */
  function CreditEntry(caller: UserId, amount: real, orderId: string, paymentId: string, balanceAfter: real): (t: WalletTransaction)
    ensures t.user == caller && t.kind == Credit && t.rescueRequest.None?
    ensures Signed(t) == amount && t.balanceAfter == balanceAfter
    ensures t.razorpayOrderId == Some(orderId) && t.razorpayPaymentId == Some(paymentId)
  {
    WalletTransaction(caller, amount, Credit, None, Some(orderId), Some(paymentId), balanceAfter)
  }

  /** Recording a top-up keeps the store consistent. */
  lemma RecordCredit(cases: seq<RescueRequest>, users: seq<Account>, ledger: seq<WalletTransaction>,
                     caller: UserId, amount: real, orderId: string, paymentId: string)
    requires Consistent(cases, users, ledger)
    requires caller < |users| && amount >= 0.0
    ensures var b := users[caller].walletBalance + amount;
            Consistent(cases, users[caller := users[caller].(walletBalance := b)],
                       ledger + [CreditEntry(caller, amount, orderId, paymentId, b)])
  {
    var t := CreditEntry(caller, amount, orderId, paymentId, users[caller].walletBalance + amount);
    WalletTransactionModel.AppendEntry(ledger, t);
    assert ValidAccount(users[caller]);
    forall k | 0 <= k < |cases| ensures DepositAccounted(cases[k], k, ledger + [t]) {
      assert DepositAccounted(cases[k], k, ledger);
    }
    AppendLedgerEntry(cases, users, ledger, cases, t);
  }

  /**
   * The verification handler, with negative amounts refused. The presence
   * and signature checks come first; a caller whose account is gone makes the
   * balance lookup throw.
   */
  method VerifyPayment(db: Db, caller: UserId, v: Verification, signatureValid: bool, toNumber: string -> Option<real>)
    returns (r: Result<real, Failure>)
    requires db.Valid()
    modifies db
    ensures db.Valid()
    ensures !FieldsPresent(v) ==> r == Err(BadRequest(MissingFields))
    ensures FieldsPresent(v) && !signatureValid ==> r == Err(BadRequest(InvalidSignature))
    ensures FieldsPresent(v) && signatureValid && caller >= |old(db.users)| ==> r == Err(ServerError)
    ensures caller < |old(db.users)| ==>
              var e := Verify(v, signatureValid, old(db.users)[caller].walletBalance, toNumber);
              && r == e.reply
              && db.users == (if e.credited then old(db.users)[caller := old(db.users)[caller].(walletBalance := e.balance)] else old(db.users))
              && db.ledger == old(db.ledger) +
                   (if e.credited then [CreditEntry(caller, ToNumber(v.amount, toNumber).value, v.orderId.value, v.paymentId.value, e.balance)] else [])
    ensures r.Err? ==> db.users == old(db.users) && db.ledger == old(db.ledger)
    ensures db.cases == old(db.cases)
  {
    if !FieldsPresent(v) {
      return Err(BadRequest(MissingFields));
    }
    if !signatureValid {
      return Err(BadRequest(InvalidSignature));
    }
    if caller >= |db.users| {
      return Err(ServerError);
    }
    var amount := ToNumber(v.amount, toNumber);
    if amount.None? {
      return Err(ServerError);
    }
    var credit := amount.value;
    if credit < 0.0 {
      return Err(BadRequest(InvalidAmount));
    }
    var user := db.users[caller];
    user := user.(walletBalance := user.walletBalance + credit);
    RecordCredit(db.cases, db.users, db.ledger, caller, credit, v.orderId.value, v.paymentId.value);
    db.users := db.users[caller := user];
    db.ledger := db.ledger + [CreditEntry(caller, credit, v.orderId.value, v.paymentId.value, user.walletBalance)];
    r := Ok(user.walletBalance);
  }
}
