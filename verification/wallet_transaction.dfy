/**
 * The wallet ledger: its entry record, and the balance an entry sequence
 * implies for each account.
 */
module WalletTransactionModel {
  import opened Wrappers
  import opened RescueRequestModel

  datatype TxType = Credit | Debit | Refund

  /**
   * One ledger entry. `amount` is never negative; `kind` carries the
   * direction. `balanceAfter` is the owner's balance once the entry applied.
   */
  datatype WalletTransaction = WalletTransaction(
    user: UserId,
    amount: real,
    kind: TxType,
    rescueRequest: Option<CaseId>,
    razorpayOrderId: Option<string>,
    razorpayPaymentId: Option<string>,
    balanceAfter: real)

  /** The `amount` validator. */
  predicate ValidTransaction(t: WalletTransaction) {
    t.amount >= 0.0
  }

  /** The change an entry makes to its owner's balance. */
  function Signed(t: WalletTransaction): real {
    if t.kind == Debit then -t.amount else t.amount
  }

  /** The balance of account `u` obtained by replaying the ledger from zero. */
  function Replay(ledger: seq<WalletTransaction>, u: UserId): real {
    if ledger == [] then 0.0
    else
      var last := ledger[|ledger| - 1];
      Replay(ledger[..|ledger| - 1], u) + (if last.user == u then Signed(last) else 0.0)
  }

  /** The number of entries of the given kind that reference case `id`. */
  function CountFor(ledger: seq<WalletTransaction>, kind: TxType, id: CaseId): nat {
    if ledger == [] then 0
    else
      var last := ledger[|ledger| - 1];
      CountFor(ledger[..|ledger| - 1], kind, id) + (if last.kind == kind && last.rescueRequest == Some(id) then 1 else 0)
  }

  /** Every entry's `balanceAfter` is its owner's replayed balance at that point. */
  ghost predicate Chained(ledger: seq<WalletTransaction>) {
    forall i | 0 <= i < |ledger| :: ledger[i].balanceAfter == Replay(ledger[..i + 1], ledger[i].user)
  }

  /** Appending one entry changes only its owner's replay, by the entry's signed amount. */
  lemma {:induction false} AppendEntry(ledger: seq<WalletTransaction>, t: WalletTransaction)
    ensures forall u :: Replay(ledger + [t], u) == Replay(ledger, u) + (if t.user == u then Signed(t) else 0.0)
    ensures forall kind, id: CaseId :: CountFor(ledger + [t], kind, id)
              == CountFor(ledger, kind, id) + (if t.kind == kind && t.rescueRequest == Some(id) then 1 else 0)
    ensures Chained(ledger) && t.balanceAfter == Replay(ledger, t.user) + Signed(t) ==> Chained(ledger + [t])
  {
    var l := ledger + [t];
    assert l[..|l| - 1] == ledger;
    if Chained(ledger) && t.balanceAfter == Replay(ledger, t.user) + Signed(t) {
      forall i | 0 <= i < |l| ensures l[i].balanceAfter == Replay(l[..i + 1], l[i].user) {
        if i < |ledger| {
          assert l[..i + 1] == ledger[..i + 1];
        } else {
          assert l[..i + 1] == l;
        }
      }
    }
  }

  /** Accounts that own no entry replay to zero. */
  lemma {:induction false} ReplayOfStranger(ledger: seq<WalletTransaction>, u: UserId)
    requires forall i | 0 <= i < |ledger| :: ledger[i].user != u
    ensures Replay(ledger, u) == 0.0
  {
    if ledger != [] {
      ReplayOfStranger(ledger[..|ledger| - 1], u);
    }
  }

  /** Cases that no entry references count zero entries of every kind. */
  lemma {:induction false} CountOfUnreferenced(ledger: seq<WalletTransaction>, kind: TxType, id: CaseId)
    requires forall i | 0 <= i < |ledger| :: ledger[i].rescueRequest != Some(id)
    ensures CountFor(ledger, kind, id) == 0
  {
    if ledger != [] {
      CountOfUnreferenced(ledger[..|ledger| - 1], kind, id);
    }
  }

  /**
   * In a chained ledger, the latest entry of an account records exactly the
   * balance the whole ledger replays to for that account.
   */
  lemma {:induction false} LatestEntryShowsBalance(ledger: seq<WalletTransaction>, i: nat)
    requires Chained(ledger)
    requires i < |ledger|
    requires forall j | i < j < |ledger| :: ledger[j].user != ledger[i].user
    ensures ledger[i].balanceAfter == Replay(ledger, ledger[i].user)
  {
    if i < |ledger| - 1 {
      var p := ledger[..|ledger| - 1];
      assert Chained(p) by {
        forall k | 0 <= k < |p| ensures p[k].balanceAfter == Replay(p[..k + 1], p[k].user) {
          assert p[..k + 1] == ledger[..k + 1];
        }
      }
      LatestEntryShowsBalance(p, i);
    } else {
      assert ledger[..i + 1] == ledger;
    }
  }
}
