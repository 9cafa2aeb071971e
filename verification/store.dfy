/**
 * The three collections the lifecycle engine reads and writes: the cases, the
 * accounts and the append-only wallet ledger. A case or account id is its
 * position in its collection; nothing in the engine deletes either.
 */
module Store {
  import opened Wrappers
  import opened RescueRequestModel
  import opened UserModel
  import opened WalletTransactionModel

  /** Ledger entries refer to existing accounts and cases, and a case's entries belong to its reporter. */
  ghost predicate EntriesLinked(cases: seq<RescueRequest>, users: seq<Account>, ledger: seq<WalletTransaction>) {
    forall i | 0 <= i < |ledger| ::
      && ValidTransaction(ledger[i])
      && ledger[i].user < |users|
      && (ledger[i].rescueRequest.Some? ==>
            ledger[i].rescueRequest.value < |cases| && cases[ledger[i].rescueRequest.value].user == ledger[i].user)
  }

  /**
   * The deposit flags of case `id` agree with the ledger: one debit entry
   * exactly when the deposit was taken, one refund entry exactly when it was
   * given back, and never a refund without a debit.
   */
  ghost predicate DepositAccounted(c: RescueRequest, id: CaseId, ledger: seq<WalletTransaction>) {
    && (c.depositRefunded ==> c.depositDeducted)
    && CountFor(ledger, Debit, id) == (if c.depositDeducted then 1 else 0)
    && CountFor(ledger, Refund, id) == (if c.depositRefunded then 1 else 0)
  }

  /**
   * The store invariant: no balance is negative, every balance is what the
   * ledger replays to, every entry's `balanceAfter` is its owner's balance at
   * that point, and the deposit flags match the ledger.
   */
  ghost predicate Consistent(cases: seq<RescueRequest>, users: seq<Account>, ledger: seq<WalletTransaction>) {
    && (forall u | 0 <= u < |users| :: ValidAccount(users[u]))
    && (forall u | 0 <= u < |users| :: Replay(ledger, u) == users[u].walletBalance)
    && EntriesLinked(cases, users, ledger)
    && Chained(ledger)
    && (forall id | 0 <= id < |cases| :: DepositAccounted(cases[id], id, ledger))
  }

  class Db {
    var cases: seq<RescueRequest>
    var users: seq<Account>
    var ledger: seq<WalletTransaction>

    ghost predicate Valid()
      reads this
    {
      Consistent(cases, users, ledger)
    }

    /** A store holding the given accounts, every one with an empty wallet, and no cases. */
    constructor (accounts: seq<Account>)
      requires forall u | 0 <= u < |accounts| :: accounts[u].walletBalance == 0.0
      ensures Valid()
      ensures cases == [] && users == accounts && ledger == []
    {
      cases := [];
      users := accounts;
      ledger := [];
    }
  }

  /** Changing a case in anything but its reporter and deposit flags keeps the store consistent. */
  lemma UpdateCase(cases: seq<RescueRequest>, users: seq<Account>, ledger: seq<WalletTransaction>,
                   id: CaseId, c: RescueRequest)
    requires Consistent(cases, users, ledger)
    requires id < |cases|
    requires c.user == cases[id].user
    requires c.depositDeducted == cases[id].depositDeducted && c.depositRefunded == cases[id].depositRefunded
    ensures Consistent(cases[id := c], users, ledger)
  {
    var cs := cases[id := c];
    forall k | 0 <= k < |cs| ensures DepositAccounted(cs[k], k, ledger) {
      assert DepositAccounted(cases[k], k, ledger);
    }
  }

  /** Changing an account in anything but its balance keeps the store consistent. */
  lemma UpdateAccount(cases: seq<RescueRequest>, users: seq<Account>, ledger: seq<WalletTransaction>,
                      u: UserId, a: Account)
    requires Consistent(cases, users, ledger)
    requires u < |users|
    requires a.walletBalance == users[u].walletBalance
    ensures Consistent(cases, users[u := a], ledger)
  {
    var us := users[u := a];
    forall v | 0 <= v < |us| ensures ValidAccount(us[v]) && Replay(ledger, v) == us[v].walletBalance {
      assert ValidAccount(users[v]);
    }
  }

  /**
   * Appending entry `t` while setting its owner's balance to the new replayed
   * balance, which must not be negative, keeps the store consistent provided
   * the cases' deposit flags account for the entry.
   */
  lemma AppendLedgerEntry(cases: seq<RescueRequest>, users: seq<Account>, ledger: seq<WalletTransaction>,
                    cases': seq<RescueRequest>, t: WalletTransaction)
    requires Consistent(cases, users, ledger)
    requires ValidTransaction(t) && t.user < |users|
    requires t.balanceAfter == users[t.user].walletBalance + Signed(t) && t.balanceAfter >= 0.0
    requires |cases'| >= |cases|
    requires forall id | 0 <= id < |cases| :: cases'[id].user == cases[id].user
    requires t.rescueRequest.Some? ==> t.rescueRequest.value < |cases'| && cases'[t.rescueRequest.value].user == t.user
    requires forall id | 0 <= id < |cases'| ::
               DepositAccounted(cases'[id], id, ledger + [t])
    ensures Consistent(cases', users[t.user := users[t.user].(walletBalance := t.balanceAfter)], ledger + [t])
  {
    WalletTransactionModel.AppendEntry(ledger, t);
    var us := users[t.user := users[t.user].(walletBalance := t.balanceAfter)];
    var l := ledger + [t];
    forall v | 0 <= v < |us| ensures ValidAccount(us[v]) && Replay(l, v) == us[v].walletBalance {
      assert ValidAccount(users[v]);
    }
    forall i | 0 <= i < |l|
      ensures l[i].rescueRequest.Some? ==> l[i].rescueRequest.value < |cases'| && cases'[l[i].rescueRequest.value].user == l[i].user
    {
      if i < |ledger| {
        assert l[i] == ledger[i];
      }
    }
  }

  /** No ledger entry references the id the next new case will take. */
  lemma NextCaseUnreferenced(cases: seq<RescueRequest>, users: seq<Account>, ledger: seq<WalletTransaction>)
    requires Consistent(cases, users, ledger)
    ensures CountFor(ledger, Debit, |cases|) == 0 && CountFor(ledger, Refund, |cases|) == 0
  {
    CountOfUnreferenced(ledger, Debit, |cases|);
    CountOfUnreferenced(ledger, Refund, |cases|);
  }
}
