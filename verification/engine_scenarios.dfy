/** Concrete runs of the transaction engine over a two-account store. */
module EngineScenarios {
  import opened Results
  import opened Ledger
  import opened Repository
  import opened Invariant
  import opened Engine

  /** Alice owns account 1, funded with a completed deposit of 500.00;
      Bob owns the empty account 2. */
  const Start: Bank := Bank(
    map[1 := User("alice", "h1", None, UserRole), 2 := User("bob", "h2", None, UserRole)],
    map[1 := Account("0xa", 1, 50000), 2 := Account("0xb", 2, 0)],
    [Movement(0, Deposit, None, Some(1), 50000, Completed, 1)], 3, 3)

  const Alice: Caller := Caller("alice", false)
  const Bob: Caller := Caller("bob", false)

  /** A transfer far beyond the balance is recorded FAILED and moves nothing;
      after a deposit funds the account, retrying the same record completes
      it and the recipient receives the full amount. */
  lemma RetryAfterFunding()
    ensures var r1 := CreateTransaction(Start, Alice, Request(Transfer, Some(1), Some(2), 999900), 10, false);
      && r1.Ok?
      && r1.value.movement.status == Failed
      && r1.value.bank.accounts == Start.accounts
      && var r2 := CreateTransaction(r1.value.bank, Alice, Request(Deposit, None, Some(1), 1000000), 20, false);
      && r2.Ok?
      && r2.value.movement.status == Completed
      && MovementsShaped(r2.value.bank)
      && var r3 := RetryTransaction(r2.value.bank, Alice, 1, false);
      && r3.Ok?
      && r3.value.movement.status == Completed
      && r3.value.bank.accounts[2].balance == 999900
      && r3.value.bank.accounts[1].balance == 50100
  {
    var r1 := CreateTransaction(Start, Alice, Request(Transfer, Some(1), Some(2), 999900), 10, false);
    assert OwnsAccount(Start, 1, "alice");
    assert r1.Ok?;
    var b1 := r1.value.bank;
    assert b1.accounts == Start.accounts;
    var r2 := CreateTransaction(b1, Alice, Request(Deposit, None, Some(1), 1000000), 20, false);
    assert OwnsAccount(b1, 1, "alice");
    assert r2.Ok?;
    var b2 := r2.value.bank;
    assert b2.accounts[1].balance == 1050000;
    assert b2.accounts[2].balance == 0;
    assert b2.movements[1] == b1.movements[1];
    assert Wf(b2) by {
      StartWf();
      CreatePreservesWf(Start, Alice, Request(Transfer, Some(1), Some(2), 999900), 10, false);
      CreatePreservesWf(b1, Alice, Request(Deposit, None, Some(1), 1000000), 20, false);
    }
    WfShaped(b2);
    var r3 := RetryTransaction(b2, Alice, 1, false);
    assert MayRetry(b2, Alice, b2.movements[1]);
  }

  /** The transfer of the retry-permission test: Alice's unaffordable
      transfer to Bob is recorded FAILED. As written, Bob, who owns only the
      credited account, may retry it and so re-run the debit of Alice's
      account; the intended check denies him. */
  lemma RecipientRetriesTransfer()
    ensures var r1 := CreateTransaction(Start, Alice, Request(Transfer, Some(1), Some(2), 999900), 10, false);
      && r1.Ok?
      && r1.value.movement.status == Failed
      && MovementsShaped(r1.value.bank)
      && RetryTransactionAsWritten(r1.value.bank, Bob, 1, false).Ok?
      && RetryTransaction(r1.value.bank, Bob, 1, false) == Err(AccessDenied)
  {
    var r1 := CreateTransaction(Start, Alice, Request(Transfer, Some(1), Some(2), 999900), 10, false);
    assert OwnsAccount(Start, 1, "alice");
    assert r1.Ok?;
    var b1 := r1.value.bank;
    assert Wf(b1) by {
      StartWf();
      CreatePreservesWf(Start, Alice, Request(Transfer, Some(1), Some(2), 999900), 10, false);
    }
    WfShaped(b1);
    assert b1.accounts == Start.accounts;
    assert OwnsAccount(b1, 2, "bob") && !OwnsAccount(b1, 1, "bob");
    assert MayViewMovement(b1, Bob, b1.movements[1]) && !MayRetry(b1, Bob, b1.movements[1]);
  }

  /** An account may be emptied exactly: a withdrawal of the whole balance
      completes, and the next withdrawal from the empty account fails
      without touching its balance. */
  lemma WithdrawToZeroThenFail()
    ensures var r1 := CreateTransaction(Start, Alice, Request(Withdrawal, Some(1), None, 50000), 10, false);
      && r1.Ok?
      && r1.value.movement.status == Completed
      && r1.value.bank.accounts[1].balance == 0
      && var r2 := CreateTransaction(r1.value.bank, Alice, Request(Withdrawal, Some(1), None, 1), 20, false);
      && r2.Ok?
      && r2.value.movement.status == Failed
      && r2.value.bank.accounts[1].balance == 0
  {
    assert OwnsAccount(Start, 1, "alice");
    var r1 := CreateTransaction(Start, Alice, Request(Withdrawal, Some(1), None, 50000), 10, false);
    assert OwnsAccount(r1.value.bank, 1, "alice");
  }

  /** A user may not spend from someone else's account, but may send to it;
      nothing is recorded for the refused request. */
  lemma OwnershipOfDebitedSide()
    ensures CreateTransaction(Start, Bob, Request(Transfer, Some(1), Some(2), 100), 10, false) == Err(AccessDenied)
    ensures CreateTransaction(Start, Bob, Request(Deposit, None, Some(1), 100), 10, false) == Err(AccessDenied)
    ensures CreateTransaction(Start, Alice, Request(Transfer, Some(1), Some(2), 100), 10, false).Ok?
  {
    assert !OwnsAccount(Start, 1, "bob");
    assert OwnsAccount(Start, 1, "alice");
  }

  /** The starting store is well formed: each balance is what its one
      deposit explains. */
  lemma StartWf()
    ensures Wf(Start)
  {
    StartOwners();
    StartBalancesAgree();
    StartMovementsWf();
    StartUnique();
  }

  lemma StartKeys()
    ensures Start.users.Keys == {1, 2} && Start.accounts.Keys == {1, 2}
  {
  }

  lemma StartOwners()
    ensures forall u :: u in Start.users ==> u < Start.nextUserId
    ensures forall a :: a in Start.accounts ==> a < Start.nextAccountId && Start.accounts[a].userId in Start.users
  {
    StartKeys();
  }

  lemma StartMovementsWf()
    ensures forall i :: 0 <= i < |Start.movements| ==> WfMovement(Start, i)
  {
    forall i | 0 <= i < |Start.movements| ensures WfMovement(Start, i) {
      assert i == 0;
    }
  }

  lemma StartUnique()
    ensures UniqueNumbers(Start.accounts) && UniqueUsernames(Start.users)
  {
    assert Start.accounts[1].number[2] != Start.accounts[2].number[2];
    assert Start.users[1].username[0] != Start.users[2].username[0];
  }

  lemma StartBalancesAgree()
    ensures BalancesAgree(Start) && BalancesNonNegative(Start)
  {
    StartKeys();
    forall a | a in Start.accounts
      ensures Start.accounts[a].balance == NetEffect(Start.movements, a, All)
      ensures Start.accounts[a].balance >= 0
    {
      assert a == 1 || a == 2;
      StartNetEffect(a);
    }
  }

  lemma StartNetEffect(a: AccountId)
    ensures NetEffect(Start.movements, a, All) == if a == 1 then 50000 else 0
  {
    var m := Start.movements[0];
    assert Start.movements == [] + [m];
    NetEffectAppend([], m, a, All);
  }

  /** Alice owns the account her opening deposit credited. The owner query
      lists that COMPLETED deposit for her; the query as written lists
      nothing at all, because the deposit has no debited side. */
  lemma OwnDepositHiddenAsWritten()
    ensures Start.movements[0] in GetTransactionsByStatus(Start, Alice, Completed)
    ensures FindByStatusAndOwnerAsWritten(Start, Completed, "alice") == []
  {
    assert OwnsAccount(Start, 1, "alice");
  }

}
