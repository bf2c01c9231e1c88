/** The account statement over a concrete history: one deposit before the
    range, a deposit and a withdrawal inside it, one deposit after it. */
module StatementScenarios {
  import opened Results
  import opened Ledger
  import opened Repository
  import opened Invariant
  import opened Accounts

  /** Epoch day numbers of the dates involved. */
  const Jan1: int := 20454
  const Jan15: int := 20468
  const Jan20: int := 20473
  const Jan25: int := 20478
  const Jan31: int := 20484
  const Feb1: int := 20485

  const PreRange: Movement := Movement(0, Deposit, None, Some(1), 50000, Completed, StartOfDay(Jan1) + 12 * 3600)
  const InDeposit: Movement := Movement(1, Deposit, None, Some(1), 20000, Completed, StartOfDay(Jan20) + 10 * 3600)
  const InWithdrawal: Movement := Movement(2, Withdrawal, Some(1), None, 5000, Completed, StartOfDay(Jan25) + 10 * 3600)
  const PostRange: Movement := Movement(3, Deposit, None, Some(1), 10000, Completed, StartOfDay(Feb1) + 10 * 3600)

  const History: seq<Movement> := [PreRange, InDeposit, InWithdrawal, PostRange]

  /** User A owns account 1, whose balance of 750.00 is its history. */
  const Store: Bank := Bank(
    map[1 := User("userA", "h", None, UserRole)],
    map[1 := Account("0xa", 1, 75000)],
    History, 2, 2)

  const UserA: Caller := Caller("userA", false)
  const UserB: Caller := Caller("userB", false)

  /** The net effect of the history over any window is the sum of what its
      four movements contribute. */
  lemma HistorySum(w: Window)
    ensures NetEffect(History, 1, w)
      == Contribution(PreRange, 1, w) + Contribution(InDeposit, 1, w)
       + Contribution(InWithdrawal, 1, w) + Contribution(PostRange, 1, w)
  {
    assert History == [PreRange, InDeposit, InWithdrawal] + [PostRange];
    assert [PreRange, InDeposit, InWithdrawal] == [PreRange, InDeposit] + [InWithdrawal];
    assert [PreRange, InDeposit] == [PreRange] + [InDeposit];
    assert [PreRange] == [] + [PreRange];
    NetEffectAppend([], PreRange, 1, w);
    NetEffectAppend([PreRange], InDeposit, 1, w);
    NetEffectAppend([PreRange, InDeposit], InWithdrawal, 1, w);
    NetEffectAppend([PreRange, InDeposit, InWithdrawal], PostRange, 1, w);
  }

  function Keep(m: Movement, w: Window): seq<Movement> {
    if Counts(m, 1, w) then [m] else []
  }

  /** The rows of the history a window selects, movement by movement. */
  lemma HistorySelect(w: Window)
    ensures Select(History, 1, w)
      == Keep(PreRange, w) + Keep(InDeposit, w) + Keep(InWithdrawal, w) + Keep(PostRange, w)
  {
    var h3 := [PreRange, InDeposit, InWithdrawal];
    var h2 := [PreRange, InDeposit];
    var h1 := [PreRange];
    assert History[..3] == h3 && h3[..2] == h2 && h2[..1] == h1 && h1[..0] == [];
    assert Select(h1, 1, w) == Keep(PreRange, w);
    assert Select(h2, 1, w) == Keep(PreRange, w) + Keep(InDeposit, w);
    assert Select(h3, 1, w) == Keep(PreRange, w) + Keep(InDeposit, w) + Keep(InWithdrawal, w);
  }

  /** The net effect of the history over every window the statements use. */
  lemma HistoryNetEffects()
    ensures NetEffect(History, 1, All) == 75000
    ensures NetEffect(History, 1, Before(StartOfDay(Jan15))) == 50000
    ensures NetEffect(History, 1, Before(StartOfDay(Jan31 + 1))) == 65000
    ensures NetEffect(History, 1, Before(StartOfDay(Jan1 - 365))) == 0
    ensures NetEffect(History, 1, Before(StartOfDay(Jan1 - 334))) == 0
  {
    HistorySum(All);
    HistorySum(Before(StartOfDay(Jan15)));
    HistorySum(Before(StartOfDay(Jan31 + 1)));
    HistorySum(Before(StartOfDay(Jan1 - 365)));
    HistorySum(Before(StartOfDay(Jan1 - 334)));
  }

  lemma StoreAgrees()
    ensures BalancesAgree(Store)
  {
    HistoryNetEffects();
    assert Store.accounts.Keys == {1};
  }

  /** From 2026-01-15 to 2026-01-31 the owner sees an opening balance of
      500.00, a closing balance of 650.00 and the two movements inside. */
  lemma JanuaryStatement()
    ensures var r := GetAccountStatement(Store, UserA, 1, Jan15, Jan31);
      && r.Ok?
      && r.value.opening == 50000 && r.value.closing == 65000
      && r.value.movements == [InDeposit, InWithdrawal]
  {
    assert OwnsAccount(Store, 1, "userA");
    StoreAgrees();
    HistoryNetEffects();
    JanuaryRows();
  }

  /** The rows listed for 15-31 January are the two movements inside. */
  lemma JanuaryRows()
    ensures FindStatementTransactions(History, 1, StartOfDay(Jan15), StartOfDay(Jan31 + 1)) == [InDeposit, InWithdrawal]
  {
    var w := Between(StartOfDay(Jan15), StartOfDay(Jan31 + 1));
    HistorySelect(w);
    assert Keep(PreRange, w) == [];
    assert Keep(InDeposit, w) == [InDeposit];
    assert Keep(InWithdrawal, w) == [InWithdrawal];
    assert Keep(PostRange, w) == [];
  }

  /** A range with no movement in or after it: opening and closing are both
      zero and nothing is listed. */
  lemma EmptyStatement()
    ensures var r := GetAccountStatement(Store, UserA, 1, Jan1 - 365, Jan1 - 335);
      && r.Ok?
      && r.value.opening == 0 && r.value.closing == 0
      && r.value.movements == []
  {
    assert OwnsAccount(Store, 1, "userA");
    StoreAgrees();
    HistoryNetEffects();
  }

  /** A reversed range is refused even for an account that does not exist;
      another user is denied; a missing account is not found. */
  lemma StatementErrors()
    ensures GetAccountStatement(Store, UserA, 99999, Feb1, Jan1) == Err(InvalidRequest)
    ensures GetAccountStatement(Store, UserB, 1, Jan15, Jan31) == Err(AccessDenied)
    ensures GetAccountStatement(Store, Caller("admin", true), 99999, Jan15, Jan31) == Err(NotFound)
  {
    assert !OwnsAccount(Store, 1, "userB") by {
      assert Store.users[1].username[4] != "userB"[4];
    }
  }
}
