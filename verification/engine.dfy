/** The transaction engine: validation of a requested movement, the
    PENDING record, the balance mutation and its COMPLETED or FAILED outcome,
    retries, and the ownership-filtered reads of movements.
 */
module Engine {
  import opened Results
  import opened Ledger
  import opened Repository
  import opened Invariant

  /** A requested movement; `amount` is in cents. */
  datatype Request = Request(kind: Kind, fromId: Option<AccountId>, toId: Option<AccountId>, amount: int)

  /** The accounts a movement resolved to: debited and credited side. */
  datatype Sides = Sides(from: Option<AccountId>, to: Option<AccountId>)

  /** The outcome of the balance mutation: the new accounts, or the
      condition that turns the movement FAILED. */
  datatype Mutation = Applied(accounts: map<AccountId, Account>) | InsufficientFunds | LockConflict

  /** A successful create or retry: the new store and the final record. */
  datatype Step = Step(bank: Bank, movement: Movement)

  /** The request lacks a side its kind needs, or transfers to itself. */
  predicate Malformed(req: Request) {
    match req.kind
    case Transfer => req.fromId.None? || req.toId.None? || req.fromId == req.toId
    case Deposit => req.toId.None?
    case Withdrawal => req.fromId.None?
  }

  /** The account whose ownership is checked: the debited one for a transfer
      or withdrawal, the credited one for a deposit. */
  function GuardedId(req: Request): AccountId
    requires !Malformed(req)
  {
    if req.kind == Deposit then req.toId.value else req.fromId.value
  }

  /** The caller may act on the account. */
  predicate MayUse(b: Bank, c: Caller, a: AccountId) {
    c.isAdmin || OwnsAccount(b, a, c.username)
  }

  /** Structural validation, account resolution and the ownership check of
      `createTransaction`, in the order the service performs them. A deposit
      ignores the request's `fromId` and a withdrawal its `toId`. */
  function Validate(b: Bank, c: Caller, req: Request): (r: Result<Sides>)
    ensures r == Err(InvalidRequest) <==> Malformed(req)
    ensures !Malformed(req) ==>
      (r == Err(AccessDenied) <==> GuardedId(req) in b.accounts && !MayUse(b, c, GuardedId(req)))
    ensures !Malformed(req) ==>
      (r == Err(NotFound) <==>
        GuardedId(req) !in b.accounts
        || (MayUse(b, c, GuardedId(req)) && req.kind == Transfer && req.toId.value !in b.accounts))
    ensures r.Err? ==> r.error in {InvalidRequest, NotFound, AccessDenied}
    ensures r.Ok? ==> SidesFit(req.kind, r.value.from, r.value.to)
    ensures r.Ok? ==> SideResolves(b, r.value.from) && SideResolves(b, r.value.to)
    ensures r.Ok? ==> r.value.from == (if req.kind == Deposit then None else req.fromId)
    ensures r.Ok? ==> r.value.to == (if req.kind == Withdrawal then None else req.toId)
  {
    match req.kind
    case Transfer =>
      if req.fromId.None? || req.toId.None? then Err(InvalidRequest)
      else if req.fromId.value == req.toId.value then Err(InvalidRequest)
      else
        var _ :- GuardAccount(b, c, req.fromId.value);
        if req.toId.value !in b.accounts then Err(NotFound)
        else Ok(Sides(req.fromId, req.toId))
    case Deposit =>
      if req.toId.None? then Err(InvalidRequest)
      else
        var _ :- GuardAccount(b, c, req.toId.value);
        Ok(Sides(None, req.toId))
    case Withdrawal =>
      if req.fromId.None? then Err(InvalidRequest)
      else
        var _ :- GuardAccount(b, c, req.fromId.value);
        Ok(Sides(req.fromId, None))
  }

  /** How a completed movement changes account `a`: its credits minus its debits. */
  function Delta(s: Sides, amount: int, a: AccountId): int {
    (if s.to == Some(a) then amount else 0) - (if s.from == Some(a) then amount else 0)
  }

  /** `executeBalanceUpdate`: a transfer or withdrawal needs the debited
      balance to cover the amount (equality allowed); a deposit credits
      unconditionally. `conflict` says whether the versioned write collides
      with a concurrent one, which leaves every balance as it was. */
  function ApplyBalance(accounts: map<AccountId, Account>, kind: Kind, s: Sides, amount: int, conflict: bool): (r: Mutation)
    requires SidesFit(kind, s.from, s.to)
    requires s.from.Some? ==> s.from.value in accounts
    requires s.to.Some? ==> s.to.value in accounts
    ensures r.InsufficientFunds? <==> kind != Deposit && accounts[s.from.value].balance < amount
    ensures r.LockConflict? <==> !r.InsufficientFunds? && conflict
    ensures r.Applied? ==> r.accounts.Keys == accounts.Keys
    ensures r.Applied? ==> forall a :: a in accounts ==>
      r.accounts[a] == accounts[a].(balance := accounts[a].balance + Delta(s, amount, a))
  {
    match kind
    case Transfer =>
      var f := s.from.value;
      var t := s.to.value;
      if accounts[f].balance < amount then InsufficientFunds
      else if conflict then LockConflict
      else
        var debited := accounts[f := accounts[f].(balance := accounts[f].balance - amount)];
        Applied(debited[t := debited[t].(balance := debited[t].balance + amount)])
    case Deposit =>
      var t := s.to.value;
      if conflict then LockConflict
      else Applied(accounts[t := accounts[t].(balance := accounts[t].balance + amount)])
    case Withdrawal =>
      var f := s.from.value;
      if accounts[f].balance < amount then InsufficientFunds
      else if conflict then LockConflict
      else Applied(accounts[f := accounts[f].(balance := accounts[f].balance - amount)])
  }

  /** A successful transfer moves money between its two accounts without
      creating or destroying any. */
  lemma TransferConservesMoney(accounts: map<AccountId, Account>, s: Sides, amount: int, conflict: bool)
    requires SidesFit(Transfer, s.from, s.to)
    requires s.from.value in accounts && s.to.value in accounts
    requires ApplyBalance(accounts, Transfer, s, amount, conflict).Applied?
    ensures var r := ApplyBalance(accounts, Transfer, s, amount, conflict).accounts;
      && r[s.from.value].balance == accounts[s.from.value].balance - amount
      && r[s.to.value].balance == accounts[s.to.value].balance + amount
      && r[s.from.value].balance + r[s.to.value].balance
         == accounts[s.from.value].balance + accounts[s.to.value].balance
  {
    var r := ApplyBalance(accounts, Transfer, s, amount, conflict).accounts;
    assert r[s.from.value] == accounts[s.from.value].(balance := accounts[s.from.value].balance + Delta(s, amount, s.from.value));
    assert r[s.to.value] == accounts[s.to.value].(balance := accounts[s.to.value].balance + Delta(s, amount, s.to.value));
  }

  /** The sides of a stored movement. */
  function SidesOf(m: Movement): Sides {
    Sides(m.from, m.to)
  }

  /** Movement `id` can be settled: it has the sides of its kind and they
      refer to stored accounts. */
  predicate Settleable(b: Bank, id: int) {
    && 0 <= id < |b.movements|
    && SidesFit(b.movements[id].kind, b.movements[id].from, b.movements[id].to)
    && SideResolves(b, b.movements[id].from)
    && SideResolves(b, b.movements[id].to)
  }

  /** The second half of create and retry: run the balance mutation for
      movement `id` and record COMPLETED when it applied, FAILED otherwise. */
  function Settle(b: Bank, id: int, conflict: bool): (r: Bank)
    requires Settleable(b, id)
    ensures r.users == b.users && r.nextUserId == b.nextUserId && r.nextAccountId == b.nextAccountId
    ensures r.accounts.Keys == b.accounts.Keys
    ensures |r.movements| == |b.movements|
    ensures r.movements == b.movements[id := b.movements[id].(status := r.movements[id].status)]
    ensures r.movements[id].status in {Completed, Failed}
    ensures r.movements[id].status == Completed <==>
      !conflict && (b.movements[id].kind == Deposit || b.accounts[b.movements[id].from.value].balance >= b.movements[id].amount)
    ensures forall a :: a in b.accounts ==>
      r.accounts[a] == b.accounts[a].(balance := b.accounts[a].balance
        + (if r.movements[id].status == Completed then Delta(SidesOf(b.movements[id]), b.movements[id].amount, a) else 0))
  {
    var m := b.movements[id];
    match ApplyBalance(b.accounts, m.kind, SidesOf(m), m.amount, conflict)
    case Applied(accounts) =>
      b.(accounts := accounts, movements := b.movements[id := m.(status := Completed)])
    case _ =>
      assert forall a :: a in b.accounts ==> b.accounts[a] == b.accounts[a].(balance := b.accounts[a].balance + 0);
      b.(movements := b.movements[id := m.(status := Failed)])
  }

  /** For a movement with the sides of its kind, the change it makes to an
      account is the amount the net-effect queries sum for it. */
  lemma DeltaIsSigned(m: Movement, a: AccountId)
    requires SidesFit(m.kind, m.from, m.to)
    ensures Delta(SidesOf(m), m.amount, a) == (if Touches(m, a) then Signed(m, a) else 0)
  {
  }

  /** The central law of the engine: settling a movement changes an
      account's balance exactly when the movement ends COMPLETED and touches
      that account, and then by the movement's signed amount. */
  lemma BalanceChangesIffCompleted(b: Bank, id: int, conflict: bool, a: AccountId)
    requires Settleable(b, id) && b.movements[id].amount >= 1
    requires a in b.accounts
    ensures var r := Settle(b, id, conflict);
      && (r.accounts[a].balance != b.accounts[a].balance
          <==> r.movements[id].status == Completed && Touches(b.movements[id], a))
      && (r.movements[id].status == Completed ==>
          r.accounts[a].balance == b.accounts[a].balance + Contribution(r.movements[id], a, All))
  {
    var m := b.movements[id];
    DeltaIsSigned(m, a);
    var r := Settle(b, id, conflict);
    assert r.movements[id] == m.(status := r.movements[id].status);
  }

  /** `createTransaction`: validate, record a PENDING movement created at
      `now`, then settle it. Every validation failure persists nothing; once
      validation passes exactly one movement is added, and insufficient funds
      or a lock conflict end it FAILED instead of raising an error. */
  function CreateTransaction(b: Bank, c: Caller, req: Request, now: int, conflict: bool): (r: Result<Step>)
    requires req.amount >= 1
    ensures r.Ok? <==> Validate(b, c, req).Ok?
    ensures r.Err? ==> Validate(b, c, req) == Err(r.error)
    ensures r.Ok? ==>
      && |r.value.bank.movements| == |b.movements| + 1
      && r.value.bank.movements[..|b.movements|] == b.movements
      && r.value.bank.movements[|b.movements|] == r.value.movement
    ensures r.Ok? ==>
      var m := r.value.movement;
      && m.id == |b.movements| && m.kind == req.kind && m.amount == req.amount && m.createdAt == now
      && m.from == (if req.kind == Deposit then None else req.fromId)
      && m.to == (if req.kind == Withdrawal then None else req.toId)
      && m.status in {Completed, Failed}
    ensures r.Ok? ==>
      (r.value.movement.status == Completed <==>
        !conflict && (req.kind == Deposit || b.accounts[req.fromId.value].balance >= req.amount))
    ensures r.Ok? ==>
      && r.value.bank.users == b.users && r.value.bank.accounts.Keys == b.accounts.Keys
      && r.value.bank.nextUserId == b.nextUserId && r.value.bank.nextAccountId == b.nextAccountId
    ensures r.Ok? ==> forall a :: a in b.accounts ==>
      r.value.bank.accounts[a]
        == b.accounts[a].(balance := b.accounts[a].balance + Contribution(r.value.movement, a, All))
    ensures r.Ok? ==> forall a :: a in b.accounts ==>
      ((r.value.bank.accounts[a].balance != b.accounts[a].balance)
        <==> r.value.movement.status == Completed && Touches(r.value.movement, a))
  {
    var sides :- Validate(b, c, req);
    var id := |b.movements|;
    var pending := Movement(id, req.kind, sides.from, sides.to, req.amount, Pending, now);
    var b1 := b.(movements := b.movements + [pending]);
    var b2 := Settle(b1, id, conflict);
    assert b2.movements[..id] == b.movements;
    assert forall a :: a in b.accounts ==>
      ((b2.accounts[a].balance != b.accounts[a].balance)
        <==> b2.movements[id].status == Completed && Touches(b2.movements[id], a)) by {
      forall a | a in b.accounts
        ensures (b2.accounts[a].balance != b.accounts[a].balance)
            <==> b2.movements[id].status == Completed && Touches(b2.movements[id], a)
      {
        BalanceChangesIffCompleted(b1, id, conflict, a);
      }
    }
    assert forall a :: a in b.accounts ==>
      b2.accounts[a] == b.accounts[a].(balance := b.accounts[a].balance + Contribution(b2.movements[id], a, All)) by {
      forall a | a in b.accounts
        ensures b2.accounts[a] == b.accounts[a].(balance := b.accounts[a].balance + Contribution(b2.movements[id], a, All))
      {
        DeltaIsSigned(pending, a);
      }
    }
    Ok(Step(b2, b2.movements[id]))
  }

  /** The part of `retryTransaction` after the access check, for movement
      `id`: a COMPLETED record is refused, then a side whose account is gone;
      otherwise the record is reset to PENDING and settled again against the
      current balances, every account moving by the record's contribution
      if it completes. */
  function Reattempt(b: Bank, id: int, conflict: bool): (r: Result<Step>)
    requires MovementsShaped(b)
    requires 0 <= id < |b.movements|
    ensures b.movements[id].status == Completed ==> r == Err(InvalidState)
    ensures b.movements[id].status != Completed ==>
      (r == Err(NotFound) <==> !SideResolves(b, b.movements[id].from) || !SideResolves(b, b.movements[id].to))
    ensures r.Ok? <==>
      && b.movements[id].status != Completed
      && SideResolves(b, b.movements[id].from) && SideResolves(b, b.movements[id].to)
    ensures r.Err? ==> r.error in {NotFound, InvalidState}
    ensures r.Ok? ==>
      && r.value.bank.movements == b.movements[id := r.value.movement]
      && r.value.movement == b.movements[id].(status := r.value.movement.status)
      && r.value.movement.status in {Completed, Failed}
    ensures r.Ok? ==>
      (r.value.movement.status == Completed <==>
        !conflict && (b.movements[id].kind == Deposit
                      || b.accounts[b.movements[id].from.value].balance >= b.movements[id].amount))
    ensures r.Ok? ==>
      && r.value.bank.users == b.users && r.value.bank.accounts.Keys == b.accounts.Keys
      && r.value.bank.nextUserId == b.nextUserId && r.value.bank.nextAccountId == b.nextAccountId
    ensures r.Ok? ==> forall a :: a in b.accounts ==>
      r.value.bank.accounts[a]
        == b.accounts[a].(balance := b.accounts[a].balance + Contribution(r.value.movement, a, All))
  {
    var m := b.movements[id];
    if m.status == Completed then Err(InvalidState)
    else if !SideResolves(b, m.from) || !SideResolves(b, m.to) then Err(NotFound)
    else
      var b1 := b.(movements := b.movements[id := m.(status := Pending)]);
      var b2 := Settle(b1, id, conflict);
      assert b2.movements == b.movements[id := b2.movements[id]];
      assert forall a :: a in b.accounts ==>
        b2.accounts[a] == b.accounts[a].(balance := b.accounts[a].balance + Contribution(b2.movements[id], a, All)) by {
        forall a | a in b.accounts
          ensures b2.accounts[a] == b.accounts[a].(balance := b.accounts[a].balance + Contribution(b2.movements[id], a, All))
        {
          DeltaIsSigned(b1.movements[id], a);
        }
      }
      Ok(Step(b2, b2.movements[id]))
  }

  /** `retryTransaction` as intended: not found, then access denied unless
      the caller is an admin or owns the side whose owner may create such a
      movement (see `MayRetry`), then the reattempt. */
  function RetryTransaction(b: Bank, c: Caller, id: int, conflict: bool): (r: Result<Step>)
    requires MovementsShaped(b)
    ensures !(0 <= id < |b.movements|) ==> r == Err(NotFound)
    ensures 0 <= id < |b.movements| && !MayRetry(b, c, b.movements[id]) ==> r == Err(AccessDenied)
    ensures 0 <= id < |b.movements| && MayRetry(b, c, b.movements[id]) && b.movements[id].status == Completed
      ==> r == Err(InvalidState)
    ensures 0 <= id < |b.movements| && MayRetry(b, c, b.movements[id]) && b.movements[id].status != Completed
      ==> (r == Err(NotFound) <==> !SideResolves(b, b.movements[id].from) || !SideResolves(b, b.movements[id].to))
    ensures r.Ok? <==>
      && 0 <= id < |b.movements| && MayRetry(b, c, b.movements[id]) && b.movements[id].status != Completed
      && SideResolves(b, b.movements[id].from) && SideResolves(b, b.movements[id].to)
    ensures r.Err? ==> r.error in {NotFound, AccessDenied, InvalidState}
    ensures r.Ok? ==>
      && 0 <= id < |b.movements|
      && r.value.bank.movements == b.movements[id := r.value.movement]
      && r.value.movement == b.movements[id].(status := r.value.movement.status)
      && r.value.movement.status in {Completed, Failed}
    ensures r.Ok? ==>
      (r.value.movement.status == Completed <==>
        !conflict && (b.movements[id].kind == Deposit
                      || b.accounts[b.movements[id].from.value].balance >= b.movements[id].amount))
    ensures r.Ok? ==>
      && r.value.bank.users == b.users && r.value.bank.accounts.Keys == b.accounts.Keys
      && r.value.bank.nextUserId == b.nextUserId && r.value.bank.nextAccountId == b.nextAccountId
    ensures r.Ok? ==> forall a :: a in b.accounts ==>
      r.value.bank.accounts[a]
        == b.accounts[a].(balance := b.accounts[a].balance + Contribution(r.value.movement, a, All))
    ensures r.Ok? ==> forall a :: a in b.accounts ==>
      ((r.value.bank.accounts[a].balance != b.accounts[a].balance)
        <==> r.value.movement.status == Completed && Touches(r.value.movement, a))
  {
    FindByIdAtPosition(b.movements, id);
    match FindById(b.movements, id)
    case None => Err(NotFound)
    case Some(m) =>
      if !MayRetry(b, c, m) then Err(AccessDenied)
      else
        var r := Reattempt(b, id, conflict);
        assert r.Ok? ==> forall a :: a in b.accounts ==>
          ((r.value.bank.accounts[a].balance != b.accounts[a].balance)
            <==> r.value.movement.status == Completed && Touches(r.value.movement, a)) by {
          if r.Ok? {
            forall a | a in b.accounts
              ensures (r.value.bank.accounts[a].balance != b.accounts[a].balance)
                  <==> r.value.movement.status == Completed && Touches(r.value.movement, a)
            {
              assert r.value.movement.amount >= 1;
            }
          }
        }
        r
  }

  /** `retryTransaction` as written: the access check lets the owner of
      either side through, so the owner of the credited account of a
      transfer may re-run the debit of someone else's account. */
  function RetryTransactionAsWritten(b: Bank, c: Caller, id: int, conflict: bool): (r: Result<Step>)
    requires MovementsShaped(b)
    ensures !(0 <= id < |b.movements|) ==> r == Err(NotFound)
    ensures 0 <= id < |b.movements| ==>
      (r == Err(AccessDenied) <==> !MayViewMovement(b, c, b.movements[id]))
    ensures 0 <= id < |b.movements| && MayViewMovement(b, c, b.movements[id]) ==> r == Reattempt(b, id, conflict)
  {
    FindByIdAtPosition(b.movements, id);
    match FindById(b.movements, id)
    case None => Err(NotFound)
    case Some(m) => if !MayViewMovement(b, c, m) then Err(AccessDenied) else Reattempt(b, id, conflict)
  }

  /** The two access checks differ only in whom they admit: whoever the
      intended check admits, the check as written admits too, with the same
      result. The extra callers are the owners of the credited account of a
      transfer who do not own its debited account. */
  lemma RetryAsWrittenAdmitsMore(b: Bank, c: Caller, id: int, conflict: bool)
    requires MovementsShaped(b)
    ensures RetryTransaction(b, c, id, conflict) != Err(AccessDenied) ==>
      RetryTransactionAsWritten(b, c, id, conflict) == RetryTransaction(b, c, id, conflict)
    ensures 0 <= id < |b.movements| ==>
      var m := b.movements[id];
      ((RetryTransaction(b, c, id, conflict) == Err(AccessDenied)
        && RetryTransactionAsWritten(b, c, id, conflict) != Err(AccessDenied))
       <==> !c.isAdmin && m.kind != Deposit && !OwnsSide(b, m.from, c.username) && OwnsSide(b, m.to, c.username))
  {
  }

  /** `getTransactionById`: not found, then owner-of-either-side-or-admin.
      In a store whose keys are positions the record is the one at `id`. */
  function GetTransactionById(b: Bank, c: Caller, id: int): (r: Result<Movement>)
    ensures r == Err(NotFound) <==> forall i :: 0 <= i < |b.movements| ==> b.movements[i].id != id
    ensures r.Err? ==> r.error in {NotFound, AccessDenied}
    ensures r.Ok? ==> r.value in b.movements && r.value.id == id && MayViewMovement(b, c, r.value)
    ensures IdsArePositions(b.movements) ==>
      && (r.Ok? <==> 0 <= id < |b.movements| && MayViewMovement(b, c, b.movements[id]))
      && (r.Ok? ==> r.value == b.movements[id])
  {
    FindByIdAtPosition(b.movements, id);
    match FindById(b.movements, id)
    case None => Err(NotFound)
    case Some(m) => if MayViewMovement(b, c, m) then Ok(m) else Err(AccessDenied)
  }

  /** `getAllTransactions`: admins only. */
  function GetAllTransactions(b: Bank, c: Caller): (r: Result<seq<Movement>>)
    ensures r.Ok? <==> c.isAdmin
    ensures r.Err? ==> r.error == AccessDenied
    ensures r.Ok? ==> r.value == b.movements
  {
    if !c.isAdmin then Err(AccessDenied) else Ok(b.movements)
  }

  /** `getTransactionsByStatus`: the movements with that status that the
      caller may view. */
  function GetTransactionsByStatus(b: Bank, c: Caller, s: Status): (r: seq<Movement>)
    ensures forall m :: m in r <==> m in b.movements && m.status == s && MayViewMovement(b, c, m)
  {
    if c.isAdmin then FindByStatus(b.movements, s) else FindByStatusAndOwner(b, s, c.username)
  }

  /** `getTransactionsByFromAccountId`: the account guard, then the
      movements debiting the account. */
  function GetTransactionsByFromAccountId(b: Bank, c: Caller, a: AccountId): (r: Result<seq<Movement>>)
    ensures r.Err? ==> GuardAccount(b, c, a) == Err(r.error)
    ensures r.Ok? <==> a in b.accounts && MayUse(b, c, a)
    ensures r.Ok? ==> forall m :: m in r.value <==> m in b.movements && m.from == Some(a)
  {
    var _ :- GuardAccount(b, c, a);
    Ok(FindByFromAccountId(b.movements, a))
  }

  /** `getTransactionsByToAccountId`: the account guard, then the movements
      crediting the account. */
  function GetTransactionsByToAccountId(b: Bank, c: Caller, a: AccountId): (r: Result<seq<Movement>>)
    ensures r.Err? ==> GuardAccount(b, c, a) == Err(r.error)
    ensures r.Ok? <==> a in b.accounts && MayUse(b, c, a)
    ensures r.Ok? ==> forall m :: m in r.value <==> m in b.movements && m.to == Some(a)
  {
    var _ :- GuardAccount(b, c, a);
    Ok(FindByToAccountId(b.movements, a))
  }

  /** The invariant is kept by settling any movement that is not COMPLETED:
      a completed settlement changes each balance by exactly the movement's
      contribution to the net effect, and never debits below zero. */
  lemma SettlePreservesWf(b: Bank, id: int, conflict: bool)
    requires Wf(b)
    requires Settleable(b, id) && b.movements[id].status != Completed
    ensures Wf(Settle(b, id, conflict))
  {
    var r := Settle(b, id, conflict);
    var m := b.movements[id];
    assert WfMovement(b, id);
    forall i | 0 <= i < |r.movements| ensures WfMovement(r, i) {
      assert WfMovement(b, i);
    }
    forall a | a in r.accounts
      ensures r.accounts[a].balance == NetEffect(r.movements, a, All)
      ensures r.accounts[a].balance >= 0
    {
      SettleKeepsBalance(b, id, conflict, a);
    }
    assert UniqueNumbers(r.accounts) by {
      forall x, y | x in r.accounts && y in r.accounts && r.accounts[x].number == r.accounts[y].number
        ensures x == y
      {
        assert b.accounts[x].number == b.accounts[y].number;
      }
    }
  }

  /** One account's part of `SettlePreservesWf`: its new balance is the net
      effect of the updated history, and the debit never goes below zero. */
  lemma SettleKeepsBalance(b: Bank, id: int, conflict: bool, a: AccountId)
    requires Wf(b)
    requires Settleable(b, id) && b.movements[id].status != Completed
    requires a in b.accounts
    ensures var r := Settle(b, id, conflict);
      && r.accounts[a].balance == NetEffect(r.movements, a, All)
      && r.accounts[a].balance >= 0
  {
    var r := Settle(b, id, conflict);
    var m := b.movements[id];
    assert WfMovement(b, id);
    NetEffectUpdate(b.movements, id, r.movements[id], a, All);
    DeltaIsSigned(m, a);
    assert r.movements[id] == m.(status := r.movements[id].status);
    if r.movements[id].status == Completed && m.from == Some(a) {
      assert m.kind == Deposit || b.accounts[a].balance >= m.amount;
    }
  }

  /** `createTransaction` keeps the invariant. */
  lemma CreatePreservesWf(b: Bank, c: Caller, req: Request, now: int, conflict: bool)
    requires Wf(b) && req.amount >= 1
    requires CreateTransaction(b, c, req, now, conflict).Ok?
    ensures Wf(CreateTransaction(b, c, req, now, conflict).value.bank)
  {
    var sides := Validate(b, c, req).value;
    var id := |b.movements|;
    var pending := Movement(id, req.kind, sides.from, sides.to, req.amount, Pending, now);
    var b1 := b.(movements := b.movements + [pending]);
    forall i | 0 <= i < |b1.movements| ensures WfMovement(b1, i) {
      if i < id {
        assert WfMovement(b, i);
        assert b1.movements[i] == b.movements[i];
      }
    }
    forall a | a in b1.accounts ensures b1.accounts[a].balance == NetEffect(b1.movements, a, All) {
      NetEffectAppend(b.movements, pending, a, All);
    }
    SettlePreservesWf(b1, id, conflict);
  }

  /** Settling a movement again keeps the invariant: resetting a record
      that is not COMPLETED to PENDING changes no net effect, and settling it
      is `SettlePreservesWf`. */
  lemma ReattemptPreservesWf(b: Bank, id: int, conflict: bool)
    requires Wf(b)
    requires MovementsShaped(b)
    requires 0 <= id < |b.movements|
    requires Reattempt(b, id, conflict).Ok?
    ensures Wf(Reattempt(b, id, conflict).value.bank)
  {
    var m := b.movements[id];
    var b1 := b.(movements := b.movements[id := m.(status := Pending)]);
    forall i | 0 <= i < |b1.movements| ensures WfMovement(b1, i) {
      assert WfMovement(b, i);
    }
    forall a | a in b1.accounts ensures b1.accounts[a].balance == NetEffect(b1.movements, a, All) {
      UncompletedInvisible(b.movements, id, m.(status := Pending), a, All);
    }
    SettlePreservesWf(b1, id, conflict);
  }

  /** `retryTransaction` keeps the invariant. */
  lemma RetryPreservesWf(b: Bank, c: Caller, id: int, conflict: bool)
    requires Wf(b)
    requires MovementsShaped(b)
    requires RetryTransaction(b, c, id, conflict).Ok?
    ensures Wf(RetryTransaction(b, c, id, conflict).value.bank)
  {
    FindByIdAtPosition(b.movements, id);
    ReattemptPreservesWf(b, id, conflict);
  }

  /** The retry as written keeps the invariant too: the callers its wider
      access check admits run the same reattempt. */
  lemma RetryAsWrittenPreservesWf(b: Bank, c: Caller, id: int, conflict: bool)
    requires Wf(b)
    requires MovementsShaped(b)
    requires RetryTransactionAsWritten(b, c, id, conflict).Ok?
    ensures Wf(RetryTransactionAsWritten(b, c, id, conflict).value.bank)
  {
    ReattemptPreservesWf(b, id, conflict);
  }

  /** Every well-formed store satisfies the precondition of a retry. */
  lemma WfShaped(b: Bank)
    requires Wf(b)
    ensures MovementsShaped(b)
  {
    forall i | 0 <= i < |b.movements|
      ensures b.movements[i].id == i
      ensures b.movements[i].amount >= 1 && SidesFit(b.movements[i].kind, b.movements[i].from, b.movements[i].to)
    {
      assert WfMovement(b, i);
    }
  }
}
