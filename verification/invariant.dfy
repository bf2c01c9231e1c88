/** What every reachable state of the ledger satisfies: the database's
    constraints (identity counters, unique columns, foreign keys), the shape
    of each movement, and the balance invariant, under which an account's
    balance is the net effect of all COMPLETED movements touching it.
 */
module Invariant {
  import opened Results
  import opened Ledger
  import opened Repository

  /** The sides each kind of movement carries: a transfer both, distinct; a
      deposit only the credited one; a withdrawal only the debited one. */
  predicate SidesFit(kind: Kind, from: Option<AccountId>, to: Option<AccountId>) {
    match kind
    case Transfer => from.Some? && to.Some? && from.value != to.value
    case Deposit => from.None? && to.Some?
    case Withdrawal => from.Some? && to.None?
  }

  /** A non-null side refers to a stored account (a foreign key). */
  predicate SideResolves(b: Bank, side: Option<AccountId>) {
    side.Some? ==> side.value in b.accounts
  }

  /** Movement `i` carries identity `i`, a positive amount, the sides of its
      kind, and sides that refer to stored accounts. */
  predicate WfMovement(b: Bank, i: int)
    requires 0 <= i < |b.movements|
  {
    var m := b.movements[i];
    && m.id == i
    && m.amount >= 1
    && SidesFit(m.kind, m.from, m.to)
    && SideResolves(b, m.from)
    && SideResolves(b, m.to)
  }

  /** Every stored movement has the shape `retryTransaction` relies on. */
  predicate MovementsShaped(b: Bank) {
    && IdsArePositions(b.movements)
    && forall i :: 0 <= i < |b.movements| ==>
      b.movements[i].amount >= 1 && SidesFit(b.movements[i].kind, b.movements[i].from, b.movements[i].to)
  }

  /** The unique `username` column. */
  predicate UniqueUsernames(users: map<UserId, User>) {
    forall u, v :: u in users && v in users && users[u].username == users[v].username ==> u == v
  }

  /** The unique `account_number` column. */
  predicate UniqueNumbers(accounts: map<AccountId, Account>) {
    forall a, c :: a in accounts && c in accounts && accounts[a].number == accounts[c].number ==> a == c
  }

  /** Each balance is the net effect of every COMPLETED movement touching it. */
  predicate BalancesAgree(b: Bank) {
    forall a :: a in b.accounts ==> b.accounts[a].balance == NetEffect(b.movements, a, All)
  }

  predicate BalancesNonNegative(b: Bank) {
    forall a :: a in b.accounts ==> b.accounts[a].balance >= 0
  }

  /** The invariant of the ledger. */
  predicate Wf(b: Bank) {
    && (forall u :: u in b.users ==> u < b.nextUserId)
    && (forall a :: a in b.accounts ==> a < b.nextAccountId)
    && (forall a :: a in b.accounts ==> b.accounts[a].userId in b.users)
    && UniqueUsernames(b.users)
    && UniqueNumbers(b.accounts)
    && (forall i :: 0 <= i < |b.movements| ==> WfMovement(b, i))
    && BalancesAgree(b)
    && BalancesNonNegative(b)
  }

  /** The empty store; identities start at 1. */
  const Empty: Bank := Bank(map[], map[], [], 1, 1)

  lemma EmptyWf()
    ensures Wf(Empty)
  {
  }
}
