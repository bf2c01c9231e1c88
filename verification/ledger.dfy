/** The persistent state of the ledger service (users, accounts and
    transaction records, with the database's identity counters) and the
    owner-or-admin guard every service applies before it acts.
 */
module Ledger {
  import opened Results

  type UserId = int
  type AccountId = int

  /** A user's role; new users get `UserRole`. */
  datatype Role = UserRole | AdminRole

  /** A stored user. `password` holds the encoded password. */
  datatype User = User(username: string, password: string, email: Option<string>, role: Role)

  /** A stored account: its public number, its owner and its balance in cents. */
  datatype Account = Account(number: string, userId: UserId, balance: int)

  datatype Kind = Deposit | Withdrawal | Transfer

  datatype Status = Pending | Completed | Failed

  /** A transaction record ("movement"). `from` is the debited account and
      `to` the credited one; `amount` is in cents and `createdAt` in seconds. */
  datatype Movement = Movement(
    id: int,
    kind: Kind,
    from: Option<AccountId>,
    to: Option<AccountId>,
    amount: int,
    status: Status,
    createdAt: int)

  /** The whole store. Movement `i` is `movements[i]`; the next user and
      account get the identities `nextUserId` and `nextAccountId`. */
  datatype Bank = Bank(
    users: map<UserId, User>,
    accounts: map<AccountId, Account>,
    movements: seq<Movement>,
    nextUserId: UserId,
    nextAccountId: AccountId)

  /** The authenticated caller, in place of the ambient security context. */
  datatype Caller = Caller(username: string, isAdmin: bool)

  const AdminAuthority: string := "ROLE_ADMIN"

  function RoleName(r: Role): string {
    match r
    case UserRole => "USER"
    case AdminRole => "ADMIN"
  }

  /** The single authority a user is granted: `"ROLE_"` and the role's name. */
  function Authorities(u: User): seq<string> {
    ["ROLE_" + RoleName(u.role)]
  }

  /** The caller a signed-in user becomes: admin exactly when one of the
      granted authorities is `"ROLE_ADMIN"`. */
  function CallerOf(u: User): (c: Caller)
    ensures c.username == u.username
    ensures c.isAdmin <==> u.role == AdminRole
  {
    assert "ROLE_" + "ADMIN" == AdminAuthority;
    assert ("ROLE_" + "USER")[5] != AdminAuthority[5];
    Caller(u.username, AdminAuthority in Authorities(u))
  }

  /** Some stored user has that username (`existsByUsername`). */
  predicate UsernameTaken(users: map<UserId, User>, username: string) {
    exists u :: u in users && users[u].username == username
  }

  /** The account exists and its owner's username is `username`. */
  predicate OwnsAccount(b: Bank, a: AccountId, username: string) {
    && a in b.accounts
    && b.accounts[a].userId in b.users
    && b.users[b.accounts[a].userId].username == username
  }

  /** A nullable account reference that the named user owns. */
  predicate OwnsSide(b: Bank, side: Option<AccountId>, username: string) {
    side.Some? && OwnsAccount(b, side.value, username)
  }

  /** Admins see every movement; anyone else only those with a side they own. */
  predicate MayViewMovement(b: Bank, c: Caller, m: Movement) {
    c.isAdmin || OwnsSide(b, m.from, c.username) || OwnsSide(b, m.to, c.username)
  }

  /** The caller may re-run a movement: an admin, or the owner of the side
      whose owner alone may create such a movement, the credited account of
      a deposit and the debited account otherwise. */
  predicate MayRetry(b: Bank, c: Caller, m: Movement) {
    c.isAdmin || (if m.kind == Deposit then OwnsSide(b, m.to, c.username) else OwnsSide(b, m.from, c.username))
  }

  /** The account guard of the services: a missing account is reported
      first, then a caller that is neither an admin nor the owner. */
  function GuardAccount(b: Bank, c: Caller, a: AccountId): (r: Result<Account>)
    ensures r == Err(NotFound) <==> a !in b.accounts
    ensures r == Err(AccessDenied) <==> a in b.accounts && !c.isAdmin && !OwnsAccount(b, a, c.username)
    ensures r.Ok? <==> a in b.accounts && (c.isAdmin || OwnsAccount(b, a, c.username))
    ensures r.Ok? ==> r.value == b.accounts[a]
  {
    if a !in b.accounts then Err(NotFound)
    else if !c.isAdmin && !OwnsAccount(b, a, c.username) then Err(AccessDenied)
    else Ok(b.accounts[a])
  }
}
