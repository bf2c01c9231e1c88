/** The account service: account-number generation, account creation and
    deletion, the owner-or-admin guarded reads, and the account statement
    derived from the current balance and the net-effect queries.
 */
module Accounts {
  import opened Results
  import opened Ledger
  import opened Repository
  import opened Invariant

  const DigitChars: string := "0123456789"
  const LowerChars: string := "abcdefghijklmnopqrstuvwxyz"
  const UpperChars: string := "ABCDEFGHIJKLMNOPQRSTUVWXYZ"

  /** The alphabet account numbers are drawn from: digits, lower case,
      upper case, 62 characters in this order. */
  const Characters: string := DigitChars + LowerChars + UpperChars

  /** The length of an account number, `0x` included. */
  const AccountNumberLength: int := 42

  /** The character at position `i` of the alphabet, by its three ranges. */
  function CharAt(i: int): char
    requires 0 <= i < 62
  {
    if i < 10 then ('0' as int + i) as char
    else if i < 36 then ('a' as int + i - 10) as char
    else ('A' as int + i - 36) as char
  }

  /** The alphabet is the digits, then the lower-case, then the upper-case
      ASCII letters. */
  lemma CharactersSpelledOut()
    ensures |Characters| == 62
    ensures forall i :: 0 <= i < 62 ==> Characters[i] == CharAt(i)
  {
    RangeSpelledOut(DigitChars, 0);
    RangeSpelledOut(LowerChars, 10);
    RangeSpelledOut(UpperChars, 36);
    forall i | 0 <= i < 62 ensures Characters[i] == CharAt(i) {
      if i < 10 {
        assert Characters[i] == DigitChars[i];
      } else if i < 36 {
        assert Characters[i] == LowerChars[i - 10];
      } else {
        assert Characters[i] == UpperChars[i - 36];
      }
    }
  }

  /** Each of the three ranges is a run of consecutive characters. */
  lemma RangeSpelledOut(s: string, offset: int)
    requires (s, offset) in {(DigitChars, 0), (LowerChars, 10), (UpperChars, 36)}
    ensures forall i :: 0 <= i < |s| ==> 0 <= i + offset < 62 && s[i] == CharAt(i + offset)
  {
  }

  /** The position of an alphabet character. */
  function IndexOfChar(c: char): int {
    if '0' <= c <= '9' then c as int - '0' as int
    else if 'a' <= c <= 'z' then c as int - 'a' as int + 10
    else c as int - 'A' as int + 36
  }

  predicate InAlphabet(c: char) {
    ('0' <= c <= '9') || ('a' <= c <= 'z') || ('A' <= c <= 'Z')
  }

  /** One round of `SecureRandom.nextInt(62)` draws: the 40 alphabet indices
      of one candidate number. */
  predicate ValidDraw(d: seq<int>) {
    |d| == AccountNumberLength - 2 && forall i :: 0 <= i < |d| ==> 0 <= d[i] < 62
  }

  /** `0x` followed by 40 alphabet characters. */
  predicate WellFormedNumber(s: string) {
    && |s| == AccountNumberLength
    && s[0] == '0' && s[1] == 'x'
    && forall i :: 2 <= i < |s| ==> InAlphabet(s[i])
  }

  /** The number a round of draws spells: `0x`, then the character at each
      drawn index. */
  function Candidate(d: seq<int>): (r: string)
    requires ValidDraw(d)
    ensures WellFormedNumber(r)
    ensures forall i :: 0 <= i < |d| ==> r[i + 2] == Characters[d[i]]
  {
    CharactersSpelledOut();
    "0x" + seq(|d|, (i: int) requires 0 <= i < |d| => Characters[d[i]])
  }

  /** The draws a well-formed number was spelled from. */
  function DrawOf(s: string): (d: seq<int>)
    requires WellFormedNumber(s)
    ensures ValidDraw(d)
  {
    seq(|s| - 2, (i: int) requires 0 <= i < |s| - 2 => IndexOfChar(s[i + 2]))
  }

  /** Spelling a number and reading its draws back are inverse, in both
      directions: every well-formed number is the candidate of exactly one
      round of draws. */
  lemma CandidateRoundTrip(d: seq<int>, s: string)
    requires ValidDraw(d) && WellFormedNumber(s)
    ensures DrawOf(Candidate(d)) == d
    ensures Candidate(DrawOf(s)) == s
  {
    DrawOfCandidate(d);
    CandidateOfDrawOf(s);
  }

  lemma DrawOfCandidate(d: seq<int>)
    requires ValidDraw(d)
    ensures DrawOf(Candidate(d)) == d
  {
    CharactersSpelledOut();
    var c := Candidate(d);
    forall i | 0 <= i < |d| ensures DrawOf(c)[i] == d[i] {
      assert c[i + 2] == CharAt(d[i]);
    }
  }

  lemma CandidateOfDrawOf(s: string)
    requires WellFormedNumber(s)
    ensures Candidate(DrawOf(s)) == s
  {
    var e := DrawOf(s);
    var t := Candidate(e);
    assert |t| == |s|;
    forall i | 0 <= i < |s| ensures t[i] == s[i] {
      if i >= 2 {
        CandidateDigit(s, i);
      }
    }
  }

  /** One position of the round trip: the character read back from the draw
      of position `i` is the character that was there. */
  lemma CandidateDigit(s: string, i: int)
    requires WellFormedNumber(s) && 2 <= i < |s|
    ensures Candidate(DrawOf(s))[i] == s[i]
  {
    var e := DrawOf(s);
    assert e[i - 2] == IndexOfChar(s[i]);
    CharAtIndexOf(s[i]);
    CharactersSpelledOut();
    assert Candidate(e)[i] == Characters[e[i - 2]];
  }

  /** Every alphabet character is found again at its own position. */
  lemma CharAtIndexOf(c: char)
    requires InAlphabet(c)
    ensures 0 <= IndexOfChar(c) < 62 && CharAt(IndexOfChar(c)) == c
  {
  }

  /** Different draws give different numbers. */
  lemma CandidateInjective(d: seq<int>, e: seq<int>)
    requires ValidDraw(d) && ValidDraw(e) && Candidate(d) == Candidate(e)
    ensures d == e
  {
    var s := Candidate(d);
    CandidateRoundTrip(d, s);
    CandidateRoundTrip(e, s);
  }

  /** The account numbers already stored. */
  function NumbersInUse(accounts: map<AccountId, Account>): set<string> {
    set a | a in accounts :: accounts[a].number
  }

  /** The first round, from `k` on, whose number is not in use: the
      uniqueness loop of `generateAccountNumber`, which redraws while the
      number exists. */
  function FirstFree(draws: seq<seq<int>>, inUse: set<string>, k: nat): (r: Option<nat>)
    requires forall j :: 0 <= j < |draws| ==> ValidDraw(draws[j])
    requires k <= |draws|
    ensures r.Some? ==> k <= r.value < |draws| && Candidate(draws[r.value]) !in inUse
    ensures r.Some? ==> forall j :: k <= j < r.value ==> Candidate(draws[j]) in inUse
    ensures r.None? ==> forall j :: k <= j < |draws| ==> Candidate(draws[j]) in inUse
    decreases |draws| - k
  {
    if k == |draws| then None
    else if Candidate(draws[k]) !in inUse then Some(k)
    else FirstFree(draws, inUse, k + 1)
  }

  /** `generateAccountNumber`, with the random source given as the finite
      list of rounds it would produce. */
  function GenerateAccountNumber(draws: seq<seq<int>>, inUse: set<string>): (r: Result<string>)
    requires forall j :: 0 <= j < |draws| ==> ValidDraw(draws[j])
    ensures r.Ok? ==> WellFormedNumber(r.value) && r.value !in inUse
    ensures r.Ok? ==> exists k :: 0 <= k < |draws| && r.value == Candidate(draws[k])
                         && forall j :: 0 <= j < k ==> Candidate(draws[j]) in inUse
    ensures r.Err? <==> forall j :: 0 <= j < |draws| ==> Candidate(draws[j]) in inUse
    ensures r.Err? ==> r.error == NoFreshNumber
  {
    match FirstFree(draws, inUse, 0)
    case None => Err(NoFreshNumber)
    case Some(k) => Ok(Candidate(draws[k]))
  }

  /** `createAccount`: an unknown user is reported before any number is
      drawn; otherwise a fresh account with a new unique number, the next
      identity and a zero balance is stored. */
  function CreateAccount(b: Bank, userId: UserId, draws: seq<seq<int>>): (r: Result<(Bank, AccountId)>)
    requires forall j :: 0 <= j < |draws| ==> ValidDraw(draws[j])
    ensures userId !in b.users ==> r == Err(NotFound)
    ensures r.Err? ==> r.error in {NotFound, NoFreshNumber}
    ensures r.Ok? <==> userId in b.users && exists j :: 0 <= j < |draws| && Candidate(draws[j]) !in NumbersInUse(b.accounts)
    ensures r.Ok? ==>
      var (nb, id) := r.value;
      id in nb.accounts
      && exists k :: 0 <= k < |draws| && nb.accounts[id].number == Candidate(draws[k])
                     && forall j :: 0 <= j < k ==> Candidate(draws[j]) in NumbersInUse(b.accounts)
    ensures r.Ok? ==>
      var (nb, id) := r.value;
      && userId in b.users
      && id == b.nextAccountId && nb.nextAccountId == b.nextAccountId + 1
      && id in nb.accounts && nb.accounts == b.accounts[id := nb.accounts[id]]
      && nb.accounts[id].userId == userId && nb.accounts[id].balance == 0
      && WellFormedNumber(nb.accounts[id].number)
      && (forall a :: a in b.accounts ==> b.accounts[a].number != nb.accounts[id].number)
      && nb.users == b.users && nb.movements == b.movements && nb.nextUserId == b.nextUserId
  {
    if userId !in b.users then Err(NotFound)
    else
      var number :- GenerateAccountNumber(draws, NumbersInUse(b.accounts));
      var id := b.nextAccountId;
      Ok((b.(accounts := b.accounts[id := Account(number, userId, 0)], nextAccountId := id + 1), id))
  }

  /** `getAccountById`: the account guard. */
  function GetAccountById(b: Bank, c: Caller, id: AccountId): (r: Result<Account>)
    ensures r == Err(NotFound) <==> id !in b.accounts
    ensures r == Err(AccessDenied) <==> id in b.accounts && !c.isAdmin && !OwnsAccount(b, id, c.username)
    ensures r.Ok? <==> id in b.accounts && (c.isAdmin || OwnsAccount(b, id, c.username))
    ensures r.Ok? ==> r.value == b.accounts[id]
  {
    GuardAccount(b, c, id)
  }

  /** `getAccountBalance`: the account guard, then the stored balance. In a
      well-formed store that balance is the net effect of the account's
      whole completed history and is never negative. */
  function GetAccountBalance(b: Bank, c: Caller, id: AccountId): (r: Result<int>)
    ensures r == Err(NotFound) <==> id !in b.accounts
    ensures r == Err(AccessDenied) <==> id in b.accounts && !c.isAdmin && !OwnsAccount(b, id, c.username)
    ensures r.Ok? <==> id in b.accounts && (c.isAdmin || OwnsAccount(b, id, c.username))
    ensures r.Ok? ==> r.value == b.accounts[id].balance
    ensures r.Ok? && Wf(b) ==> r.value == NetEffect(b.movements, id, All) && r.value >= 0
  {
    var account :- GuardAccount(b, c, id);
    Ok(account.balance)
  }

  /** `findByAccountNumber`: the account stored under a number, if any. */
  ghost function FindByAccountNumber(accounts: map<AccountId, Account>, number: string): (r: Option<AccountId>)
    ensures r.Some? ==> r.value in accounts && accounts[r.value].number == number
    ensures r.None? <==> number !in NumbersInUse(accounts)
  {
    if number in NumbersInUse(accounts) then
      var a :| a in accounts && accounts[a].number == number; Some(a)
    else None
  }

  /** `getAccountByAccountNumber`: not found, then owner-or-admin. */
  ghost function GetAccountByAccountNumber(b: Bank, c: Caller, number: string): (r: Result<Account>)
    ensures r == Err(NotFound) <==> number !in NumbersInUse(b.accounts)
    ensures r.Ok? ==> r.value in b.accounts.Values && r.value.number == number
    ensures r.Ok? ==> exists a :: a in b.accounts && b.accounts[a] == r.value && (c.isAdmin || OwnsAccount(b, a, c.username))
    ensures r.Err? ==> r.error in {NotFound, AccessDenied}
    ensures r == Err(AccessDenied) <==> number in NumbersInUse(b.accounts) && !r.Ok?
    ensures UniqueNumbers(b.accounts) ==>
      (r.Ok? <==> exists a :: a in b.accounts && b.accounts[a].number == number && (c.isAdmin || OwnsAccount(b, a, c.username)))
  {
    match FindByAccountNumber(b.accounts, number)
    case None => Err(NotFound)
    case Some(a) => GuardAccount(b, c, a)
  }

  /** Some movement still refers to the account. */
  predicate Referenced(ms: seq<Movement>, a: AccountId) {
    exists i :: 0 <= i < |ms| && Touches(ms[i], a)
  }

  /** `deleteAccount`: the account guard, then the delete. The foreign keys
      from the transaction table refuse the delete of an account that a
      movement still refers to. */
  function DeleteAccount(b: Bank, c: Caller, id: AccountId): (r: Result<Bank>)
    ensures r.Err? && r.error != ConstraintViolation ==> GuardAccount(b, c, id) == Err(r.error)
    ensures r == Err(ConstraintViolation) <==> GuardAccount(b, c, id).Ok? && Referenced(b.movements, id)
    ensures r.Ok? <==> GuardAccount(b, c, id).Ok? && !Referenced(b.movements, id)
    ensures r.Ok? ==>
      && r.value.accounts == b.accounts - {id} && id in b.accounts
      && r.value.users == b.users && r.value.movements == b.movements
  {
    var _ :- GuardAccount(b, c, id);
    if Referenced(b.movements, id) then Err(ConstraintViolation)
    else Ok(b.(accounts := b.accounts - {id}))
  }

  /** The accounts of one user. */
  function AccountsOf(accounts: map<AccountId, Account>, userId: UserId): (r: map<AccountId, Account>)
    ensures forall a :: a in r <==> a in accounts && accounts[a].userId == userId
    ensures forall a :: a in r ==> r[a] == accounts[a]
  {
    map a | a in accounts && accounts[a].userId == userId :: accounts[a]
  }

  /** `getAccountsByUserId`: an unknown user id is not found; a non-admin
      caller who is not a stored user is not found either, and one who is
      another user is denied. */
  function GetAccountsByUserId(b: Bank, c: Caller, userId: UserId): (r: Result<map<AccountId, Account>>)
    requires UniqueUsernames(b.users)
    ensures userId !in b.users ==> r == Err(NotFound)
    ensures userId in b.users && !c.isAdmin && !UsernameTaken(b.users, c.username) ==> r == Err(NotFound)
    ensures r.Ok? <==> userId in b.users && (c.isAdmin || b.users[userId].username == c.username)
    ensures (userId in b.users && !c.isAdmin && UsernameTaken(b.users, c.username)
             && b.users[userId].username != c.username) ==> r == Err(AccessDenied)
    ensures r.Ok? ==> forall a :: a in r.value <==> a in b.accounts && b.accounts[a].userId == userId
    ensures r.Ok? ==> forall a :: a in r.value ==> r.value[a] == b.accounts[a]
    ensures r.Err? ==> r.error in {NotFound, AccessDenied}
  {
    if userId !in b.users then Err(NotFound)
    else if !c.isAdmin && !UsernameTaken(b.users, c.username) then Err(NotFound)
    else if !c.isAdmin && b.users[userId].username != c.username then Err(AccessDenied)
    else Ok(AccountsOf(b.accounts, userId))
  }

  /** `getAllAccounts`: admins only. */
  function GetAllAccounts(b: Bank, c: Caller): (r: Result<map<AccountId, Account>>)
    ensures r.Ok? <==> c.isAdmin
    ensures r.Err? ==> r.error == AccessDenied
    ensures r.Ok? ==> r.value == b.accounts
  {
    if c.isAdmin then Ok(b.accounts) else Err(AccessDenied)
  }

  /** The first second of epoch day `d`. */
  function StartOfDay(d: int): int {
    d * 86400
  }

  /** An account statement over the days `from` to `to`, both included. */
  datatype Statement = Statement(
    accountId: AccountId,
    number: string,
    from: int,
    to: int,
    opening: int,
    closing: int,
    movements: seq<Movement>)

  /** `getAccountStatement`: a reversed range is refused before the account
      is looked up; then the account guard. The opening balance is
      computed from the stored balance, by taking off everything since the
      first day, and the closing balance by adding back everything inside the
      range. The contract states what that computation yields: whenever the
      balance agrees with the history, the opening balance is exactly the
      history before the first day and the closing balance the history before
      the day after the last. */
  function GetAccountStatement(b: Bank, c: Caller, a: AccountId, from: int, to: int): (r: Result<Statement>)
    ensures from > to ==> r == Err(InvalidRequest)
    ensures from <= to ==> (r == Err(NotFound) <==> a !in b.accounts)
    ensures r.Ok? <==> from <= to && a in b.accounts && (c.isAdmin || OwnsAccount(b, a, c.username))
    ensures from <= to ==>
      (r == Err(AccessDenied) <==> a in b.accounts && !c.isAdmin && !OwnsAccount(b, a, c.username))
    ensures r.Ok? ==> r.value.accountId == a && r.value.number == b.accounts[a].number
    ensures r.Ok? ==> forall m :: m in r.value.movements <==>
      && m in b.movements && m.status == Completed && Touches(m, a)
      && StartOfDay(from) <= m.createdAt < StartOfDay(to + 1)
    ensures r.Ok? && BalancesAgree(b) ==>
      && r.value.opening == NetEffect(b.movements, a, Before(StartOfDay(from)))
      && r.value.closing == NetEffect(b.movements, a, Before(StartOfDay(to + 1)))
  {
    if from > to then Err(InvalidRequest)
    else
      var account :- GuardAccount(b, c, a);
      var fromInstant := StartOfDay(from);
      var toExclusive := StartOfDay(to + 1);
      var listed := FindStatementTransactions(b.movements, a, fromInstant, toExclusive);
      var opening := account.balance - SumNetEffectFrom(b.movements, a, fromInstant);
      var closing := opening + SumNetEffectInRange(b.movements, a, fromInstant, toExclusive);
      StatementReconstructsHistory(b.movements, a, account.balance, fromInstant, toExclusive);
      Ok(Statement(a, account.number, from, to, opening, closing, listed))
  }

  /** The statement arithmetic: if `balance` is the whole history of the
      account, then subtracting the history from `t` on leaves the history
      before `t`, and adding the range `[t, u)` back gives the history before
      `u`. */
  lemma StatementReconstructsHistory(ms: seq<Movement>, a: AccountId, balance: int, t: int, u: int)
    requires t <= u
    ensures balance == NetEffect(ms, a, All) ==>
      && balance - SumNetEffectFrom(ms, a, t) == NetEffect(ms, a, Before(t))
      && balance - SumNetEffectFrom(ms, a, t) + SumNetEffectInRange(ms, a, t, u) == NetEffect(ms, a, Before(u))
  {
    HistorySplit(ms, a, t);
    BeforeSplit(ms, a, t, u);
  }

  /** An account number generated for a new account keeps the numbers
      unique, and creating an account keeps the whole invariant. */
  lemma CreateAccountPreservesWf(b: Bank, userId: UserId, draws: seq<seq<int>>)
    requires Wf(b)
    requires forall j :: 0 <= j < |draws| ==> ValidDraw(draws[j])
    requires CreateAccount(b, userId, draws).Ok?
    ensures Wf(CreateAccount(b, userId, draws).value.0)
  {
    var (nb, id) := CreateAccount(b, userId, draws).value;
    forall i | 0 <= i < |nb.movements| ensures WfMovement(nb, i) {
      assert WfMovement(b, i);
    }
    forall x | x in nb.accounts ensures nb.accounts[x].balance == NetEffect(nb.movements, x, All) {
      if x == id {
        forall i | 0 <= i < |b.movements| ensures !Touches(b.movements[i], id) {
          assert WfMovement(b, i);
        }
        NetEffectUntouched(b.movements, id, All);
      }
    }
  }

  /** Deleting an account keeps the invariant. */
  lemma DeleteAccountPreservesWf(b: Bank, c: Caller, id: AccountId)
    requires Wf(b)
    requires DeleteAccount(b, c, id).Ok?
    ensures Wf(DeleteAccount(b, c, id).value)
  {
    var nb := DeleteAccount(b, c, id).value;
    forall i | 0 <= i < |nb.movements| ensures WfMovement(nb, i) {
      assert WfMovement(b, i);
      assert !Touches(b.movements[i], id);
    }
  }
}
