/** The transaction queries of the ledger: declarative filters and signed sums
    over the sequence of movements, and the laws that relate the sums.
 */
module Repository {
  import opened Results
  import opened Ledger

  /** A half-open range of creation times. */
  datatype Window = All | From(start: int) | Before(end: int) | Between(start: int, end: int)

  predicate InWindow(w: Window, t: int) {
    match w
    case All => true
    case From(s) => s <= t
    case Before(e) => t < e
    case Between(s, e) => s <= t < e
  }

  /** The movement debits or credits the account. */
  predicate Touches(m: Movement, a: AccountId) {
    m.from == Some(a) || m.to == Some(a)
  }

  /** The row filter shared by the statement queries: a COMPLETED movement
      touching the account, created inside the window. */
  predicate Counts(m: Movement, a: AccountId, w: Window) {
    m.status == Completed && Touches(m, a) && InWindow(w, m.createdAt)
  }

  /** The summed expression: `+amount` when the account is the credited
      side, `-amount` otherwise. */
  function Signed(m: Movement, a: AccountId): int {
    if m.to == Some(a) then m.amount else -m.amount
  }

  /** What one movement adds to a net-effect sum. */
  function Contribution(m: Movement, a: AccountId, w: Window): (r: int)
    ensures m.status != Completed ==> r == 0
    ensures !Touches(m, a) ==> r == 0
  {
    if Counts(m, a, w) then Signed(m, a) else 0
  }

  /** The rows of `ms` satisfying `p`, in their stored order. */
  function Filter(ms: seq<Movement>, p: Movement -> bool): (r: seq<Movement>)
    ensures |r| <= |ms|
    ensures forall m :: m in r <==> m in ms && p(m)
    decreases |ms|
  {
    if ms == [] then []
    else
      var last := ms[|ms| - 1];
      assert ms == ms[..|ms| - 1] + [last];
      Filter(ms[..|ms| - 1], p) + (if p(last) then [last] else [])
  }

  /** The rows that count towards the net effect of `a` over `w`, in order. */
  function Select(ms: seq<Movement>, a: AccountId, w: Window): (r: seq<Movement>)
    ensures |r| <= |ms|
    ensures forall m :: m in r <==> m in ms && Counts(m, a, w)
    decreases |ms|
  {
    if ms == [] then []
    else
      var last := ms[|ms| - 1];
      assert ms == ms[..|ms| - 1] + [last];
      Select(ms[..|ms| - 1], a, w) + (if Counts(last, a, w) then [last] else [])
  }

  /** `SUM(CASE ...)` over the selected rows; 0 when there are none. */
  function SignedSum(ms: seq<Movement>, a: AccountId): int
    decreases |ms|
  {
    if ms == [] then 0 else SignedSum(ms[..|ms| - 1], a) + Signed(ms[|ms| - 1], a)
  }

  /** The net effect of the completed movements touching `a` in window `w`. */
  function NetEffect(ms: seq<Movement>, a: AccountId, w: Window): int {
    SignedSum(Select(ms, a, w), a)
  }

  /** `sumNetEffectFrom`: the net effect from time `t` onwards. */
  function SumNetEffectFrom(ms: seq<Movement>, a: AccountId, t: int): int {
    NetEffect(ms, a, From(t))
  }

  /** `sumNetEffectInRange`: the net effect over `[t, u)`. */
  function SumNetEffectInRange(ms: seq<Movement>, a: AccountId, t: int, u: int): int {
    NetEffect(ms, a, Between(t, u))
  }

  /** `findStatementTransactions`: the completed movements touching the
      account created in `[t, u)`. */
  function FindStatementTransactions(ms: seq<Movement>, a: AccountId, t: int, u: int): (r: seq<Movement>)
    ensures forall m :: m in r <==>
      m in ms && m.status == Completed && (m.from == Some(a) || m.to == Some(a)) && t <= m.createdAt < u
  {
    Select(ms, a, Between(t, u))
  }

  /** `findByStatus`. */
  function FindByStatus(ms: seq<Movement>, s: Status): (r: seq<Movement>)
    ensures forall m :: m in r <==> m in ms && m.status == s
  {
    Filter(ms, (m: Movement) => m.status == s)
  }

  /** `findByStatusAndOwner`: the movements with status `s` of which the
      named user owns a non-null side. */
  function FindByStatusAndOwner(b: Bank, s: Status, username: string): (r: seq<Movement>)
    ensures forall m :: m in r <==>
      && m in b.movements && m.status == s
      && ((m.from.Some? && OwnsAccount(b, m.from.value, username))
          || (m.to.Some? && OwnsAccount(b, m.to.value, username)))
  {
    Filter(b.movements, (m: Movement) => m.status == s && (OwnsSide(b, m.from, username) || OwnsSide(b, m.to, username)))
  }

  /** `findByStatusAndOwner` as the query is written: the paths
      `t.fromAccount.user.username` and `t.toAccount.user.username` navigate
      both sides, and path navigation joins with inner-join semantics, so a
      movement with a null side (a deposit or a withdrawal) never matches,
      whatever the `IS NOT NULL` guards say. */
  function FindByStatusAndOwnerAsWritten(b: Bank, s: Status, username: string): (r: seq<Movement>)
    ensures forall m :: m in r <==>
      && m in b.movements && m.status == s && m.from.Some? && m.to.Some?
      && (OwnsAccount(b, m.from.value, username) || OwnsAccount(b, m.to.value, username))
  {
    Filter(b.movements, (m: Movement) =>
      m.status == s && m.from.Some? && m.to.Some? && (OwnsSide(b, m.from, username) || OwnsSide(b, m.to, username)))
  }

  /** The query as written loses exactly the one-sided movements the guards
      were meant to admit: it lists the transfers the intended query lists,
      and nothing else. */
  lemma OwnerQueryAsWrittenKeepsOnlyTransfers(b: Bank, s: Status, username: string)
    ensures forall m :: m in FindByStatusAndOwnerAsWritten(b, s, username) <==>
      m in FindByStatusAndOwner(b, s, username) && m.from.Some? && m.to.Some?
  {
  }

  /** `findByFromAccountId`. */
  function FindByFromAccountId(ms: seq<Movement>, a: AccountId): (r: seq<Movement>)
    ensures forall m :: m in r <==> m in ms && m.from == Some(a)
  {
    Filter(ms, (m: Movement) => m.from == Some(a))
  }

  /** `findByToAccountId`. */
  function FindByToAccountId(ms: seq<Movement>, a: AccountId): (r: seq<Movement>)
    ensures forall m :: m in r <==> m in ms && m.to == Some(a)
  {
    Filter(ms, (m: Movement) => m.to == Some(a))
  }

  /** `findById` / `findByIdWithAccounts`: the first stored movement whose
      primary key is `id`. */
  function FindById(ms: seq<Movement>, id: int): (r: Option<Movement>)
    ensures r.Some? <==> exists i :: 0 <= i < |ms| && ms[i].id == id
    ensures r.Some? ==> r.value in ms && r.value.id == id
    decreases |ms|
  {
    if ms == [] then None
    else if ms[0].id == id then Some(ms[0])
    else
      var r := FindById(ms[1..], id);
      assert forall i :: 1 <= i < |ms| ==> ms[i] == ms[1..][i - 1];
      r
  }

  /** The identity column numbers the movements in insertion order, so the
      primary key of a movement is its position. */
  predicate IdsArePositions(ms: seq<Movement>) {
    forall i :: 0 <= i < |ms| ==> ms[i].id == i
  }

  /** When keys are positions, looking a movement up by its key reads the
      position: an id outside the stored range finds nothing. */
  lemma FindByIdAtPosition(ms: seq<Movement>, id: int)
    ensures IdsArePositions(ms) ==> FindById(ms, id) == if 0 <= id < |ms| then Some(ms[id]) else None
  {
    var r := FindById(ms, id);
    if !IdsArePositions(ms) {
    } else if r.Some? {
      var j :| 0 <= j < |ms| && ms[j] == r.value;
      assert ms[j].id == j;
    }
  }

  /** Appending a movement adds exactly its own contribution. */
  lemma NetEffectAppend(ms: seq<Movement>, x: Movement, a: AccountId, w: Window)
    ensures NetEffect(ms + [x], a, w) == NetEffect(ms, a, w) + Contribution(x, a, w)
  {
    assert (ms + [x])[..|ms|] == ms;
    var sel := Select(ms, a, w);
    assert Select(ms + [x], a, w) == sel + (if Counts(x, a, w) then [x] else []);
    if Counts(x, a, w) {
      assert (sel + [x])[..|sel|] == sel;
      assert (sel + [x])[|sel|] == x;
      assert SignedSum(sel + [x], a) == SignedSum(sel, a) + Signed(x, a);
    } else {
      assert sel + [] == sel;
    }
  }

  /** Replacing one movement swaps its contribution for the replacement's. */
  lemma {:induction false} NetEffectUpdate(ms: seq<Movement>, i: int, x: Movement, a: AccountId, w: Window)
    requires 0 <= i < |ms|
    ensures NetEffect(ms[i := x], a, w)
         == NetEffect(ms, a, w) - Contribution(ms[i], a, w) + Contribution(x, a, w)
    decreases |ms|
  {
    var n := |ms| - 1;
    var prefix := ms[..n];
    assert ms == prefix + [ms[n]];
    NetEffectAppend(prefix, ms[n], a, w);
    if i == n {
      assert ms[i := x] == prefix + [x];
      NetEffectAppend(prefix, x, a, w);
    } else {
      assert ms[i := x] == prefix[i := x] + [ms[n]];
      NetEffectUpdate(prefix, i, x, a, w);
      NetEffectAppend(prefix[i := x], ms[n], a, w);
    }
  }

  /** PENDING and FAILED movements are invisible to every net-effect sum:
      moving a record between those statuses changes no sum. */
  lemma UncompletedInvisible(ms: seq<Movement>, i: int, x: Movement, a: AccountId, w: Window)
    requires 0 <= i < |ms|
    requires ms[i].status != Completed && x.status != Completed
    ensures NetEffect(ms[i := x], a, w) == NetEffect(ms, a, w)
  {
    NetEffectUpdate(ms, i, x, a, w);
  }

  /** `w` is the disjoint union of `w1` and `w2`. */
  ghost predicate Partition(w: Window, w1: Window, w2: Window) {
    forall t {:trigger InWindow(w, t)} ::
      (InWindow(w, t) <==> InWindow(w1, t) || InWindow(w2, t)) && !(InWindow(w1, t) && InWindow(w2, t))
  }

  /** One movement's contribution adds up over a partition of the window. */
  lemma ContributionSplit(m: Movement, a: AccountId, w: Window, w1: Window, w2: Window)
    requires Partition(w, w1, w2)
    ensures Contribution(m, a, w) == Contribution(m, a, w1) + Contribution(m, a, w2)
  {
    var t := m.createdAt;
    assert (InWindow(w, t) <==> InWindow(w1, t) || InWindow(w2, t)) && !(InWindow(w1, t) && InWindow(w2, t));
    if m.status == Completed && Touches(m, a) {
      if InWindow(w1, t) {
        assert Counts(m, a, w) && Counts(m, a, w1) && !Counts(m, a, w2);
      } else if InWindow(w2, t) {
        assert Counts(m, a, w) && !Counts(m, a, w1) && Counts(m, a, w2);
      } else {
        assert !Counts(m, a, w) && !Counts(m, a, w1) && !Counts(m, a, w2);
      }
    }
  }

  /** Net effects add up over a partition of the window. */
  lemma {:induction false} NetEffectSplit(ms: seq<Movement>, a: AccountId, w: Window, w1: Window, w2: Window)
    requires Partition(w, w1, w2)
    ensures NetEffect(ms, a, w) == NetEffect(ms, a, w1) + NetEffect(ms, a, w2)
    decreases |ms|
  {
    if ms == [] {
      assert Select(ms, a, w) == [] && Select(ms, a, w1) == [] && Select(ms, a, w2) == [];
    } else {
      var n := |ms| - 1;
      var prefix := ms[..n];
      assert ms == prefix + [ms[n]];
      NetEffectSplit(prefix, a, w, w1, w2);
      NetEffectAppend(prefix, ms[n], a, w);
      NetEffectAppend(prefix, ms[n], a, w1);
      NetEffectAppend(prefix, ms[n], a, w2);
      ContributionSplit(ms[n], a, w, w1, w2);
    }
  }

  /** The sum from `t` is the sum over `[t, u)` plus the sum from `u`. */
  lemma SumNetEffectAdditive(ms: seq<Movement>, a: AccountId, t: int, u: int)
    requires t <= u
    ensures SumNetEffectFrom(ms, a, t) == SumNetEffectInRange(ms, a, t, u) + SumNetEffectFrom(ms, a, u)
  {
    assert Partition(From(t), Between(t, u), From(u)) by {
      forall x: int
        ensures (InWindow(From(t), x) <==> InWindow(Between(t, u), x) || InWindow(From(u), x)) && !(InWindow(Between(t, u), x) && InWindow(From(u), x))
      { }
    }
    NetEffectSplit(ms, a, From(t), Between(t, u), From(u));
  }

  /** The whole history splits into what happened before `t` and from `t` on. */
  lemma HistorySplit(ms: seq<Movement>, a: AccountId, t: int)
    ensures NetEffect(ms, a, All) == NetEffect(ms, a, Before(t)) + NetEffect(ms, a, From(t))
  {
    assert Partition(All, Before(t), From(t)) by {
      forall x: int
        ensures (InWindow(All, x) <==> InWindow(Before(t), x) || InWindow(From(t), x)) && !(InWindow(Before(t), x) && InWindow(From(t), x))
      { }
    }
    NetEffectSplit(ms, a, All, Before(t), From(t));
  }

  /** The history before `u` is the history before `t` plus `[t, u)`. */
  lemma BeforeSplit(ms: seq<Movement>, a: AccountId, t: int, u: int)
    requires t <= u
    ensures NetEffect(ms, a, Before(u)) == NetEffect(ms, a, Before(t)) + NetEffect(ms, a, Between(t, u))
  {
    assert Partition(Before(u), Before(t), Between(t, u)) by {
      forall x: int
        ensures (InWindow(Before(u), x) <==> InWindow(Before(t), x) || InWindow(Between(t, u), x)) && !(InWindow(Before(t), x) && InWindow(Between(t, u), x))
      { }
    }
    NetEffectSplit(ms, a, Before(u), Before(t), Between(t, u));
  }

  /** An account no movement touches has no net effect. */
  lemma {:induction false} NetEffectUntouched(ms: seq<Movement>, a: AccountId, w: Window)
    requires forall i :: 0 <= i < |ms| ==> !Touches(ms[i], a)
    ensures NetEffect(ms, a, w) == 0
    decreases |ms|
  {
    if ms != [] {
      var n := |ms| - 1;
      assert ms == ms[..n] + [ms[n]];
      NetEffectUntouched(ms[..n], a, w);
      NetEffectAppend(ms[..n], ms[n], a, w);
    }
  }
}
