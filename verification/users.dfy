/** The user service: registration with a unique username and an encoded
    password, lookup, update and delete. The password encoder is a
    parameter: the model only relies on the stored password being its
    output for the raw one.
 */
module Users {
  import opened Results
  import opened Ledger
  import opened Repository
  import opened Invariant
  import Accounts

  /** The fields a client submits for a user. */
  datatype UserRequest = UserRequest(username: string, password: string, email: Option<string>)

  /** `createUser`: a taken username is refused and nothing is saved;
      otherwise the user is stored under the next identity with the encoded
      password and the default role. */
  function CreateUser(b: Bank, req: UserRequest, encode: string -> string): (r: Result<(Bank, UserId)>)
    ensures r.Err? <==> UsernameTaken(b.users, req.username)
    ensures r.Err? ==> r.error == AlreadyExists
    ensures r.Ok? ==>
      var (nb, id) := r.value;
      && id == b.nextUserId && nb.nextUserId == b.nextUserId + 1
      && id in nb.users && nb.users == b.users[id := nb.users[id]]
      && nb.users[id] == User(req.username, encode(req.password), req.email, UserRole)
      && nb.accounts == b.accounts && nb.movements == b.movements && nb.nextAccountId == b.nextAccountId
  {
    if UsernameTaken(b.users, req.username) then Err(AlreadyExists)
    else
      var id := b.nextUserId;
      Ok((b.(users := b.users[id := User(req.username, encode(req.password), req.email, UserRole)], nextUserId := id + 1), id))
  }

  /** `getUserById`. */
  function GetUserById(b: Bank, id: UserId): (r: Result<User>)
    ensures r.Err? <==> id !in b.users
    ensures r.Err? ==> r.error == NotFound
    ensures r.Ok? ==> r.value == b.users[id]
  {
    if id in b.users then Ok(b.users[id]) else Err(NotFound)
  }

  /** `updateUser`: an unknown id is not found; otherwise username, encoded
      password and email of that user are overwritten, its role is kept and
      no other user changes. Taking another user's username violates the
      unique column and is refused. */
  function UpdateUser(b: Bank, id: UserId, req: UserRequest, encode: string -> string): (r: Result<Bank>)
    ensures id !in b.users ==> r == Err(NotFound)
    ensures id in b.users ==>
      (r == Err(ConstraintViolation) <==>
        exists u :: u in b.users && u != id && b.users[u].username == req.username)
    ensures r.Err? ==> r.error in {NotFound, ConstraintViolation}
    ensures r.Ok? ==>
      && id in b.users
      && r.value.users == b.users[id := User(req.username, encode(req.password), req.email, b.users[id].role)]
      && r.value.accounts == b.accounts && r.value.movements == b.movements
      && r.value.nextUserId == b.nextUserId && r.value.nextAccountId == b.nextAccountId
  {
    if id !in b.users then Err(NotFound)
    else if exists u :: u in b.users && u != id && b.users[u].username == req.username then Err(ConstraintViolation)
    else
      var role := b.users[id].role;
      Ok(b.(users := b.users[id := User(req.username, encode(req.password), req.email, role)]))
  }

  /** The accounts a user owns, which the delete of the user cascades to. */
  function OwnedAccounts(b: Bank, id: UserId): (r: set<AccountId>)
    ensures forall a :: a in r <==> a in b.accounts && b.accounts[a].userId == id
  {
    set a | a in b.accounts && b.accounts[a].userId == id
  }

  /** `deleteUser`: deleting an absent id changes nothing; otherwise the
      user and, by the cascade on its account list, all its accounts go.
      The foreign keys from the transaction table refuse the delete when a
      movement still refers to one of those accounts. */
  function DeleteUser(b: Bank, id: UserId): (r: Result<Bank>)
    ensures id !in b.users ==> r == Ok(b)
    ensures r.Err? <==> id in b.users && exists a :: a in OwnedAccounts(b, id) && Accounts.Referenced(b.movements, a)
    ensures r.Err? ==> r.error == ConstraintViolation
    ensures r.Ok? && id in b.users ==>
      && r.value.users == b.users - {id}
      && (forall a :: a in r.value.accounts <==> a in b.accounts && b.accounts[a].userId != id)
      && (forall a :: a in r.value.accounts ==> r.value.accounts[a] == b.accounts[a])
      && r.value.movements == b.movements
      && r.value.nextUserId == b.nextUserId && r.value.nextAccountId == b.nextAccountId
  {
    if id !in b.users then Ok(b)
    else
      var owned := OwnedAccounts(b, id);
      if exists a :: a in owned && Accounts.Referenced(b.movements, a) then Err(ConstraintViolation)
      else Ok(b.(users := b.users - {id}, accounts := b.accounts - owned))
  }

  /** Registering keeps the invariant. */
  lemma CreateUserPreservesWf(b: Bank, req: UserRequest, encode: string -> string)
    requires Wf(b)
    requires CreateUser(b, req, encode).Ok?
    ensures Wf(CreateUser(b, req, encode).value.0)
  {
    var (nb, id) := CreateUser(b, req, encode).value;
    forall i | 0 <= i < |nb.movements| ensures WfMovement(nb, i) {
      assert WfMovement(b, i);
    }
    assert UniqueUsernames(nb.users) by {
      forall u, v | u in nb.users && v in nb.users && nb.users[u].username == nb.users[v].username
        ensures u == v
      {
        if u != id && v != id {
          assert b.users[u].username == b.users[v].username;
        }
      }
    }
  }

  /** Updating a user keeps the invariant. */
  lemma UpdateUserPreservesWf(b: Bank, id: UserId, req: UserRequest, encode: string -> string)
    requires Wf(b)
    requires UpdateUser(b, id, req, encode).Ok?
    ensures Wf(UpdateUser(b, id, req, encode).value)
  {
    var nb := UpdateUser(b, id, req, encode).value;
    forall i | 0 <= i < |nb.movements| ensures WfMovement(nb, i) {
      assert WfMovement(b, i);
    }
    assert UniqueUsernames(nb.users) by {
      forall u, v | u in nb.users && v in nb.users && nb.users[u].username == nb.users[v].username
        ensures u == v
      {
        if u != id && v != id {
          assert b.users[u].username == b.users[v].username;
        }
      }
    }
  }

  /** Deleting a user keeps the invariant. */
  lemma DeleteUserPreservesWf(b: Bank, id: UserId)
    requires Wf(b)
    requires DeleteUser(b, id).Ok?
    ensures Wf(DeleteUser(b, id).value)
  {
    var nb := DeleteUser(b, id).value;
    if id in b.users {
      forall i | 0 <= i < |nb.movements| ensures WfMovement(nb, i) {
        assert WfMovement(b, i);
        var m := b.movements[i];
        if m.from.Some? && m.from.value in b.accounts && b.accounts[m.from.value].userId == id {
          assert Accounts.Referenced(b.movements, m.from.value) by { assert Touches(b.movements[i], m.from.value); }
        }
        if m.to.Some? && m.to.value in b.accounts && b.accounts[m.to.value].userId == id {
          assert Accounts.Referenced(b.movements, m.to.value) by { assert Touches(b.movements[i], m.to.value); }
        }
      }
      assert UniqueNumbers(nb.accounts) by {
        forall x, y | x in nb.accounts && y in nb.accounts && nb.accounts[x].number == nb.accounts[y].number
          ensures x == y
        {
          assert b.accounts[x].number == b.accounts[y].number;
        }
      }
    }
  }

  /** A freshly registered user signs in as a plain user, and registering
      the same username a second time is refused. */
  lemma {:induction false} RegisterTwice(b: Bank, req: UserRequest, again: UserRequest, encode: string -> string)
    requires CreateUser(b, req, encode).Ok?
    requires again.username == req.username
    ensures var (nb, id) := CreateUser(b, req, encode).value;
      && !CallerOf(nb.users[id]).isAdmin
      && CreateUser(nb, again, encode) == Err(AlreadyExists)
  {
    var (nb, id) := CreateUser(b, req, encode).value;
    assert nb.users[id].username == again.username;
  }
}
