/**
 * User registration: a request with an email and a password is checked
 * (email given, password given, email not yet used, in that order) and then
 * inserted with the password replaced by its SHA-1 digest.
 *
 * The digest function is not modelled; the store is given one when it is
 * built and uses it as an uninterpreted function.
 */
module UsersController {
  import opened Basics
  import opened ObjectIds

  /** One document of the users collection. */
  datatype User = User(id: nat, email: string, password: string)

  datatype UserError = MissingEmail | MissingPassword | AlreadyExist

  /** The 201 response: the email and the new user's id as its 24-digit text. */
  datatype Created = Created(email: string, id: string)

  /** No two users share an email. */
  ghost predicate EmailsUnique(users: seq<User>) {
    forall i, j :: 0 <= i < j < |users| ==> users[i].email != users[j].email
  }

  /** The users-table invariant: ids below the counter and increasing, emails unique. */
  ghost predicate UsersOk(users: seq<User>, nextId: nat) {
    && nextId >= 1
    && (forall i :: 0 <= i < |users| ==> 1 <= users[i].id < nextId)
    && (forall i, j :: 0 <= i < j < |users| ==> users[i].id < users[j].id)
    && EmailsUnique(users)
  }

  /** The lookup by email: the position of the first user with that email. */
  function FindByEmail(users: seq<User>, email: string): (k: Option<nat>)
    ensures k.Some? ==> k.value < |users| && users[k.value].email == email
    ensures k.None? <==> forall i :: 0 <= i < |users| ==> users[i].email != email
  {
    if users == [] then None
    else if users[0].email == email then Some(0)
    else match FindByEmail(users[1..], email)
      case None => None
      case Some(k) => Some(k + 1)
  }

  /** The response of a registration and the table and counter after it. */
  datatype Registration = Registration(response: Result<Created, UserError>, users: seq<User>, nextId: nat)

  /**
   * A registration: the first failing check leaves the table as it was;
   * otherwise exactly one user is appended, with the given email, the next
   * id and the digest of the password.
   */
  function Register(users: seq<User>, nextId: nat, sha1: string -> string,
                    email: Option<string>, password: Option<string>): (r: Registration)
    ensures r.response == Err(MissingEmail) <==> Missing(email)
    ensures r.response == Err(MissingPassword) <==> !Missing(email) && Missing(password)
    ensures r.response == Err(AlreadyExist) <==>
              !Missing(email) && !Missing(password) &&
              exists i :: 0 <= i < |users| && users[i].email == email.value
    ensures r.response.Ok? <==>
              !Missing(email) && !Missing(password) &&
              forall i :: 0 <= i < |users| ==> users[i].email != email.value
    ensures r.response.Err? ==> r.users == users && r.nextId == nextId
    ensures r.response.Ok? ==>
              && r.response.value == Created(email.value, HexId(nextId))
              && (nextId < IdSpace() ==> Key(r.response.value.id) == nextId)
              && |r.users| == |users| + 1 && r.users[..|users|] == users
              && r.users[|users|] == User(nextId, email.value, sha1(password.value))
              && r.nextId == nextId + 1
  {
    if Missing(email) then Registration(Err(MissingEmail), users, nextId)
    else if Missing(password) then Registration(Err(MissingPassword), users, nextId)
    else if FindByEmail(users, email.value).Some? then Registration(Err(AlreadyExist), users, nextId)
    else
      var u := User(nextId, email.value, sha1(password.value));
      assert nextId < IdSpace() ==> Key(HexId(nextId)) == nextId by {
        if nextId < IdSpace() {
          KeyOfHexId(nextId);
        }
      }
      Registration(Ok(Created(email.value, HexId(nextId))), users + [u], nextId + 1)
  }

  /** A registration keeps the table invariant, in particular unique emails. */
  lemma RegisterKeepsUsersOk(users: seq<User>, nextId: nat, sha1: string -> string,
                             email: Option<string>, password: Option<string>)
    requires UsersOk(users, nextId)
    ensures var r := Register(users, nextId, sha1, email, password);
            UsersOk(r.users, r.nextId)
  {
    var r := Register(users, nextId, sha1, email, password);
    if r.response.Ok? {
      assert FindByEmail(users, email.value).None?;
      forall i, j | 0 <= i < j < |r.users|
        ensures r.users[i].email != r.users[j].email
      {
        if j == |users| {
          assert r.users[i] == users[i];
        } else {
          assert r.users[i] == users[i] && r.users[j] == users[j];
        }
      }
    }
  }

  /** Registering the same email a second time is refused and changes nothing. */
  lemma RegisterTwiceRefused(users: seq<User>, nextId: nat, sha1: string -> string,
                             email: Option<string>, p1: Option<string>, p2: Option<string>)
    requires Register(users, nextId, sha1, email, p1).response.Ok? && !Missing(p2)
    ensures var r1 := Register(users, nextId, sha1, email, p1);
            var r2 := Register(r1.users, r1.nextId, sha1, email, p2);
            r2.response == Err(AlreadyExist) && r2.users == r1.users
  {
    var r1 := Register(users, nextId, sha1, email, p1);
    assert r1.users[|users|].email == email.value;
  }

  /** A registration request: the email and password fields of the body. */
  datatype SignUp = SignUp(email: Option<string>, password: Option<string>)

  /** The table and counter after a sequence of registrations, in order. */
  function RegisterAll(users: seq<User>, nextId: nat, sha1: string -> string, reqs: seq<SignUp>)
    : (seq<User>, nat)
    decreases |reqs|
  {
    if reqs == [] then (users, nextId)
    else
      var r := Register(users, nextId, sha1, reqs[0].email, reqs[0].password);
      RegisterAll(r.users, r.nextId, sha1, reqs[1..])
  }

  /** Starting from unique emails, any sequence of registrations keeps emails unique. */
  lemma {:induction false} RegisterAllKeepsUnique(users: seq<User>, nextId: nat, sha1: string -> string,
                                                  reqs: seq<SignUp>)
    requires UsersOk(users, nextId)
    ensures var (users', nextId') := RegisterAll(users, nextId, sha1, reqs);
            UsersOk(users', nextId') && EmailsUnique(users')
    decreases |reqs|
  {
    if reqs != [] {
      var r := Register(users, nextId, sha1, reqs[0].email, reqs[0].password);
      RegisterKeepsUsersOk(users, nextId, sha1, reqs[0].email, reqs[0].password);
      RegisterAllKeepsUnique(r.users, r.nextId, sha1, reqs[1..]);
    }
  }

  class UserStore {
    /** The users collection, oldest first. */
    var users: seq<User>
    /** The id the next inserted user receives. */
    var nextId: nat
    /** The password digest function. */
    const sha1: string -> string

    ghost predicate Valid()
      reads this
    {
      UsersOk(users, nextId)
    }

    constructor (sha1: string -> string)
      ensures Valid()
      ensures users == [] && nextId == 1 && this.sha1 == sha1
    {
      this.users := [];
      this.nextId := 1;
      this.sha1 := sha1;
    }

    /** `postNew`: the three checks in order, then the insert. */
    method PostNew(email: Option<string>, password: Option<string>) returns (res: Result<Created, UserError>)
      requires Valid()
      modifies this
      ensures Valid()
      ensures var r := Register(old(users), old(nextId), sha1, email, password);
              res == r.response && users == r.users && nextId == r.nextId
    {
      RegisterKeepsUsersOk(users, nextId, sha1, email, password);
      if Missing(email) {
        return Err(MissingEmail);
      }
      if Missing(password) {
        return Err(MissingPassword);
      }
      var existing := FindByEmail(users, email.value);
      if existing.Some? {
        return Err(AlreadyExist);
      }
      var userId := nextId;
      users := users + [User(userId, email.value, sha1(password.value))];
      nextId := nextId + 1;
      res := Ok(Created(email.value, HexId(userId)));
    }
  }
}
