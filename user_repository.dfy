/** The GORM user repository of backend/user/repository/usersImpl.go and its older copy
    user/repository/usersImpl.go. The two issue the same statements except in
    GetForToken, where the older copy selects only four columns
    (`GetForTokenPartial`). Neither checks the version on Update: GORM's Save overwrites
    the row, unlike the compare-and-swap of the SQL user store. */
module UserRepository {
  import opened Common
  import opened Entities
  import opened Tables
  import opened Store

  /** Save of a user whose id is stored: every column is overwritten, whatever version
      was read, unless another row holds the username or email. */
  function SavedUsers(users: map<int, User>, u: User): (r: Result<map<int, User>>)
    requires u.id in users
  {
    match UserConflict(users, u, false)
    case Some(constraint) => Err(UniqueViolation(constraint))
    case None => Ok(users[u.id := StoredUser(u)])
  }

  /** Two updates issued from the same read of a row that keep its username and email:
      through Save the second silently replaces the first, while the versioned UPDATE
      rejects the second as not found. */
  lemma {:induction false} SaveLosesConcurrentUpdate(users: map<int, User>, first: User, second: User)
    requires UsersValid(users)
    requires first.id == second.id && first.id in users && first.version == second.version
    requires first.username == second.username == users[first.id].username
    requires Lower(first.email) == Lower(second.email) == Lower(users[first.id].email)
    ensures SavedUsers(users, first).Ok?
    ensures SavedUsers(SavedUsers(users, first).value, second) == Ok(users[second.id := StoredUser(second)])
    ensures CompareAndSwapUser(users, first).Ok? ==>
      CompareAndSwapUser(CompareAndSwapUser(users, first).value, second) == Err(RecordNotFound)
  {
    RewriteKeepsKeys(users, first);
    var users' := users[first.id := StoredUser(first)];
    WriteUserKeepsValid(users, first, false);
    RewriteKeepsKeys(users', second);
    assert users'[second.id := StoredUser(second)] == users[second.id := StoredUser(second)];
    if CompareAndSwapUser(users, first).Ok? {
      LostUpdatePrevented(users, first, second);
    }
  }

  /** The four columns the older GetForToken selects; every other field keeps Go's zero
      value, the id included. */
  function PartialUser(u: User): (r: User)
    ensures r.id == 0 && r.version == 0 && r.password == Password(None, None)
    ensures r.name == u.name && r.username == u.username && r.email == u.email && r.skills == u.skills
  {
    User(0, 0, u.name, "", u.username, "", "", u.email, u.skills, Password(None, None), "", false, 0)
  }

  class UserRepository {
    const db: Database

    constructor (db: Database)
      ensures this.db == db
    {
      this.db := db;
    }

    /** Create (and scan back): the row with its generated id and defaults; a taken
        email is the repository's duplicate-email error, every other violation passes. */
    method Insert(u: User, now: int) returns (r: Result<User>)
      requires db.Valid()
      modifies db
      ensures db.Valid()
      ensures db.posts == old(db.posts) && db.tokens == old(db.tokens) && db.tokenSeq == old(db.tokenSeq)
      ensures var row := UserRow(u, old(db.userSeq), now);
        && (r.Ok? <==> UserConflict(old(db.users), row, true).None?)
        && (r.Ok? ==> r.value == row && db.users == old(db.users)[row.id := StoredUser(row)])
        && (r.Err? ==> db.users == old(db.users))
        && (r == Err(DuplicateEmail) <==> UserConflict(old(db.users), row, true) == Some("users_email_key"))
        && (r.Err? && r.error != DuplicateEmail ==> r.error == UniqueViolation(UserConflict(old(db.users), row, true).value))
    {
      r := db.CreateUser(u, now);
      if r.Err? && r.error == UniqueViolation("users_email_key") {
        r := Err(DuplicateEmail);
      }
    }

    /** First(&user, id): the row under that id. */
    method GetByID(id: int) returns (r: Result<User>)
      requires db.Valid()
      ensures r.Ok? <==> id in db.users
      ensures r.Ok? ==> r.value == db.users[id] && r.value.id == id
      ensures r.Err? ==> r.error == RecordNotFound
    {
      if id !in db.users {
        return Err(RecordNotFound);
      }
      return Ok(db.users[id]);
    }

    /** WHERE email = ? against the `citext` column: the one user whose email equals the
        argument up to case, or not found. */
    method GetByEmail(email: string) returns (r: Result<User>)
      requires db.Valid()
      ensures r.Ok? <==> exists id | id in db.users :: FoldEq(db.users[id].email, email)
      ensures r.Ok? ==> r.value.id in db.users && db.users[r.value.id] == r.value && FoldEq(r.value.email, email)
      ensures r.Ok? ==> forall id | id in db.users && FoldEq(db.users[id].email, email) :: id == r.value.id
      ensures r.Err? ==> r.error == RecordNotFound
    {
      if !exists id | id in db.users :: FoldEq(db.users[id].email, email) {
        return Err(RecordNotFound);
      }
      var id :| id in db.users && FoldEq(db.users[id].email, email);
      return Ok(db.users[id]);
    }

    /** Save: no version check. A stored id is overwritten; a zero or unknown id is
        inserted. */
    method Update(u: User, now: int) returns (err: Option<Error>)
      requires db.Valid()
      modifies db
      ensures db.Valid()
      ensures db.posts == old(db.posts) && db.tokens == old(db.tokens) && db.tokenSeq == old(db.tokenSeq)
      ensures u.id != 0 && u.id in old(db.users) ==>
        && (err.None? <==> SavedUsers(old(db.users), u).Ok?)
        && (err.None? ==> db.users == SavedUsers(old(db.users), u).value)
        && (err.Some? ==> db.users == old(db.users) && err.value == SavedUsers(old(db.users), u).error)
      ensures u.id == 0 || u.id !in old(db.users) ==>
        var row := UserRow(u, old(db.userSeq), now);
        && (err.None? <==> UserConflict(old(db.users), row, true).None?)
        && (err.None? ==> db.users == old(db.users)[row.id := StoredUser(row)])
        && (err.Some? ==> db.users == old(db.users) && err.value == UniqueViolation(UserConflict(old(db.users), row, true).value))
    {
      var saved := db.SaveUser(u, now);
      if saved.Err? {
        return Some(saved.error);
      }
      return None;
    }

    /** The join with tokens on (hash, scope, expiry > now), first user by id. */
    method GetForToken(scope: string, plaintext: string, now: int, prim: Primitives) returns (r: Result<User>)
      requires db.Valid()
      ensures var hash := prim.sha256(plaintext);
        && (r.Ok? <==> exists i | 0 <= i < |db.tokens| :: TokenMatches(db.tokens[i], hash, scope, now))
        && (r.Ok? ==> && r.value.id in db.users && db.users[r.value.id] == r.value
                      && Some(r.value.id) == LeastOwner(db.tokens, hash, scope, now))
        && (r.Err? ==> r.error == RecordNotFound)
    {
      var owner := LeastOwner(db.tokens, prim.sha256(plaintext), scope, now);
      LeastOwnerSpec(db.tokens, prim.sha256(plaintext), scope, now);
      if owner.None? {
        return Err(RecordNotFound);
      }
      return Ok(db.users[owner.value]);
    }

    /** The older GetForToken: the same join, selecting only name, username, email and
        skills, so the user returned carries id 0. */
    method GetForTokenPartial(scope: string, plaintext: string, now: int, prim: Primitives) returns (r: Result<User>)
      requires db.Valid()
      ensures var hash := prim.sha256(plaintext);
        && (r.Ok? <==> exists i | 0 <= i < |db.tokens| :: TokenMatches(db.tokens[i], hash, scope, now))
        && (r.Ok? ==> var owner := LeastOwner(db.tokens, hash, scope, now);
                      owner.Some? && owner.value in db.users && r.value == PartialUser(db.users[owner.value]))
        && (r.Err? ==> r.error == RecordNotFound)
    {
      var owner := LeastOwner(db.tokens, prim.sha256(plaintext), scope, now);
      LeastOwnerSpec(db.tokens, prim.sha256(plaintext), scope, now);
      if owner.None? {
        return Err(RecordNotFound);
      }
      return Ok(PartialUser(db.users[owner.value]));
    }

    /** Delete(&User{ID: id}): a zero id leaves the statement without a WHERE clause,
        which GORM refuses; otherwise the row goes, with its posts and tokens (ON DELETE
        CASCADE), and an id that affects no row is not found. */
    method Delete(id: int) returns (err: Option<Error>)
      requires db.Valid()
      modifies db
      ensures db.Valid()
      ensures id == 0 ==> err == Some(MissingWhereClause) && db.users == old(db.users)
                          && db.posts == old(db.posts) && db.tokens == old(db.tokens)
      ensures id != 0 ==>
        && (err.None? <==> id in old(db.users))
        && (err.Some? ==> err == Some(RecordNotFound))
        && db.users == old(db.users) - {id}
        && db.posts == RemovePosts(old(db.posts), PostsByAuthor(id))
        && db.tokens == RemoveTokens(old(db.tokens), TokensOfUser(id))
    {
      if id == 0 {
        return Some(MissingWhereClause);
      }
      var affected := db.DeleteUser(id);
      if !affected {
        return Some(RecordNotFound);
      }
      return None;
    }
  }
}
