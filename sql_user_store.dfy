/** The hand-written SQL user store of internal/data/users.go: INSERT ... RETURNING, the
    versioned UPDATE, the token join and DELETE. As written that file names user fields
    (password, id, creation time, version, activation) that the User type it imports
    lacks, so it does not compile; this module models its evident intent over the
    fields of Entities.User. Its three plain reads (GetByID, Get, GetByEmail) would scan
    into a nil pointer and cannot succeed; they are not modelled. */
module SqlUserStore {
  import opened Common
  import opened Entities
  import opened Tables
  import opened Store

  /** The row the INSERT writes: name, username, email, password hash and activation
      state; the id, creation time and version come from the column defaults and every
      other column is empty. */
  function InsertedColumns(u: User): (r: User)
    ensures r.id == 0 && r.version == 0 && r.createdAt == 0 && r.password == Password(None, u.password.hash)
    ensures r.name == u.name && r.username == u.username && r.email == u.email && r.activated == u.activated
    ensures r.surname == r.telegram == r.discord == r.profileImage == "" && r.skills == []
  {
    User(0, 0, u.name, "", u.username, "", "", u.email, [], Password(None, u.password.hash), "", u.activated, 0)
  }

  /** The columns the token join selects; surname, telegram, discord and the profile
      image stay empty. */
  function TokenUserColumns(u: User): (r: User)
    ensures r.(surname := u.surname, telegram := u.telegram, discord := u.discord, profileImage := u.profileImage,
               password := u.password) == u
    ensures r.surname == r.telegram == r.discord == r.profileImage == "" && r.password == Password(None, u.password.hash)
  {
    u.(surname := "", telegram := "", discord := "", profileImage := "", password := Password(None, u.password.hash))
  }

  class SqlUserStore {
    const db: Database

    constructor (db: Database)
      ensures this.db == db
    {
      this.db := db;
    }

    /** INSERT INTO users ... RETURNING id, created_at, version: the argument with those
        three fields read back, or the duplicate-email error when the email is taken. */
    method Insert(u: User, now: int) returns (r: Result<User>)
      requires db.Valid()
      modifies db
      ensures db.Valid()
      ensures db.posts == old(db.posts) && db.tokens == old(db.tokens) && db.tokenSeq == old(db.tokenSeq)
      ensures var row := UserRow(InsertedColumns(u), old(db.userSeq), now);
        && (r.Ok? <==> UserConflict(old(db.users), row, true).None?)
        && (r.Ok? ==> && db.users == old(db.users)[row.id := row]
                      && r.value == u.(id := row.id, createdAt := row.createdAt, version := row.version)
                      && r.value.version == 1)
        && (r.Err? ==> db.users == old(db.users))
        && (r == Err(DuplicateEmail) <==> UserConflict(old(db.users), row, true) == Some("users_email_key"))
    {
      var inserted := db.CreateUser(InsertedColumns(u), now);
      if inserted.Err? {
        if inserted.error == UniqueViolation("users_email_key") {
          return Err(DuplicateEmail);
        }
        return Err(inserted.error);
      }
      var row := inserted.value;
      return Ok(u.(id := row.id, createdAt := row.createdAt, version := row.version));
    }

    /** UPDATE users SET ... version = version + 1 WHERE id = $10 AND version = $11
        RETURNING version: the new version, not found when the row is gone or changed
        since it was read, the duplicate-email error when the email is taken. */
    method Update(u: User) returns (r: Result<int>)
      requires db.Valid()
      modifies db
      ensures db.Valid()
      ensures db.posts == old(db.posts) && db.tokens == old(db.tokens) && db.tokenSeq == old(db.tokenSeq)
      ensures var swapped := Tables.CompareAndSwapUser(old(db.users), u);
        && (r.Ok? <==> swapped.Ok?)
        && (r.Ok? ==> r.value == u.version + 1 && db.users == swapped.value)
        && (r.Err? ==> db.users == old(db.users))
        && (r == Err(RecordNotFound) <==> u.id !in old(db.users) || old(db.users)[u.id].version != u.version)
        && (r == Err(DuplicateEmail) <==> swapped == Err(UniqueViolation("users_email_key")))
    {
      CompareAndSwapUserSpec(db.users, u);
      r := db.CompareAndSwapUser(u);
      if r.Err? && r.error == UniqueViolation("users_email_key") {
        r := Err(DuplicateEmail);
      }
    }

    /** The token join through QueryRow, with no ORDER BY: some user owning a matching
        token, in the selected columns, or not found. */
    method GetForToken(scope: string, plaintext: string, now: int, prim: Primitives) returns (r: Result<User>)
      requires db.Valid()
      ensures var hash := prim.sha256(plaintext);
        && (r.Ok? <==> exists i | 0 <= i < |db.tokens| :: TokenMatches(db.tokens[i], hash, scope, now))
        && (r.Ok? ==> exists i | 0 <= i < |db.tokens| ::
              && TokenMatches(db.tokens[i], hash, scope, now)
              && db.tokens[i].userId in db.users
              && r.value == TokenUserColumns(db.users[db.tokens[i].userId]))
        && (r.Err? ==> r.error == RecordNotFound)
    {
      var hash := prim.sha256(plaintext);
      if !exists i | 0 <= i < |db.tokens| :: TokenMatches(db.tokens[i], hash, scope, now) {
        return Err(RecordNotFound);
      }
      var i :| 0 <= i < |db.tokens| && TokenMatches(db.tokens[i], hash, scope, now);
      return Ok(TokenUserColumns(db.users[db.tokens[i].userId]));
    }

    /** DELETE FROM users WHERE id = $1, cascading to posts and tokens; ids below 1 and
        ids that affect no row are not found. */
    method Delete(id: int) returns (err: Option<Error>)
      requires db.Valid()
      modifies db
      ensures db.Valid()
      ensures id < 1 ==> err == Some(RecordNotFound) && db.users == old(db.users)
                         && db.posts == old(db.posts) && db.tokens == old(db.tokens)
      ensures id >= 1 ==>
        && (err.None? <==> id in old(db.users))
        && (err.Some? ==> err == Some(RecordNotFound))
        && db.users == old(db.users) - {id}
        && db.posts == RemovePosts(old(db.posts), PostsByAuthor(id))
        && db.tokens == RemoveTokens(old(db.tokens), TokensOfUser(id))
    {
      if id < 1 {
        return Some(RecordNotFound);
      }
      var affected := db.DeleteUser(id);
      if !affected {
        return Some(RecordNotFound);
      }
      return None;
    }
  }
}
