/** The user use case of backend/user/usecase/userUsecaseImpl.go and its older copy
    user/usecase/userUsecaseImpl.go: activation, password change and reset,
    registration with its activation token, profile edits and the numbering of
    profile-image URLs. Both copies share `ChangePassword`, `Registration` and
    `CreateActivationToken`; the older copy's activation reads the user through the
    four-column token join and is `LegacyActivation`. The use case's two repositories
    work on one database. */
module UserUseCase {
  import opened Common
  import opened Entities
  import opened Tables
  import opened Store
  import opened Strconv
  import opened Validation
  import opened UserValidation
  import opened UserRepository
  import opened TokenRepository

  const DefaultPhoto: string := "https://storage.googleapis.com/teamfinderimages/default_photo.png"
  const ImageBase: string := "https://storage.googleapis.com/teamfinderimages/"

  /** The URL of the n-th profile image of a user. */
  function ImageUrl(userId: int, n: int): string
  {
    ImageBase + FormatInt(userId) + "/" + FormatInt(n)
  }

  /** The URL the next upload gets: the first image after the default photo, otherwise
      the number after the last slash of the current URL plus one (Go's `int`, so it
      wraps at the top of the range); a suffix that is not a number is an error. */
  function NextProfileImageURL(userId: int, current: string): (r: Result<string>)
    ensures current == DefaultPhoto ==> r == Ok(ImageUrl(userId, 1))
    ensures r.Err? ==> current != DefaultPhoto && r.error.NumberSyntax?
    ensures r.Ok? ==> exists n :: r.value == ImageUrl(userId, n)
  {
    if current == DefaultPhoto then Ok(ImageUrl(userId, 1))
    else
      var suffix := current[LastIndex(current, '/') + 1..];
      match Atoi(suffix)
      case None => Err(NumberSyntax(suffix))
      case Some(n) => Ok(ImageUrl(userId, WrapInt64(n + 1)))
  }

  lemma LastSlash(prefix: string, numeral: string)
    requires forall i | 0 <= i < |numeral| :: numeral[i] != '/'
    ensures LastIndex(prefix + "/" + numeral, '/') == |prefix|
  {
    var s := prefix + "/" + numeral;
    assert s[|prefix|] == '/';
  }

  /** Uploads count up: after the n-th image of any user comes the (n+1)-th image of
      this user. */
  lemma {:induction false} NextImageCountsUp(owner: int, userId: int, n: int)
    requires InInt64(n)
    ensures NextProfileImageURL(userId, ImageUrl(owner, n)) == Ok(ImageUrl(userId, WrapInt64(n + 1)))
  {
    var current := ImageUrl(owner, n);
    var prefix := ImageBase + FormatInt(owner);
    assert current == prefix + "/" + FormatInt(n);
    LastSlash(prefix, FormatInt(n));
    assert current[|prefix| + 1..] == FormatInt(n);
    AtoiFormatInt(n);
    assert current[|ImageBase|] != DefaultPhoto[|ImageBase|];
  }

  /** The older activation's write: the four-column copy of a token owner, marked
      activated and carrying id 0, is inserted by Save and collides with its owner. */
  lemma PartialUserCannotBeSaved(users: map<int, User>, owner: int, nextId: int, now: int)
    requires owner in users
    ensures UserConflict(users, UserRow(PartialUser(users[owner]).(activated := true), nextId, now), true).Some?
  {
    InsertOfStoredUsernameFails(users, UserRow(PartialUser(users[owner]).(activated := true), nextId, now), owner);
  }

  /** An edit that keeps the stored email cannot collide on the email key. */
  lemma KeptEmailIsFree(users: map<int, User>, u: User)
    requires UsersValid(users)
    requires u.id in users && u.email == users[u.id].email
    ensures !EmailTaken(users, u)
  {
  }

  /** The edit UpdateUserInfo applies: the profile fields from the request, the image
      only when one is given, the version one up; email, password, activation, id and
      creation time are kept. */
  function EditedUser(u: User, name: string, surname: string, username: string, telegram: string, discord: string,
                      skills: seq<string>, profileImage: string): (r: User)
    ensures r.name == name && r.surname == surname && r.username == username
    ensures r.telegram == telegram && r.discord == discord && r.skills == skills
    ensures r.profileImage == if profileImage != "" then profileImage else u.profileImage
    ensures r.version == u.version + 1
    ensures r.email == u.email && r.password == u.password && r.activated == u.activated
    ensures r.id == u.id && r.createdAt == u.createdAt
  {
    u.(name := name, surname := surname, username := username, telegram := telegram, discord := discord,
       skills := skills, version := u.version + 1,
       profileImage := if profileImage != "" then profileImage else u.profileImage)
  }

  /** What ChangePassword makes of the stored user: the row with the new hash, or why
      nothing is written. The current password is checked first, then the new one's
      length, then the hashing. */
  function PasswordChange(stored: User, currentPassword: string, newPassword: string, prim: Primitives): (r: Result<User>)
    ensures r.Ok? <==>
      && Matches(prim, stored.password, currentPassword) == Ok(true)
      && 8 <= ByteLen(newPassword) <= 72
      && prim.bcrypt(newPassword).Some?
    ensures Matches(prim, stored.password, currentPassword) == Ok(false) ==> r == Err(WrongPassword)
    ensures Matches(prim, stored.password, currentPassword) == Ok(true) && !(8 <= ByteLen(newPassword) <= 72) ==>
      r == Err(PasswordRejected)
    ensures r.Ok? ==> r.value == stored.(password := Password(None, prim.bcrypt(newPassword)))
  {
    match Matches(prim, stored.password, currentPassword)
    case Err(e) => Err(e)
    case Ok(false) => Err(WrongPassword)
    case Ok(true) =>
      if PasswordPlaintextErrors(newPassword) != [] then Err(PasswordRejected)
      else match SetPassword(prim, newPassword)
        case Err(e) => Err(e)
        case Ok(p) => Ok(stored.(password := p.(plaintext := None)))
  }

  class UserUseCase {
    const repo: UserRepository
    const tokenRepo: TokenRepository

    constructor (repo: UserRepository, tokenRepo: TokenRepository)
      requires repo.db == tokenRepo.db
      ensures this.repo == repo && this.tokenRepo == tokenRepo
    {
      this.repo := repo;
      this.tokenRepo := tokenRepo;
    }

    /** Activation: find the user through an unexpired activation token, save the user
        as activated, then delete the user's activation tokens (and no other token). */
    method Activation(plaintext: string, now: int, prim: Primitives) returns (err: Option<Error>)
      requires repo.db == tokenRepo.db && repo.db.Valid()
      modifies repo.db
      ensures repo.db.Valid()
      ensures repo.db.posts == old(repo.db.posts)
      ensures var owner := LeastOwner(old(repo.db.tokens), prim.sha256(plaintext), ScopeActivation, now);
        && (owner.None? ==> err == Some(RecordNotFound) && repo.db.users == old(repo.db.users)
                            && repo.db.tokens == old(repo.db.tokens))
        && (owner.Some? ==>
              && err == None
              && owner.value in old(repo.db.users)
              && repo.db.users == old(repo.db.users)[owner.value := old(repo.db.users)[owner.value].(activated := true)]
              && repo.db.tokens == RemoveTokens(old(repo.db.tokens), ScopeOfUser(ScopeActivation, owner.value)))
    {
      LeastOwnerSpec(repo.db.tokens, prim.sha256(plaintext), ScopeActivation, now);
      var found := repo.GetForToken(ScopeActivation, plaintext, now, prim);
      if found.Err? {
        return Some(found.error);
      }
      var user := found.value.(activated := true);
      RewriteKeepsKeys(repo.db.users, user);
      err := repo.Update(user, now);
      if err.Some? {
        return err;
      }
      err := tokenRepo.DeleteAllForUser(ScopeActivation, user.id);
    }

    /** The older Activation: the user read through the four-column join carries id 0,
        so Save inserts a copy of the user instead of updating it. The copy repeats the
        owner's username, so the insert always fails: no user is ever activated and no
        activation token is deleted; only an id of the users sequence is used up. */
    method LegacyActivation(plaintext: string, now: int, prim: Primitives) returns (err: Option<Error>)
      requires repo.db == tokenRepo.db && repo.db.Valid()
      modifies repo.db
      ensures repo.db.Valid()
      ensures repo.db.users == old(repo.db.users) && repo.db.posts == old(repo.db.posts)
      ensures repo.db.tokens == old(repo.db.tokens)
      ensures var owner := LeastOwner(old(repo.db.tokens), prim.sha256(plaintext), ScopeActivation, now);
        && (owner.None? ==> err == Some(RecordNotFound))
        && (owner.Some? ==> err.Some? && err.value.UniqueViolation?)
    {
      LeastOwnerSpec(repo.db.tokens, prim.sha256(plaintext), ScopeActivation, now);
      var found := repo.GetForTokenPartial(ScopeActivation, plaintext, now, prim);
      if found.Err? {
        return Some(found.error);
      }
      var user := found.value.(activated := true);
      ghost var owner := LeastOwner(repo.db.tokens, prim.sha256(plaintext), ScopeActivation, now).value;
      PartialUserCannotBeSaved(repo.db.users, owner, repo.db.userSeq, now);
      err := repo.Update(user, now);
      if err.None? {
        // The source deletes the activation tokens here; the insert above never succeeds.
        assert false;
      }
    }

    /** ChangePassword: the stored user, the current password checked, the new one
        validated and hashed, then saved. */
    method ChangePassword(userId: int, currentPassword: string, newPassword: string, now: int, prim: Primitives)
      returns (err: Option<Error>)
      requires repo.db.Valid()
      modifies repo.db
      ensures repo.db.Valid()
      ensures repo.db.posts == old(repo.db.posts) && repo.db.tokens == old(repo.db.tokens)
      ensures userId !in old(repo.db.users) ==> err == Some(RecordNotFound) && repo.db.users == old(repo.db.users)
      ensures userId in old(repo.db.users) ==>
        var change := PasswordChange(old(repo.db.users)[userId], currentPassword, newPassword, prim);
        && (change.Err? ==> err == Some(change.error) && repo.db.users == old(repo.db.users))
        && (change.Ok? ==> err == None && repo.db.users == old(repo.db.users)[userId := change.value])
    {
      var found := repo.GetByID(userId);
      if found.Err? {
        return Some(found.error);
      }
      var user := found.value;
      var match_ := Matches(prim, user.password, currentPassword);
      if match_.Err? {
        return Some(match_.error);
      }
      if !match_.value {
        return Some(WrongPassword);
      }
      var v := new Validator();
      ValidatePasswordPlaintext(v, newPassword);
      if !v.Valid() {
        return Some(PasswordRejected);
      }
      var password := SetPassword(prim, newPassword);
      if password.Err? {
        return Some(password.error);
      }
      user := user.(password := password.value);
      RewriteKeepsKeys(repo.db.users, user);
      err := repo.Update(user, now);
    }

    /** createActivationToken: a token of scope activation living one hour; a failed
        insert yields no token. */
    method CreateActivationToken(user: User, now: int, entropy: Option<Bytes>, prim: Primitives)
      returns (token: Option<Token>, err: Option<Error>)
      requires repo.db == tokenRepo.db && repo.db.Valid()
      requires entropy.Some? ==> |entropy.value| == 16
      modifies repo.db
      ensures repo.db.Valid()
      ensures repo.db.users == old(repo.db.users) && repo.db.posts == old(repo.db.posts)
      ensures token.Some? <==> err.None?
      ensures err.None? <==> entropy.Some? && user.id in old(repo.db.users)
      ensures err.None? ==>
        && token.value == GenerateToken(user.id, Hour, ScopeActivation, now, entropy, prim).value.(id := old(repo.db.tokenSeq))
        && repo.db.tokens == old(repo.db.tokens) + [StoredToken(token.value)]
      ensures err.Some? ==> repo.db.tokens == old(repo.db.tokens)
      ensures entropy.None? ==> err == Some(RandomSourceFailed)
    {
      token, err := tokenRepo.New(user.id, Hour, ScopeActivation, now, entropy, prim);
      if token.None? || err.Some? {
        return None, err;
      }
    }

    /** Registration: insert the user, then issue its activation token; a failed insert
        issues no token. */
    method Registration(u: User, now: int, entropy: Option<Bytes>, prim: Primitives)
      returns (token: Option<Token>, err: Option<Error>)
      requires repo.db == tokenRepo.db && repo.db.Valid()
      requires entropy.Some? ==> |entropy.value| == 16
      modifies repo.db
      ensures repo.db.Valid()
      ensures repo.db.posts == old(repo.db.posts)
      ensures var row := UserRow(u, old(repo.db.userSeq), now);
        && (UserConflict(old(repo.db.users), row, true).Some? ==>
              && token == None && err.Some?
              && repo.db.users == old(repo.db.users) && repo.db.tokens == old(repo.db.tokens))
        && (UserConflict(old(repo.db.users), row, true).None? ==>
              && repo.db.users == old(repo.db.users)[row.id := StoredUser(row)]
              && (entropy.None? ==> token == None && err == Some(RandomSourceFailed) && repo.db.tokens == old(repo.db.tokens))
              && (entropy.Some? ==>
                    && err == None
                    && token == Some(GenerateToken(row.id, Hour, ScopeActivation, now, entropy, prim).value.(id := old(repo.db.tokenSeq)))
                    && repo.db.tokens == old(repo.db.tokens) + [StoredToken(token.value)]))
    {
      var inserted := repo.Insert(u, now);
      if inserted.Err? {
        return None, Some(inserted.error);
      }
      token, err := CreateActivationToken(inserted.value, now, entropy, prim);
    }

    /** UpdateUserInfo: the stored user edited and saved; it fails only when another
        user holds the new username. */
    method UpdateUserInfo(userId: int, name: string, surname: string, username: string, telegram: string,
                          discord: string, skills: seq<string>, profileImage: string, now: int)
      returns (err: Option<Error>)
      requires repo.db.Valid()
      modifies repo.db
      ensures repo.db.Valid()
      ensures repo.db.posts == old(repo.db.posts) && repo.db.tokens == old(repo.db.tokens)
      ensures userId !in old(repo.db.users) ==> err == Some(RecordNotFound) && repo.db.users == old(repo.db.users)
      ensures userId in old(repo.db.users) ==>
        var edited := EditedUser(old(repo.db.users)[userId], name, surname, username, telegram, discord, skills, profileImage);
        && (err.None? <==> !UsernameTaken(old(repo.db.users), edited))
        && (err.None? ==> repo.db.users == old(repo.db.users)[userId := edited])
        && (err.Some? ==> err == Some(UniqueViolation("users_username_key")) && repo.db.users == old(repo.db.users))
    {
      var found := repo.GetByID(userId);
      if found.Err? {
        return Some(found.error);
      }
      var user := EditedUser(found.value, name, surname, username, telegram, discord, skills, profileImage);
      KeptEmailIsFree(repo.db.users, user);
      err := repo.Update(user, now);
    }

    /** UploadProfileImage: after the stored user is read and the file is stored
        (`uploaded`), the URL of the next image; nothing is written to the database. */
    method UploadProfileImage(userId: int, uploaded: bool) returns (r: Result<string>)
      requires repo.db.Valid()
      ensures userId !in repo.db.users ==> r == Err(RecordNotFound)
      ensures userId in repo.db.users && !uploaded ==> r == Err(UploadFailed)
      ensures userId in repo.db.users && uploaded ==> r == NextProfileImageURL(userId, repo.db.users[userId].profileImage)
    {
      var found := repo.GetByID(userId);
      if found.Err? {
        return Err(found.error);
      }
      if !uploaded {
        return Err(UploadFailed);
      }
      var user := found.value;
      r := NextProfileImageURL(user.id, user.profileImage);
    }

    /** ForgotPassword: a password-reset token living 24 hours for the user with that
        email; the plaintext is handed back, only its hash is stored. */
    method ForgotPassword(email: string, now: int, entropy: Option<Bytes>, prim: Primitives) returns (r: Result<string>)
      requires repo.db == tokenRepo.db && repo.db.Valid()
      requires entropy.Some? ==> |entropy.value| == 16
      modifies repo.db
      ensures repo.db.Valid()
      ensures repo.db.users == old(repo.db.users) && repo.db.posts == old(repo.db.posts)
      ensures (forall id | id in old(repo.db.users) :: !FoldEq(old(repo.db.users)[id].email, email)) ==>
        r == Err(RecordNotFound) && repo.db.tokens == old(repo.db.tokens)
      ensures r.Err? ==> repo.db.tokens == old(repo.db.tokens)
      ensures r.Ok? <==> entropy.Some? && exists id | id in old(repo.db.users) :: FoldEq(old(repo.db.users)[id].email, email)
      ensures r.Ok? ==>
        && |repo.db.tokens| == |old(repo.db.tokens)| + 1
        && repo.db.tokens[..|old(repo.db.tokens)|] == old(repo.db.tokens)
        && var t := repo.db.tokens[|old(repo.db.tokens)|];
        && t.userId in repo.db.users && FoldEq(repo.db.users[t.userId].email, email)
        && t.scope == ScopePasswordReset && t.expiry == now + 24 * Hour
        && t.hash == prim.sha256(r.value) && |r.value| == 26
    {
      var found := repo.GetByEmail(email);
      if found.Err? {
        return Err(found.error);
      }
      var token, e := tokenRepo.New(found.value.id, 24 * Hour, ScopePasswordReset, now, entropy, prim);
      if e.Some? {
        return Err(e.value);
      }
      return Ok(token.value.plaintext);
    }

    /** ResetPassword: find the user through an unexpired password-reset token, store
        the new hash, then delete the user's password-reset tokens. The new password is
        not validated. */
    method ResetPassword(tokenString: string, newPassword: string, now: int, prim: Primitives) returns (err: Option<Error>)
      requires repo.db == tokenRepo.db && repo.db.Valid()
      modifies repo.db
      ensures repo.db.Valid()
      ensures repo.db.posts == old(repo.db.posts)
      ensures var owner := LeastOwner(old(repo.db.tokens), prim.sha256(tokenString), ScopePasswordReset, now);
        && (owner.None? ==> err == Some(InvalidToken) && repo.db.users == old(repo.db.users)
                            && repo.db.tokens == old(repo.db.tokens))
        && (owner.Some? && prim.bcrypt(newPassword).None? ==>
              err == Some(HashingFailed) && repo.db.users == old(repo.db.users) && repo.db.tokens == old(repo.db.tokens))
        && (owner.Some? && prim.bcrypt(newPassword).Some? ==>
              && err == None
              && owner.value in old(repo.db.users)
              && repo.db.users == old(repo.db.users)[owner.value :=
                   old(repo.db.users)[owner.value].(password := Password(None, prim.bcrypt(newPassword)))]
              && repo.db.tokens == RemoveTokens(old(repo.db.tokens), ScopeOfUser(ScopePasswordReset, owner.value)))
    {
      var v := new Validator();
      LeastOwnerSpec(repo.db.tokens, prim.sha256(tokenString), ScopePasswordReset, now);
      var found := repo.GetForToken(ScopePasswordReset, tokenString, now, prim);
      if found.Err? {
        v.AddError("token", "invalid or expired password reset token");
        return Some(InvalidToken);
      }
      var user := found.value;
      var password := SetPassword(prim, newPassword);
      if password.Err? {
        return Some(password.error);
      }
      user := user.(password := password.value);
      RewriteKeepsKeys(repo.db.users, user);
      err := repo.Update(user, now);
      if err.Some? {
        return err;
      }
      err := tokenRepo.DeleteAllForUser(ScopePasswordReset, user.id);
    }
  }
}
