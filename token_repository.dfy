/** The token repository of token/repository/tokenImpl.go and its copy
    user/tokenRepository/tokenImpl.go: generating a token, storing it, deleting a user's
    tokens of one scope, and the copy's DeleteToken. The random source is a parameter
    (`entropy`, None when crypto/rand fails), and so are SHA-256 and the clock. */
module TokenRepository {
  import opened Common
  import opened Entities
  import opened Tables
  import opened Store
  import opened Base32
  import opened Validation

  /** generateToken: sixteen random bytes encoded in base32 without padding, stored
      through their SHA-256 hash, expiring `ttl` after `now`. */
  function GenerateToken(userId: int, ttl: int, scope: string, now: int, entropy: Option<Bytes>, prim: Primitives): (r: Result<Token>)
    requires entropy.Some? ==> |entropy.value| == 16
    ensures r.Err? <==> entropy.None?
    ensures r.Err? ==> r.error == RandomSourceFailed
    ensures r.Ok? ==>
      && r.value.id == 0 && r.value.userId == userId && r.value.scope == scope && r.value.expiry == now + ttl
      && |r.value.plaintext| == 26 && InAlphabet(r.value.plaintext)
      && r.value.hash == prim.sha256(r.value.plaintext)
  {
    match entropy
    case None => Err(RandomSourceFailed)
    case Some(bytes) =>
      SixteenBytes(bytes);
      var plaintext := EncodeNoPadding(bytes);
      Ok(Token(0, plaintext, prim.sha256(plaintext), userId, now + ttl, scope))
  }

  /** What ValidateTokenPlaintext records. */
  function TokenPlaintextErrors(plaintext: string): (r: seq<FieldError>)
    ensures r == [] <==> ByteLen(plaintext) == 26
    ensures forall e :: e in r ==> e.key == "token"
  {
    CheckErrors(plaintext != "", "token", "must be provided")
    + CheckErrors(ByteLen(plaintext) == 26, "token", "must be 26 bytes long")
  }

  method ValidateTokenPlaintext(v: Validator, plaintext: string)
    modifies v
    ensures v.errors == old(v.errors) + TokenPlaintextErrors(plaintext)
  {
    v.Check(plaintext != "", "token", "must be provided");
    v.Check(ByteLen(plaintext) == 26, "token", "must be 26 bytes long");
  }

  lemma {:induction false} AlphabetIsAscii(s: string)
    requires InAlphabet(s)
    ensures IsAscii(s)
  {
    forall i | 0 <= i < |s| ensures (s[i] as int) < 0x80 {
      var k :| 0 <= k < |Alphabet| && Alphabet[k] == s[i];
    }
  }

  /** Every generated plaintext passes ValidateTokenPlaintext. */
  lemma GeneratedTokenValid(userId: int, ttl: int, scope: string, now: int, entropy: Option<Bytes>, prim: Primitives)
    requires entropy.Some? && |entropy.value| == 16
    ensures GenerateToken(userId, ttl, scope, now, entropy, prim).Ok?
    ensures TokenPlaintextErrors(GenerateToken(userId, ttl, scope, now, entropy, prim).value.plaintext) == []
  {
    var plaintext := GenerateToken(userId, ttl, scope, now, entropy, prim).value.plaintext;
    AlphabetIsAscii(plaintext);
    AsciiByteLen(plaintext);
  }

  /** The position of the first token of a user in primary-key order: the row
      `WHERE user_id = ? ... First` reads. */
  function FirstTokenOf(tokens: seq<Token>, userId: int): (r: Option<nat>)
    ensures r.Some? ==> r.value < |tokens| && tokens[r.value].userId == userId
  {
    if tokens == [] then None
    else if tokens[0].userId == userId then Some(0)
    else
      match FirstTokenOf(tokens[1..], userId)
      case None => None
      case Some(i) => Some(i + 1)
  }

  /** No token of the user is found exactly when the user has none, and the one found
      has the least id among the user's tokens. */
  lemma {:induction false} FirstTokenOfSpec(tokens: seq<Token>, userId: int)
    requires TokenIdsIncreasing(tokens)
    ensures FirstTokenOf(tokens, userId).None? <==> forall t | t in tokens :: t.userId != userId
    ensures FirstTokenOf(tokens, userId).Some? ==>
      forall t | t in tokens && t.userId == userId :: tokens[FirstTokenOf(tokens, userId).value].id <= t.id
  {
    if tokens != [] {
      IncreasingTail(tokens);
      FirstTokenOfSpec(tokens[1..], userId);
      assert tokens == [tokens[0]] + tokens[1..];
    }
  }

  /** DeleteToken's decision: the id of the token to delete, or why nothing is deleted. */
  function DeleteTokenTarget(tokens: seq<Token>, userId: int, tokenString: string): (r: Result<int>)
  {
    match FirstTokenOf(tokens, userId)
    case None => Err(RecordNotFound)
    case Some(i) => if tokenString != tokens[i].plaintext then Err(TokenMismatch) else Ok(tokens[i].id)
  }

  /** The plaintext is not a column, so a stored token reads back with an empty
      plaintext: DeleteToken deletes something only when handed the empty string. */
  lemma DeleteTokenNeedsEmptyString(tokens: seq<Token>, users: map<int, User>, nextId: int, userId: int, tokenString: string)
    requires TokensValid(tokens, users, nextId)
    ensures DeleteTokenTarget(tokens, userId, tokenString).Ok? <==>
      tokenString == "" && exists i | 0 <= i < |tokens| :: tokens[i].userId == userId
    ensures DeleteTokenTarget(tokens, userId, tokenString).Ok? ==>
      DeleteTokenTarget(tokens, userId, tokenString).value == tokens[FirstTokenOf(tokens, userId).value].id
  {
    FirstTokenOfSpec(tokens, userId);
    if FirstTokenOf(tokens, userId).None? {
      forall i | 0 <= i < |tokens| ensures tokens[i].userId != userId {
        assert tokens[i] in tokens;
      }
    }
  }

  class TokenRepository {
    const db: Database

    constructor (db: Database)
      ensures this.db == db
    {
      this.db := db;
    }

    /** Create: the token with the id the sequence gives it; the plaintext is not kept. */
    method Insert(t: Token) returns (r: Result<Token>)
      requires db.Valid()
      requires t.id == 0
      modifies db
      ensures db.Valid()
      ensures db.users == old(db.users) && db.posts == old(db.posts)
      ensures r.Ok? <==> t.userId in db.users
      ensures r.Ok? ==> r.value == t.(id := old(db.tokenSeq)) && db.tokens == old(db.tokens) + [StoredToken(r.value)]
      ensures r.Err? ==> r.error == ForeignKeyViolation("fk_users_tokens") && db.tokens == old(db.tokens)
    {
      r := db.InsertToken(t);
    }

    /** New: generate, then insert. A failed random source inserts nothing; a failed
        insert still hands back the generated token, together with the error. */
    method New(userId: int, ttl: int, scope: string, now: int, entropy: Option<Bytes>, prim: Primitives)
      returns (token: Option<Token>, err: Option<Error>)
      requires db.Valid()
      requires entropy.Some? ==> |entropy.value| == 16
      modifies db
      ensures db.Valid()
      ensures db.users == old(db.users) && db.posts == old(db.posts)
      ensures entropy.None? ==> token == None && err == Some(RandomSourceFailed)
                                && db.tokens == old(db.tokens) && db.tokenSeq == old(db.tokenSeq)
      ensures entropy.Some? ==>
        var generated := GenerateToken(userId, ttl, scope, now, entropy, prim).value;
        && (err.None? <==> userId in old(db.users))
        && (err.None? ==> token == Some(generated.(id := old(db.tokenSeq)))
                          && db.tokens == old(db.tokens) + [StoredToken(token.value)])
        && (err.Some? ==> token == Some(generated) && err == Some(ForeignKeyViolation("fk_users_tokens"))
                          && db.tokens == old(db.tokens))
    {
      var generated := GenerateToken(userId, ttl, scope, now, entropy, prim);
      if generated.Err? {
        return None, Some(generated.error);
      }
      var inserted := Insert(generated.value);
      if inserted.Err? {
        return Some(generated.value), Some(inserted.error);
      }
      return Some(inserted.value), None;
    }

    /** DELETE FROM tokens WHERE scope = ? AND user_id = ?: exactly the user's tokens of
        that scope go; every other token stays, in order. */
    method DeleteAllForUser(scope: string, userId: int) returns (err: Option<Error>)
      requires db.Valid()
      modifies db
      ensures db.Valid()
      ensures err == None
      ensures db.users == old(db.users) && db.posts == old(db.posts) && db.tokenSeq == old(db.tokenSeq)
      ensures db.tokens == RemoveTokens(old(db.tokens), ScopeOfUser(scope, userId))
      ensures forall t :: t in db.tokens <==> t in old(db.tokens) && !(t.scope == scope && t.userId == userId)
    {
      db.DeleteTokens(ScopeOfUser(scope, userId));
      RemoveTokensMembers(old(db.tokens), ScopeOfUser(scope, userId));
      return None;
    }

    /** DeleteToken: read the user's first token, whatever its scope, compare the string
        with its plaintext, and delete that token by its id. */
    method DeleteToken(userId: int, tokenString: string) returns (err: Option<Error>)
      requires db.Valid()
      modifies db
      ensures db.Valid()
      ensures db.users == old(db.users) && db.posts == old(db.posts) && db.tokenSeq == old(db.tokenSeq)
      ensures var target := DeleteTokenTarget(old(db.tokens), userId, tokenString);
        && (err.None? <==> target.Ok?)
        && (err.None? ==> db.tokens == RemoveTokens(old(db.tokens), TokenWithId(target.value)))
        && (err.Some? ==> err == Some(target.error) && db.tokens == old(db.tokens))
    {
      var first := FirstTokenOf(db.tokens, userId);
      if first.None? {
        return Some(RecordNotFound);
      }
      var token := db.tokens[first.value];
      if tokenString != token.plaintext {
        return Some(TokenMismatch);
      }
      db.DeleteTokens(TokenWithId(token.id));
      return None;
    }
  }
}
