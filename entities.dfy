/** The persisted entities (backend/internal/entity/users.go, backend/internal/entity/posts.go,
    user/models/users.go) and the credential value object. Times are nanoseconds on one
    clock; hashing primitives are parameters collected in `Primitives`. */
module Entities {
  import opened Common

  /** A credential: the plaintext is transient (never persisted), the hash is durable.
      `None` stands for Go's nil. */
  datatype Password = Password(plaintext: Option<string>, hash: Option<Bytes>)

  datatype User = User(
    id: int,
    createdAt: int,
    name: string,
    surname: string,
    username: string,
    telegram: string,
    discord: string,
    email: string,
    skills: seq<string>,
    password: Password,
    profileImage: string,
    activated: bool,
    version: int)

  datatype Post = Post(
    id: int,
    createdAt: int,
    name: string,
    description: string,
    authorId: int,
    postType: string,
    skills: seq<string>,
    version: int)

  datatype Token = Token(
    id: int,
    plaintext: string,
    hash: Bytes,
    userId: int,
    expiry: int,
    scope: string)

  const ScopeActivation: string := "activation"
  const ScopeAuthentication: string := "authentication"
  const ScopePasswordReset: string := "password-reset"

  /** time.Hour, in nanoseconds. */
  const Hour: int := 3_600_000_000_000

  /** What bcrypt.CompareHashAndPassword reports. */
  datatype Comparison = Match | Mismatch | Malformed

  /** The library primitives the core calls but does not define: SHA-256 of a string's
      bytes, bcrypt.GenerateFromPassword at cost 12 (None when it fails) and
      bcrypt.CompareHashAndPassword. */
  datatype Primitives = Primitives(
    sha256: string -> Bytes,
    bcrypt: string -> Option<Bytes>,
    compare: (Bytes, string) -> Comparison)

  /** password.Set: hash the plaintext; on success keep both. */
  function SetPassword(prim: Primitives, plaintext: string): (r: Result<Password>)
    ensures prim.bcrypt(plaintext).None? <==> r == Err(HashingFailed)
    ensures r.Ok? ==> r.value.plaintext == Some(plaintext) && r.value.hash == prim.bcrypt(plaintext)
  {
    match prim.bcrypt(plaintext)
    case None => Err(HashingFailed)
    case Some(h) => Ok(Password(Some(plaintext), Some(h)))
  }

  /** password.Matches: a mismatch is the answer `false`, not an error. A nil hash is
      handed to bcrypt as an empty one. */
  function Matches(prim: Primitives, p: Password, plaintext: string): (r: Result<bool>)
    ensures r == Ok(true) <==> prim.compare(if p.hash.Some? then p.hash.value else [], plaintext) == Match
    ensures r == Ok(false) <==> prim.compare(if p.hash.Some? then p.hash.value else [], plaintext) == Mismatch
    ensures r.Err? ==> r.error == HashMalformed
  {
    var hash := if p.hash.Some? then p.hash.value else [];
    match prim.compare(hash, plaintext)
    case Match => Ok(true)
    case Mismatch => Ok(false)
    case Malformed => Err(HashMalformed)
  }

  /** The row the database keeps for a user: the plaintext is never persisted. */
  function StoredUser(u: User): (r: User)
    ensures r.password.plaintext == None
    ensures r.(password := u.password) == u
  {
    u.(password := u.password.(plaintext := None))
  }

  /** The row the database keeps for a token: the plaintext column does not exist. */
  function StoredToken(t: Token): (r: Token)
    ensures r.plaintext == ""
    ensures r.(plaintext := t.plaintext) == t
  {
    t.(plaintext := "")
  }
}
