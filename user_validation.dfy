/** The field validators of internal/data/users.go. Each one appends its findings to a
    validator; the functions say which findings, the methods append them. The email
    pattern (validator.EmailRX) is not part of this model and is a parameter. That file
    reads a password the User type it imports does not have; the validators are
    modelled over the fields of Entities.User, as the code evidently intends. */
module UserValidation {
  import opened Common
  import opened Entities
  import opened Validation

  function EmailErrors(email: string, emailPattern: string -> bool): (r: seq<FieldError>)
    ensures r == [] <==> email != "" && emailPattern(email)
    ensures forall e :: e in r ==> e.key == "email"
  {
    CheckErrors(email != "", "email", "must be provided")
    + CheckErrors(emailPattern(email), "email", "must be a valid email address")
  }

  function UsernameErrors(username: string): (r: seq<FieldError>)
    ensures r == [] <==> 0 < ByteLen(username) <= 500
    ensures forall e :: e in r ==> e.key == "username"
  {
    CheckErrors(username != "", "username", "must be provided")
    + CheckErrors(ByteLen(username) <= 500, "username", "must not be more than 500 bytes long")
  }

  function PasswordPlaintextErrors(password: string): (r: seq<FieldError>)
    ensures r == [] <==> 8 <= ByteLen(password) <= 72
    ensures forall e :: e in r ==> e.key == "password"
  {
    CheckErrors(password != "", "password", "must be provided")
    + CheckErrors(ByteLen(password) >= 8, "password", "must be at least 8 bytes long")
    + CheckErrors(ByteLen(password) <= 72, "password", "must not be more than 72 bytes long")
  }

  function NameErrors(name: string): (r: seq<FieldError>)
    ensures r == [] <==> 0 < ByteLen(name) <= 500
    ensures forall e :: e in r ==> e.key == "name"
  {
    CheckErrors(name != "", "name", "must be provided")
    + CheckErrors(ByteLen(name) <= 500, "name", "must not be more than 500 bytes long")
  }

  /** ValidateUser panics on a missing password hash: calling it without one is a
      programming error, so the hash is a precondition. */
  function UserErrors(u: User, emailPattern: string -> bool): (r: seq<FieldError>)
    requires u.password.hash.Some?
    ensures r == [] <==>
      && 0 < ByteLen(u.name) <= 500
      && u.email != "" && emailPattern(u.email)
      && 0 < ByteLen(u.username) <= 500
      && (u.password.plaintext.Some? ==> 8 <= ByteLen(u.password.plaintext.value) <= 72)
    ensures forall e :: e in r ==> e.key in {"name", "email", "username", "password"}
  {
    NameErrors(u.name)
    + EmailErrors(u.email, emailPattern)
    + UsernameErrors(u.username)
    + (if u.password.plaintext.Some? then PasswordPlaintextErrors(u.password.plaintext.value) else [])
  }

  method ValidateName(v: Validator, name: string)
    modifies v
    ensures v.errors == old(v.errors) + NameErrors(name)
  {
    v.Check(name != "", "name", "must be provided");
    v.Check(ByteLen(name) <= 500, "name", "must not be more than 500 bytes long");
  }

  method ValidateEmail(v: Validator, email: string, emailPattern: string -> bool)
    modifies v
    ensures v.errors == old(v.errors) + EmailErrors(email, emailPattern)
  {
    v.Check(email != "", "email", "must be provided");
    v.Check(emailPattern(email), "email", "must be a valid email address");
  }

  method ValidateUsername(v: Validator, username: string)
    modifies v
    ensures v.errors == old(v.errors) + UsernameErrors(username)
  {
    v.Check(username != "", "username", "must be provided");
    v.Check(ByteLen(username) <= 500, "username", "must not be more than 500 bytes long");
  }

  method ValidatePasswordPlaintext(v: Validator, password: string)
    modifies v
    ensures v.errors == old(v.errors) + PasswordPlaintextErrors(password)
  {
    v.Check(password != "", "password", "must be provided");
    v.Check(ByteLen(password) >= 8, "password", "must be at least 8 bytes long");
    v.Check(ByteLen(password) <= 72, "password", "must not be more than 72 bytes long");
  }

  /** Appending the four groups one after another gives the groups appended together.
      Stated apart, so that ValidateUser's proof does not search for it among the
      validators' postconditions. */
  lemma AppendInOrder(s: seq<FieldError>, a: seq<FieldError>, b: seq<FieldError>, c: seq<FieldError>, d: seq<FieldError>)
    ensures s + a + b + c + d == s + (a + b + c + d)
  {
  }

  method ValidateUser(v: Validator, u: User, emailPattern: string -> bool)
    requires u.password.hash.Some?
    modifies v
    ensures v.errors == old(v.errors) + UserErrors(u, emailPattern)
  {
    ghost var before := v.errors;
    ValidateName(v, u.name);
    ValidateEmail(v, u.email, emailPattern);
    ValidateUsername(v, u.username);
    ghost var password: seq<FieldError> := [];
    if u.password.plaintext.Some? {
      ValidatePasswordPlaintext(v, u.password.plaintext.value);
      password := PasswordPlaintextErrors(u.password.plaintext.value);
    }
    AppendInOrder(before, NameErrors(u.name), EmailErrors(u.email, emailPattern), UsernameErrors(u.username), password);
  }
}
