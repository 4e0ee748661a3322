/** Values shared by every part of the model: optional values, error results,
    bytes, the 64-bit integer range of Go's `int`, and ASCII case folding. */
module Common {

  datatype Option<+T> = None | Some(value: T)

  /** The errors the repositories and use cases return. Each constructor names the
      Go error value (or the database condition) it stands for. */
  datatype Error =
    | RecordNotFound                        // gorm.ErrRecordNotFound
    | PostNotFound                          // errors.New("thePost not found") in the post repository
    | MissingWhereClause                    // gorm.ErrMissingWhereClause: a delete without conditions
    | DuplicateEmail                        // ErrDuplicateEmail
    | UniqueViolation(constraint: string)   // any other "duplicate key value violates unique constraint"
    | ForeignKeyViolation(constraint: string)
    | InvalidBigint(text: string)           // PostgreSQL: invalid input syntax for type bigint
    | PostNotOwned                          // ErrorFailedPostFalidation
    | WrongPassword                         // ErrWrongPassword
    | InvalidToken                          // InvalidToken
    | PasswordRejected                      // "password should contain more than 8 characters"
    | TokenMismatch                         // "token does not match the provided user"
    | NumberSyntax(text: string)            // the *strconv.NumError of strconv.Atoi
    | RandomSourceFailed                    // crypto/rand.Read failed
    | HashingFailed                         // bcrypt.GenerateFromPassword failed
    | HashMalformed                         // bcrypt.CompareHashAndPassword failed for a reason other than a mismatch
    | UploadFailed                          // a cloud-storage step of the profile-image upload failed

  datatype Result<+T> = Ok(value: T) | Err(error: Error)

  type Byte = b: int | 0 <= b < 256
  type Bytes = seq<Byte>

  /** Go's `int` on a 64-bit platform. */
  const MinInt64: int := -0x8000_0000_0000_0000
  const MaxInt64: int := 0x7FFF_FFFF_FFFF_FFFF

  predicate InInt64(n: int) { MinInt64 <= n <= MaxInt64 }

  /** Two's-complement wrap-around of Go's `int` arithmetic. */
  function WrapInt64(n: int): (r: int)
    ensures InInt64(r)
    ensures InInt64(n) ==> r == n
    ensures (r - n) % 0x1_0000_0000_0000_0000 == 0
  {
    (n - MinInt64) % 0x1_0000_0000_0000_0000 + MinInt64
  }

  /** The number of bytes of a character's UTF-8 encoding. */
  function Utf8Width(c: char): (w: nat)
    ensures 1 <= w <= 4
    ensures (c as int) < 0x80 <==> w == 1
  {
    if (c as int) < 0x80 then 1
    else if (c as int) < 0x800 then 2
    else if (c as int) < 0x1_0000 then 3
    else 4
  }

  /** Go's `len(s)`: the length of the string's UTF-8 encoding in bytes. */
  function ByteLen(s: string): (n: nat)
    ensures |s| <= n <= 4 * |s|
    ensures n == 0 <==> s == ""
  {
    if s == [] then 0 else Utf8Width(s[0]) + ByteLen(s[1..])
  }

  predicate IsAscii(s: string)
  {
    forall i :: 0 <= i < |s| ==> (s[i] as int) < 0x80
  }

  lemma {:induction false} AsciiByteLen(s: string)
    requires IsAscii(s)
    ensures ByteLen(s) == |s|
  {
    if s != [] {
      AsciiByteLen(s[1..]);
    }
  }

  /** ASCII lower-casing, the folding used for ILIKE and for `citext` equality. */
  function LowerChar(c: char): char
  {
    if 'A' <= c <= 'Z' then (c as int + 32) as char else c
  }

  function Lower(s: string): (r: string)
    ensures |r| == |s|
    ensures forall i :: 0 <= i < |s| ==> r[i] == LowerChar(s[i])
  {
    if s == [] then [] else [LowerChar(s[0])] + Lower(s[1..])
  }

  /** `citext` equality: equal after case folding. */
  predicate FoldEq(a: string, b: string)
  {
    Lower(a) == Lower(b)
  }

  predicate OccursAt(needle: string, haystack: string, i: int)
  {
    0 <= i <= |haystack| - |needle| && haystack[i..i + |needle|] == needle
  }

  predicate IsSubstring(needle: string, haystack: string)
  {
    exists i | 0 <= i <= |haystack| :: OccursAt(needle, haystack, i)
  }

  /** `haystack ILIKE '%' || needle || '%'`, reading the needle literally. */
  predicate ContainsFold(haystack: string, needle: string)
  {
    IsSubstring(Lower(needle), Lower(haystack))
  }
}
