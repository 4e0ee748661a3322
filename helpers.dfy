/** Query-string readers (backend/internal/helpers/helpers.go): ReadString, ReadCSV and
    ReadInt, over `url.Values` modelled as a map from key to its list of values. */
module Helpers {
  import opened Common
  import opened Strconv
  import opened Validation

  type Values = map<string, seq<string>>

  /** url.Values.Get: the first value of the key, or "" when there is none. */
  function Get(qs: Values, key: string): string
  {
    if key in qs && |qs[key]| > 0 then qs[key][0] else ""
  }

  /** The key carries a first value that is not empty. */
  predicate Present(qs: Values, key: string)
  {
    key in qs && |qs[key]| > 0 && qs[key][0] != ""
  }

  function ReadString(qs: Values, key: string, defaultValue: string): (r: string)
    ensures !Present(qs, key) ==> r == defaultValue
    ensures Present(qs, key) ==> r == qs[key][0] && r != ""
  {
    var s := Get(qs, key);
    if s == "" then defaultValue else s
  }

  /** strings.Split(s, ","), character by character. */
  function Split(s: string): (parts: seq<string>)
    ensures |parts| >= 1
  {
    if |s| == 0 then [""]
    else
      var rest := Split(s[1..]);
      if s[0] == ',' then [""] + rest
      else [[s[0]] + rest[0]] + rest[1..]
  }

  /** strings.Join(parts, ","). */
  function Join(parts: seq<string>): string
  {
    if |parts| == 0 then ""
    else if |parts| == 1 then parts[0]
    else parts[0] + "," + Join(parts[1..])
  }

  function CommaCount(s: string): nat
  {
    if |s| == 0 then 0 else (if s[0] == ',' then 1 else 0) + CommaCount(s[1..])
  }

  predicate NoComma(p: string)
  {
    forall i :: 0 <= i < |p| ==> p[i] != ','
  }

  /** Joining the parts of a split gives back the text. */
  lemma {:induction false} JoinSplit(s: string)
    ensures Join(Split(s)) == s
  {
    if |s| > 0 {
      var rest := Split(s[1..]);
      JoinSplit(s[1..]);
      if s[0] == ',' {
        assert Split(s) == [""] + rest;
        assert Join([""] + rest) == "" + "," + Join(rest);
      } else if |rest| == 1 {
        assert Split(s) == [[s[0]] + rest[0]];
      } else {
        var parts := Split(s);
        assert parts[1..] == rest[1..];
        assert Join(rest) == rest[0] + "," + Join(rest[1..]);
      }
      assert s == [s[0]] + s[1..];
    }
  }

  /** No part contains the separator, and there is one part more than separators. */
  lemma {:induction false} SplitParts(s: string)
    ensures |Split(s)| == CommaCount(s) + 1
    ensures forall p :: p in Split(s) ==> NoComma(p)
  {
    if |s| > 0 {
      SplitParts(s[1..]);
      var rest := Split(s[1..]);
      if s[0] != ',' {
        assert NoComma(rest[0]);
        var parts := Split(s);
        forall p | p in parts ensures NoComma(p) {
          if p != parts[0] {
            assert p in rest[1..];
          }
        }
      }
    }
  }

  lemma {:induction false} SplitWithoutComma(a: string)
    requires NoComma(a)
    ensures Split(a) == [a]
  {
    if |a| > 0 {
      SplitWithoutComma(a[1..]);
      assert [a[0]] + a[1..] == a;
    }
  }

  lemma {:induction false} SplitAtComma(a: string, b: string)
    requires NoComma(a)
    ensures Split(a + "," + b) == [a] + Split(b)
  {
    if |a| == 0 {
      assert a + "," + b == [','] + b;
      assert (a + "," + b)[1..] == b;
    } else {
      SplitAtComma(a[1..], b);
      assert (a + "," + b)[1..] == a[1..] + "," + b;
      assert [a[0]] + a[1..] == a;
    }
  }

  /** Splitting a join of comma-free parts gives back the parts. */
  lemma {:induction false} SplitJoin(parts: seq<string>)
    requires |parts| >= 1
    requires forall p :: p in parts ==> NoComma(p)
    ensures Split(Join(parts)) == parts
  {
    if |parts| == 1 {
      SplitWithoutComma(parts[0]);
    } else {
      SplitJoin(parts[1..]);
      SplitAtComma(parts[0], Join(parts[1..]));
      assert [parts[0]] + parts[1..] == parts;
    }
  }

  function ReadCSV(qs: Values, key: string, defaultValue: seq<string>): (r: seq<string>)
    ensures !Present(qs, key) ==> r == defaultValue
    ensures Present(qs, key) ==>
      && Join(r) == qs[key][0]
      && |r| == CommaCount(qs[key][0]) + 1
      && forall p :: p in r ==> NoComma(p)
  {
    var csv := Get(qs, key);
    if csv == "" then defaultValue
    else
      JoinSplit(csv);
      SplitParts(csv);
      Split(csv)
  }

  method ReadInt(qs: Values, key: string, defaultValue: int, v: Validator) returns (i: int)
    modifies v
    ensures !Present(qs, key) ==> i == defaultValue && v.errors == old(v.errors)
    ensures Present(qs, key) && Atoi(qs[key][0]).None? ==>
      i == defaultValue && v.errors == old(v.errors) + [FieldError(key, "must be an integer value")]
    ensures Present(qs, key) && Atoi(qs[key][0]).Some? ==>
      i == Atoi(qs[key][0]).value && v.errors == old(v.errors)
  {
    var s := Get(qs, key);
    if s == "" {
      return defaultValue;
    }
    var parsed := Atoi(s);
    if parsed.None? {
      v.AddError(key, "must be an integer value");
      return defaultValue;
    }
    return parsed.value;
  }
}
