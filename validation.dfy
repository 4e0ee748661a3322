/** The validator the handlers and validators accumulate errors into. Its Go package
    is not part of this model; it is modelled as an append-only list of
    (field, message) records that is valid exactly when it is empty. */
module Validation {

  datatype FieldError = FieldError(key: string, message: string)

  /** What `v.Check(ok, key, message)` records. */
  function CheckErrors(ok: bool, key: string, message: string): (r: seq<FieldError>)
    ensures r == [] <==> ok
    ensures forall e :: e in r ==> e == FieldError(key, message)
  {
    if ok then [] else [FieldError(key, message)]
  }

  class Validator {
    var errors: seq<FieldError>

    constructor ()
      ensures errors == []
    {
      errors := [];
    }

    predicate Valid()
      reads this
    {
      |errors| == 0
    }

    method AddError(key: string, message: string)
      modifies this
      ensures errors == old(errors) + [FieldError(key, message)]
    {
      errors := errors + [FieldError(key, message)];
    }

    method Check(ok: bool, key: string, message: string)
      modifies this
      ensures errors == old(errors) + CheckErrors(ok, key, message)
    {
      if !ok {
        AddError(key, message);
      }
    }
  }
}
