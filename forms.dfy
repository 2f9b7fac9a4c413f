/**
  The web form's input check (app/forms.py): `validate_base` collects an alphabet error and a
  length error and raises a ValidationError carrying the list when it is non-empty.
 */
module Forms {

  /** `base_lst`: the accepted characters, either case. */
  const Bases: set<char> := {'A', 'T', 'C', 'G', 'a', 't', 'c', 'g'}

  /** The one input length the form accepts. */
  const InputLength: nat := 79

  /**
    The reported errors: the alphabet message, and the length message, which quotes the
    input's actual length.
   */
  datatype FormError = AlphabetError | LengthError(length: nat)

  predicate AllBases(s: string) {
    forall i :: 0 <= i < |s| ==> s[i] in Bases
  }

  /** The inputs the form lets through. */
  predicate Accepted(s: string) {
    AllBases(s) && |s| == InputLength
  }

  /**
    `validate_base`: the list of errors it raises with, empty when it returns normally.
    The `any(...)` scan stops at the first character outside the alphabet.
   */
  method ValidateBase(s: string) returns (errors: seq<FormError>)
    ensures errors == [] <==> Accepted(s)
    ensures AlphabetError in errors <==> !AllBases(s)
    ensures LengthError(|s|) in errors <==> |s| != InputLength
    ensures forall e :: e in errors && e.LengthError? ==> e.length == |s|
    ensures |errors| <= 2 && (|errors| == 2 ==> errors[0] == AlphabetError)
    ensures s == [] ==> errors == [LengthError(0)]
  {
    errors := [];
    var bad := false;
    var i := 0;
    while i < |s| && !bad
      invariant 0 <= i <= |s|
      invariant bad <==> i > 0 && s[i - 1] !in Bases
      invariant forall j :: 0 <= j < i - 1 ==> s[j] in Bases
      invariant !bad ==> forall j :: 0 <= j < i ==> s[j] in Bases
    {
      bad := s[i] !in Bases;
      i := i + 1;
    }
    if bad {
      errors := errors + [AlphabetError];
    }
    if |s| != InputLength {
      errors := errors + [LengthError(|s|)];
    }
  }
}
