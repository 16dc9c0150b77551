/** The `CustomerStatus` enumeration and the conversion of free text to it. */
module Statuses {
  import opened Results
  import opened AsciiText

  /** The fixed set of customer-status variants. */
  datatype CustomerStatus = Active | Inactive

  /** The variants in declaration order, as `CustomerStatus.values()`. */
  const Variants: seq<CustomerStatus> := [Active, Inactive]

  /** The constant's name, which is also what `toString()` renders. */
  function Name(v: CustomerStatus): string {
    match v
    case Active => "ACTIVE"
    case Inactive => "INACTIVE"
  }

  /** Every variant is listed, and distinct variants have distinct names. */
  lemma VariantsAreComplete(v: CustomerStatus)
    ensures v in Variants
    ensures forall w :: Name(w) == Name(v) ==> w == v
  {
  }

  /** Variant names are upper-case and contain a character above U+0020. */
  lemma NameIsUpperCase(v: CustomerStatus)
    ensures ToUpper(Name(v)) == Name(v)
    ensures 0 < |Name(v)| && !IsTrimmable(Name(v)[0])
  {
  }

  /** Looks `name` up among `vs` by exact, case-sensitive comparison. */
  function Lookup(name: string, vs: seq<CustomerStatus>): (r: Option<CustomerStatus>)
    ensures r.Some? ==> r.value in vs && Name(r.value) == name
    ensures r.None? ==> forall v :: v in vs ==> Name(v) != name
  {
    if vs == [] then None
    else if Name(vs[0]) == name then Some(vs[0])
    else Lookup(name, vs[1..])
  }

  /** `CustomerStatus.valueOf(name)`: the variant whose name is exactly
      `name`, or no variant (Java throws `IllegalArgumentException`). */
  function ValueOf(name: string): (r: Option<CustomerStatus>)
    ensures forall v :: r == Some(v) <==> Name(v) == name
  {
    var r := Lookup(name, Variants);
    assert forall v :: Name(v) == name ==> v in Variants by {
      forall v | Name(v) == name {
        VariantsAreComplete(v);
      }
    }
    assert forall v :: r == Some(v) ==> Name(v) == name;
    assert forall v :: Name(v) == name ==> r == Some(v) by {
      forall v | Name(v) == name
        ensures r == Some(v)
      {
        VariantsAreComplete(v);
      }
    }
    r
  }

  /** `CustomerStatus.valueOf(text.toUpperCase())`, the conversion both
      status-taking operations share: a case-insensitive exact match against
      the variant names. */
  function Parse(text: string): (r: Option<CustomerStatus>)
    ensures forall v :: r == Some(v) <==> EqualsIgnoreCase(text, Name(v))
  {
    var r := ValueOf(ToUpper(text));
    assert forall v :: r == Some(v) <==> EqualsIgnoreCase(text, Name(v)) by {
      forall v
        ensures r == Some(v) <==> EqualsIgnoreCase(text, Name(v))
      {
        NameIsUpperCase(v);
        EqualsIgnoreCaseIsUpperEquality(text, Name(v));
      }
    }
    r
  }

  /** A rendered status name reads back as the same variant, whatever the
      case it is written in. */
  lemma NameRoundTrip(v: CustomerStatus, text: string)
    requires ToUpper(text) == Name(v)
    ensures Parse(Name(v)) == Some(v)
    ensures Parse(text) == Some(v)
  {
    NameIsUpperCase(v);
    EqualsIgnoreCaseIsUpperEquality(Name(v), Name(v));
    EqualsIgnoreCaseIsUpperEquality(text, Name(v));
  }

  /** A blank text names no variant. */
  lemma BlankParsesToNothing(text: string)
    requires IsBlank(text)
    ensures Parse(text) == None
  {
    if Parse(text).Some? {
      var v := Parse(text).value;
      NameIsUpperCase(v);
      BlankMatchesOnlyBlank(text, Name(v));
    }
  }
}
