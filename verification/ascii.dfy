/** The string operations the service relies on, restricted to ASCII case
    folding: `toUpperCase`, `equalsIgnoreCase` and `trim().isEmpty()`. */
module AsciiText {

  predicate IsLower(c: char) {
    'a' <= c <= 'z'
  }

  /** Upper-case mapping of one character; only `a`..`z` change. */
  function UpperChar(c: char): (u: char)
    ensures IsLower(c) ==> 'A' <= u <= 'Z' && u as int == c as int - 32
    ensures !IsLower(c) ==> u == c
  {
    if IsLower(c) then (c as int - 32) as char else c
  }

  /** `String.toUpperCase` over ASCII. */
  function ToUpper(s: string): (r: string)
    ensures |r| == |s|
    ensures forall i :: 0 <= i < |s| ==> r[i] == UpperChar(s[i])
  {
    if s == [] then [] else [UpperChar(s[0])] + ToUpper(s[1..])
  }

  /** `String.equalsIgnoreCase`: same length, and the characters agree
      position by position once upper-cased. */
  function EqualsIgnoreCase(a: string, b: string): (r: bool)
    ensures r <==> |a| == |b| && forall i :: 0 <= i < |a| ==> UpperChar(a[i]) == UpperChar(b[i])
  {
    if |a| != |b| then false
    else if a == [] then true
    else UpperChar(a[0]) == UpperChar(b[0]) && EqualsIgnoreCase(a[1..], b[1..])
  }

  /** Java's whitespace for `trim`: every character up to U+0020. */
  predicate IsTrimmable(c: char) {
    c <= ' '
  }

  /** Drops the leading trimmable characters. */
  function TrimStart(s: string): (r: string)
    ensures |r| <= |s| && r == s[|s| - |r|..]
    ensures forall i :: 0 <= i < |s| - |r| ==> IsTrimmable(s[i])
    ensures r != [] ==> !IsTrimmable(r[0])
  {
    if s != [] && IsTrimmable(s[0]) then TrimStart(s[1..]) else s
  }

  /** Drops the trailing trimmable characters. */
  function TrimEnd(s: string): (r: string)
    ensures |r| <= |s| && r == s[..|r|]
    ensures forall i :: |r| <= i < |s| ==> IsTrimmable(s[i])
    ensures r != [] ==> !IsTrimmable(r[|r| - 1])
  {
    if s != [] && IsTrimmable(s[|s| - 1]) then TrimEnd(s[..|s| - 1]) else s
  }

  /** `String.trim`: the text between the first and the last character
      above U+0020, or the empty string when there is none. */
  function Trim(s: string): (r: string)
    ensures |r| <= |s|
    ensures var i := |s| - |TrimStart(s)|;
      && i + |r| <= |s|
      && r == s[i..i + |r|]
      && (forall k :: 0 <= k < i ==> IsTrimmable(s[k]))
      && (forall k :: i + |r| <= k < |s| ==> IsTrimmable(s[k]))
    ensures r == [] <==> forall i :: 0 <= i < |s| ==> IsTrimmable(s[i])
    ensures r != [] ==> !IsTrimmable(r[0]) && !IsTrimmable(r[|r| - 1])
  {
    var t := TrimStart(s);
    var r := TrimEnd(t);
    assert r != [] ==> r[0] == t[0];
    var i := |s| - |t|;
    assert r == s[i..i + |r|];
    r
  }

  /** `s.trim().isEmpty()`. */
  predicate IsBlank(s: string) {
    Trim(s) == []
  }

  /** Comparing ignoring case is comparing the upper-cased texts. */
  lemma EqualsIgnoreCaseIsUpperEquality(a: string, b: string)
    ensures EqualsIgnoreCase(a, b) <==> ToUpper(a) == ToUpper(b)
  {
    if ToUpper(a) == ToUpper(b) {
      assert forall i :: 0 <= i < |a| ==> UpperChar(a[i]) == ToUpper(b)[i];
    }
  }

  /** Upper-casing twice changes nothing more. */
  lemma ToUpperIdempotent(s: string)
    ensures ToUpper(ToUpper(s)) == ToUpper(s)
  {
  }

  /** Upper-casing a blank text leaves it free of letters, so it matches no
      text that holds a character above U+0020. */
  lemma BlankMatchesOnlyBlank(s: string, name: string)
    requires IsBlank(s)
    requires exists i :: 0 <= i < |name| && !IsTrimmable(name[i])
    ensures !EqualsIgnoreCase(s, name)
  {
    var i :| 0 <= i < |name| && !IsTrimmable(name[i]);
    if |s| == |name| {
      assert IsTrimmable(s[i]);
      assert UpperChar(s[i]) != UpperChar(name[i]);
    }
  }
}
