/** Model of `capitalize` in index.js, over ASCII letters. */
module Text {
  import opened Tables

  predicate IsLower(c: char) { 'a' <= c <= 'z' }
  predicate IsUpper(c: char) { 'A' <= c <= 'Z' }

  /** `toUpperCase` of one character: ASCII lower-case letters move up, everything else stays. */
  function Upper(c: char): (u: char)
    ensures IsLower(c) ==> IsUpper(u) && u as int == c as int - 32
    ensures !IsLower(c) ==> u == c
    ensures !IsLower(u)
  {
    if IsLower(c) then (c as int - 32) as char else c
  }

  /** `toLowerCase` of one character. */
  function Lower(c: char): (l: char)
    ensures IsUpper(c) ==> IsLower(l) && l as int == c as int + 32
    ensures !IsUpper(c) ==> l == c
    ensures !IsUpper(l)
  {
    if IsUpper(c) then (c as int + 32) as char else c
  }

  /** `toLowerCase` of a string: every character lowered, the length kept. */
  function LowerAll(s: string): (r: string)
    ensures |r| == |s|
    ensures forall i :: 0 <= i < |s| ==> r[i] == Lower(s[i])
  {
    if s == [] then [] else [Lower(s[0])] + LowerAll(s[1..])
  }

  /**
   * `capitalize(str)`: a falsy argument (absent or empty) comes back as it was; otherwise
   * the first character is upper-cased and the rest lower-cased.
   */
  function Capitalize(str: Option<string>): (r: Option<string>)
    ensures str.None? ==> r.None?
    ensures str == Some("") ==> r == Some("")
    ensures str.Some? ==> r.Some? && |r.value| == |str.value|
    ensures str.Some? && str.value != "" ==>
      && r.value[0] == Upper(str.value[0])
      && forall i :: 1 <= i < |str.value| ==> r.value[i] == Lower(str.value[i])
  {
    if str.None? || str.value == "" then str
    else Some([Upper(str.value[0])] + LowerAll(str.value[1..]))
  }

  /** Lowering an already lowered string changes nothing. */
  lemma {:induction false} LowerAllIdempotent(s: string)
    ensures LowerAll(LowerAll(s)) == LowerAll(s)
  {
    if s != [] {
      LowerAllIdempotent(s[1..]);
      assert LowerAll(s) == [Lower(s[0])] + LowerAll(s[1..]);
    }
  }

  /** Capitalising a capitalised string changes nothing. */
  lemma CapitalizeIdempotent(str: Option<string>)
    ensures Capitalize(Capitalize(str)) == Capitalize(str)
  {
    if str.Some? && str.value != "" {
      var s := str.value;
      var once := Capitalize(str).value;
      LowerAllIdempotent(s[1..]);
      assert once[1..] == LowerAll(s[1..]);
      assert Upper(once[0]) == once[0];
      assert Capitalize(Capitalize(str)).value == [Upper(once[0])] + LowerAll(once[1..]);
    }
  }

  /** The result starts with a non-lower-case character and has no upper-case letter after it. */
  lemma CapitalizedShape(str: Option<string>)
    requires str.Some? && str.value != ""
    ensures !IsLower(Capitalize(str).value[0])
    ensures forall i :: 1 <= i < |str.value| ==> !IsUpper(Capitalize(str).value[i])
  {
  }
}
