/** String helpers with the semantics of the JavaScript built-ins the source
    calls: `toLowerCase` (ASCII letters only), `includes`, `trim`,
    `split(sep)[0]` and number-to-string interpolation. */
module Text {

  predicate IsUpper(c: char) { 'A' <= c <= 'Z' }

  predicate IsDigit(c: char) { '0' <= c <= '9' }

  /** The characters `String.prototype.trim` removes: ECMAScript WhiteSpace and LineTerminator. */
  predicate IsWhitespace(c: char)
  {
    c == ' ' || c == '\t' || c == '\n' || c == '\r' || c == '\U{000B}' || c == '\U{000C}'
    || c == '\U{00A0}' || c == '\U{1680}' || ('\U{2000}' <= c <= '\U{200A}')
    || c == '\U{2028}' || c == '\U{2029}' || c == '\U{202F}' || c == '\U{205F}'
    || c == '\U{3000}' || c == '\U{FEFF}'
  }

  function LowerChar(c: char): (d: char)
    ensures !IsUpper(d)
    ensures IsUpper(c) ==> d as int == c as int + 32
    ensures !IsUpper(c) ==> d == c
  {
    if IsUpper(c) then (c as int + 32) as char else c
  }

  /** ASCII `toLowerCase`: every upper-case letter is replaced by its lower-case form. */
  function Lower(s: string): (r: string)
    ensures |r| == |s|
    ensures forall i :: 0 <= i < |s| ==> r[i] == LowerChar(s[i])
  {
    if s == [] then [] else [LowerChar(s[0])] + Lower(s[1..])
  }

  /** Lowering twice is lowering once. */
  lemma LowerIdempotent(s: string)
    ensures Lower(Lower(s)) == Lower(s)
  {
  }

  /** `hay.includes(needle)`: `needle` occurs in `hay` at some position. */
  function Contains(hay: string, needle: string): (b: bool)
    ensures needle == [] ==> b
    ensures b ==> |needle| <= |hay|
  {
    if needle <= hay then true
    else if hay == [] then false
    else Contains(hay[1..], needle)
  }

  /** `Contains` holds exactly when `needle` is the slice of `hay` at some offset. */
  lemma {:induction false} ContainsAt(hay: string, needle: string, k: nat)
    requires k + |needle| <= |hay| && hay[k..k + |needle|] == needle
    ensures Contains(hay, needle)
  {
    if k > 0 {
      assert hay[1..][k - 1..k - 1 + |needle|] == needle;
      ContainsAt(hay[1..], needle, k - 1);
    }
  }

  lemma {:induction false} ContainsWitness(hay: string, needle: string) returns (k: nat)
    requires Contains(hay, needle)
    ensures k + |needle| <= |hay| && hay[k..k + |needle|] == needle
  {
    if needle <= hay {
      k := 0;
    } else {
      var k' := ContainsWitness(hay[1..], needle);
      k := k' + 1;
      assert hay[k..k + |needle|] == hay[1..][k'..k' + |needle|];
    }
  }

  /** The length of the run of whitespace that starts `s`. */
  function LeadingSpace(s: string): (n: nat)
    ensures n <= |s|
    ensures forall k :: 0 <= k < n ==> IsWhitespace(s[k])
    ensures n < |s| ==> !IsWhitespace(s[n])
  {
    if s != [] && IsWhitespace(s[0]) then 1 + LeadingSpace(s[1..]) else 0
  }

  /** Where the run of whitespace that ends `s` begins. */
  function TrailingSpace(s: string): (n: nat)
    ensures n <= |s|
    ensures forall k :: n <= k < |s| ==> IsWhitespace(s[k])
    ensures 0 < n ==> !IsWhitespace(s[n - 1])
  {
    if s != [] && IsWhitespace(s[|s| - 1]) then TrailingSpace(s[..|s| - 1]) else |s|
  }

  /** `String.prototype.trim`: `s` without its leading and trailing whitespace. */
  function Trim(s: string): string
  {
    var t := s[LeadingSpace(s)..];
    t[..TrailingSpace(t)]
  }

  /** The trimmed string is the slice of `s` between two runs of whitespace and
      neither starts nor ends with whitespace. */
  lemma TrimSlice(s: string) returns (i: nat, j: nat)
    ensures i <= j <= |s| && Trim(s) == s[i..j]
    ensures forall k :: 0 <= k < i ==> IsWhitespace(s[k])
    ensures forall k :: j <= k < |s| ==> IsWhitespace(s[k])
    ensures Trim(s) != [] ==> !IsWhitespace(Trim(s)[0]) && !IsWhitespace(Trim(s)[|Trim(s)| - 1])
  {
    i := LeadingSpace(s);
    var t := s[i..];
    var m := TrailingSpace(t);
    j := i + m;
    assert Trim(s) == t[..m] == s[i..j];
    forall k | j <= k < |s| ensures IsWhitespace(s[k]) {
      assert s[k] == t[k - i];
    }
  }

  /** A string trims to nothing exactly when it is made only of whitespace. */
  lemma TrimEmptyIffBlank(s: string)
    ensures Trim(s) == [] <==> forall k :: 0 <= k < |s| ==> IsWhitespace(s[k])
  {
    var i, j := TrimSlice(s);
    if Trim(s) != [] {
      assert !IsWhitespace(s[i]);
    }
  }

  /** `s.split(sep)[0]`: the part of `s` before the first `sep`, or all of `s`. */
  function BeforeFirst(s: string, sep: char): (r: string)
    ensures r <= s
    ensures sep !in r
    ensures |r| < |s| ==> s[|r|] == sep
  {
    if s == [] || s[0] == sep then [] else [s[0]] + BeforeFirst(s[1..], sep)
  }

  /** Decimal rendering of a natural number, as in a template literal. */
  function NatToString(n: nat): (r: string)
    ensures r != []
    ensures forall i :: 0 <= i < |r| ==> IsDigit(r[i])
    ensures |r| == 1 || r[0] != '0'
  {
    var d := ['0', '1', '2', '3', '4', '5', '6', '7', '8', '9'][n % 10];
    if n < 10 then [d] else NatToString(n / 10) + [d]
  }

  /** The number a string of decimal digits spells. */
  function DigitsValue(s: string): nat
    requires forall i :: 0 <= i < |s| ==> IsDigit(s[i])
  {
    if s == [] then 0
    else
      assert IsDigit(s[|s| - 1]);
      10 * DigitsValue(s[..|s| - 1]) + (s[|s| - 1] as int - '0' as int)
  }

  /** The rendering spells the number back: `NatToString` is the inverse of `DigitsValue`. */
  lemma {:induction false} NatToStringValue(n: nat)
    ensures DigitsValue(NatToString(n)) == n
  {
    var r := NatToString(n);
    var d := ['0', '1', '2', '3', '4', '5', '6', '7', '8', '9'][n % 10];
    assert d as int - '0' as int == n % 10;
    if n >= 10 {
      NatToStringValue(n / 10);
      assert r == NatToString(n / 10) + [d];
      assert r[..|r| - 1] == NatToString(n / 10);
    }
  }
}
