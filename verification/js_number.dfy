/**
 * The two number conversions the sentiment table relies on: `parseInt(s)` with no
 * radix argument, and the decimal text of an integer that `Array.prototype.join`
 * writes for a number.
 */
module JsNumber {
  import opened Wrappers
  import JsText

  predicate IsDecimalDigit(c: char) {
    '0' <= c <= '9'
  }

  /** No character of `s` is a decimal digit. */
  predicate NoDigit(s: string) {
    forall i :: 0 <= i < |s| ==> !IsDecimalDigit(s[i])
  }

  /** The value of a digit character in radix 36 notation (0-9, then a/A = 10 ...). */
  function DigitValue(c: char): nat {
    if '0' <= c <= '9' then c as int - '0' as int
    else if 'a' <= c <= 'z' then c as int - 'a' as int + 10
    else if 'A' <= c <= 'Z' then c as int - 'A' as int + 10
    else 36
  }

  /** `c` is a digit of the given radix (parseInt only ever uses 10 or 16 here). */
  predicate IsRadixDigit(c: char, radix: nat) {
    DigitValue(c) < radix
  }

  /** The length of the longest prefix of `s` made of radix digits. */
  function DigitRun(s: string, radix: nat): (n: nat)
    ensures n <= |s|
    ensures forall i :: 0 <= i < n ==> IsRadixDigit(s[i], radix)
    ensures n < |s| ==> !IsRadixDigit(s[n], radix)
    decreases |s|
  {
    if s != [] && IsRadixDigit(s[0], radix) then 1 + DigitRun(s[1..], radix) else 0
  }

  /** The value of a string of radix digits, most significant digit first. */
  function DigitsValue(ds: string, radix: nat): nat
    decreases |ds|
  {
    if ds == [] then 0
    else DigitsValue(ds[..|ds| - 1], radix) * radix + DigitValue(ds[|ds| - 1])
  }

  /** The radix `parseInt` uses when none is given: 16 after a "0x"/"0X" prefix, else 10. */
  predicate HasHexPrefix(u: string) {
    |u| >= 2 && u[0] == '0' && (u[1] == 'x' || u[1] == 'X')
  }

  function Radix(u: string): nat {
    if HasHexPrefix(u) then 16 else 10
  }

  /** The text whose digits are read: `u` after its "0x" prefix, if any. */
  function DigitText(u: string): string {
    if HasHexPrefix(u) then u[2..] else u
  }

  /** The first `k` characters of `v` are digits of the radix, and no longer run is. */
  predicate LeadingRun(v: string, k: nat, radix: nat) {
    && 0 < k <= |v|
    && (forall j :: 0 <= j < k ==> IsRadixDigit(v[j], radix))
    && (k == |v| || !IsRadixDigit(v[k], radix))
  }

  /** `m` is the value of the longest leading run of digits of `u`, read in the radix its prefix selects. */
  ghost predicate MagnitudeRead(u: string, m: int) {
    exists k: nat :: LeadingRun(DigitText(u), k, Radix(u)) && m == DigitsValue(DigitText(u)[..k], Radix(u))
  }

  /**
   * The magnitude read after the sign: an optional "0x" prefix, then the longest
   * non-empty run of digits; nothing when that run is empty.
   */
  function ParseMagnitude(u: string): (r: Option<nat>)
    ensures NoDigit(u) ==> r == None
    ensures !HasHexPrefix(u) ==> (r.None? <==> u == [] || !IsDecimalDigit(u[0]))
    ensures HasHexPrefix(u) ==> (r.None? <==> |u| == 2 || !IsRadixDigit(u[2], 16))
    ensures r.Some? ==> MagnitudeRead(u, r.value)
  {
    var radix := Radix(u);
    var v := DigitText(u);
    var n := DigitRun(v, radix);
    assert n > 0 && radix == 10 ==> IsDecimalDigit(u[0]);
    if n == 0 then None
    else
      assert LeadingRun(v, n, radix);
      Some(DigitsValue(v[..n], radix))
  }

  /** What `parseInt` reads its digits from: `s` after leading white space and one optional sign. */
  function Unsigned(s: string): (u: string)
    ensures |u| <= |s| && u == s[|s| - |u|..]
  {
    var t := JsText.TrimStart(s);
    if t != [] && (t[0] == '-' || t[0] == '+') then t[1..] else t
  }

  /** The sign read by `parseInt` is a minus. */
  predicate IsNegative(s: string) {
    var t := JsText.TrimStart(s);
    t != [] && t[0] == '-'
  }

  /**
   * `parseInt(s)`: skip leading white space, read an optional sign, a "0x" prefix
   * selecting radix 16, then the longest run of digits. None stands for NaN, which
   * is the result exactly when that run is empty; otherwise the run's value, negated
   * after a minus sign. Whatever follows the run is ignored.
   */
  function ParseInt(s: string): (r: Option<int>)
    ensures NoDigit(s) ==> r == None
    ensures var u := Unsigned(s);
      && (!HasHexPrefix(u) ==> (r.None? <==> u == [] || !IsDecimalDigit(u[0])))
      && (HasHexPrefix(u) ==> (r.None? <==> |u| == 2 || !IsRadixDigit(u[2], 16)))
      && (r.Some? ==> MagnitudeRead(u, if IsNegative(s) then -r.value else r.value))
  {
    var u := Unsigned(s);
    assert NoDigit(s) ==> NoDigit(u) by {
      if NoDigit(s) {
        forall j | 0 <= j < |u| ensures !IsDecimalDigit(u[j]) {
          assert u[j] == s[|s| - |u| + j];
        }
      }
    }
    var m := ParseMagnitude(u);
    if m.None? then None
    else
      var v: int := m.value;
      Some(if IsNegative(s) then -v else v)
  }

  /** Text after the digits is ignored: a rating written "5 bintang" reads as 5. */
  lemma ParseIntIgnoresTrailingText(d: char, rest: string)
    requires IsDecimalDigit(d) && (rest == [] || JsText.IsWhiteSpace(rest[0]))
    ensures ParseInt([d] + rest) == Some(DigitValue(d))
  {
    var s := [d] + rest;
    assert s[1..] == rest;
    assert DigitRun(s, 10) == 1;
    assert s[..1] == [d] && [d][..0] == [];
    assert !HasHexPrefix(s) && DigitText(s) == s && Radix(s) == 10;
    assert DigitsValue([d], 10) == DigitValue(d);
    assert ParseMagnitude(s) == Some(DigitValue(d));
    ParseIntStartingWithDigit(s, DigitValue(d));
  }

  /** Text that starts with a letter is NaN, whatever digits come later. */
  lemma ParseIntLeadingLetter()
    ensures ParseInt("abc5") == None
  {
    assert JsText.TrimStart("abc5") == "abc5";
  }


  /** `parseInt(s) || 0`: NaN (and -0) become 0. */
  function IntOrZero(r: Option<int>): int {
    match r
    case None => 0
    case Some(v) => v
  }

  /** The decimal digit character for 0..9. */
  function DigitChar(d: nat): (c: char)
    requires d < 10
    ensures IsDecimalDigit(c) && DigitValue(c) == d
  {
    ('0' as int + d) as char
  }

  /** The decimal notation of a natural number, without leading zeros. */
  function NatToString(n: nat): (s: string)
    ensures s != []
    ensures forall i :: 0 <= i < |s| ==> IsDecimalDigit(s[i])
    ensures |s| > 1 ==> s[0] != '0'
    decreases n
  {
    if n < 10 then [DigitChar(n)] else NatToString(n / 10) + [DigitChar(n % 10)]
  }

  /** The text JavaScript writes for an integer-valued number: a minus sign and the digits. */
  function IntToString(n: int): (s: string)
    ensures s != [] && (s[0] == '-' <==> n < 0)
    ensures '\n' !in s && ',' !in s && '"' !in s
  {
    if n < 0 then "-" + NatToString(-n) else NatToString(n)
  }

  /** Reading the digits of a number written by NatToString gives the number back. */
  lemma {:induction false} DigitsValueOfNatToString(n: nat)
    ensures DigitsValue(NatToString(n), 10) == n
    decreases n
  {
    var s := NatToString(n);
    if n >= 10 {
      DigitsValueOfNatToString(n / 10);
      assert s[..|s| - 1] == NatToString(n / 10);
    }
  }

  /** A whole string of digits is one run. */
  lemma {:induction false} DigitRunAll(s: string)
    requires forall i :: 0 <= i < |s| ==> IsDecimalDigit(s[i])
    ensures DigitRun(s, 10) == |s|
    decreases |s|
  {
    if s != [] {
      DigitRunAll(s[1..]);
    }
  }

  /** A digit string written by NatToString reads back as its number. */
  lemma ParseMagnitudeOfNatToString(m: nat)
    ensures ParseMagnitude(NatToString(m)) == Some(m)
  {
    var digits := NatToString(m);
    DigitsValueOfNatToString(m);
    DigitRunAll(digits);
    assert !HasHexPrefix(digits) by {
      if |digits| >= 2 {
        assert IsDecimalDigit(digits[1]);
      }
    }
    assert digits[..|digits|] == digits;
  }

  /** A string that starts with a digit is read without sign or white space. */
  lemma ParseIntStartingWithDigit(s: string, m: nat)
    requires s != [] && IsDecimalDigit(s[0]) && ParseMagnitude(s) == Some(m)
    ensures ParseInt(s) == Some(m)
  {
    assert !JsText.IsWhiteSpace(s[0]);
    assert JsText.SkipBlanks(s, 0) == 0;
    assert s[0..] == s;
    assert JsText.TrimStart(s) == s;
    assert Unsigned(s) == s && !IsNegative(s);
  }

  /** A minus sign followed by a digit negates what the digits read as. */
  lemma ParseIntNegated(s: string, m: nat)
    requires s != [] && s[0] == '-' && ParseMagnitude(s[1..]) == Some(m)
    ensures ParseInt(s) == Option<int>.Some(-(m as int))
  {
    assert !JsText.IsWhiteSpace(s[0]);
    assert JsText.SkipBlanks(s, 0) == 0;
    assert s[0..] == s;
    assert JsText.TrimStart(s) == s;
    assert Unsigned(s) == s[1..];
    assert IsNegative(s);
    assert ParseMagnitude(Unsigned(s)) == Some(m);
  }

  /** `parseInt` reads back the number that join wrote: an exported rating re-parses to itself. */
  lemma ParseIntOfIntToString(n: int)
    ensures ParseInt(IntToString(n)) == Some(n)
  {
    var s := IntToString(n);
    if n < 0 {
      var m: nat := -n;
      ParseMagnitudeOfNatToString(m);
      assert s[1..] == NatToString(m);
      ParseIntNegated(s, m);
    } else {
      ParseMagnitudeOfNatToString(n);
      ParseIntStartingWithDigit(s, n);
    }
  }
}
