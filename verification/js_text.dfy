/**
 * The JavaScript string operations the pages rely on: `trim`, `toLowerCase`,
 * `includes`, `startsWith`, `split` and `join` with a one-character separator,
 * and `indexOf` on an array of strings.
 */
module JsText {

  /** ECMAScript WhiteSpace and LineTerminator code points, the set `trim` removes. */
  predicate IsWhiteSpace(c: char) {
    || c == '\t' || c == '\n' || c == '\U{000B}' || c == '\U{000C}' || c == '\r' || c == ' '
    || c == '\U{00A0}' || c == '\U{1680}' || ('\U{2000}' <= c <= '\U{200A}')
    || c == '\U{2028}' || c == '\U{2029}' || c == '\U{202F}' || c == '\U{205F}'
    || c == '\U{3000}' || c == '\U{FEFF}'
  }

  /** Every character of `s` is white space (vacuously true of ""). */
  predicate IsBlank(s: string) {
    forall i :: 0 <= i < |s| ==> IsWhiteSpace(s[i])
  }

  /** The index of the first character of `s` at or after `i` that is not white space, or `|s|`. */
  function SkipBlanks(s: string, i: nat): (j: nat)
    requires i <= |s|
    ensures i <= j <= |s|
    ensures forall k :: i <= k < j ==> IsWhiteSpace(s[k])
    ensures j < |s| ==> !IsWhiteSpace(s[j])
    decreases |s| - i
  {
    if i < |s| && IsWhiteSpace(s[i]) then SkipBlanks(s, i + 1) else i
  }

  /** The index just past the last character of `s[lo..hi]` that is not white space, or `lo`. */
  function SkipBlanksBack(s: string, lo: nat, hi: nat): (j: nat)
    requires lo <= hi <= |s|
    ensures lo <= j <= hi
    ensures forall k :: j <= k < hi ==> IsWhiteSpace(s[k])
    ensures lo < j ==> !IsWhiteSpace(s[j - 1])
    decreases hi - lo
  {
    if lo < hi && IsWhiteSpace(s[hi - 1]) then SkipBlanksBack(s, lo, hi - 1) else hi
  }

  /** `s` with its leading white space removed. */
  function TrimStart(s: string): (r: string)
    ensures |r| <= |s| && r == s[|s| - |r|..]
    ensures forall k :: 0 <= k < |s| - |r| ==> IsWhiteSpace(s[k])
    ensures r != [] ==> !IsWhiteSpace(r[0])
  {
    s[SkipBlanks(s, 0)..]
  }

  /**
   * `String.prototype.trim`: the slice of `s` that starts after its leading white
   * space and after which only white space remains.
   */
  function Trim(s: string): (r: string)
    ensures r == [] <==> IsBlank(s)
    ensures r != [] ==> !IsWhiteSpace(r[0]) && !IsWhiteSpace(r[|r| - 1])
    ensures var a := SkipBlanks(s, 0);
      a + |r| <= |s| && r == s[a..a + |r|] && IsBlank(s[..a]) && IsBlank(s[a + |r|..])
  {
    var a := SkipBlanks(s, 0);
    var b := SkipBlanksBack(s, a, |s|);
    assert a < |s| ==> a < b;
    assert IsBlank(s[..a]) by {
      forall k | 0 <= k < a ensures IsWhiteSpace(s[..a][k]) {
        assert s[..a][k] == s[k];
      }
    }
    assert IsBlank(s[b..]) by {
      forall k | 0 <= k < |s| - b ensures IsWhiteSpace(s[b..][k]) {
        assert s[b..][k] == s[b + k];
      }
    }
    assert IsBlank(s) ==> a == |s| by {
      if a < |s| {
        assert !IsWhiteSpace(s[a]);
      }
    }
    assert a == |s| ==> IsBlank(s) by {
      if a == |s| {
        assert s[..a] == s;
      }
    }
    s[a..b]
  }

  /** A trimmed string is its own trim. */
  lemma TrimIdempotent(s: string)
    ensures Trim(Trim(s)) == Trim(s)
  {
    var t := Trim(s);
    if t != [] {
      assert SkipBlanks(t, 0) == 0;
      assert SkipBlanksBack(t, 0, |t|) == |t|;
      assert t[0..|t|] == t;
    }
  }

  /** `toLowerCase` on one character: A-Z map to a-z, everything else is kept. */
  function LowerChar(c: char): char {
    if 'A' <= c <= 'Z' then (c as int + 32) as char else c
  }

  /** `String.prototype.toLowerCase`, for the ASCII letters. */
  function ToLower(s: string): (r: string)
    ensures |r| == |s|
    ensures forall i :: 0 <= i < |s| ==> r[i] == LowerChar(s[i])
  {
    seq(|s|, i requires 0 <= i < |s| => LowerChar(s[i]))
  }

  /** `s.startsWith(t)`. */
  predicate StartsWith(s: string, t: string) {
    |t| <= |s| && s[..|t|] == t
  }

  /** `s.includes(t)`: `t` occurs in `s` at some position, checked left to right. */
  predicate Includes(s: string, t: string)
    decreases |s|
  {
    StartsWith(s, t) || (s != [] && Includes(s[1..], t))
  }

  /** `t` occurs in `s` starting at position `i`. */
  predicate OccursAt(s: string, t: string, i: int) {
    0 <= i <= |s| - |t| && s[i..i + |t|] == t
  }

  /** `includes` holds exactly when `t` is a contiguous slice of `s`. */
  lemma {:induction false} IncludesIffOccurs(s: string, t: string)
    ensures Includes(s, t) <==> exists i :: OccursAt(s, t, i)
    decreases |s|
  {
    if StartsWith(s, t) {
      assert OccursAt(s, t, 0);
    }
    if s != [] {
      IncludesIffOccurs(s[1..], t);
      if Includes(s[1..], t) {
        var i :| OccursAt(s[1..], t, i);
        assert s[i + 1..i + 1 + |t|] == s[1..][i..i + |t|];
        assert OccursAt(s, t, i + 1);
      }
      if i :| OccursAt(s, t, i) {
        if i > 0 {
          assert s[1..][i - 1..i - 1 + |t|] == s[i..i + |t|];
          assert OccursAt(s[1..], t, i - 1);
        }
      }
    }
  }

  /** Every string includes the empty string. */
  lemma IncludesEmpty(s: string)
    ensures Includes(s, "")
  {
    assert StartsWith(s, "");
  }

  /** The position of the first `c` in `s`. */
  function FirstIndex(s: string, c: char): (i: nat)
    requires c in s
    ensures i < |s| && s[i] == c && c !in s[..i]
  {
    if s[0] == c then 0
    else
      assert c in s[1..];
      var k := FirstIndex(s[1..], c);
      assert s[..k + 1] == [s[0]] + s[1..][..k];
      k + 1
  }

  /** `s.split(sep)` for a one-character separator: the pieces between separators. */
  function Split(s: string, sep: char): (r: seq<string>)
    ensures |r| >= 1
    ensures forall k :: 0 <= k < |r| ==> sep !in r[k]
    decreases |s|
  {
    if sep !in s then [s]
    else
      var i := FirstIndex(s, sep);
      [s[..i]] + Split(s[i + 1..], sep)
  }

  /** `parts.join(sep)`: the parts with one separator between neighbours; `[].join` is "". */
  function Join(parts: seq<string>, sep: char): string
    decreases |parts|
  {
    if parts == [] then ""
    else if |parts| == 1 then parts[0]
    else parts[0] + [sep] + Join(parts[1..], sep)
  }

  /** Joining a part in front of a non-empty list puts one separator between them. */
  lemma JoinCons(a: string, rest: seq<string>, sep: char)
    requires rest != []
    ensures Join([a] + rest, sep) == a + [sep] + Join(rest, sep)
  {
    assert ([a] + rest)[1..] == rest;
  }

  /** One step of `Split`: the piece before the first separator, then the split of the rest. */
  lemma SplitStep(s: string, sep: char) returns (i: nat)
    requires sep in s
    ensures i < |s| && s == s[..i] + [sep] + s[i + 1..]
    ensures Split(s, sep) == [s[..i]] + Split(s[i + 1..], sep)
  {
    i := FirstIndex(s, sep);
    assert s == s[..i] + [sep] + s[i + 1..];
  }

  /** Joining the pieces of a split restores the original string. */
  lemma {:induction false} JoinSplit(s: string, sep: char)
    ensures Join(Split(s, sep), sep) == s
    decreases |s|
  {
    if sep in s {
      var i := SplitStep(s, sep);
      var rest := Split(s[i + 1..], sep);
      JoinCons(s[..i], rest, sep);
      JoinSplit(s[i + 1..], sep);
    }
  }

  /** Splitting a join of separator-free parts gives the parts back. */
  lemma {:induction false} SplitJoin(parts: seq<string>, sep: char)
    requires |parts| >= 1
    requires forall k :: 0 <= k < |parts| ==> sep !in parts[k]
    ensures Split(Join(parts, sep), sep) == parts
    decreases |parts|
  {
    if |parts| > 1 {
      var s := Join(parts, sep);
      assert s == parts[0] + [sep] + Join(parts[1..], sep);
      assert s[|parts[0]|] == sep;
      assert s[..|parts[0]|] == parts[0];
      var i := FirstIndex(s, sep);
      assert i == |parts[0]|;
      assert s[i + 1..] == Join(parts[1..], sep);
      SplitJoin(parts[1..], sep);
    }
  }

  /** The first piece of a split is everything before the first separator. */
  lemma SplitFirst(a: string, sep: char, rest: string)
    requires sep !in a
    ensures Split(a + [sep] + rest, sep)[0] == a
  {
    var s := a + [sep] + rest;
    assert s[|a|] == sep;
    var i := FirstIndex(s, sep);
    assert i == |a|;
    assert s[..i] == a;
  }

  /** `xs.indexOf(x)`: the first position holding `x`, or -1 when there is none. */
  function IndexOf(xs: seq<string>, x: string): (r: int)
    ensures r == -1 <==> x !in xs
    ensures r != -1 ==> 0 <= r < |xs| && xs[r] == x && x !in xs[..r]
    decreases |xs|
  {
    if xs == [] then -1
    else if xs[0] == x then 0
    else
      var k := IndexOf(xs[1..], x);
      if k == -1 then -1
      else
        assert xs[..k + 1] == [xs[0]] + xs[1..][..k];
        k + 1
  }
}
