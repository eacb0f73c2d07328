/**
  The pieces of JavaScript value semantics that the user controller and the
  dashboard page depend on: values that may be `undefined`/`null`, the
  falsiness test `!x` on strings, the defaulting operator `x || y`,
  `String.prototype.trim`, and `String.prototype.length`, which counts UTF-16
  code units rather than characters.
 */
module JsValues {

  /** A value that may be missing. `undefined` and `null` are both `None`. */
  datatype Option<+T> = None | Some(value: T)

  /** `!x` for a value that is either missing or a string: only a missing
      value and the empty string are falsy. */
  predicate Falsy(x: Option<string>) {
    x.None? || x.value == ""
  }

  /** `x || fallback`: the value itself when it is truthy, else the fallback. */
  function OrElse(x: Option<string>, fallback: string): (r: string)
    ensures !Falsy(x) ==> r == x.value
    ensures Falsy(x) ==> r == fallback
    ensures r == "" ==> fallback == ""
  {
    if Falsy(x) then fallback else x.value
  }

  /** The code points `trim()` removes: the WhiteSpace and LineTerminator
      productions of sections 12.2 and 12.3 of ECMA-262 (tab, vertical tab,
      form feed, space, no-break space, byte-order mark, every space
      separator, LF, CR, LS and PS). */
  predicate IsJsWhitespace(c: char) {
    c as int in JsWhitespace
  }

  const JsWhitespace: set<int> := {
    0x09, 0x0A, 0x0B, 0x0C, 0x0D, 0x20, 0xA0, 0x1680,
    0x2000, 0x2001, 0x2002, 0x2003, 0x2004, 0x2005, 0x2006, 0x2007, 0x2008, 0x2009, 0x200A,
    0x2028, 0x2029, 0x202F, 0x205F, 0x3000, 0xFEFF
  }

  /** Every character of `s` is whitespace (vacuously true of ""). */
  predicate IsBlank(s: string) {
    forall i :: 0 <= i < |s| ==> IsJsWhitespace(s[i])
  }

  /** Drops the leading whitespace of `s`. */
  function TrimStart(s: string): (r: string)
    ensures |r| <= |s| && r == s[|s| - |r|..]
    ensures IsBlank(s[..|s| - |r|])
    ensures r != [] ==> !IsJsWhitespace(r[0])
  {
    if s != [] && IsJsWhitespace(s[0]) then
      var r := TrimStart(s[1..]);
      assert s[..|s| - |r|] == [s[0]] + s[1..][..|s[1..]| - |r|];
      r
    else
      s
  }

  /** Drops the trailing whitespace of `s`. */
  function TrimEnd(s: string): (r: string)
    ensures |r| <= |s| && r == s[..|r|]
    ensures IsBlank(s[|r|..])
    ensures r != [] ==> !IsJsWhitespace(r[|r| - 1])
  {
    if s != [] && IsJsWhitespace(s[|s| - 1]) then
      var r := TrimEnd(s[..|s| - 1]);
      assert s[|r|..] == s[..|s| - 1][|r|..] + [s[|s| - 1]];
      r
    else
      s
  }

  /** `r` is the slice of `s` starting at `i` and both margins of `s`
      around it are blank. */
  predicate BlankMargins(s: string, r: string, i: int) {
    0 <= i <= i + |r| <= |s| && r == s[i..i + |r|] && IsBlank(s[..i]) && IsBlank(s[i + |r|..])
  }

  /** `s.trim()`: the slice of `s` left when the whitespace at both ends is
      removed. */
  function Trim(s: string): (r: string)
    ensures exists i :: BlankMargins(s, r, i)
    ensures r != [] ==> !IsJsWhitespace(r[0]) && !IsJsWhitespace(r[|r| - 1])
  {
    var t := TrimStart(s);
    var r := TrimEnd(t);
    TrimSlice(s, t, r);
    TrimEdges(t, r);
    r
  }

  /** Removing a blank prefix and then a blank suffix leaves a slice of the
      original string with blank margins on both sides. */
  lemma TrimSlice(s: string, t: string, r: string)
    requires |t| <= |s| && t == s[|s| - |t|..] && IsBlank(s[..|s| - |t|])
    requires |r| <= |t| && r == t[..|r|] && IsBlank(t[|r|..])
    ensures BlankMargins(s, r, |s| - |t|)
  {
    var i := |s| - |t|;
    assert r == s[i..i + |r|];
    assert s[i + |r|..] == t[|r|..];
  }

  /** A prefix of a string that does not start with whitespace, ending in a
      non-whitespace character, has whitespace at neither end. */
  lemma TrimEdges(t: string, r: string)
    requires t != [] ==> !IsJsWhitespace(t[0])
    requires |r| <= |t| && r == t[..|r|]
    requires r != [] ==> !IsJsWhitespace(r[|r| - 1])
    ensures r != [] ==> !IsJsWhitespace(r[0]) && !IsJsWhitespace(r[|r| - 1])
  {
    if r != [] {
      assert r[0] == t[0];
    }
  }

  /** `!s.trim()` holds exactly when every character of `s` is whitespace. */
  lemma TrimEmptyIffBlank(s: string)
    ensures Trim(s) == "" <==> IsBlank(s)
  {
    var t := TrimStart(s);
    assert s == s[..|s| - |t|] + t;
  }

  /** Number of UTF-16 code units that encode `c`: code points above the
      Basic Multilingual Plane take a surrogate pair. */
  function CodeUnits(c: char): (n: nat)
    ensures n == 1 || n == 2
    ensures n == 2 <==> c as int > 0xFFFF
  {
    if c as int > 0xFFFF then 2 else 1
  }

  /** `s.length` in JavaScript: the UTF-16 length, not the number of code
      points. */
  function Utf16Length(s: string): (n: nat)
    ensures |s| <= n <= 2 * |s|
    ensures n == |s| <==> forall i :: 0 <= i < |s| ==> s[i] as int <= 0xFFFF
  {
    if s == [] then 0
    else
      var n := CodeUnits(s[0]) + Utf16Length(s[1..]);
      assert forall i :: 1 <= i < |s| ==> s[1..][i - 1] == s[i];
      n
  }

  /** A single character counts its own code units. */
  lemma Utf16Single(c: char)
    ensures Utf16Length([c]) == CodeUnits(c)
  {
    assert [c][1..] == [];
  }

  /** The UTF-16 length of a concatenation is the sum of the lengths; with
      `Utf16Single` this fixes the length of every string as the sum of its
      characters' code units. */
  lemma {:induction false} Utf16Append(a: string, b: string)
    ensures Utf16Length(a + b) == Utf16Length(a) + Utf16Length(b)
    decreases |a|
  {
    if a != [] {
      assert (a + b)[1..] == a[1..] + b;
      assert (a + b)[0] == a[0];
      Utf16Append(a[1..], b);
    } else {
      assert a + b == b;
    }
  }
}
