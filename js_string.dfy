/** The JavaScript string primitives the schema files rely on: String.prototype.trim,
    the regular-expression class \s, toLowerCase on ASCII text, and the UTF-16 length
    that Mongoose's maxlength validators compare. */
module JsString {

  /** The code points trim() strips and \s matches: ECMAScript's WhiteSpace
      (TAB, VT, FF, SPACE, NO-BREAK SPACE, ZERO WIDTH NO-BREAK SPACE and the other
      space separators of category Zs) and LineTerminator (LF, CR, LS, PS). */
  const WhitespaceCodes: set<int> :=
    {0x09, 0x0A, 0x0B, 0x0C, 0x0D, 0x20, 0xA0, 0x1680,
     0x2000, 0x2001, 0x2002, 0x2003, 0x2004, 0x2005, 0x2006, 0x2007, 0x2008, 0x2009, 0x200A,
     0x2028, 0x2029, 0x202F, 0x205F, 0x3000, 0xFEFF}

  predicate IsWhitespace(c: char) {
    c as int in WhitespaceCodes
  }

  /** Whitespace lies outside the printable ASCII range, so no letter, digit or
      punctuation character is whitespace. */
  lemma WhitespaceIsNotPrintable(c: char)
    ensures IsWhitespace(c) ==> c as int <= 0x20 || c as int >= 0xA0
  {}

  predicate AllWhitespace(s: string) {
    forall i :: 0 <= i < |s| ==> IsWhitespace(s[i])
  }

  lemma WhitespaceConcat(a: string, b: string)
    requires AllWhitespace(a) && AllWhitespace(b)
    ensures AllWhitespace(a + b)
  {
    forall i | 0 <= i < |a + b| ensures IsWhitespace((a + b)[i]) {
      if i >= |a| {
        assert (a + b)[i] == b[i - |a|];
      }
    }
  }

  predicate IsAscii(s: string) {
    forall i :: 0 <= i < |s| ==> s[i] as int < 128
  }

  /** No whitespace at either end. */
  predicate IsTrimmed(s: string) {
    |s| == 0 || (!IsWhitespace(s[0]) && !IsWhitespace(s[|s| - 1]))
  }

  /** Drops the leading whitespace. */
  function TrimStart(s: string): (r: string)
    ensures |r| <= |s|
  {
    if |s| > 0 && IsWhitespace(s[0]) then TrimStart(s[1..]) else s
  }

  /** What TrimStart leaves is a suffix of s that does not start with whitespace, and
      what it drops is all whitespace. */
  lemma {:induction false} TrimStartShape(s: string)
    ensures var r := TrimStart(s);
      r == s[|s| - |r|..] && AllWhitespace(s[..|s| - |r|]) && (|r| > 0 ==> !IsWhitespace(r[0]))
  {
    if |s| > 0 && IsWhitespace(s[0]) {
      TrimStartShape(s[1..]);
      var r := TrimStart(s);
      assert s[1..][|s| - 1 - |r|..] == s[|s| - |r|..];
      assert s[..|s| - |r|] == [s[0]] + s[1..][..|s| - 1 - |r|];
    }
  }

  /** Drops the trailing whitespace. */
  function TrimEnd(s: string): (r: string)
    ensures |r| <= |s|
  {
    if |s| > 0 && IsWhitespace(s[|s| - 1]) then TrimEnd(s[..|s| - 1]) else s
  }

  /** What TrimEnd leaves is a prefix of s that does not end with whitespace, and
      what it drops is all whitespace. */
  lemma {:induction false} TrimEndShape(s: string)
    ensures var r := TrimEnd(s);
      r == s[..|r|] && AllWhitespace(s[|r|..]) && (|r| > 0 ==> !IsWhitespace(r[|r| - 1]))
  {
    if |s| > 0 && IsWhitespace(s[|s| - 1]) {
      var u := s[..|s| - 1];
      TrimEndShape(u);
      var r := TrimEnd(s);
      assert u[..|r|] == s[..|r|];
      assert s[|r|..] == u[|r|..] + [s[|s| - 1]];
    }
  }

  /** How many characters of leading whitespace trim() drops. */
  function LeadingWhitespace(s: string): (n: nat)
    ensures n <= |s|
  {
    |s| - |TrimStart(s)|
  }

  /** String.prototype.trim: no whitespace is left at either end. */
  function Trim(s: string): (r: string)
    ensures IsTrimmed(r) && |r| <= |s|
  {
    var t := TrimStart(s);
    var r := TrimEnd(t);
    TrimStartShape(s);
    TrimEndShape(t);
    assert IsTrimmed(r) by {
      assert |r| > 0 ==> r[0] == t[0] && !IsWhitespace(t[0]);
    }
    r
  }

  /** The result of trim() is the slice of s between a whitespace prefix and a
      whitespace suffix. */
  lemma TrimShape(s: string)
    ensures LeadingWhitespace(s) + |Trim(s)| <= |s|
    ensures Trim(s) == s[LeadingWhitespace(s)..LeadingWhitespace(s) + |Trim(s)|]
    ensures AllWhitespace(s[..LeadingWhitespace(s)])
    ensures AllWhitespace(s[LeadingWhitespace(s) + |Trim(s)|..])
  {
    var t := TrimStart(s);
    var r := TrimEnd(t);
    TrimStartShape(s);
    TrimEndShape(t);
    var k := |s| - |t|;
    assert r == s[k..k + |r|] by { assert t == s[k..]; }
    assert AllWhitespace(s[k + |r|..]) by {
      assert t[|r|..] == s[k + |r|..];
      assert AllWhitespace(t[|r|..]);
    }
  }

  lemma {:induction false} TrimStartPadded(p: string, u: string)
    requires AllWhitespace(p)
    requires |u| == 0 || !IsWhitespace(u[0])
    ensures TrimStart(p + u) == u
  {
    if |p| > 0 {
      assert (p + u)[1..] == p[1..] + u;
      TrimStartPadded(p[1..], u);
    } else {
      assert p + u == u;
    }
  }

  lemma {:induction false} TrimEndPadded(u: string, q: string)
    requires AllWhitespace(q)
    requires |u| == 0 || !IsWhitespace(u[|u| - 1])
    ensures TrimEnd(u + q) == u
  {
    if |q| > 0 {
      assert (u + q)[..|u + q| - 1] == u + q[..|q| - 1];
      TrimEndPadded(u, q[..|q| - 1]);
    } else {
      assert u + q == u;
    }
  }

  /** trim() is characterised by its result: whatever whitespace surrounds a string with
      no whitespace at its ends, trim() returns exactly that string. */
  lemma TrimPadded(p: string, t: string, q: string)
    requires AllWhitespace(p) && AllWhitespace(q) && IsTrimmed(t)
    ensures Trim(p + t + q) == t
  {
    if |t| == 0 {
      assert p + t + q == (p + q) + t;
      assert AllWhitespace(p + q);
      TrimStartPadded(p + q, t);
    } else {
      assert p + t + q == p + (t + q);
      TrimStartPadded(p, t + q);
      TrimEndPadded(t, q);
    }
  }

  /** trim() splits its input into a whitespace prefix, the result and a whitespace suffix. */
  lemma TrimSplits(s: string)
    ensures var i := LeadingWhitespace(s); var t := Trim(s);
      i + |t| <= |s| && s == s[..i] + t + s[i + |t|..] &&
      AllWhitespace(s[..i]) && AllWhitespace(s[i + |t|..])
  {
    TrimShape(s);
  }

  /** Whitespace added around a string does not change what trim() returns. */
  lemma TrimAbsorbsPadding(p: string, s: string, q: string)
    requires AllWhitespace(p) && AllWhitespace(q)
    ensures Trim(p + s + q) == Trim(s)
  {
    var i := LeadingWhitespace(s);
    var t := Trim(s);
    var a := s[..i];
    var b := s[i + |t|..];
    TrimSplits(s);
    Regroup(p, a, t, b, q);
    WhitespaceConcat(p, a);
    WhitespaceConcat(b, q);
    TrimPadded(p + a, t, b + q);
  }

  lemma Regroup(p: string, a: string, t: string, b: string, q: string)
    ensures p + (a + t + b) + q == (p + a) + t + (b + q)
  {
  }

  /** A string without whitespace at its ends is left alone by trim(). */
  lemma TrimOfTrimmed(t: string)
    requires IsTrimmed(t)
    ensures Trim(t) == t
  {
    assert [] + t + [] == t;
    TrimPadded([], t, []);
  }

  /** Every character of the trimmed string is a character of the input. */
  lemma TrimKeepsCharacters(s: string)
    ensures forall k :: 0 <= k < |Trim(s)| ==> Trim(s)[k] in s
  {
    var r := Trim(s);
    var i := LeadingWhitespace(s);
    TrimShape(s);
    forall k | 0 <= k < |r| ensures r[k] in s {
      assert r[k] == s[i + k];
    }
  }

  /** trim() of ASCII text is ASCII. */
  lemma TrimKeepsAscii(s: string)
    requires IsAscii(s)
    ensures IsAscii(Trim(s))
  {
    var r := Trim(s);
    var i := LeadingWhitespace(s);
    TrimShape(s);
    forall k | 0 <= k < |r| ensures r[k] as int < 128 {
      assert r[k] == s[i + k];
    }
  }

  /** The lowercase letter for an upper-case ASCII letter; every other character unchanged. */
  function LowerChar(c: char): char {
    if 'A' <= c <= 'Z' then (c as int + 32) as char else c
  }

  /** toLowerCase restricted to what it does on ASCII letters. */
  function ToLowerAscii(s: string): (r: string)
    ensures |r| == |s| && forall i :: 0 <= i < |s| ==> r[i] == LowerChar(s[i])
  {
    if s == [] then [] else [LowerChar(s[0])] + ToLowerAscii(s[1..])
  }

  /** No upper-case ASCII letter occurs. */
  predicate HasNoUpper(s: string) {
    forall i :: 0 <= i < |s| ==> !('A' <= s[i] <= 'Z')
  }

  /** The value a path declared with Mongoose's `trim: true, lowercase: true` stores. */
  function TrimLower(s: string): string {
    ToLowerAscii(Trim(s))
  }

  lemma LowerKeepsWhitespace(s: string)
    ensures forall i :: 0 <= i < |s| ==> (IsWhitespace(ToLowerAscii(s)[i]) <==> IsWhitespace(s[i]))
  {
    forall i | 0 <= i < |s| ensures IsWhitespace(ToLowerAscii(s)[i]) <==> IsWhitespace(s[i]) {
      WhitespaceIsNotPrintable(s[i]);
      WhitespaceIsNotPrintable(LowerChar(s[i]));
    }
  }

  /** Dropping surrounding whitespace and lowercasing commute, so the order in which
      Mongoose applies the two setters of a path does not matter. */
  lemma TrimLowerCommutes(s: string)
    ensures TrimLower(s) == Trim(ToLowerAscii(s))
  {
    var t := Trim(s);
    var i := LeadingWhitespace(s);
    var a := s[..i];
    var b := s[i + |t|..];
    TrimSplits(s);
    LowerConcat(a + t, b);
    LowerConcat(a, t);
    LowerKeepsWhitespace(a);
    LowerKeepsWhitespace(t);
    LowerKeepsWhitespace(b);
    TrimPadded(ToLowerAscii(a), ToLowerAscii(t), ToLowerAscii(b));
  }

  lemma LowerConcat(x: string, y: string)
    ensures ToLowerAscii(x + y) == ToLowerAscii(x) + ToLowerAscii(y)
  {
  }

  /** The stored value is trimmed, has no upper-case letter, and is a fixed point of the
      setters: assigning it again stores it unchanged. */
  lemma TrimLowerIdempotent(s: string)
    ensures IsTrimmed(TrimLower(s)) && HasNoUpper(TrimLower(s))
    ensures TrimLower(TrimLower(s)) == TrimLower(s)
  {
    var t := Trim(s);
    var r := ToLowerAscii(t);
    LowerKeepsWhitespace(t);
    assert IsTrimmed(r) by {
      if |r| > 0 {
        assert IsWhitespace(r[0]) <==> IsWhitespace(t[0]);
        assert IsWhitespace(r[|r| - 1]) <==> IsWhitespace(t[|t| - 1]);
      }
    }
    LowerHasNoUpper(t);
    TrimOfTrimmed(r);
    LowerOfLower(r);
  }

  lemma LowerHasNoUpper(s: string)
    ensures HasNoUpper(ToLowerAscii(s))
  {
    var r := ToLowerAscii(s);
    forall i | 0 <= i < |r| ensures !('A' <= r[i] <= 'Z') {
      assert r[i] == LowerChar(s[i]);
    }
  }

  /** Lowercasing changes nothing in a string that has no upper-case letters. */
  lemma LowerOfLower(s: string)
    requires HasNoUpper(s)
    ensures ToLowerAscii(s) == s
  {
    var r := ToLowerAscii(s);
    forall i | 0 <= i < |s| ensures r[i] == s[i] {
      assert !('A' <= s[i] <= 'Z');
    }
  }

  /** The length JavaScript reports: characters outside the Basic Multilingual Plane
      count as two UTF-16 code units. */
  function Utf16Length(s: string): (n: nat)
    ensures |s| <= n <= 2 * |s|
    ensures IsAscii(s) ==> n == |s|
  {
    if s == [] then 0 else (if s[0] as int > 0xFFFF then 2 else 1) + Utf16Length(s[1..])
  }
}
