/**
 * The string operations the register handler applies to an e-mail address
 * (server.js:65): `trim()` followed by `toLowerCase()`.
 */
module Text {

  /** The characters `String.prototype.trim` removes: ECMAScript WhiteSpace and LineTerminator. */
  const JsWhiteSpace: set<char> := {
    '\t', '\n', '\U{B}', '\U{C}', '\r', ' ', '\U{A0}', '\U{1680}',
    '\U{2000}', '\U{2001}', '\U{2002}', '\U{2003}', '\U{2004}', '\U{2005}',
    '\U{2006}', '\U{2007}', '\U{2008}', '\U{2009}', '\U{200A}',
    '\U{2028}', '\U{2029}', '\U{202F}', '\U{205F}', '\U{3000}', '\U{FEFF}'
  }

  predicate IsJsSpace(c: char)
  {
    c in JsWhiteSpace
  }

  predicate IsUpper(c: char)
  {
    'A' <= c <= 'Z'
  }

  /** Lower-casing of one character, restricted to the ASCII letters. */
  function LowerChar(c: char): (r: char)
    ensures !IsUpper(r)
    ensures r != c ==> IsUpper(c) && 'a' <= r <= 'z'
    ensures IsUpper(c) ==> r as int == c as int + ('a' as int - 'A' as int)
  {
    if IsUpper(c) then (c as int + ('a' as int - 'A' as int)) as char else c
  }

  /** Every character is white space. */
  ghost predicate AllSpace(s: string)
  {
    forall k :: 0 <= k < |s| ==> IsJsSpace(s[k])
  }

  /** Two strings that differ at most in the case of ASCII letters. */
  ghost predicate SameUpToCase(a: string, b: string)
  {
    |a| == |b| && forall k :: 0 <= k < |a| ==> LowerChar(a[k]) == LowerChar(b[k])
  }

  /** Drops the leading white space. */
  function TrimStart(s: string): string
  {
    if |s| > 0 && IsJsSpace(s[0]) then TrimStart(s[1..]) else s
  }

  /** Drops the trailing white space. */
  function TrimEnd(s: string): string
  {
    if |s| > 0 && IsJsSpace(s[|s| - 1]) then TrimEnd(s[..|s| - 1]) else s
  }

  /** `s.trim()`. */
  function Trim(s: string): string
  {
    TrimEnd(TrimStart(s))
  }

  /** `s.toLowerCase()`, on ASCII letters. */
  function Lower(s: string): string
  {
    if s == [] then [] else [LowerChar(s[0])] + Lower(s[1..])
  }

  /** The register handler's normalisation: trim, then lower-case. */
  function NormalizeEmail(s: string): string
  {
    Lower(Trim(s))
  }

  /** TrimStart removes a prefix made only of white space and stops at the first other character. */
  lemma {:induction false} TrimStartSpec(s: string)
    ensures var r := TrimStart(s);
      && |r| <= |s| && r == s[|s| - |r|..]
      && (r == [] || !IsJsSpace(r[0]))
      && forall k :: 0 <= k < |s| - |r| ==> IsJsSpace(s[k])
  {
    if |s| > 0 && IsJsSpace(s[0]) {
      TrimStartSpec(s[1..]);
      var r := TrimStart(s[1..]);
      assert s[1..][|s| - 1 - |r|..] == s[|s| - |r|..];
      forall k | 0 < k < |s| - |r|
        ensures IsJsSpace(s[k])
      {
        assert s[k] == s[1..][k - 1];
      }
    }
  }

  /** TrimEnd removes a suffix made only of white space and stops at the last other character. */
  lemma {:induction false} TrimEndSpec(s: string)
    ensures var r := TrimEnd(s);
      && |r| <= |s| && r == s[..|r|]
      && (r == [] || !IsJsSpace(r[|r| - 1]))
      && forall k :: |r| <= k < |s| ==> IsJsSpace(s[k])
  {
    if |s| > 0 && IsJsSpace(s[|s| - 1]) {
      TrimEndSpec(s[..|s| - 1]);
      var r := TrimEnd(s[..|s| - 1]);
      assert s[..|s| - 1][..|r|] == s[..|r|];
      forall k | |r| <= k < |s| - 1
        ensures IsJsSpace(s[k])
      {
        assert s[k] == s[..|s| - 1][k];
      }
    }
  }

  /**
   * `s.trim()` is the slice of `s` between a white-space prefix and a
   * white-space suffix; neither of its ends is white space; it is empty
   * exactly when `s` is all white space.
   */
  lemma TrimSpec(s: string)
    ensures var r := Trim(s);
      var i := |s| - |TrimStart(s)|;
      && 0 <= i && i + |r| <= |s| && r == s[i..i + |r|]
      && (forall k :: 0 <= k < i ==> IsJsSpace(s[k]))
      && (forall k :: i + |r| <= k < |s| ==> IsJsSpace(s[k]))
      && (r == [] || (!IsJsSpace(r[0]) && !IsJsSpace(r[|r| - 1])))
      && (r == [] <==> forall k :: 0 <= k < |s| ==> IsJsSpace(s[k]))
  {
    var t := TrimStart(s);
    var i := |s| - |t|;
    TrimStartSpec(s);
    TrimEndSpec(t);
    var r := TrimEnd(t);
    assert r == s[i..i + |r|];
    forall k | i + |r| <= k < |s|
      ensures IsJsSpace(s[k])
    {
      assert s[k] == t[k - i];
    }
  }

  /** Lower-casing keeps the length and lowers every character in place. */
  lemma {:induction false} LowerSpec(s: string)
    ensures |Lower(s)| == |s|
    ensures forall k :: 0 <= k < |s| ==> Lower(s)[k] == LowerChar(s[k])
  {
    if s != [] {
      LowerSpec(s[1..]);
      forall k | 1 <= k < |s|
        ensures Lower(s)[k] == LowerChar(s[k])
      {
        assert s[k] == s[1..][k - 1];
      }
    }
  }

  /** Lower-casing neither creates nor removes white space. */
  lemma LowerCharKeepsSpace(c: char)
    ensures IsJsSpace(LowerChar(c)) <==> IsJsSpace(c)
  {
  }

  /**
   * A normalised address has no ASCII capital, no white space at either
   * end, and is empty exactly when the input was all white space.
   */
  lemma NormalizeEmailShape(s: string)
    ensures var r := NormalizeEmail(s);
      && (forall k :: 0 <= k < |r| ==> !IsUpper(r[k]))
      && (r == [] || (!IsJsSpace(r[0]) && !IsJsSpace(r[|r| - 1])))
      && (r == [] <==> forall k :: 0 <= k < |s| ==> IsJsSpace(s[k]))
  {
    var t := Trim(s);
    TrimSpec(s);
    LowerSpec(t);
    if t != [] {
      LowerCharKeepsSpace(t[0]);
      LowerCharKeepsSpace(t[|t| - 1]);
    }
  }

  /** A string with no white space at either end is its own trim. */
  lemma TrimOfTrimmed(s: string)
    requires s == [] || (!IsJsSpace(s[0]) && !IsJsSpace(s[|s| - 1]))
    ensures Trim(s) == s
  {
  }

  /** Lower-casing twice is lower-casing once. */
  lemma {:induction false} LowerIdempotent(s: string)
    ensures Lower(Lower(s)) == Lower(s)
  {
    if s != [] {
      LowerIdempotent(s[1..]);
      assert Lower(s)[1..] == Lower(s[1..]);
    }
  }

  /** Normalising an already normalised address changes nothing. */
  lemma NormalizeIdempotent(s: string)
    ensures NormalizeEmail(NormalizeEmail(s)) == NormalizeEmail(s)
  {
    var n := NormalizeEmail(s);
    NormalizeEmailShape(s);
    TrimOfTrimmed(n);
    LowerIdempotent(Trim(s));
  }

  /** TrimStart drops exactly a white-space prefix in front of a non-space character. */
  lemma {:induction false} TrimStartPrefix(p: string, x: string)
    requires AllSpace(p) && (x == [] || !IsJsSpace(x[0]))
    ensures TrimStart(p + x) == x
  {
    if p != [] {
      assert (p + x)[1..] == p[1..] + x;
      TrimStartPrefix(p[1..], x);
    }
  }

  /** TrimEnd drops exactly a white-space suffix behind a non-space character. */
  lemma {:induction false} TrimEndSuffix(x: string, q: string)
    requires AllSpace(q) && (x == [] || !IsJsSpace(x[|x| - 1]))
    ensures TrimEnd(x + q) == x
  {
    if q != [] {
      var q' := q[..|q| - 1];
      assert (x + q)[..|x + q| - 1] == x + q';
      TrimEndSuffix(x, q');
    } else {
      assert x + q == x;
    }
  }

  /** Trimming a string wrapped in white space gives the string back. */
  lemma TrimSurrounded(p: string, a: string, q: string)
    requires AllSpace(p) && AllSpace(q)
    requires a == [] || (!IsJsSpace(a[0]) && !IsJsSpace(a[|a| - 1]))
    ensures Trim(p + a + q) == a
  {
    if a == [] {
      TrimSpec(p + a + q);
      assert forall k :: 0 <= k < |p + a + q| ==> IsJsSpace((p + a + q)[k]);
    } else {
      assert p + a + q == p + (a + q);
      TrimStartPrefix(p, a + q);
      TrimEndSuffix(a, q);
    }
  }

  /**
   * Two addresses that differ only in the case of ASCII letters and in the
   * white space around them normalise to the same address.
   */
  lemma NormalizeIgnoresCaseAndSpace(p1: string, a: string, q1: string, p2: string, b: string, q2: string)
    requires AllSpace(p1) && AllSpace(q1) && AllSpace(p2) && AllSpace(q2)
    requires a == [] || (!IsJsSpace(a[0]) && !IsJsSpace(a[|a| - 1]))
    requires SameUpToCase(a, b)
    ensures NormalizeEmail(p1 + a + q1) == NormalizeEmail(p2 + b + q2) == Lower(a)
  {
    if a != [] {
      LowerCharKeepsSpace(a[0]);
      LowerCharKeepsSpace(b[0]);
      LowerCharKeepsSpace(a[|a| - 1]);
      LowerCharKeepsSpace(b[|b| - 1]);
    }
    TrimSurrounded(p1, a, q1);
    TrimSurrounded(p2, b, q2);
    LowerSpec(a);
    LowerSpec(b);
  }

  lemma LowerExample()
    ensures Lower("Foo@Bar.COM") == "foo@bar.com"
  {
    var s, r := "Foo@Bar.COM", "foo@bar.com";
    LowerSpec(s);
    assert forall k :: 0 <= k < |s| ==> LowerChar(s[k]) == r[k];
  }

  /** `"  Foo@Bar.COM "` normalises to `"foo@bar.com"`. */
  lemma NormalizeExample()
    ensures NormalizeEmail("  Foo@Bar.COM ") == "foo@bar.com"
  {
    var p, a, q := "  ", "Foo@Bar.COM", " ";
    assert p + a + q == "  Foo@Bar.COM ";
    assert AllSpace(p) && AllSpace(q) by {
      assert ' ' in JsWhiteSpace;
    }
    assert !IsJsSpace(a[0]) && !IsJsSpace(a[|a| - 1]) by {
      assert a[0] == 'F' && a[|a| - 1] == 'M';
    }
    TrimSurrounded(p, a, q);
    LowerExample();
  }
}
