/** Character classes and `str.strip()`, shared by the token, choice and content code. */
module Text {

  /** ASCII decimal digits (what `\d` and `int()` accept, restricted to ASCII). */
  predicate IsDigit(c: char) {
    '0' <= c <= '9'
  }

  /**
   * The characters Python's `str.isspace()` accepts, which `str.strip()`
   * removes (`int()` skips all of them but U+001C-U+001F): tab through carriage return (U+0009-U+000D), the four ASCII
   * separators U+001C-U+001F, space, next line U+0085, no-break space U+00A0,
   * the Ogham space mark U+1680, the spaces U+2000-U+200A, the line and
   * paragraph separators U+2028 and U+2029, the narrow no-break space U+202F,
   * the medium mathematical space U+205F and the ideographic space U+3000.
   */
  const SpaceChars: set<char> := {
    '\U{9}', '\U{A}', '\U{B}', '\U{C}', '\U{D}', '\U{1C}', '\U{1D}', '\U{1E}', '\U{1F}',
    '\U{20}', '\U{85}', '\U{A0}', '\U{1680}', '\U{2000}', '\U{2001}', '\U{2002}', '\U{2003}',
    '\U{2004}', '\U{2005}', '\U{2006}', '\U{2007}', '\U{2008}', '\U{2009}', '\U{200A}',
    '\U{2028}', '\U{2029}', '\U{202F}', '\U{205F}', '\U{3000}'
  }

  predicate IsSpace(c: char) {
    c in SpaceChars
  }

  function StripLeft(s: string): string {
    if s != [] && IsSpace(s[0]) then StripLeft(s[1..]) else s
  }

  function StripRight(s: string): string {
    if s != [] && IsSpace(s[|s| - 1]) then StripRight(s[..|s| - 1]) else s
  }

  /** `s.strip()`: never longer than `s`, and with no whitespace at either end. */
  function Strip(s: string): (r: string)
    ensures |r| <= |s|
    ensures r == [] || (!IsSpace(r[0]) && !IsSpace(r[|r| - 1]))
  {
    StripLeftSpec(s);
    StripRightSpec(StripLeft(s));
    var r := StripRight(StripLeft(s));
    assert r != [] ==> r[0] == StripLeft(s)[0];
    r
  }

  /** `lstrip` drops exactly the leading whitespace: what is left is a suffix starting with a non-space. */
  lemma {:induction false} StripLeftSpec(s: string)
    ensures var r := StripLeft(s);
      |r| <= |s| && r == s[|s| - |r|..]
      && (forall i :: 0 <= i < |s| - |r| ==> IsSpace(s[i]))
      && (r == [] || !IsSpace(r[0]))
  {
    if s != [] && IsSpace(s[0]) {
      StripLeftSpec(s[1..]);
    }
  }

  /** `rstrip` drops exactly the trailing whitespace: what is left is a prefix ending with a non-space. */
  lemma {:induction false} StripRightSpec(s: string)
    ensures var r := StripRight(s);
      |r| <= |s| && r == s[..|r|]
      && (forall i :: |r| <= i < |s| ==> IsSpace(s[i]))
      && (r == [] || !IsSpace(r[|r| - 1]))
  {
    if s != [] && IsSpace(s[|s| - 1]) {
      StripRightSpec(s[..|s| - 1]);
    }
  }

  /** `strip` keeps a slice of the input, drops only whitespace around it, and leaves no whitespace at either end. */
  lemma StripSpec(s: string)
    ensures exists i, j :: 0 <= i <= j <= |s| && Strip(s) == s[i..j]
                           && (forall k :: 0 <= k < i ==> IsSpace(s[k]))
                           && (forall k :: j <= k < |s| ==> IsSpace(s[k]))
    ensures Strip(s) == [] || (!IsSpace(Strip(s)[0]) && !IsSpace(Strip(s)[|Strip(s)| - 1]))
  {
    var l := StripLeft(s);
    StripLeftSpec(s);
    StripRightSpec(l);
    var r := StripRight(l);
    var i := |s| - |l|;
    var j := i + |r|;
    assert r == s[i..j];
    forall k | j <= k < |s| ensures IsSpace(s[k]) {
      assert s[k] == l[k - i];
    }
    assert 0 <= i <= j <= |s| && Strip(s) == s[i..j]
           && (forall k :: 0 <= k < i ==> IsSpace(s[k]))
           && (forall k :: j <= k < |s| ==> IsSpace(s[k]));
    if r != [] {
      assert r[0] == l[0];
    }
  }

  /** A string with no whitespace at either end is its own strip. */
  lemma StripUnpadded(s: string)
    requires s != [] && !IsSpace(s[0]) && !IsSpace(s[|s| - 1])
    ensures Strip(s) == s
  {
    assert StripLeft(s) == s;
    assert StripRight(s) == s;
  }

  /** Leading whitespace before a text that does not start with whitespace is exactly what `lstrip` removes. */
  lemma {:induction false} StripLeftPadded(p: string, x: string)
    requires forall c :: c in p ==> IsSpace(c)
    requires x == [] || !IsSpace(x[0])
    ensures StripLeft(p + x) == x
  {
    if p != [] {
      assert p[0] in p && (p + x)[0] == p[0];
      assert (p + x)[1..] == p[1..] + x;
      StripLeftPadded(p[1..], x);
    } else {
      assert p + x == x;
    }
  }

  /** Trailing whitespace after a text that does not end with whitespace is exactly what `rstrip` removes. */
  lemma {:induction false} StripRightPadded(x: string, q: string)
    requires forall c :: c in q ==> IsSpace(c)
    requires x == [] || !IsSpace(x[|x| - 1])
    ensures StripRight(x + q) == x
  {
    if q != [] {
      assert q[|q| - 1] in q && (x + q)[|x + q| - 1] == q[|q| - 1];
      assert (x + q)[..|x + q| - 1] == x + q[..|q| - 1];
      StripRightPadded(x, q[..|q| - 1]);
    } else {
      assert x + q == x;
    }
  }

  /** `strip` removes exactly the whitespace padding around a text that neither starts nor ends with whitespace. */
  lemma StripPadded(p: string, m: string, q: string)
    requires forall c :: c in p ==> IsSpace(c)
    requires forall c :: c in q ==> IsSpace(c)
    requires m != [] && !IsSpace(m[0]) && !IsSpace(m[|m| - 1])
    ensures Strip(p + m + q) == m
  {
    assert p + m + q == p + (m + q);
    assert (m + q)[0] == m[0];
    StripLeftPadded(p, m + q);
    StripRightPadded(m, q);
  }

  /** Stripping twice changes nothing more. */
  lemma StripIdempotent(s: string)
    ensures Strip(Strip(s)) == Strip(s)
  {
    StripSpec(s);
    if Strip(s) != [] {
      StripUnpadded(Strip(s));
    }
  }
}
