/**
 * The session token: `re.findall(r'token=(\d+)', url)` applied to the URL the
 * platform's base page redirects to (weixin.py, `_verify_cookies` and `_get_token`).
 * The first element of `findall` is the digit run after the leftmost `token=` that
 * is followed by at least one digit; there is no left word boundary.
 */
module Token {
  import opened Wrappers
  import opened Text

  const Key: string := "token="

  /** The pattern `token=\d` matches at position `i` of `s`. */
  predicate MatchAt(s: string, i: int) {
    0 <= i && i + |Key| < |s| && s[i..i + |Key|] == Key && IsDigit(s[i + |Key|])
  }

  /** `d` is the greedy (maximal) run of digits of `s` starting at `j`. */
  predicate MaximalDigitRun(s: string, j: nat, d: string) {
    j + |d| <= |s| && s[j..j + |d|] == d
    && (forall c :: c in d ==> IsDigit(c))
    && (j + |d| == |s| || !IsDigit(s[j + |d|]))
  }

  /** The greedy `\d+`-style run of digits of `s` starting at `j` (possibly empty). */
  function DigitRun(s: string, j: nat): (d: string)
    requires j <= |s|
    ensures MaximalDigitRun(s, j, d)
    decreases |s| - j
  {
    if j < |s| && IsDigit(s[j]) then [s[j]] + DigitRun(s, j + 1) else []
  }

  /** The leftmost position at or after `from` where `token=\d` matches. */
  function LeftmostMatch(s: string, from: nat): (r: Option<nat>)
    ensures r.Some? ==> from <= r.value && MatchAt(s, r.value)
    ensures forall i :: from <= i && (r.None? || i < r.value) ==> !MatchAt(s, i)
    decreases |s| - from
  {
    if from + |Key| >= |s| then None
    else if MatchAt(s, from) then Some(from)
    else LeftmostMatch(s, from + 1)
  }

  /** `re.findall(r'token=(\d+)', s)[0]`, or None when there is no match. */
  function FindToken(s: string): (r: Option<string>)
    ensures r.Some? ==> r.value != [] && forall c :: c in r.value ==> IsDigit(c)
  {
    match LeftmostMatch(s, 0)
    case None => None
    case Some(i) =>
      var d := DigitRun(s, i + |Key|);
      assert d != [] by { assert IsDigit(s[i + |Key|]); }
      Some(d)
  }

  /** `FindToken` finds the digit run after the leftmost match, and finds nothing exactly when nothing matches. */
  lemma FindTokenSpec(s: string)
    ensures FindToken(s).None? <==> forall i :: !MatchAt(s, i)
    ensures FindToken(s).Some? ==>
      exists i :: MatchAt(s, i) && (forall k :: 0 <= k < i ==> !MatchAt(s, k))
                  && MaximalDigitRun(s, i + |Key|, FindToken(s).value)
    ensures FindToken(s).Some? ==> |FindToken(s).value| > 0
  {
    match LeftmostMatch(s, 0)
    case None =>
    case Some(i) =>
      var d := DigitRun(s, i + |Key|);
      assert d[0] == s[i + |Key|];
  }

  /**
   * `_get_token`: the token from the URL the base page redirected to;
   * `url` is None when the request raised, which the source turns into None.
   */
  function GetToken(url: Option<string>): (r: Option<string>)
    ensures url.None? ==> r.None?
    ensures url.Some? ==> r == FindToken(url.value)
  {
    if url.None? then None else FindToken(url.value)
  }

  /** `_verify_cookies`: the stored cookies are valid exactly when a token can be extracted. */
  function VerifyCookies(url: Option<string>): (valid: bool)
    ensures valid <==> url.Some? && exists i :: MatchAt(url.value, i)
  {
    match url
    case None => GetToken(url).Some?
    case Some(u) => FindTokenSpec(u); GetToken(url).Some?
  }

  /** No left word boundary: `xtoken=5` yields the token "5". */
  lemma NoLeftBoundary()
    ensures FindToken("xtoken=5") == Some("5")
  {
    var s := "xtoken=5";
    assert !MatchAt(s, 0) by { assert s[0] != Key[0]; }
    assert MatchAt(s, 1);
    assert LeftmostMatch(s, 0) == Some(1);
    assert DigitRun(s, 8) == [];
    assert DigitRun(s, 7) == "5";
  }

  /** A `token=` that is not followed by a digit is skipped in favour of a later one. */
  lemma SkipsTokenWithoutDigits()
    ensures FindToken("token=&token=42") == Some("42")
  {
    var s := "token=&token=42";
    forall i | 0 <= i < 7 ensures !MatchAt(s, i) {
      if i > 0 {
        assert s[i] != Key[0];
        assert s[i..i + |Key|][0] == s[i];
      } else {
        assert !IsDigit(s[6]);
      }
    }
    assert MatchAt(s, 7);
    assert LeftmostMatch(s, 0) == Some(7) by {
      assert LeftmostMatch(s, 0) == LeftmostMatch(s, 7);
    }
    assert DigitRun(s, 15) == [];
    assert DigitRun(s, 14) == "2";
    assert DigitRun(s, 13) == "42";
  }
}
