/**
 * `_get_account_fakeid` (weixin.py): search the account directory, merge the
 * cookies the search response carried into the session, then let the operator
 * pick one candidate by its 1-based number. The HTTP search and the operator's
 * console are parameters: the decoded search response and the lines typed.
 */
module Account {
  import opened Wrappers
  import opened Text
  import Cookies

  /** The decimal value of a run of ASCII digits. */
  function DigitsValue(d: string): nat
    requires forall c :: c in d ==> IsDigit(c)
  {
    if d == [] then 0
    else
      assert d[|d| - 1] in d && IsDigit(d[|d| - 1]);
      DigitsValue(d[..|d| - 1]) * 10 + (d[|d| - 1] as int - '0' as int)
  }

  /**
   * The ASCII information separators U+001C-U+001F: `str.isspace()` holds for
   * them, but `int()` passes characters below U+007F through unchanged and then
   * skips only tab, line feed, vertical tab, form feed, carriage return and space.
   */
  predicate IsSeparator(c: char) {
    '\U{1C}' <= c <= '\U{1F}'
  }

  /**
   * `int(s)` for the inputs it accepts: surrounding whitespace, an optional
   * sign, then at least one ASCII digit; anything else is the ValueError (None).
   * A separator anywhere is rejected: around the number `int()` does not skip
   * it, and inside the number it is not a digit.
   */
  function ParseInt(s: string): (r: Option<int>)
    ensures r.Some? ==> var t := Strip(s); t != [] && IsDigit(t[|t| - 1])
    ensures r.Some? && r.value < 0 ==> Strip(s)[0] == '-'
  {
    var t := Strip(s);
    var neg := t != [] && t[0] == '-';
    var digits := if t != [] && (t[0] == '+' || t[0] == '-') then t[1..] else t;
    if exists i :: 0 <= i < |s| && IsSeparator(s[i]) then None
    else if digits != [] && forall c :: c in digits ==> IsDigit(c) then
      assert digits[|digits| - 1] == t[|t| - 1] && digits[|digits| - 1] in digits;
      var v: int := DigitsValue(digits);
      Some(if neg then -v else v)
    else None
  }

  /** The decimal digits of n, most significant first, without leading zeros. */
  function Digits(n: nat): (d: string)
    ensures |d| > 0 && forall c :: c in d ==> IsDigit(c)
  {
    if n < 10 then [('0' as int + n) as char]
    else Digits(n / 10) + [('0' as int + n % 10) as char]
  }

  /** `str(n)` */
  function Show(n: int): string {
    if n < 0 then "-" + Digits(-n) else Digits(n)
  }

  lemma {:induction false} DigitsValueOfDigits(n: nat)
    ensures DigitsValue(Digits(n)) == n
  {
    if n >= 10 {
      var d := Digits(n);
      DigitsValueOfDigits(n / 10);
      assert d[..|d| - 1] == Digits(n / 10);
    }
  }

  lemma DigitNotSpace(c: char)
    requires IsDigit(c)
    ensures !IsSpace(c) && !IsSeparator(c)
  {
  }

  /** An information separator before a number makes `int()` raise, so the prompt asks again. */
  lemma SeparatorRejected()
    ensures ParseInt("\U{1F}1") == None
    ensures AnswerOf(Line("\U{1F}1"), 1) == Reprompt
  {
    assert IsSeparator("\U{1F}1"[0]);
  }

  /** A run of digits has no whitespace to strip and reads back as its value. */
  lemma ParseDigits(d: string)
    requires d != [] && forall c :: c in d ==> IsDigit(c)
    ensures ParseInt(d) == Some(DigitsValue(d))
  {
    assert d[0] in d && d[|d| - 1] in d;
    DigitNotSpace(d[0]);
    DigitNotSpace(d[|d| - 1]);
    StripUnpadded(d);
    forall i | 0 <= i < |d| ensures !IsSeparator(d[i]) {
      assert d[i] in d;
    }
    assert d[0] != '+' && d[0] != '-';
  }

  /** A minus sign before a run of digits reads back as the negated value. */
  lemma ParseNegated(d: string)
    requires d != [] && forall c :: c in d ==> IsDigit(c)
    ensures ParseInt("-" + d) == Some(-(DigitsValue(d) as int))
  {
    var m := "-" + d;
    assert m[|m| - 1] == d[|d| - 1] && d[|d| - 1] in d;
    DigitNotSpace(d[|d| - 1]);
    assert !IsSpace('-');
    StripUnpadded(m);
    forall i | 0 <= i < |m| ensures !IsSeparator(m[i]) {
      if i > 0 {
        assert m[i] == d[i - 1] && d[i - 1] in d;
      }
    }
    assert m[1..] == d;
  }

  /** `int(str(n)) == n`: every number the prompt lists is read back as itself. */
  lemma ParseShow(n: int)
    ensures ParseInt(Show(n)) == Some(n)
  {
    var m := if n < 0 then -n else n;
    DigitsValueOfDigits(m);
    if n < 0 {
      ParseNegated(Digits(m));
    } else {
      ParseDigits(Digits(m));
    }
  }

  /** The whitespace `int()` skips around a number: every `str.isspace()` character but the separators. */
  predicate IntSpace(c: char) {
    IsSpace(c) && !IsSeparator(c)
  }

  /** The signs `int()` accepts before the digits: none, `+` or `-`. */
  predicate IsSign(sg: string) {
    sg == "" || sg == "+" || sg == "-"
  }

  /** Whitespace `p`, a sign `sg`, a non-empty run of digits `d` and whitespace `q`: the shape of every numeral `int()` accepts. */
  predicate Numeral(p: string, sg: string, d: string, q: string) {
    && (forall c :: c in p ==> IntSpace(c))
    && IsSign(sg)
    && d != [] && (forall c :: c in d ==> IsDigit(c))
    && (forall c :: c in q ==> IntSpace(c))
  }

  /** The value of the digits `d` under the sign `sg`. */
  function SignedValue(sg: string, d: string): int
    requires forall c :: c in d ==> IsDigit(c)
  {
    if sg == "-" then -(DigitsValue(d) as int) else DigitsValue(d)
  }

  /** `int()` accepts every numeral, padding and `+` included, and reads the signed value of its digits. */
  lemma ParseNumeral(p: string, sg: string, d: string, q: string)
    requires Numeral(p, sg, d, q)
    ensures ParseInt(p + sg + d + q) == Some(SignedValue(sg, d))
  {
    var s := p + sg + d + q;
    var m := sg + d;
    assert s == p + m + q;
    assert d[0] in d && d[|d| - 1] in d;
    DigitNotSpace(d[0]);
    DigitNotSpace(d[|d| - 1]);
    assert m[|m| - 1] == d[|d| - 1];
    assert m[0] == if sg == "" then d[0] else sg[0];
    StripPadded(p, m, q);
    forall i | 0 <= i < |s| ensures !IsSeparator(s[i]) {
      if i < |p| {
        assert s[i] == p[i] && p[i] in p;
      } else if i < |p| + |m| {
        assert s[i] == m[i - |p|];
        if i - |p| >= |sg| {
          assert m[i - |p|] == d[i - |p| - |sg|] && d[i - |p| - |sg|] in d;
        }
      } else {
        assert s[i] == q[i - |p| - |m|] && q[i - |p| - |m|] in q;
      }
    }
    if sg == "" {
      assert m == d && !('0' <= '+' <= '9') && !('0' <= '-' <= '9');
    } else {
      assert m[1..] == d;
    }
  }

  /** `int()` rejects every string that is not a numeral: an accepted string is padding, a sign, digits and padding, read as their signed value. */
  lemma ParseIntNumeral(s: string)
    requires ParseInt(s).Some?
    ensures exists p, sg, d, q :: Numeral(p, sg, d, q) && s == p + sg + d + q
                                  && ParseInt(s) == Some(SignedValue(sg, d))
  {
    var sg, d := AcceptedParts(s);
    var p, q := Padding(s);
    assert s == p + sg + d + q;
    assert Numeral(p, sg, d, q);
    ParseNumeral(p, sg, d, q);
  }

  /** Without separators, what `strip` removes around a text is whitespace `int()` skips. */
  lemma Padding(s: string) returns (p: string, q: string)
    requires forall k :: 0 <= k < |s| ==> !IsSeparator(s[k])
    ensures s == p + Strip(s) + q
    ensures (forall c :: c in p ==> IntSpace(c)) && (forall c :: c in q ==> IntSpace(c))
  {
    StripSpec(s);
    var i, j :| 0 <= i <= j <= |s| && Strip(s) == s[i..j]
                && (forall k :: 0 <= k < i ==> IsSpace(s[k]))
                && (forall k :: j <= k < |s| ==> IsSpace(s[k]));
    p, q := s[..i], s[j..];
    assert s == s[..i] + s[i..j] + s[j..];
    AllIntSpace(s, 0, i);
    AllIntSpace(s, j, |s|);
  }

  /** A slice of whitespace without separators is whitespace `int()` skips. */
  lemma AllIntSpace(s: string, i: int, j: int)
    requires 0 <= i <= j <= |s|
    requires forall k :: i <= k < j ==> IsSpace(s[k]) && !IsSeparator(s[k])
    ensures forall c :: c in s[i..j] ==> IntSpace(c)
  {
    forall c | c in s[i..j] ensures IntSpace(c) {
      var k :| 0 <= k < j - i && s[i..j][k] == c;
      assert s[i + k] == c;
    }
  }

  /** What `ParseInt` checked before accepting: no separator, and a stripped text made of a sign and a digit run. */
  lemma AcceptedParts(s: string) returns (sg: string, d: string)
    requires ParseInt(s).Some?
    ensures forall k :: 0 <= k < |s| ==> !IsSeparator(s[k])
    ensures IsSign(sg) && d != [] && (forall c :: c in d ==> IsDigit(c)) && Strip(s) == sg + d
  {
    var t := Strip(s);
    sg := if t != [] && (t[0] == '+' || t[0] == '-') then t[..1] else [];
    d := t[|sg|..];
    assert t == sg + d;
  }

  /** One search result; a missing key is None. Only the fields the selection reads are kept. */
  datatype Candidate =
    | Candidate(nickname: Option<string>, fakeid: Option<string>)
    | Unprintable   // not a dict (`.get` raises), or its `nickname` is null, a list or a dict (the padded format raises)

  /** Every candidate of the list can be printed in the numbered listing shown before the prompt. */
  predicate Printable(list: seq<Candidate>) {
    forall i :: 0 <= i < |list| ==> list[i].Candidate?
  }

  /** One answer at the prompt: a typed line, or Ctrl-C (KeyboardInterrupt). */
  datatype Input = Line(text: string) | Interrupt

  /** What one answer does, given `count` candidates. */
  datatype Answer = Cancel | Pick(index: nat) | Reprompt

  /**
   * `choice.lower() == 'q'` cancels; `int(choice) - 1` within range picks that
   * candidate; any other number, and anything that is not a number, asks again.
   */
  function AnswerOf(input: Input, count: nat): (a: Answer)
    ensures a.Cancel? <==> input.Interrupt? || input.text == "q" || input.text == "Q"
    ensures a.Pick? <==> input.Line? && input.text != "q" && input.text != "Q"
                         && ParseInt(input.text).Some? && 1 <= ParseInt(input.text).value <= count
    ensures a.Pick? ==> a.index < count && ParseInt(input.text) == Some(a.index + 1)
  {
    match input
    case Interrupt => Cancel
    case Line(s) =>
      if s == "q" || s == "Q" then Cancel
      else match ParseInt(s)
        case Some(c) => if 0 <= c - 1 < count then Pick(c - 1) else Reprompt
        case None => Reprompt
  }

  /** The 1-based number the prompt shows for candidate `i` selects it. */
  lemma ListedNumberPicks(i: nat, count: nat)
    requires i < count
    ensures AnswerOf(Line(Show(i + 1)), count) == Pick(i)
  {
    ParseShow(i + 1);
    var d := Show(i + 1);
    assert d[0] in d && IsDigit(d[0]);
    assert d != "q" && d != "Q";
  }

  /**
   * The `while True` prompt loop. `used` is the number of answers read. The
   * loop ends on a pick, on a cancel, or when the answers run out (input()
   * raises EOFError, which the enclosing `except Exception` turns into None).
   * With no candidates nothing is asked.
   */
  method ChooseAccount(count: nat, inputs: seq<Input>) returns (r: Option<nat>, used: nat)
    ensures count == 0 ==> r.None? && used == 0
    ensures used <= |inputs|
    ensures forall j :: 0 <= j < used - 1 ==> AnswerOf(inputs[j], count).Reprompt?
    ensures r.Some? ==> r.value < count
    ensures r.Some? <==> used > 0 && AnswerOf(inputs[used - 1], count).Pick?
    ensures r.Some? ==> AnswerOf(inputs[used - 1], count) == Pick(r.value)
    ensures r.None? && count > 0 ==>
              (used > 0 && AnswerOf(inputs[used - 1], count).Cancel?)
              || (used == |inputs| && forall j :: 0 <= j < used ==> AnswerOf(inputs[j], count).Reprompt?)
  {
    if count == 0 {
      return None, 0;
    }
    used := 0;
    while used < |inputs|
      invariant used <= |inputs|
      invariant forall j :: 0 <= j < used ==> AnswerOf(inputs[j], count).Reprompt?
    {
      var answer := AnswerOf(inputs[used], count);
      used := used + 1;
      match answer
      case Cancel => return None, used;
      case Pick(i) => return Some(i), used;
      case Reprompt =>
    }
    return None, used;
  }

  /** The decoded body of the search response; `list` is None when the key is missing. */
  datatype SearchBody = SearchBody(list: Option<seq<Candidate>>)

  /** The search response: the cookies it set, and its body (None when it is not JSON). */
  datatype SearchResponse = SearchResponse(cookies: map<string, string>, body: Option<SearchBody>)

  /** `response.json().get('list', [])` */
  function Candidates(body: SearchBody): seq<Candidate> {
    body.list.GetOr([])
  }

  /**
   * `_get_account_fakeid`. `response` is None when the request raised. The
   * response's cookies are merged into the session before the body is read.
   * The chosen candidate's `nickname` and `fakeid` are read with `[...]`, so a
   * candidate lacking either raises KeyError, which yields None.
   */
  method GetAccountFakeid(session: Cookies.Session, response: Option<SearchResponse>, inputs: seq<Input>)
    returns (fakeid: Option<string>, used: nat)
    modifies session
    ensures response.None? ==> fakeid.None? && used == 0
    ensures used <= |inputs|
    ensures response.None? ==> session.cookies == old(session.cookies) && session.cookieFile == old(session.cookieFile)
    ensures response.Some? && response.value.cookies != map[] ==>
              session.cookies == Cookies.Update(old(session.cookies), response.value.cookies)
              && session.cookieFile == Some(session.cookies)
    ensures response.Some? && response.value.cookies == map[] ==>
              session.cookies == old(session.cookies) && session.cookieFile == old(session.cookieFile)
    ensures response.Some? && response.value.body.None? ==> fakeid.None? && used == 0
    ensures response.Some? && response.value.body.Some? ==>
              var list := Candidates(response.value.body.value);
              && (|list| == 0 || !Printable(list) ==> fakeid.None? && used == 0)
              && (forall j :: 0 <= j < used - 1 ==> AnswerOf(inputs[j], |list|).Reprompt?)
              && (|list| > 0 && Printable(list) ==>
                    (used > 0 && !AnswerOf(inputs[used - 1], |list|).Reprompt?)
                    || (used == |inputs| && forall j :: 0 <= j < used ==> AnswerOf(inputs[j], |list|).Reprompt?))
              && (used > 0 && AnswerOf(inputs[used - 1], |list|).Pick? ==>
                    var chosen := list[AnswerOf(inputs[used - 1], |list|).index];
                    chosen.Candidate? && fakeid == if chosen.nickname.Some? then chosen.fakeid else None)
              && (used == 0 || !AnswerOf(inputs[used - 1], |list|).Pick? ==> fakeid.None?)
    ensures fakeid.Some? ==>
              response.Some? && response.value.body.Some? && used > 0
              && exists i :: 0 <= i < |Candidates(response.value.body.value)|
                   && AnswerOf(inputs[used - 1], |Candidates(response.value.body.value)|) == Pick(i)
                   && Candidates(response.value.body.value)[i].Candidate?
                   && Candidates(response.value.body.value)[i].fakeid == fakeid
                   && Candidates(response.value.body.value)[i].nickname.Some?
  {
    if response.None? {
      return None, 0;
    }
    session.MergeResponseCookies(response.value.cookies);
    if response.value.body.None? {
      return None, 0;
    }
    var list := Candidates(response.value.body.value);
    if !Printable(list) {
      return None, 0;
    }
    var choice;
    choice, used := ChooseAccount(|list|, inputs);
    if choice.None? {
      return None, used;
    }
    var selected := list[choice.value];
    if selected.nickname.None? || selected.fakeid.None? {
      return None, used;
    }
    assert AnswerOf(inputs[used - 1], |list|) == Pick(choice.value);
    return selected.fakeid, used;
  }
}
