/**
 * Session cookies (weixin.py): turning a browser cookie snapshot into a dict,
 * waiting for the preliminary cookies, the `Cookie:` request header, and the
 * session dict that responses may rotate and that is persisted to the cookie file.
 */
module Cookies {
  import opened Wrappers

  /** One entry of `browser.get_cookies()`. */
  datatype Cookie = Cookie(name: string, value: string)

  /** `{cookie['name']: cookie['value'] for cookie in cookies}` */
  function ToDict(cs: seq<Cookie>): map<string, string>
  {
    if cs == [] then map[]
    else ToDict(cs[..|cs| - 1])[cs[|cs| - 1].name := cs[|cs| - 1].value]
  }

  /** Every name of the snapshot, and nothing else, is a key of the dict. */
  lemma {:induction false} ToDictKeys(cs: seq<Cookie>)
    ensures ToDict(cs).Keys == set c | c in cs :: c.name
  {
    if cs != [] {
      var init := cs[..|cs| - 1];
      ToDictKeys(init);
      assert forall c :: c in cs <==> c in init || c == cs[|cs| - 1];
    }
  }

  /** A name that occurs several times in the snapshot keeps its last value. */
  lemma {:induction false} ToDictLastWins(cs: seq<Cookie>, i: nat)
    requires i < |cs|
    requires forall j :: i < j < |cs| ==> cs[j].name != cs[i].name
    ensures cs[i].name in ToDict(cs) && ToDict(cs)[cs[i].name] == cs[i].value
  {
    if i < |cs| - 1 {
      var init := cs[..|cs| - 1];
      ToDictLastWins(init, i);
    }
  }

  /** No required name is missing from the dict (`not missing_cookies`). */
  predicate HasAll(d: map<string, string>, required: seq<string>) {
    forall n :: n in required ==> n in d
  }

  const MaxAttempts: nat := 10
  const DefaultRequired: seq<string> := ["ua_id", "uuid", "_clck"]

  /**
   * `_wait_for_cookies`: read the browser's cookies up to MaxAttempts times and
   * return the first snapshot holding every required name; None is the
   * TimeoutException raised once every attempt has failed. `jar(k)` is the
   * snapshot read on attempt k (the browser's answer, after any refresh).
   * `refreshed` lists the attempts after which the page was refreshed.
   */
  method WaitForCookies(jar: nat -> seq<Cookie>, required: seq<string>)
    returns (r: Option<map<string, string>>, attempts: nat, refreshed: seq<nat>)
    ensures 1 <= attempts <= MaxAttempts
    ensures forall k :: 0 <= k < attempts - 1 ==> !HasAll(ToDict(jar(k)), required)
    ensures r.Some? <==> HasAll(ToDict(jar(attempts - 1)), required)
    ensures r.Some? ==> r.value == ToDict(jar(attempts - 1))
    ensures r.None? ==> attempts == MaxAttempts
    ensures var failed := if r.Some? then attempts - 1 else attempts;
            |refreshed| == (failed + 1) / 2 && forall i :: 0 <= i < |refreshed| ==> refreshed[i] == 2 * i
  {
    refreshed := [];
    var attempt := 0;
    while attempt < MaxAttempts
      invariant 0 <= attempt <= MaxAttempts
      invariant forall k :: 0 <= k < attempt ==> !HasAll(ToDict(jar(k)), required)
      invariant |refreshed| == (attempt + 1) / 2
      invariant forall i :: 0 <= i < |refreshed| ==> refreshed[i] == 2 * i
    {
      var cookieDict := ToDict(jar(attempt));
      if HasAll(cookieDict, required) {
        return Some(cookieDict), attempt + 1, refreshed;
      }
      if attempt % 2 == 0 {
        refreshed := refreshed + [attempt];
      }
      attempt := attempt + 1;
    }
    return None, MaxAttempts, refreshed;
  }

  /** `f"{k}={v}"` */
  function Pair(item: (string, string)): string {
    item.0 + "=" + item.1
  }

  /** `'; '.join(f"{k}={v}" for k, v in items)`: the value of the `Cookie:` request header. */
  function CookieHeader(items: seq<(string, string)>): (h: string)
    ensures |items| == 1 ==> h == Pair(items[0])
    ensures h == "" <==> items == []
  {
    if items == [] then ""
    else if |items| == 1 then Pair(items[0])
    else Pair(items[0]) + "; " + CookieHeader(items[1..])
  }

  /** Names and values as cookies may carry them (section 4.1.1 of RFC 6265): no ';' anywhere, no '=' in a name. */
  predicate Plain(items: seq<(string, string)>) {
    forall i :: 0 <= i < |items| ==> ';' !in items[i].0 && '=' !in items[i].0 && ';' !in items[i].1
  }

  function IndexOf(s: string, c: char): (r: Option<nat>)
    ensures r.None? <==> c !in s
    ensures r.Some? ==> r.value < |s| && s[r.value] == c && c !in s[..r.value]
  {
    if s == [] then None
    else if s[0] == c then Some(0)
    else
      var rest := IndexOf(s[1..], c);
      if rest.None? then None
      else
        assert s[..rest.value + 1] == [s[0]] + s[1..][..rest.value];
        Some(rest.value + 1)
  }

  /** Splits one `k=v` entry at its first '='. */
  function ParsePair(e: string): (string, string) {
    match IndexOf(e, '=')
    case None => (e, "")
    case Some(i) => (e[..i], e[i + 1..])
  }

  function ParseEntries(h: string): seq<(string, string)>
    decreases |h|
  {
    match IndexOf(h, ';')
    case None => [ParsePair(h)]
    case Some(i) => [ParsePair(h[..i])] + ParseEntries(if i + 2 <= |h| then h[i + 2..] else [])
  }

  /** Reads a `Cookie:` header back into its name/value pairs. */
  function ParseCookieHeader(h: string): seq<(string, string)> {
    if h == "" then [] else ParseEntries(h)
  }

  lemma IndexOfAt(a: string, b: string, c: char)
    requires c !in a && b != [] && b[0] == c
    ensures IndexOf(a + b, c) == Some(|a|)
  {
    assert (a + b)[|a|] == c;
    assert (a + b)[..|a|] == a;
  }

  lemma ParsePairOf(item: (string, string))
    requires '=' !in item.0
    ensures ParsePair(Pair(item)) == item
  {
    IndexOfAt(item.0, "=" + item.1, '=');
    assert (item.0 + ("=" + item.1)) == Pair(item);
    assert Pair(item)[..|item.0|] == item.0;
    assert Pair(item)[|item.0| + 1..] == item.1;
  }

  /** Parsing a joined header gives back exactly the pairs that were joined. */
  lemma {:induction false} CookieHeaderRoundTrip(items: seq<(string, string)>)
    requires Plain(items)
    ensures ParseCookieHeader(CookieHeader(items)) == items
  {
    if items != [] {
      EntriesRoundTrip(items);
    }
  }

  lemma {:induction false} EntriesRoundTrip(items: seq<(string, string)>)
    requires Plain(items) && items != []
    ensures ParseEntries(CookieHeader(items)) == items
  {
    var first := Pair(items[0]);
    assert ';' !in first;
    ParsePairOf(items[0]);
    if |items| == 1 {
      assert IndexOf(first, ';').None?;
    } else {
      var rest := CookieHeader(items[1..]);
      var h := first + "; " + rest;
      assert h == first + ("; " + rest);
      IndexOfAt(first, "; " + rest, ';');
      assert h[..|first|] == first;
      assert h[|first| + 2..] == rest;
      assert Plain(items[1..]);
      EntriesRoundTrip(items[1..]);
    }
  }

  /**
   * `cookies.update(new)`: every key of either dict is kept, the new value wins
   * on a shared key, and every other key keeps its old value.
   */
  function Update(d: map<string, string>, incoming: map<string, string>): (r: map<string, string>)
    ensures r.Keys == d.Keys + incoming.Keys
    ensures forall k :: k in incoming ==> r[k] == incoming[k]
    ensures forall k :: k in d && k !in incoming ==> r[k] == d[k]
  {
    d + incoming
  }

  /** The session: the cookie dict passed to every request, and the cookie file that persists it. */
  class Session {
    var cookies: map<string, string>
    var cookieFile: Option<map<string, string>>

    constructor (cookies: map<string, string>, cookieFile: Option<map<string, string>>)
      ensures this.cookies == cookies && this.cookieFile == cookieFile
    {
      this.cookies := cookies;
      this.cookieFile := cookieFile;
    }

    /**
     * The cookie rotation in `_get_account_fakeid`: when the response carried
     * cookies, merge them into the dict in place and overwrite the cookie file
     * with the merged dict; otherwise change nothing.
     */
    method MergeResponseCookies(incoming: map<string, string>)
      modifies this
      ensures incoming != map[] ==> cookies == Update(old(cookies), incoming) && cookieFile == Some(cookies)
      ensures incoming == map[] ==> cookies == old(cookies) && cookieFile == old(cookieFile)
    {
      if incoming != map[] {
        cookies := Update(cookies, incoming);
        cookieFile := Some(cookies);
      }
    }
  }
}
