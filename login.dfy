/**
 * The QR-code login (weixin.py): `_check_login_status`, the poll for the scan
 * confirmation, and `login`, which reuses stored cookies when they still
 * authenticate and otherwise drives a browser through the QR flow, always
 * quitting a browser it started. The clock, the browser, the status endpoint
 * and the QR endpoint are parameters.
 */
module Login {
  import opened Wrappers
  import Token
  import Cookies

  /** `max_wait_time` of `_check_login_status`, in seconds. */
  const DefaultMaxWait: int := 120

  /** The `status` the endpoint reports once the scan is confirmed (0: not scanned, 4: scanned, awaiting confirmation). */
  const StatusConfirmed: int := 1

  /** One status poll: the `status` of the decoded answer (None when absent), or Raised when the call or the decoding raised. */
  datatype Poll = Raised | Answer(status: Option<int>)

  /** One turn of the poll loop: the clock reading of its condition, and the poll made if the loop goes on. */
  datatype Tick = Tick(now: int, poll: Poll)

  predicate IsConfirmed(p: Poll) {
    p == Answer(Some(StatusConfirmed))
  }

  /** The poll of this turn starts before the deadline. */
  predicate InTime(start: int, t: Tick, maxWait: int) {
    t.now - start < maxWait
  }

  /**
   * The clock never goes back, and the readings reach the deadline (every turn
   * sleeps at least two seconds, so the real clock always does).
   */
  predicate ClockValid(start: int, ticks: seq<Tick>, maxWait: int) {
    && |ticks| > 0
    && start <= ticks[0].now
    && (forall j :: 0 < j < |ticks| ==> ticks[j - 1].now <= ticks[j].now)
    && !InTime(start, ticks[|ticks| - 1], maxWait)
  }

  /** Some poll started before the deadline reports the confirmation. */
  predicate Confirms(start: int, ticks: seq<Tick>, maxWait: int) {
    exists j :: 0 <= j < |ticks| && InTime(start, ticks[j], maxWait) && IsConfirmed(ticks[j].poll)
  }

  lemma {:induction false} ClockMonotone(start: int, ticks: seq<Tick>, maxWait: int, i: nat, j: nat)
    requires ClockValid(start, ticks, maxWait) && i <= j < |ticks|
    ensures ticks[i].now <= ticks[j].now
  {
    if i < j {
      ClockMonotone(start, ticks, maxWait, i, j - 1);
    }
  }

  /**
   * `_check_login_status`: poll while `now - start < maxWait`; status 1 returns
   * True; 0, 4, any other status and any exception keep polling; the deadline
   * returns False. `polls` is the number of polls made.
   */
  method CheckLoginStatus(start: int, ticks: seq<Tick>, maxWait: int) returns (ok: bool, polls: nat)
    requires ClockValid(start, ticks, maxWait)
    ensures ok <==> Confirms(start, ticks, maxWait)
    ensures polls < |ticks|
    ensures forall j :: 0 <= j < polls ==> InTime(start, ticks[j], maxWait)
    ensures ok ==> polls > 0 && IsConfirmed(ticks[polls - 1].poll)
                   && forall j :: 0 <= j < polls - 1 ==> !IsConfirmed(ticks[j].poll)
    ensures !ok ==> !InTime(start, ticks[polls], maxWait)
                    && forall j :: 0 <= j < polls ==> !IsConfirmed(ticks[j].poll)
  {
    var k := 0;
    while ticks[k].now - start < maxWait
      invariant k < |ticks|
      invariant forall j :: 0 <= j < k ==> InTime(start, ticks[j], maxWait) && !IsConfirmed(ticks[j].poll)
      decreases |ticks| - k
    {
      if IsConfirmed(ticks[k].poll) {
        return true, k + 1;
      }
      k := k + 1;
    }
    forall j | k <= j < |ticks| ensures !InTime(start, ticks[j], maxWait) {
      ClockMonotone(start, ticks, maxWait, k, j);
    }
    return false, k;
  }

  /** What reading the cookie file gave: no file, a file that fails to load, or the stored cookies. */
  datatype Stored = NoFile | Unreadable | Loaded(cookies: map<string, string>)

  /** `_get_qrcode`'s request: the HTTP status it answered, or Raised when it raised. */
  datatype QrResponse = QrStatus(code: int) | QrRaised

  /** The outward actions of `login`, in order. */
  datatype Effect =
    | Launch                                    // start the headless browser
    | Navigate                                  // `browser.get(base_url)`
    | Refresh                                   // `browser.refresh()` while waiting for cookies
    | SaveQr                                    // write `qrcode.png`
    | SaveCookies(cookies: map<string, string>) // overwrite the cookie file
    | Quit                                      // `browser.quit()`

  /** Everything `login` learns from outside. */
  datatype Env = Env(
    stored: Stored,
    verifyUrl: Option<string>,         // where the base page sends the stored cookies (None: the request raised)
    browserStarts: bool,               // the driver starts
    opens: bool,                       // the first `browser.get` succeeds
    jar: nat -> seq<Cookies.Cookie>,   // the cookies read on each wait attempt
    qr: QrResponse,
    start: int,                        // the poll's start time
    ticks: seq<Tick>,                  // the poll's turns
    reopens: bool,                     // the `browser.get` after confirmation succeeds
    finalJar: seq<Cookies.Cookie>)     // the cookies read after it

  /** The stored cookies load and still authenticate. */
  predicate Reuse(env: Env) {
    env.stored.Loaded? && Token.VerifyCookies(env.verifyUrl)
  }

  /** Some attempt of the cookie wait sees every required cookie. */
  predicate CookiesArrive(jar: nat -> seq<Cookies.Cookie>) {
    exists k :: 0 <= k < Cookies.MaxAttempts && Cookies.HasAll(Cookies.ToDict(jar(k)), Cookies.DefaultRequired)
  }

  /** Every step of the QR flow succeeds. */
  predicate QrLoginSucceeds(env: Env) {
    && env.browserStarts && env.opens && CookiesArrive(env.jar)
    && env.qr == QrStatus(200) && Confirms(env.start, env.ticks, DefaultMaxWait) && env.reopens
  }

  function Refreshes(n: nat): (r: seq<Effect>)
    ensures |r| == n && forall i :: 0 <= i < n ==> r[i] == Refresh
  {
    if n == 0 then [] else Refreshes(n - 1) + [Refresh]
  }

  /**
   * The `try` body of `login`, once the browser has started: open the base
   * page, wait for the preliminary cookies, fetch the QR code, poll with the
   * default `max_wait_time` (`login` passes none), then reload
   * and save the final cookies. Any exception (a page that does not load, the
   * cookie timeout) and any failed step yields False.
   */
  method QrFlow(env: Env) returns (ok: bool, effects: seq<Effect>)
    requires ClockValid(env.start, env.ticks, DefaultMaxWait)
    ensures ok <==> env.opens && CookiesArrive(env.jar) && env.qr == QrStatus(200)
                    && Confirms(env.start, env.ticks, DefaultMaxWait) && env.reopens
    ensures Launch !in effects && Quit !in effects
    ensures forall m :: SaveCookies(m) in effects ==>
              m == Cookies.ToDict(env.finalJar) && Confirms(env.start, env.ticks, DefaultMaxWait)
    ensures ok <==> SaveCookies(Cookies.ToDict(env.finalJar)) in effects
    ensures effects != [] && effects[0] == Navigate
    ensures SaveQr in effects <==> env.opens && CookiesArrive(env.jar) && env.qr == QrStatus(200)
    ensures ok ==> exists n: nat :: effects == [Navigate] + Refreshes(n)
                                              + [SaveQr, Navigate, SaveCookies(Cookies.ToDict(env.finalJar))]
  {
    effects := [Navigate];
    ok := false;
    if !env.opens {
      return;
    }
    var cookieDict, attempts, refreshed := Cookies.WaitForCookies(env.jar, Cookies.DefaultRequired);
    effects := effects + Refreshes(|refreshed|);
    if cookieDict.None? {
      return;
    }
    if env.qr != QrStatus(200) {
      return;
    }
    effects := effects + [SaveQr];
    var confirmed, polls := CheckLoginStatus(env.start, env.ticks, DefaultMaxWait);
    if !confirmed {
      return;
    }
    effects := effects + [Navigate];
    if env.reopens {
      effects := effects + [SaveCookies(Cookies.ToDict(env.finalJar))];
      ok := true;
      assert effects == [Navigate] + Refreshes(|refreshed|)
                        + [SaveQr, Navigate, SaveCookies(Cookies.ToDict(env.finalJar))];
    }
  }

  /**
   * `login`: reuse the stored cookies when they load and verify, without a
   * browser; otherwise start one, run the QR flow, and quit the browser on every
   * way out (the `finally`). A browser that fails to start is never quit.
   */
  method Login(env: Env) returns (ok: bool, effects: seq<Effect>)
    requires ClockValid(env.start, env.ticks, DefaultMaxWait)
    ensures Reuse(env) ==> ok && effects == []
    ensures !Reuse(env) ==> (ok <==> QrLoginSucceeds(env))
    ensures !Reuse(env) ==> (Launch in effects <==> env.browserStarts)
    ensures Launch in effects ==> effects[0] == Launch && effects[|effects| - 1] == Quit
                                  && multiset(effects)[Quit] == 1
    ensures Launch !in effects ==> Quit !in effects
    ensures forall m :: SaveCookies(m) in effects ==>
              m == Cookies.ToDict(env.finalJar) && Confirms(env.start, env.ticks, DefaultMaxWait)
    ensures !Reuse(env) ==> (ok <==> SaveCookies(Cookies.ToDict(env.finalJar)) in effects)
  {
    if env.stored.Loaded? && Token.VerifyCookies(env.verifyUrl) {
      return true, [];
    }
    if !env.browserStarts {
      return false, [];
    }
    var inner;
    ok, inner := QrFlow(env);
    effects := [Launch] + inner + [Quit];
    assert multiset(effects)[Quit] == multiset(inner)[Quit] + 1;
  }
}
