# A verified model of the weixin.py article crawler core

`weixin.py` logs in to the WeChat official-account platform via a QR code,
resolves the session token and an account's `fakeid`, then pages through the
account's published articles and writes one CSV row per article. This project
models the deterministic logic inside that plumbing. Every network call, browser
action, console input and clock reading becomes a parameter. The model states
what the crawler does with those parameters.

Modules, one per file:

- `Wrappers` (`wrappers.dfy`): `Option`, for the source's `Optional[...]` results and `dict.get` defaults.
- `Text` (`text.dfy`): ASCII digits, Python's whitespace set (`str.isspace()`), and `str.strip()` with its characterisation.
- `Token` (`token.dfy`): `re.findall(r'token=(\d+)', url)[0]`, `_get_token` and `_verify_cookies`.
- `Cookies` (`cookies.dfy`): the snapshot-to-dict comprehension and the `_wait_for_cookies` attempt loop. Also the `'; '.join(f"{k}={v}")` `Cookie:` header, with a parser proved to invert it. Also the `Session` class: its cookie dict is merged in place (`cookies.update`), and the merged dict is written to the cookie file.
- `Content` (`content.dfy`): the link unescape `url.replace('\\/', '/')` and `_get_article_content`. The outcome of the request and the HTML-to-text conversion are parameters.
- `Listing` (`listing.dfy`): `_get_articles_batch` on the decoded response. It checks `base_resp.ret`, then flattens `publish_list[*].publish_info.appmsgex` into `{title, link}` records. A key that is missing and a key whose value is null or of the wrong type are distinct values, because the code treats them differently.
- `Crawl` (`crawl.dfy`): the `_save_articles` loop. It is proved against a specification function: the rows are the first `max_articles` articles of the listing, taken up to the first failed page. The article requests are exactly those articles' unescaped links, in order. The `begin` offsets are 0, 5, 10, …
- `Account` (`account.dfy`): `int()` on a typed choice, and the classification of one answer (cancel, pick, re-prompt). Also the re-prompt loop and `_get_account_fakeid` with its cookie merge.
- `Login` (`login.dfy`): the `_check_login_status` poll against a clock. Also the `login` flow: reuse the stored cookies, or drive the browser through the QR steps and always quit it.

Behaviour of the code worth noting:

- A response without `publish_page` does not give an empty page. `eval({})` raises TypeError, so the batch is None and the crawl of that account stops.
- A truthy `publish_list` entry without `publish_info` discards the whole batch. `json.loads({})` raises.
- A `base_resp` that is null or not a dict raises on `.get`, and a null `publish_list` or `appmsgex` raises in its `for`. Either way the batch is None, not empty.
- The login poll has a deadline of `max_wait_time`. `login` always uses the default, 120 s.
- A candidate that is not a dict, or whose `nickname` is null, a list or a dict, makes the numbered listing raise before the prompt (weixin.py:292-296), so the result is None.
- `int()` skips Unicode whitespace around a number but not the ASCII separators U+001C-U+001F, which `str.strip()` does remove.
- Choosing a candidate that lacks `nickname` or `fakeid` yields None. The name is read with `[...]` for logging, so a missing key raises KeyError.

Oracles:

- `Crawl.SaveArticles` receives, for each listing request in order, the value `_get_articles_batch` returned: `Listing.GetArticlesBatch` of the decoded response, or None when the request or the decoding raised. Requests past the end of that sequence yield None, so the finite sequence also bounds the loop.
- The article requests of one crawl are numbered 0, 1, 2, … in the order sent, and request i yields `fetches(i)`. The same link requested twice can therefore yield different pages.
- The cookie wait reads `jar(k)` on attempt k.
- The login poll reads a sequence of `Tick`s. Each tick is a clock reading and the poll answer made after it.
- The selection reads a sequence of typed lines or Ctrl-C. When the lines run out, `input()` raises EOFError, which the enclosing `except Exception` turns into None.

`_save_articles` returns as soon as the budget is reached inside a page. `Crawl.WritePage` stops the page loop instead, and the check after the page then returns. The rows written and the requests sent are the same.

## Model

| member | source | states |
|---|---|---|
| Text.Strip | weixin.py:504 | `strip()` never lengthens its input and leaves no `str.isspace()` character at either end; `Text.StripSpec` states which characters it drops |
| Text.StripSpec | weixin.py:504 | `strip()` keeps a contiguous slice of its input, drops only `str.isspace()` characters before and after it, and leaves none at either end |
| Text.StripLeftSpec | weixin.py:504 | the left strip drops exactly the leading `str.isspace()` characters, U+3000 and U+00A0 included |
| Text.StripRightSpec | weixin.py:504 | the right strip drops exactly the trailing `str.isspace()` characters |
| Text.StripIdempotent | weixin.py:504 | stripping twice gives the same text as stripping once: a stripped text is its own strip |
| Token.LeftmostMatch | weixin.py:133 | returns the leftmost position from which `token=` followed by a digit matches, and None only when no position matches |
| Token.DigitRun | weixin.py:133 | the greedy `\d+` group: a run of digits of the URL at the given position that cannot be extended |
| Token.FindToken | weixin.py:133 | a token it finds is a non-empty run of digits; `Token.FindTokenSpec` characterises it fully |
| Token.FindTokenSpec | weixin.py:133 | the token is None exactly when no `token=\d` occurs; otherwise it is the non-empty maximal digit run after the leftmost occurrence |
| Token.GetToken | weixin.py:237-247 | a request that raised gives None; otherwise the result is the first `findall` match, and no match gives None |
| Token.VerifyCookies | weixin.py:122-143 | the stored cookies are valid exactly when the redirected URL contains `token=` followed by a digit; a request that raised means invalid |
| Token.NoLeftBoundary | weixin.py:133 | with no left word boundary, `xtoken=5` yields the token "5" |
| Token.SkipsTokenWithoutDigits | weixin.py:133 | a `token=` with no digit after it is skipped in favour of a later one |
| Cookies.ToDict | weixin.py:81 | no contract of its own: `Cookies.ToDictKeys` and `Cookies.ToDictLastWins` state what the comprehension builds |
| Cookies.ToDictKeys | weixin.py:81 | the cookie dict has exactly the names of the snapshot as keys |
| Cookies.ToDictLastWins | weixin.py:81 | a name repeated in the snapshot keeps its last value |
| Cookies.HasAll | weixin.py:83-85 | no contract of its own: no required name is missing from the dict; `Cookies.WaitForCookies` states the loop in its terms |
| Cookies.WaitForCookies | weixin.py:68-94 | takes at most 10 snapshots and returns the first one that has every required name, with all earlier snapshots lacking one; after 10 failures it is the timeout (None); it refreshes after the failed attempts 0, 2, 4, … |
| Cookies.CookieHeader | weixin.py:103 | the joined header is empty exactly when there are no cookies, and a single cookie is `name=value` |
| Cookies.CookieHeaderRoundTrip | weixin.py:103 | splitting the joined header at `; ` and each entry at its first `=` gives back the cookies in order, for any names and values that RFC 6265 allows |
| Cookies.Update | weixin.py:275 | `dict.update`: the keys of both dicts, the new value on a shared key, the old value everywhere else |
| Cookies.Session.constructor | weixin.py:330-331 | a session starts with the cookies loaded and the file's content |
| Cookies.Session.MergeResponseCookies | weixin.py:273-279 | response cookies are merged into the dict in place and the merged dict overwrites the cookie file; a response with no cookies changes neither |
| Content.Unescape | weixin.py:474 | unescaping never lengthens the link |
| Content.UnescapeEscape | weixin.py:474 | unescaping undoes the `\/` escaping of slashes, whatever backslashes the link already holds |
| Content.UnescapeNoPair | weixin.py:474 | a link with no backslash followed by a slash is unchanged |
| Content.UnescapeNotIdempotent | weixin.py:474 | the single left-to-right pass turns `\\/` into `\/`, which a second pass turns into `/` |
| Content.ArticleContent | weixin.py:476-514 | given what the request to the unescaped link yielded: "" unless the page was fetched and has a content region; then the stripped text of the first region, with no `str.isspace()` character at either end |
| Listing.EnvelopeArticles | weixin.py:437-447 | a falsy envelope contributes no records; one that is not a dict, whose `publish_info` does not decode, or whose `appmsgex` is null raises (None); otherwise one `{title, link}` per `appmsgex` item, in order, with missing fields as "" |
| Listing.Flatten | weixin.py:437-448 | no contract of its own: `Listing.FlattenFails` and `Listing.FlattenAppend` state what the nested loops build |
| Listing.FlattenFails | weixin.py:437-448 | the batch is discarded exactly when some truthy envelope raises: it is not a dict, its `publish_info` does not decode, or its `appmsgex` is null |
| Listing.FlattenAppend | weixin.py:437-448 | flattening is concatenation: the records of two runs of envelopes are the records of the first followed by those of the second |
| Listing.GetArticlesBatch | weixin.py:425-463 | a `base_resp` that is not a dict, or is one whose `ret` is missing or non-zero, gives None, as does a missing or undecodable `publish_page`, a null `publish_list` or an envelope that raises; otherwise `list` is the flattening of `publish_list` (missing: none) and `total` is `total_count`, defaulting to 0 |
| Listing.MissingRetRejects | weixin.py:430-432 | a `base_resp` without `ret` counts as a failure |
| Listing.NullFieldsRaise | weixin.py:430-437 | a null `base_resp` or a null `publish_list` gives None rather than an empty batch |
| Listing.NullAppmsgexRaises | weixin.py:437-443 | one envelope with a null `appmsgex` discards the records of all the others |
| Listing.EmptyListingIsEmptyBatch | weixin.py:434-453 | a response with an empty listing is an empty batch with total 0, not None, so the crawl goes on |
| Crawl.Offsets | weixin.py:363-389 | the k-th listing request starts at offset 5·k |
| Crawl.ListedSplit | weixin.py:363-389 | as long as every request succeeds, the listing is the articles of the first k batches followed by the rest |
| Crawl.ListedExtend | weixin.py:365-369 | each further successful batch appends exactly its `list` to what has been listed |
| Crawl.ListedStop | weixin.py:365-367 | a None batch ends the listing: no later batch contributes |
| Crawl.ListedMonotone | weixin.py:386-389 | what the first j requests listed is a prefix of what the first k listed, so once the budget check fires it stays fired |
| Crawl.BudgetReached | weixin.py:369-372 | once the rows written reach the budget, they are exactly the first budget-many articles of the listing |
| Crawl.PageWritten | weixin.py:363-389 | after a page that yields a batch, what has been written is the whole listing so far while under the budget, and the first budget-many articles of the whole listing once it is reached |
| Crawl.StopWritten | weixin.py:364-367 | after a page that yields nothing, what has been written is everything the budget lets through |
| Crawl.TwoPagesBudgetSeven | weixin.py:363-389 | two pages of five with a budget of 7: the second request is sent, a third is not, and the rows are the first page and two articles of the second |
| Crawl.WritePage | weixin.py:369-384 | the page loop requests and writes the articles the budget lets through, in order, and no other: it checks the budget before each request; row i takes its content from request `saved + i`, and a failed request still writes its row, with content "" |
| Crawl.SaveArticles | weixin.py:352-397 | the article requests are the unescaped links of the first `max_articles` articles (none if it is negative) of the batches up to the first None, in page and listing order, so no article past the budget is requested; the rows are those articles, row i with the content of request i; fewer than `max_articles` were written before the last listing request, and that request is the one that returned None or reached the budget; request k uses offset 5·k; an empty batch still advances the offset; `total` is never read |
| Account.ParseInt | weixin.py:305 | a number it accepts ends, once stripped, in a digit, and a negative one starts with `-`; `Account.ParseNumeral` and `Account.ParseIntNumeral` together give exactly the strings it accepts and the values it reads |
| Account.DigitsValueOfDigits | weixin.py:305 | the decimal digits of n read back as n |
| Account.ParseDigits | weixin.py:305 | a run of digits reads back as its value |
| Account.ParseNegated | weixin.py:305 | a minus sign before a run of digits reads back as the negated value |
| Account.ParseNumeral | weixin.py:305 | every string of whitespace other than U+001C-U+001F, an optional `+` or `-`, at least one digit and such whitespace again is a number, and its value is the signed value of the digits |
| Account.ParseIntNumeral | weixin.py:305-313 | every string it accepts has that shape and that value, so any other answer raises ValueError and the prompt asks again |
| Account.SeparatorRejected | weixin.py:305-313 | `int()` does not skip U+001F as whitespace, so typing it before `1` raises ValueError and the prompt asks again |
| Account.ParseShow | weixin.py:305 | `int(str(n)) == n` for every integer, negative ones included |
| Account.AnswerOf | weixin.py:299-316 | `q`/`Q` and Ctrl-C cancel; a number c with 1 ≤ c ≤ count picks candidate c-1; every other number or non-number asks again; a picked index is in range |
| Account.ListedNumberPicks | weixin.py:292-309 | typing the number shown for candidate i picks candidate i |
| Account.ChooseAccount | weixin.py:283-316 | no candidates means no prompt and None; otherwise every answer before the last one asked again, and the result is the last answer's pick (in range), or None after a cancel or when input runs out |
| Account.GetAccountFakeid | weixin.py:269-320 | a request that raised changes nothing and gives None; response cookies are merged and persisted before the body is read; a body that is not JSON, an empty or missing `list`, or a candidate the listing cannot print gives None without a prompt; every answer but the last asked again, and the prompt ended on a cancel, a pick, or the end of input; a pick of a candidate with both `nickname` and `fakeid` returns that `fakeid`, a pick of one without either gives None, and no pick gives None |
| Login.ClockMonotone | weixin.py:163-164 | clock readings never go back, so once the deadline has passed it stays passed |
| Login.CheckLoginStatus | weixin.py:145-186 | the result is True exactly when some poll started before `start + max_wait` reports status 1; every poll made started in time; statuses 0, 4, unknown statuses and exceptions keep polling; False comes with a clock reading past the deadline |
| Login.Refreshes | weixin.py:90-91 | n refreshes of the page |
| Login.QrFlow | weixin.py:206-232 | True exactly when the page opens, the cookies arrive within 10 attempts, the QR request answers 200, the poll confirms within the default 120 s and the page reopens; the page is opened first; the QR code is saved exactly when the page opened, the cookies arrived and the QR request answered 200; cookies are saved only after a confirmed poll, and then they are the final snapshot's dict; a successful login records the page load, the refreshes, the QR code, the second page load and the cookie save, in that order |
| Login.Login | weixin.py:188-235 | stored cookies that load and verify give True with no browser; otherwise the result is the QR flow's, a browser is launched exactly when it starts, and a launched browser is quit exactly once, as the last action |

## Left out

- HTTP requests, status codes and timeouts, and Selenium's driver. The outcomes of the requests, of `browser.get` and of `get_cookies` are parameters. `refresh` and `quit` are recorded as `Login.Effect` values that always succeed. A failing `refresh` (weixin.py:91) would end `login` with False, and a failing `quit` (weixin.py:235) would escape `login`; neither is modelled.
- BeautifulSoup, the script/style removal and html2text in `_get_article_content` (weixin.py:487-502): the parsed regions and the conversion are parameters.
- JSON and `eval` decoding (weixin.py:427, 435, 440): the model starts from decoded values. A `publish_page` or `publish_info` that decodes to something other than a dict is modelled as undecodable.
- File writes (CSV rows and header, cookie JSON, `qrcode.png`), `print` and logging, `time.sleep` and `random.uniform` delays: I/O and timing only. The CSV header row is written before the rows `Crawl.SaveArticles` returns.
- `crawl_articles` and `run` (weixin.py:322-350, 516-527): they only sequence the modelled steps, re-reading the cookie file between them. `__init__`, `_init_chrome_driver` and `__main__` (weixin.py:35-66, 529-536) are configuration.
- `_get_qrcode` (weixin.py:96-120): its request is the `QrResponse` parameter. Its header join is `Cookies.CookieHeader`.
- Crawl.SaveArticles: the `except Exception` that returns False (weixin.py:395-397) is reached only by file errors, which are not modelled, so `ok` is always true.
- Crawl.SaveArticles: the real loop has no bound on endless non-None empty pages. The finite response sequence ends them with None.
- Login.CheckLoginStatus: time is in whole seconds from a finite sequence of readings that must reach the deadline. The real clock always does, since every turn sleeps at least two seconds.
- Login.QrFlow: of the exceptions inside `login`'s `try`, only failed page loads and the cookie timeout are modelled. A failing `get_cookies`, a QR file write or a cookie file write are not.
- Token.FindToken, Account.ParseInt: only ASCII digits. Python's `\d` and `int()` also accept other Unicode digits.
- Account.ParseInt: rejects `_` between digits, which `int()` accepts (`int("1_0") == 10`).
- Account.ParseInt: no limit on the number of digits. From CPython 3.11, `int()` raises ValueError for a decimal string of more than 4300 digits, leading zeros included, so `"0" * 4300 + "1"` asks again there but picks candidate 1 here.
- Listing.GetArticlesBatch: a `publish_list` or `appmsgex` that is a string or a dict is iterated by Python character by character or key by key. The model has no such value; it has only missing, null-like (raises) and list. An `appmsgex` item that is not a dict raises on `.get` in Python, and a `title` or `link` that is not a string is copied as it is; the model has only dict items with string fields.
- Listing.GetArticlesBatch: `ret` is an integer. A JSON `false` or `0.0` would also compare equal to 0 in Python.
- Login.CheckLoginStatus: the status is an integer. A JSON `true` or `1.0` would also equal 1 in Python.
- Dicts are Dafny maps, so the insertion order of cookie dicts is not modelled. It affects only the order of header entries and file layout.
- Account.Candidate: `signature` and `verified` are only displayed (weixin.py:292-296), so they are not modelled. A `nickname` that is a number prints without error and is modelled by its printed text.
