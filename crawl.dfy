/**
 * `_save_articles` (weixin.py): request listing pages at offsets 0, 5, 10, ...,
 * fetch each listed article's content and append a `{title, link, content}` row
 * to the CSV sink, until a page request yields nothing or the per-account budget
 * is reached. The listing responses, the outcome of each article request (in the
 * order the requests are sent) and the HTML-to-text conversion are parameters.
 */
module Crawl {
  import opened Wrappers
  import opened Listing
  import Content

  /** The `count` of every listing request, and the step of `begin`. */
  const PageSize: nat := 5

  /** One CSV row under the header `title, link, content`. */
  datatype Row = Row(title: string, link: string, content: string)

  /**
   * What `_get_articles_batch` returned for the k-th listing request:
   * `GetArticlesBatch` of the decoded response, or None when the request or the
   * decoding raised. A request past the end of `responses` yields None.
   */
  function BatchAt(responses: seq<Option<Batch>>, k: nat): Option<Batch> {
    if k < |responses| then responses[k] else None
  }

  /** The articles the listing offers: every batch's list, in request order, up to the first None. */
  function Listed(responses: seq<Option<Batch>>): seq<Article> {
    if responses == [] then []
    else match BatchAt(responses, 0)
      case None => []
      case Some(b) => b.list + Listed(responses[1..])
  }

  /** A budget below zero lets no article through. */
  function Budget(maxArticles: int): nat {
    if maxArticles < 0 then 0 else maxArticles
  }

  function Take(articles: seq<Article>, n: nat): (r: seq<Article>)
    ensures |r| <= n && |r| <= |articles| && r == articles[..|r|]
    ensures |r| == n || r == articles
  {
    if n <= |articles| then articles[..n] else articles
  }

  /** The row written for an article whose content request yielded `page`: its content is "" when that failed. */
  function RowOf(a: Article, page: Content.Fetch, toText: string -> string): Row {
    Row(a.title, a.link, Content.ArticleContent(page, toText))
  }

  /**
   * The rows written for the articles, one per article, in order, when the
   * first of them is the crawl's `first`-th article request: the i-th row's
   * content comes from request `first + i`.
   */
  function Rows(articles: seq<Article>, fetches: nat -> Content.Fetch, first: nat,
                toText: string -> string): (r: seq<Row>)
    ensures |r| == |articles|
  {
    seq(|articles|, i requires 0 <= i < |articles| => RowOf(articles[i], fetches(first + i), toText))
  }

  /** The URLs of the article requests for the articles, in order: each link, unescaped. */
  function Requests(articles: seq<Article>): (r: seq<string>)
    ensures |r| == |articles|
  {
    seq(|articles|, i requires 0 <= i < |articles| => Content.Unescape(articles[i].link))
  }

  /** The `begin` of the first n listing requests: 0, 5, 10, ... */
  function Offsets(n: nat): (r: seq<int>)
    ensures |r| == n && forall k :: 0 <= k < n ==> r[k] == PageSize * k
  {
    if n == 0 then [] else Offsets(n - 1) + [PageSize * (n - 1)]
  }

  /** The first k requests all yielded a batch. */
  predicate AllListed(responses: seq<Option<Batch>>, k: nat) {
    forall j :: 0 <= j < k ==> BatchAt(responses, j).Some?
  }

  /** Up to the first None, the articles listed by the first k responses come first. */
  lemma {:induction false} ListedSplit(responses: seq<Option<Batch>>, k: nat)
    requires k <= |responses| && AllListed(responses, k)
    ensures Listed(responses) == Listed(responses[..k]) + Listed(responses[k..])
  {
    if k == 0 {
      assert responses[..0] == [] && responses[0..] == responses;
    } else {
      var rest := responses[1..];
      forall j | 0 <= j < k - 1 ensures BatchAt(rest, j).Some? {
        assert BatchAt(rest, j) == BatchAt(responses, j + 1);
      }
      ListedSplit(rest, k - 1);
      assert rest[..k - 1] == responses[..k][1..];
      assert rest[k - 1..] == responses[k..];
      assert BatchAt(responses[..k], 0) == BatchAt(responses, 0);
    }
  }

  /** A further batch appends exactly its list. */
  lemma ListedExtend(responses: seq<Option<Batch>>, k: nat)
    requires k < |responses| && AllListed(responses, k + 1)
    ensures Listed(responses[..k + 1]) == Listed(responses[..k]) + BatchAt(responses, k).value.list
  {
    var pre := responses[..k + 1];
    forall j | 0 <= j < k ensures BatchAt(pre, j).Some? {
      assert BatchAt(pre, j) == BatchAt(responses, j);
    }
    ListedSplit(pre, k);
    assert pre[..k] == responses[..k];
    assert pre[k..] == [responses[k]];
    assert BatchAt([responses[k]], 0) == BatchAt(responses, k);
    assert [responses[k]][1..] == [];
  }

  /** A missing batch ends the listing: nothing after it is listed. */
  lemma ListedStop(responses: seq<Option<Batch>>, k: nat)
    requires k <= |responses| && AllListed(responses, k) && BatchAt(responses, k).None?
    ensures Listed(responses) == Listed(responses[..k])
  {
    ListedSplit(responses, k);
    if k < |responses| {
      assert BatchAt(responses[k..], 0) == BatchAt(responses, k);
    }
  }

  /** Once the rows written are a prefix of the listing as long as the budget, they are what the budget allows. */
  lemma TakeFull(all: seq<Article>, written: seq<Article>, rest: seq<Article>, n: nat)
    requires all == written + rest && |written| == n
    ensures Take(all, n) == written
  {
    assert all[..n] == written;
  }

  /** The listing only grows as more requests succeed: what the first j requests listed is a prefix of what the first k listed. */
  lemma ListedMonotone(responses: seq<Option<Batch>>, j: nat, k: nat)
    requires j <= k <= |responses| && AllListed(responses, k)
    ensures |Listed(responses[..j])| <= |Listed(responses[..k])|
    ensures Listed(responses[..k])[..|Listed(responses[..j])|] == Listed(responses[..j])
  {
    var pre := responses[..k];
    forall i | 0 <= i < j ensures BatchAt(pre, i).Some? {
      assert BatchAt(pre, i) == BatchAt(responses, i);
    }
    ListedSplit(pre, j);
    assert pre[..j] == responses[..j];
  }

  /** Writing the first `n - |done|` articles of a page after `done` writes the first `n` of the listing. */
  lemma BudgetReached(done: seq<Article>, page: seq<Article>, rest: seq<Article>, n: nat)
    requires |done| <= n && |done + Take(page, n - |done|)| >= n
    ensures Take(done + page + rest, n) == done + Take(page, n - |done|)
  {
    assert done + page + rest == (done + Take(page, n - |done|)) + (page[n - |done|..] + rest);
    TakeFull(done + page + rest, done + Take(page, n - |done|), page[n - |done|..] + rest, n);
  }

  /**
   * A page that yields a batch after `k` listed ones: the articles written so far
   * followed by those of the page the budget `n` lets through are either the whole
   * listing up to this page (budget not reached) or the first `n` articles of the
   * whole listing (budget reached).
   */
  lemma PageWritten(responses: seq<Option<Batch>>, k: nat, n: nat)
    requires k < |responses| && AllListed(responses, k + 1) && |Listed(responses[..k])| <= n
    ensures var done := Listed(responses[..k]);
            var written := done + Take(BatchAt(responses, k).value.list, n - |done|);
            && |written| <= |Listed(responses[..k + 1])|
            && (|written| < n ==> written == Listed(responses[..k + 1]))
            && (|written| >= n ==> written == Take(Listed(responses), n))
  {
    var done := Listed(responses[..k]);
    var page := BatchAt(responses, k).value.list;
    ListedExtend(responses, k);
    if |done + Take(page, n - |done|)| >= n {
      ListedSplit(responses, k + 1);
      BudgetReached(done, page, Listed(responses[k + 1..]), n);
    }
  }

  /** A page that yields nothing after `k` listed ones: what was written is all the budget lets through. */
  lemma StopWritten(responses: seq<Option<Batch>>, k: nat, n: nat)
    requires k <= |responses| && AllListed(responses, k) && BatchAt(responses, k).None?
    requires |Listed(responses[..k])| <= n
    ensures Take(Listed(responses), n) == Listed(responses[..k])
  {
    ListedStop(responses, k);
  }

  /** The rows of `b` after those of `a` take the requests that follow those of `a`. */
  lemma RowsAppend(a: seq<Article>, b: seq<Article>, fetches: nat -> Content.Fetch, first: nat,
                   toText: string -> string)
    ensures Rows(a + b, fetches, first, toText)
            == Rows(a, fetches, first, toText) + Rows(b, fetches, first + |a|, toText)
  {
  }

  lemma RequestsAppend(a: seq<Article>, b: seq<Article>)
    ensures Requests(a + b) == Requests(a) + Requests(b)
  {
  }

  /**
   * Two full pages of five and a budget of seven: the second request is sent
   * (five rows do not reach the budget), no third one is (ten do), and the rows
   * are the first page followed by the first two articles of the second.
   */
  lemma TwoPagesBudgetSeven(first: Batch, second: Batch)
    requires |first.list| == PageSize && |second.list| == PageSize
    ensures var responses := [Some(first), Some(second)];
      && |Listed(responses[..1])| < 7 <= |Listed(responses[..2])|
      && Take(Listed(responses), Budget(7)) == first.list + second.list[..2]
  {
    var responses := [Some(first), Some(second)];
    assert responses[1..] == [Some(second)];
    assert Listed([Some(second)]) == second.list + Listed([]);
    assert Listed(responses) == first.list + second.list;
    assert responses[..2] == responses;
    assert responses[..1][1..] == [];
    assert Listed(responses[..1]) == first.list;
    assert (first.list + second.list)[..7] == first.list + second.list[..2];
  }

  /**
   * The `for article in articles['list']` loop of `_save_articles`: with `saved`
   * rows already written, check the budget before each article, request its
   * content and write its row. `pageRows` are the rows written for this page and
   * `pageRequests` the URLs requested, in order; the article after the budget is
   * never requested.
   */
  method WritePage(articles: seq<Article>, saved: nat, maxArticles: int,
                   fetches: nat -> Content.Fetch, toText: string -> string)
    returns (pageRows: seq<Row>, pageRequests: seq<string>)
    requires saved <= Budget(maxArticles)
    ensures pageRows == Rows(Take(articles, Budget(maxArticles) - saved), fetches, saved, toText)
    ensures pageRequests == Requests(Take(articles, Budget(maxArticles) - saved))
  {
    pageRows, pageRequests := [], [];
    var count := saved;
    var i := 0;
    while i < |articles|
      invariant i <= |articles| && count == saved + i <= Budget(maxArticles)
      invariant pageRows == Rows(articles[..i], fetches, saved, toText)
      invariant pageRequests == Requests(articles[..i])
    {
      if count >= maxArticles {
        break;
      }
      var url := Content.Unescape(articles[i].link);
      var content := Content.ArticleContent(fetches(count), toText);
      assert articles[..i + 1] == articles[..i] + [articles[i]];
      RowsAppend(articles[..i], [articles[i]], fetches, saved, toText);
      RequestsAppend(articles[..i], [articles[i]]);
      pageRequests := pageRequests + [url];
      pageRows := pageRows + [Row(articles[i].title, articles[i].link, content)];
      count := count + 1;
      i := i + 1;
    }
    assert i == |articles| ==> articles[..i] == articles;
  }

  /**
   * `_save_articles`. `ok` is the returned flag, `rows` the rows written after the
   * header, `requests` the URLs of the article requests in the order sent, and
   * `offsets` the `begin` of every listing request in the order sent. Reaching
   * the budget inside a page returns at once in the source; here the page loop
   * stops and the check after the page returns, with the same rows and requests.
   */
  method SaveArticles(responses: seq<Option<Batch>>, maxArticles: int,
                      fetches: nat -> Content.Fetch, toText: string -> string)
    returns (ok: bool, rows: seq<Row>, requests: seq<string>, offsets: seq<int>)
    ensures ok
    ensures rows == Rows(Take(Listed(responses), Budget(maxArticles)), fetches, 0, toText)
    ensures requests == Requests(Take(Listed(responses), Budget(maxArticles)))
    ensures maxArticles >= 0 ==> |requests| <= maxArticles
    ensures 1 <= |offsets| <= |responses| + 1
    ensures offsets == Offsets(|offsets|)
    ensures AllListed(responses, |offsets| - 1)
    ensures |offsets| > 1 ==> |Listed(responses[..|offsets| - 1])| < maxArticles
    ensures BatchAt(responses, |offsets| - 1).None?
            || (|offsets| <= |responses| && |Listed(responses[..|offsets|])| >= maxArticles)
  {
    rows, requests, offsets := [], [], [];
    var saved := 0;
    var begin := 0;
    while true
      invariant |offsets| <= |responses| && AllListed(responses, |offsets|)
      invariant offsets == Offsets(|offsets|)
      invariant begin == PageSize * |offsets|
      invariant rows == Rows(Listed(responses[..|offsets|]), fetches, 0, toText)
      invariant requests == Requests(Listed(responses[..|offsets|]))
      invariant saved == |rows| <= Budget(maxArticles)
      invariant |offsets| > 0 ==> saved < maxArticles
      decreases |responses| - |offsets|
    {
      var k := |offsets|;
      var batch := BatchAt(responses, k);
      offsets := offsets + [begin];
      if batch.None? {
        StopWritten(responses, k, Budget(maxArticles));
        return true, rows, requests, offsets;
      }
      var pageRows, pageRequests := WritePage(batch.value.list, saved, maxArticles, fetches, toText);
      ghost var done := Listed(responses[..k]);
      ghost var taken := Take(batch.value.list, Budget(maxArticles) - saved);
      RowsAppend(done, taken, fetches, 0, toText);
      RequestsAppend(done, taken);
      PageWritten(responses, k, Budget(maxArticles));
      assert |done| == saved && |pageRows| == |taken| <= Budget(maxArticles) - saved;
      rows := rows + pageRows;
      requests := requests + pageRequests;
      saved := saved + |pageRows|;
      assert rows == Rows(done + taken, fetches, 0, toText) && requests == Requests(done + taken);
      assert saved == |done + taken|;
      if saved >= maxArticles {
        return true, rows, requests, offsets;
      }
      begin := begin + PageSize;
    }
  }
}
