/**
 * `_get_article_content` (weixin.py): unescape the link, fetch the page, keep the
 * text of its `rich_media_content` region. The HTTP fetch and the HTML-to-text
 * conversion are parameters; every failure yields the empty string.
 */
module Content {
  import opened Text

  /**
   * `url.replace('\\/', '/')`: one left-to-right pass that replaces each
   * non-overlapping backslash-slash pair with a slash.
   */
  function Unescape(url: string): (r: string)
    ensures |r| <= |url|
  {
    if |url| >= 2 && url[0] == '\\' && url[1] == '/' then "/" + Unescape(url[2..])
    else if url == [] then []
    else [url[0]] + Unescape(url[1..])
  }

  /** The escaping JSON producers apply to a link: every slash becomes backslash-slash. */
  function Escape(s: string): (r: string)
    ensures |r| >= |s|
    ensures r == [] || r[0] != '/'
  {
    if s == [] then []
    else (if s[0] == '/' then "\\/" else [s[0]]) + Escape(s[1..])
  }

  /** Unescaping undoes JSON-style slash escaping, whatever backslashes the link holds. */
  lemma {:induction false} UnescapeEscape(s: string)
    ensures Unescape(Escape(s)) == s
  {
    if s != [] {
      var rest := Escape(s[1..]);
      UnescapeEscape(s[1..]);
      if s[0] == '/' {
        assert Escape(s) == "\\/" + rest;
        assert (("\\/" + rest)[2..]) == rest;
      } else {
        assert Escape(s) == [s[0]] + rest;
        assert ([s[0]] + rest)[1..] == rest;
      }
    }
  }

  /** A link with no backslash-slash pair is left unchanged. */
  lemma {:induction false} UnescapeNoPair(url: string)
    requires forall i :: 0 <= i < |url| - 1 ==> !(url[i] == '\\' && url[i + 1] == '/')
    ensures Unescape(url) == url
  {
    if url != [] {
      UnescapeNoPair(url[1..]);
    }
  }

  /** The single pass is not idempotent: a double backslash before a slash loses one backslash per pass. */
  lemma UnescapeNotIdempotent()
    ensures Unescape("\\\\/") == "\\/"
    ensures Unescape(Unescape("\\\\/")) == "/"
  {
    assert Unescape("/") == "/" by { assert Unescape([]) == []; }
    assert Unescape("\\/") == "/";
    assert Unescape("\\\\/") == "\\" + Unescape("\\/");
  }

  /** What one article request yielded, as far as the crawler can tell. */
  datatype Fetch =
    | Failed                      // timeout, transport error, non-2xx status, or any other exception
    | Page(region: seq<string>)   // the decoded page; `region` holds its `rich_media_content` elements in document order

  /**
   * `_get_article_content` once the request to `Unescape(link)` has yielded
   * `page`: the stripped text of the page's first content region, or "" when
   * the fetch failed or there is no region. `toText` stands for removing
   * script/style subtrees and the html2text conversion.
   */
  function ArticleContent(page: Fetch, toText: string -> string): (text: string)
    ensures text != "" ==> page.Page? && page.region != []
    ensures text == [] || (!IsSpace(text[0]) && !IsSpace(text[|text| - 1]))
    ensures page.Page? && page.region != [] ==> text == Strip(toText(page.region[0]))
  {
    match page
    case Failed => ""
    case Page(region) => if region == [] then "" else Strip(toText(region[0]))
  }
}
