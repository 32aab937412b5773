/**
 * `_get_articles_batch` (weixin.py) on the already-decoded listing response: the
 * status check, then the flattening of `publish_page.publish_list[*].publish_info.appmsgex`
 * into `{title, link}` records. The HTTP request and the JSON/`eval` decoding are
 * not modelled; their results are the values below.
 */
module Listing {
  import opened Wrappers

  /** A string field that the source decodes (`eval` or `json.loads`) before use. */
  datatype Field<T> =
    | Absent              // the key is missing, so the decoder is handed `{}` and raises TypeError
    | Unparsable          // present, but does not decode to a dict
    | Parsed(value: T)

  /** A key read with `.get(key, default)` whose value the code then uses as a dict or loops over. */
  datatype Entry<T> =
    | Missing             // the key is absent: the default is used
    | Mistyped            // present but null, a number or a bool: the next `.get` or `for` raises
    | Present(value: T)
  {
    function GetOr(default: T): T {
      if Present? then value else default
    }
  }

  /** One `appmsgex` entry; a missing key is None. */
  datatype Item = Item(title: Option<string>, link: Option<string>)

  datatype PublishInfo = PublishInfo(appmsgex: Entry<seq<Item>>)

  /** One entry of `publish_list`. */
  datatype Envelope =
    | Falsy                                   // null, 0, "", [] or {}: skipped by `if page:`
    | NotDict                                 // a truthy number, string or list: `page.get` raises
    | Envelope(publishInfo: Field<PublishInfo>)

  datatype PublishPage = PublishPage(publishList: Entry<seq<Envelope>>, totalCount: Option<int>)

  /** `base_resp`; a `ret` that is missing or not a number is None (both compare unequal to 0). */
  datatype BaseResp = BaseResp(ret: Option<int>)

  /** The decoded response body: its `base_resp`, and the serialized `publish_page`. */
  datatype Payload = Payload(baseResp: Entry<BaseResp>, publishPage: Field<PublishPage>)

  /** `{'title': ..., 'link': ...}` */
  datatype Article = Article(title: string, link: string)

  /** `{'list': articles, 'total': total_count}` */
  datatype Batch = Batch(list: seq<Article>, total: int)

  /**
   * `'base_resp' in data and data['base_resp'].get('ret') != 0`: a missing `ret`
   * is not 0, and a `base_resp` that is not a dict raises on `.get`.
   */
  predicate Rejected(baseResp: Entry<BaseResp>) {
    baseResp.Mistyped? || (baseResp.Present? && baseResp.value.ret != Some(0))
  }

  /**
   * A truthy envelope that is not a dict, whose `publish_info` cannot be decoded,
   * or whose `appmsgex` cannot be looped over, raises, which discards the whole batch.
   */
  predicate Broken(e: Envelope) {
    e.NotDict? || (e.Envelope? && (!e.publishInfo.Parsed? || e.publishInfo.value.appmsgex.Mistyped?))
  }

  /** The records of one envelope, in `appmsgex` order, with missing fields read as "". */
  function EnvelopeArticles(e: Envelope): (r: Option<seq<Article>>)
    ensures r.None? <==> Broken(e)
    ensures r.Some? && e.Envelope? ==> |r.value| == |e.publishInfo.value.appmsgex.GetOr([])|
    ensures r.Some? && e.Envelope? ==>
      forall j :: 0 <= j < |r.value| ==>
        var item := e.publishInfo.value.appmsgex.GetOr([])[j];
        r.value[j] == Article(item.title.GetOr(""), item.link.GetOr(""))
    ensures e.Falsy? ==> r == Some([])
  {
    match e
    case Falsy => Some([])
    case Envelope(Parsed(info)) =>
      if info.appmsgex.Mistyped? then None
      else
        var items := info.appmsgex.GetOr([]);
        Some(seq(|items|, j requires 0 <= j < |items| => Article(items[j].title.GetOr(""), items[j].link.GetOr(""))))
    case _ => None
  }

  /** Both parts present: their concatenation; otherwise nothing. */
  function Join(a: Option<seq<Article>>, b: Option<seq<Article>>): Option<seq<Article>> {
    if a.Some? && b.Some? then Some(a.value + b.value) else None
  }

  /**
   * The nested loops over `publish_list` and `appmsgex`: the records of every
   * envelope, in order, or None as soon as an envelope raises.
   */
  function Flatten(envs: seq<Envelope>): Option<seq<Article>>
  {
    if envs == [] then Some([])
    else Join(EnvelopeArticles(envs[0]), Flatten(envs[1..]))
  }

  /** One envelope that raises discards the batch; with none, every envelope's records are kept. */
  lemma {:induction false} FlattenFails(envs: seq<Envelope>)
    ensures Flatten(envs).None? <==> exists i :: 0 <= i < |envs| && Broken(envs[i])
  {
    if envs != [] {
      FlattenFails(envs[1..]);
      assert forall i :: 1 <= i < |envs| ==> envs[i] == envs[1..][i - 1];
    }
  }

  /** Flattening is a concatenation: the records of `a + b` are those of `a` followed by those of `b`. */
  lemma {:induction false} FlattenAppend(a: seq<Envelope>, b: seq<Envelope>)
    ensures Flatten(a + b) == Join(Flatten(a), Flatten(b))
  {
    if a == [] {
      assert a + b == b;
      if Flatten(b).Some? {
        assert [] + Flatten(b).value == Flatten(b).value;
      }
    } else {
      var ab := a + b;
      assert ab[0] == a[0] && ab[1..] == a[1..] + b;
      FlattenAppend(a[1..], b);
      var x, y, z := EnvelopeArticles(a[0]), Flatten(a[1..]), Flatten(b);
      assert Flatten(ab) == Join(x, Flatten(a[1..] + b));
      assert Flatten(a) == Join(x, y);
      JoinAssociative(x, y, z);
    }
  }

  lemma JoinAssociative(x: Option<seq<Article>>, y: Option<seq<Article>>, z: Option<seq<Article>>)
    ensures Join(x, Join(y, z)) == Join(Join(x, y), z)
  {
    if x.Some? && y.Some? && z.Some? {
      assert x.value + (y.value + z.value) == (x.value + y.value) + z.value;
    }
  }

  /** `_get_articles_batch` after the response has been decoded. */
  function GetArticlesBatch(p: Payload): (r: Option<Batch>)
    ensures Rejected(p.baseResp) ==> r.None?
    ensures p.publishPage.Absent? || p.publishPage.Unparsable? ==> r.None?
    ensures p.publishPage.Parsed? && p.publishPage.value.publishList.Mistyped? ==> r.None?
    ensures r.Some? <==>
      !Rejected(p.baseResp) && p.publishPage.Parsed? && !p.publishPage.value.publishList.Mistyped?
      && forall i :: 0 <= i < |p.publishPage.value.publishList.GetOr([])| ==>
                       !Broken(p.publishPage.value.publishList.GetOr([])[i])
    ensures r.Some? ==> Some(r.value.list) == Flatten(p.publishPage.value.publishList.GetOr([]))
    ensures r.Some? ==> r.value.total == p.publishPage.value.totalCount.GetOr(0)
  {
    if Rejected(p.baseResp) then None
    else match p.publishPage
      case Parsed(page) =>
        if page.publishList.Mistyped? then None
        else
          FlattenFails(page.publishList.GetOr([]));
          var articles := Flatten(page.publishList.GetOr([]));
          if articles.None? then None
          else Some(Batch(articles.value, page.totalCount.GetOr(0)))
      case _ => None
  }

  /** A `base_resp` without `ret` counts as a failure. */
  lemma MissingRetRejects(page: Field<PublishPage>)
    ensures GetArticlesBatch(Payload(Present(BaseResp(None)), page)).None?
  {
  }

  /** A `base_resp` or a `publish_list` that is null raises, so the batch is None rather than empty. */
  lemma NullFieldsRaise(page: Field<PublishPage>, total: Option<int>)
    ensures GetArticlesBatch(Payload(Mistyped, page)).None?
    ensures GetArticlesBatch(Payload(Missing, Parsed(PublishPage(Mistyped, total)))).None?
  {
  }

  /** An envelope whose `appmsgex` is null raises and discards the records of every other envelope. */
  lemma NullAppmsgexRaises(before: seq<Envelope>, after: seq<Envelope>)
    ensures var envs := before + [Envelope(Parsed(PublishInfo(Mistyped)))] + after;
      GetArticlesBatch(Payload(Missing, Parsed(PublishPage(Present(envs), None)))).None?
  {
    var envs := before + [Envelope(Parsed(PublishInfo(Mistyped)))] + after;
    assert Broken(envs[|before|]);
  }

  /** A response without `base_resp`, with an empty listing, is an empty batch (not None) whose total defaults to 0. */
  lemma EmptyListingIsEmptyBatch()
    ensures GetArticlesBatch(Payload(Missing, Parsed(PublishPage(Missing, None)))) == Some(Batch([], 0))
  {
  }
}
