/**
  Query construction and the normalisation of Google Custom Search responses.
  The HTTP request and JSON decoding are outside the model: a search engine is
  a function from query string to the decoded `Response`.
 */
module Search {
  import opened Wrappers
  import opened Text

  /** One entry of the response's `items` list; a field is `None` when the key is missing. */
  datatype RawItem = RawItem(title: Option<string>, link: Option<string>)

  /**
    A decoded response: the request or decoding failed, the JSON had no
    `items` key (this includes quota and key errors), or the list of items.
   */
  datatype Response = RequestFailed | NoItems | Items(items: seq<RawItem>)

  /** The search boundary: what the engine answers to a query. */
  type Engine = string -> Response

  /** A normalised link result shown to the user. */
  datatype SearchResult = SearchResult(title: string, link: string)

  const QuerySuffix: string := " Hindi Dubbed Telegram Channel site:t.me"
  const ImageSuffix: string := " anime wallpaper"
  const TitleLimit: nat := 30
  const Ellipsis: string := "..."

  /** The web query for a message text: the text followed by the fixed channel qualifier. */
  function BuildQuery(text: string): (q: string)
    ensures StartsWith(q, text) && EndsWith(q, QuerySuffix)
    ensures |q| == |text| + |QuerySuffix|
  {
    text + QuerySuffix
  }

  /** Inverse of `BuildQuery`: drop the qualifier. */
  function QueryText(q: string): string
    requires EndsWith(q, QuerySuffix)
  {
    q[..|q| - |QuerySuffix|]
  }

  lemma BuildQueryRoundTrip(text: string)
    ensures QueryText(BuildQuery(text)) == text
  {
    assert BuildQuery(text)[..|text|] == text;
  }

  /** Distinct texts give distinct queries. */
  lemma BuildQueryInjective(a: string, b: string)
    requires BuildQuery(a) == BuildQuery(b)
    ensures a == b
  {
    BuildQueryRoundTrip(a);
    BuildQueryRoundTrip(b);
  }

  /** The image query: the raw text followed by " anime wallpaper". */
  function ImageQuery(text: string): (q: string)
    ensures StartsWith(q, text) && EndsWith(q, ImageSuffix)
    ensures |q| == |text| + |ImageSuffix|
  {
    text + ImageSuffix
  }

  /** `title[:30] + "..."`: at most 30 characters of the title, then an ellipsis, even for short titles. */
  function CutTitle(title: string): (r: string)
    ensures |r| <= TitleLimit + |Ellipsis|
    ensures EndsWith(r, Ellipsis)
    ensures StartsWith(title, r[..|r| - |Ellipsis|])
    ensures |r| - |Ellipsis| == if |title| < TitleLimit then |title| else TitleLimit
  {
    var keep := if |title| < TitleLimit then |title| else TitleLimit;
    var r := title[..keep] + Ellipsis;
    assert r[..keep] == title[..keep];
    r
  }

  /** `link.split("?")[0]`: the part of the link before its first '?'. */
  function StripQuery(link: string): (r: string)
    ensures '?' !in r
    ensures StartsWith(link, r)
    ensures '?' !in link ==> r == link
    ensures '?' in link ==> |r| < |link| && link[|r|] == '?'
    decreases |link|
  {
    if link == [] then []
    else if link[0] == '?' then []
    else
      var rest := StripQuery(link[1..]);
      assert link == [link[0]] + link[1..];
      [link[0]] + rest
  }

  /** The normalised result for one item, or `None` where Python raises on a missing key. */
  function NormaliseItem(item: RawItem): Option<SearchResult>
  {
    if item.title.Some? && item.link.Some? then
      Some(SearchResult(CutTitle(item.title.value), StripQuery(item.link.value)))
    else None
  }

  /** A result as the normaliser emits it: a cut title with its ellipsis and a link without a query. */
  predicate IsNormalised(r: SearchResult)
  {
    |r.title| <= TitleLimit + |Ellipsis| && EndsWith(r.title, Ellipsis) && '?' !in r.link
  }

  predicate WellFormed(item: RawItem)
  {
    item.title.Some? && item.link.Some?
  }

  /**
    The list comprehension over `items`: one result per item in the same order,
    or `None` when some item lacks a key (the comprehension raises).
   */
  function NormaliseItems(items: seq<RawItem>): (r: Option<seq<SearchResult>>)
    ensures r.Some? <==> forall k :: 0 <= k < |items| ==> WellFormed(items[k])
    ensures r.Some? ==> |r.value| == |items|
    ensures r.Some? ==> forall k :: 0 <= k < |items| ==> NormaliseItem(items[k]) == Some(r.value[k])
    decreases |items|
  {
    if items == [] then Some([])
    else
      match NormaliseItem(items[0])
      case None => None
      case Some(first) =>
        match NormaliseItems(items[1..])
        case None =>
          assert forall k :: 1 <= k < |items| ==> items[1..][k - 1] == items[k];
          None
        case Some(rest) =>
          assert forall k :: 1 <= k < |items| ==> items[1..][k - 1] == items[k];
          Some([first] + rest)
  }

  /** `google_search` after the request: the normalised items, or no results on any failure. */
  function GoogleSearch(response: Response): (results: seq<SearchResult>)
    ensures forall k :: 0 <= k < |results| ==> IsNormalised(results[k])
    ensures !response.Items? ==> results == []
  {
    match response
    case Items(items) => NormaliseItems(items).GetOr([])
    case _ => []
  }

  /** `get_image` after the request: the first item's link, untouched, or nothing. */
  function GetImage(response: Response): (image: Option<string>)
    ensures image.Some? <==> response.Items? && |response.items| > 0 && response.items[0].link.Some?
    ensures image.Some? ==> image.value == response.items[0].link.value
  {
    match response
    case Items(items) => if |items| > 0 then items[0].link else None
    case _ => None
  }

  /** Normalisation keeps the count and the order of upstream items when every item is complete. */
  lemma {:induction false} SearchKeepsOrder(response: Response)
    requires response.Items?
    requires forall k :: 0 <= k < |response.items| ==> WellFormed(response.items[k])
    ensures |GoogleSearch(response)| == |response.items|
    ensures forall k :: 0 <= k < |response.items| ==>
      GoogleSearch(response)[k] == SearchResult(CutTitle(response.items[k].title.value), StripQuery(response.items[k].link.value))
  {
    var rs := NormaliseItems(response.items);
    forall k | 0 <= k < |response.items|
      ensures NormaliseItem(response.items[k]) == Some(rs.value[k])
    {
    }
  }

  /** One incomplete item empties the whole result list. */
  lemma IncompleteItemEmptiesResults(response: Response, k: nat)
    requires response.Items? && k < |response.items| && !WellFormed(response.items[k])
    ensures GoogleSearch(response) == []
  {
  }
}
