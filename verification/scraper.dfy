/** The search driver of `Scraper`: the scan of one keyword's result listing
    (`_search_keyword`), the loop over all keywords (`search_keywords`) and the
    joiner `_tostring`. Fetching and parsing pages, rendering an article and the
    final tidy pass are collaborators passed in a `Collaborators` record. */
module Scraper {
  import opened Text
  import opened Timestamps

  /** The search address; the keyword is appended to it as it is. */
  const UrlBase: string := "http://sok.aftonbladet.se/?sortBy=pubDate&q="

  /** The first class of an item's first `span` when the item is an article. */
  const ResultInfo: string := "resultInfo"

  /** One `li` of the result list, as the page parser sees it: the first class
      of its first `span`, the text of its second `span` (the timestamp
      fragment), and the text and target of its link, all unstripped. */
  datatype Item = Item(firstClass: string, stampText: string, title: string, url: string)

  /** What the scraper calls but does not compute itself. */
  datatype Collaborators = Collaborators(
    // the items of the result list of the page at an address (HTTP fetch and HTML parsing)
    fetch: string -> seq<Item>,
    // the lenient date parser
    parse: string -> DateTime,
    // the UTC offset, in seconds, the time-zone database gives a zone at a wall-clock reading
    utcOffset: (Zone, int) -> int,
    // `_get_article(url, title, created, updated, keywords)`: one article rendered as HTML
    article: (string, string, Aware, Aware, string) -> string,
    // the document the tidy pass makes of the accumulated HTML
    tidy: string -> string)

  /** The instant an aware date denotes: its wall-clock reading less its UTC offset. */
  function Instant(d: Aware, utcOffset: (Zone, int) -> int): int
  {
    d.wall - utcOffset(d.zone.value, d.wall)
  }

  /** `a < b` for aware dates, as Python 2.7 compares them: by wall-clock reading
      when both hold the same `tzinfo` object, otherwise by instants. Whenever the
      two offsets agree, or the objects differ, that is the order of instants, even
      for two objects of one zone name. */
  predicate Earlier(a: Aware, b: Aware, utcOffset: (Zone, int) -> int)
    ensures a.zone != b.zone || utcOffset(a.zone.value, a.wall) == utcOffset(b.zone.value, b.wall) ==>
      (Earlier(a, b, utcOffset) <==> Instant(a, utcOffset) < Instant(b, utcOffset))
  {
    if a.zone == b.zone then a.wall < b.wall
    else Instant(a, utcOffset) < Instant(b, utcOffset)
  }

  /** A date `_parsedate` gave the Stockholm object (local mean time, 72 minutes
      ahead of UTC) at 00:05 is earlier than 00:00 under the Stockholm object of
      central European time: the two objects differ, so the instants decide, not
      the wall-clock readings. */
  lemma LocalMeanTimeAgainstLocalized(utcOffset: (Zone, int) -> int)
    requires utcOffset(Stockholm, 300) == 4320 && utcOffset(Zone("Europe/Stockholm", 1), 0) == 3600
    ensures Earlier(DateTime(300, Some(Stockholm)), DateTime(0, Some(Zone("Europe/Stockholm", 1))), utcOffset)
  {
  }

  /** `created >= after and created < before`. */
  predicate InWindow(created: Aware, before: Aware, after: Aware, utcOffset: (Zone, int) -> int)
  {
    !Earlier(created, after, utcOffset) && Earlier(created, before, utcOffset)
  }

  predicate IsArticle(item: Item)
  {
    item.firstClass == ResultInfo
  }

  /** The item is an article whose fragment decodes to a created date inside the window. */
  predicate Taken(item: Item, before: Aware, after: Aware, env: Collaborators)
  {
    && IsArticle(item)
    && var stamps := CreatedUpdated(item.stampText, env.parse);
    && stamps.Stamped?
    && InWindow(stamps.created, before, after, env.utcOffset)
  }

  /** The rendered article of an item: address and title stripped, the keyword as its keyword list. */
  function Article(item: Item, keyword: string, env: Collaborators): (r: string)
  {
    match CreatedUpdated(item.stampText, env.parse)
    case Stamped(created, updated) =>
      env.article(Strip(item.url, IsSpace), Strip(item.title, IsAsciiSpace), created, updated, keyword)
    case Unavailable => ""
  }

  /** What one item adds to the accumulated HTML. */
  function Contribution(item: Item, keyword: string, before: Aware, after: Aware, env: Collaborators): (r: string)
  {
    if Taken(item, before, after, env) then Article(item, keyword, env) else ""
  }

  /** The HTML accumulated over a listing, before the tidy pass. */
  function Articles(items: seq<Item>, keyword: string, before: Aware, after: Aware, env: Collaborators): (r: string)
  {
    ConcatMap(it => Contribution(it, keyword, before, after, env), items)
  }

  /** What `_search_keyword` returns for a keyword. */
  function KeywordReport(keyword: string, before: Aware, after: Aware, env: Collaborators): (r: string)
  {
    env.tidy(Articles(env.fetch(UrlBase + keyword), keyword, before, after, env))
  }

  /** What `search_keywords` adds to its report for one keyword: the report of the stripped keyword. */
  function KeywordPart(keyword: string, before: Aware, after: Aware, env: Collaborators): (r: string)
  {
    KeywordReport(Strip(keyword, IsAsciiSpace), before, after, env)
  }

  /** What `search_keywords` returns for a list of keywords. */
  function Report(keywords: seq<string>, before: Aware, after: Aware, env: Collaborators): (r: string)
  {
    ConcatMap(k => KeywordPart(k, before, after, env), keywords)
  }

  /** `_search_keyword`: fetch the listing for the keyword, append the rendered
      article of every taken item in listing order, and tidy the result. */
  method SearchKeyword(keyword: string, before: Aware, after: Aware, env: Collaborators) returns (text: string)
    ensures text == KeywordReport(keyword, before, after, env)
  {
    var items := env.fetch(UrlBase + keyword);
    var articles := "";
    for i := 0 to |items|
      invariant articles == Articles(items[..i], keyword, before, after, env)
    {
      var li := items[i];
      if IsArticle(li) {
        var stamps := CreatedUpdated(li.stampText, env.parse);
        if stamps.Stamped? && InWindow(stamps.created, before, after, env.utcOffset) {
          var title := Strip(li.title, IsAsciiSpace);
          var url := Strip(li.url, IsSpace);
          articles := articles + env.article(url, title, stamps.created, stamps.updated, keyword);
        }
      }
      ConcatMapSnoc(it => Contribution(it, keyword, before, after, env), items, i);
    }
    assert items[..|items|] == items;
    text := env.tidy(articles);
  }

  /** `search_keywords`: the reports of the stripped keywords, one after the other. */
  method SearchKeywords(keywords: seq<string>, before: Aware, after: Aware, env: Collaborators) returns (report: string)
    ensures report == Report(keywords, before, after, env)
  {
    report := "";
    for i := 0 to |keywords|
      invariant report == Report(keywords[..i], before, after, env)
    {
      var part := SearchKeyword(Strip(keywords[i], IsAsciiSpace), before, after, env);
      ConcatMapSnoc(k => KeywordPart(k, before, after, env), keywords, i);
      report := report + part;
    }
    assert keywords[..|keywords|] == keywords;
  }

  /** `_tostring`: the string forms of the elements, one after the other. */
  method ToString<T>(resultset: seq<T>, str: T -> string) returns (s: string)
    ensures s == ConcatMap(str, resultset)
  {
    s := "";
    for i := 0 to |resultset|
      invariant s == ConcatMap(str, resultset[..i])
    {
      s := s + str(resultset[i]);
      ConcatMapSnoc(str, resultset, i);
    }
    assert resultset[..|resultset|] == resultset;
  }

  /** The accumulated HTML is the rendered articles of exactly the taken items,
      in listing order; nothing else contributes. */
  lemma ArticlesAreTakenItems(items: seq<Item>, keyword: string, before: Aware, after: Aware, env: Collaborators)
    ensures Articles(items, keyword, before, after, env)
         == ConcatMap(it => Article(it, keyword, env), Filter(it => Taken(it, before, after, env), items))
  {
    ConcatMapFilter(it => Contribution(it, keyword, before, after, env), it => Article(it, keyword, env),
                    it => Taken(it, before, after, env), items);
  }

  /** The selection rule at one position of the listing, for an item whose
      fragment decodes: its article sits between what the items before it and
      the items after it contribute, exactly when its first class is
      `resultInfo` and `after <= created < before`; otherwise it adds nothing. */
  lemma SelectionAt(items: seq<Item>, i: nat, keyword: string, before: Aware, after: Aware, env: Collaborators)
    requires i < |items|
    requires CreatedUpdated(items[i].stampText, env.parse).Stamped?
    ensures var it, st := items[i], CreatedUpdated(items[i].stampText, env.parse);
      Articles(items, keyword, before, after, env)
      == Articles(items[..i], keyword, before, after, env)
         + (if it.firstClass == "resultInfo"
              && !Earlier(st.created, after, env.utcOffset)
              && Earlier(st.created, before, env.utcOffset)
            then env.article(Strip(it.url, IsSpace), Strip(it.title, IsAsciiSpace), st.created, st.updated, keyword)
            else "")
         + Articles(items[i + 1..], keyword, before, after, env)
  {
    ConcatMapAt(it => Contribution(it, keyword, before, after, env), items, i);
  }

  /** A listing with no taken item yields no HTML before the tidy pass. */
  lemma NothingTaken(items: seq<Item>, keyword: string, before: Aware, after: Aware, env: Collaborators)
    requires forall k :: 0 <= k < |items| ==> !Taken(items[k], before, after, env)
    ensures Articles(items, keyword, before, after, env) == ""
  {
    ConcatMapAllEmpty(it => Contribution(it, keyword, before, after, env), items);
  }

  /** Scanning two listings one after the other gives the HTML of their join:
      the scan keeps no state between items. */
  lemma ArticlesAppend(a: seq<Item>, b: seq<Item>, keyword: string, before: Aware, after: Aware, env: Collaborators)
    ensures Articles(a + b, keyword, before, after, env)
         == Articles(a, keyword, before, after, env) + Articles(b, keyword, before, after, env)
  {
    ConcatMapAppend(it => Contribution(it, keyword, before, after, env), a, b);
  }

  /** The window is closed below and open above: an article dated exactly
      `after` is taken (when `after` is earlier than `before`), one dated
      exactly `before` is not. */
  lemma WindowHalfOpen(item: Item, before: Aware, after: Aware, env: Collaborators)
    requires IsArticle(item) && CreatedUpdated(item.stampText, env.parse).Stamped?
    ensures var created := CreatedUpdated(item.stampText, env.parse).created;
      && (created == after && Earlier(after, before, env.utcOffset) ==> Taken(item, before, after, env))
      && (created == before ==> !Taken(item, before, after, env))
  {
  }

  /** Reports of keyword lists joined are the reports joined; an empty list reports `""`. */
  lemma ReportAppend(a: seq<string>, b: seq<string>, before: Aware, after: Aware, env: Collaborators)
    ensures Report(a + b, before, after, env) == Report(a, before, after, env) + Report(b, before, after, env)
    ensures Report([], before, after, env) == ""
  {
    ConcatMapAppend(k => KeywordPart(k, before, after, env), a, b);
  }
}
