/**
  `fetch_news_from_source`: what one source contributes. The HTTP request and
  the feed parser are outside the model; their outcome arrives as a `Reply`.
  A successful reply keeps the first five entries, cleans their title and
  summary, drops entries whose cleaned title is shorter than ten characters,
  truncates the rest and categorises them.
*/
module Fetcher {
  import opened Text
  import opened Optional
  import opened Cleaner
  import opened Categorizer
  import opened Seqs

  /** One news item: its cleaned title and summary, the entry's link, the
      source's name, and the category computed from title and summary. */
  datatype NewsItem = NewsItem(title: string, summary: string, url: string, source: string, category: string)

  /** One parsed feed entry; any of its fields may be missing. */
  datatype RawEntry = RawEntry(title: Option<string>, summary: Option<string>, link: Option<string>)

  /** The outcome of requesting and parsing one source's feed. */
  datatype Reply =
    | Received(status: int, entries: seq<RawEntry>) // an HTTP response and the entries parsed from its body
    | Failed                                        // an `Exception`: connection error, timeout, unreadable body
    | Cancelled                                     // `asyncio.CancelledError`, or another `BaseException` that `gather` returns as the task's result

  /** What `asyncio.gather(..., return_exceptions=True)` reports for one task. */
  datatype TaskOutcome = Returned(items: seq<NewsItem>) | Raised

  const HttpOk: int := 200
  const EntriesPerSource: nat := 5
  const MinTitleLength: nat := 10
  const MaxTitleLength: nat := 100
  const MaxSummaryLength: nat := 200

  /** `self.clean_html(entry.get(key, '')).strip()`. */
  function CleanField(field: Option<string>, getText: string -> string): (r: string)
    ensures r == CleanHtml(field.GetOr(""), getText)
    ensures Normalized(r)
    ensures field.None? ==> r == ""
  {
    CleanHtmlIsStripped(field.GetOr(""), getText);
    Strip(CleanHtml(field.GetOr(""), getText))
  }

  /** The entry survives the length filter. */
  predicate Accepted(e: RawEntry, getText: string -> string) {
    |CleanField(e.title, getText)| >= MinTitleLength
  }

  /** The item built from one entry, after truncation and categorisation. */
  function MakeItem(e: RawEntry, source: string, table: seq<Category>,
                    lower: string -> string, getText: string -> string): (item: NewsItem)
    ensures item.title <= CleanField(e.title, getText)
    ensures |item.title| == Min(|CleanField(e.title, getText)|, MaxTitleLength)
    ensures item.summary <= CleanField(e.summary, getText)
    ensures |item.summary| == Min(|CleanField(e.summary, getText)|, MaxSummaryLength)
    ensures Accepted(e, getText) ==> MinTitleLength <= |item.title| <= MaxTitleLength
    ensures item.url == e.link.GetOr("") && item.source == source
    ensures item.category == Categorize(table, lower, item.title + " " + item.summary)
  {
    var title := Take(CleanField(e.title, getText), MaxTitleLength);
    var summary := Take(CleanField(e.summary, getText), MaxSummaryLength);
    NewsItem(title, summary, e.link.GetOr(""), source, Categorize(table, lower, title + " " + summary))
  }

  /** What every item a source yields satisfies. */
  ghost predicate WellFormedItem(item: NewsItem, source: string, table: seq<Category>, lower: string -> string) {
    && MinTitleLength <= |item.title| <= MaxTitleLength
    && |item.summary| <= MaxSummaryLength
    && item.source == source
    && item.category == Categorize(table, lower, item.title + " " + item.summary)
  }

  /** The entry filter of the loop. */
  function Keep(getText: string -> string): RawEntry -> bool {
    e => Accepted(e, getText)
  }

  /** The item construction of the loop. */
  function Build(source: string, table: seq<Category>, lower: string -> string,
                 getText: string -> string): RawEntry -> NewsItem {
    e => MakeItem(e, source, table, lower, getText)
  }

  /** The entry loop: the accepted entries, as items, in entry order. */
  function ProcessEntries(entries: seq<RawEntry>, source: string, table: seq<Category>,
                          lower: string -> string, getText: string -> string): (items: seq<NewsItem>)
    ensures |items| <= |entries|
    ensures forall k :: 0 <= k < |items| ==> WellFormedItem(items[k], source, table, lower)
  {
    var items := FilterMap(entries, Keep(getText), Build(source, table, lower, getText));
    ProcessedItemsWellFormed(entries, source, table, lower, getText);
    items
  }

  /** Every item of the entry loop comes from an accepted entry and is well formed. */
  lemma ProcessedItemsWellFormed(entries: seq<RawEntry>, source: string, table: seq<Category>,
                                 lower: string -> string, getText: string -> string)
    ensures forall k :: 0 <= k < |FilterMap(entries, Keep(getText), Build(source, table, lower, getText))| ==>
              WellFormedItem(FilterMap(entries, Keep(getText), Build(source, table, lower, getText))[k],
                             source, table, lower)
  {
    var items := FilterMap(entries, Keep(getText), Build(source, table, lower, getText));
    forall k | 0 <= k < |items|
      ensures WellFormedItem(items[k], source, table, lower)
    {
      FilterMapFrom(entries, Keep(getText), Build(source, table, lower, getText), k);
      var i :| 0 <= i < |entries| && Keep(getText)(entries[i])
               && items[k] == Build(source, table, lower, getText)(entries[i]);
    }
  }

  /** `fetch_news_from_source(source, url, session)`: a list of items for a
      reply with status 200, an empty list for any other status or a caught
      exception, and a raised task for an uncaught one. */
  function FetchNewsFromSource(source: string, reply: Reply, table: seq<Category>,
                               lower: string -> string, getText: string -> string): (r: TaskOutcome)
    ensures r.Raised? <==> reply.Cancelled?
    ensures reply.Failed? ==> r == Returned([])
    ensures reply.Received? && reply.status != HttpOk ==> r == Returned([])
    ensures r.Returned? ==> |r.items| <= EntriesPerSource
    ensures r.Returned? ==> forall k :: 0 <= k < |r.items| ==> WellFormedItem(r.items[k], source, table, lower)
  {
    match reply
    case Received(status, entries) =>
      if status != HttpOk then Returned([])
      else Returned(ProcessEntries(Take(entries, EntriesPerSource), source, table, lower, getText))
    case Failed => Returned([])
    case Cancelled => Raised
  }

  /** A source answering 200 yields exactly its accepted entries among the
      first five, made into items, in feed order. */
  lemma FetchSelectsLeadingEntries(source: string, entries: seq<RawEntry>, table: seq<Category>,
                                   lower: string -> string, getText: string -> string)
    returns (idx: seq<nat>)
    ensures FetchNewsFromSource(source, Received(HttpOk, entries), table, lower, getText).Returned?
    ensures Selects(FetchNewsFromSource(source, Received(HttpOk, entries), table, lower, getText).items,
                    entries[..Min(EntriesPerSource, |entries|)],
                    Keep(getText), Build(source, table, lower, getText), idx)
  {
    assert Take(entries, EntriesPerSource) == entries[..Min(EntriesPerSource, |entries|)];
    idx := FilterMapSelects(Take(entries, EntriesPerSource), Keep(getText), Build(source, table, lower, getText));
  }
}
