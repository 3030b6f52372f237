/**
  `collect_all_news`: one fetch task per configured source, gathered in source
  order; the lists the tasks returned are concatenated, tasks that raised are
  skipped, and the result is cut to `max_news` with Python's `[:max_news]`.
  The network is an oracle `net` giving each source's reply; the concurrency of
  `asyncio.gather` is invisible here because results come back in task order.
*/
module Aggregator {
  import opened Text
  import opened Categorizer
  import opened Fetcher

  /** A configured feed: display name and feed URL. */
  datatype Source = Source(name: string, url: string)

  /** The bot's sources, in the dictionary's insertion order. */
  const Sources: seq<Source> := [
    Source("BBC فارسی", "https://feeds.bbci.co.uk/persian/rss.xml"),
    Source("DW فارسی", "https://rss.dw.com/rdf/rss-fa-all"),
    Source("یورونیوز فارسی", "https://parsi.euronews.com/rss")
  ]

  /** `MAX_NEWS_PER_POST` when the environment does not set it. */
  const DefaultMaxNews: int := 3

  /** What one task adds: the list it returned, or nothing when it raised. */
  function Contribution(o: TaskOutcome): seq<NewsItem> {
    if o.Returned? then o.items else []
  }

  /** The loop over gathered results: the returned lists, concatenated in task order. */
  function Gathered(outcomes: seq<TaskOutcome>): seq<NewsItem>
  {
    if |outcomes| == 0 then [] else Contribution(outcomes[0]) + Gathered(outcomes[1..])
  }

  /** The gathered results, one per source, in source order. */
  function Outcomes(sources: seq<Source>, net: Source -> Reply, table: seq<Category>,
                    lower: string -> string, getText: string -> string): (os: seq<TaskOutcome>)
    ensures |os| == |sources|
  {
    seq(|sources|, i requires 0 <= i < |sources| =>
      FetchNewsFromSource(sources[i].name, net(sources[i]), table, lower, getText))
  }

  /** `collect_all_news()`: the first `maxNews` gathered items, in Python's
      slice sense. */
  function CollectAllNews(sources: seq<Source>, net: Source -> Reply, maxNews: int, table: seq<Category>,
                          lower: string -> string, getText: string -> string): (news: seq<NewsItem>)
    ensures news <= Gathered(Outcomes(sources, net, table, lower, getText))
    ensures var total := |Gathered(Outcomes(sources, net, table, lower, getText))|;
            |news| == if maxNews >= 0 then Min(maxNews, total) else Max(0, total + maxNews)
  {
    Take(Gathered(Outcomes(sources, net, table, lower, getText)), maxNews)
  }

  /** With `MAX_NEWS_PER_POST` unset, at most three items are collected, and
      fewer only when the sources gathered fewer. */
  lemma DefaultCollectsAtMostThree(sources: seq<Source>, net: Source -> Reply, table: seq<Category>,
                                   lower: string -> string, getText: string -> string)
    ensures var news := CollectAllNews(sources, net, DefaultMaxNews, table, lower, getText);
            && |news| <= 3
            && |news| == Min(3, |Gathered(Outcomes(sources, net, table, lower, getText))|)
  {
  }

  /** Gathering two runs of tasks gathers each and concatenates. */
  lemma {:induction false} GatheredAppend(a: seq<TaskOutcome>, b: seq<TaskOutcome>)
    ensures Gathered(a + b) == Gathered(a) + Gathered(b)
    decreases |a|
  {
    if |a| == 0 {
      assert a + b == b;
    } else {
      assert (a + b)[1..] == a[1..] + b;
      GatheredAppend(a[1..], b);
    }
  }

  /** The gathered list is the part before task `i`, task `i`'s list, and the part after. */
  lemma GatheredAround(outcomes: seq<TaskOutcome>, i: nat)
    requires i < |outcomes|
    ensures Gathered(outcomes) ==
            Gathered(outcomes[..i]) + Contribution(outcomes[i]) + Gathered(outcomes[i + 1..])
  {
    assert outcomes == outcomes[..i] + outcomes[i..];
    GatheredAppend(outcomes[..i], outcomes[i..]);
    assert outcomes[i..][1..] == outcomes[i + 1..];
  }

  /** A source whose fetch fails (any status but 200, a caught exception, or
      a raised task) adds nothing: the collected list is exactly the other
      sources' items, in source order. */
  lemma FailingSourceIsIsolated(sources: seq<Source>, net: Source -> Reply, i: nat, table: seq<Category>,
                                lower: string -> string, getText: string -> string)
    requires i < |sources|
    requires !(net(sources[i]).Received? && net(sources[i]).status == HttpOk)
    ensures var os := Outcomes(sources, net, table, lower, getText);
            Gathered(os) == Gathered(os[..i]) + Gathered(os[i + 1..])
  {
    var os := Outcomes(sources, net, table, lower, getText);
    assert Contribution(os[i]) == [];
    GatheredAround(os, i);
  }

  /** Each source adds at most five items. */
  lemma GatheredBound(sources: seq<Source>, net: Source -> Reply, table: seq<Category>,
                      lower: string -> string, getText: string -> string)
    ensures |Gathered(Outcomes(sources, net, table, lower, getText))| <= EntriesPerSource * |sources|
  {
    var os := Outcomes(sources, net, table, lower, getText);
    forall k | 0 <= k < |os| ensures |Contribution(os[k])| <= EntriesPerSource {
    }
    GatheredLength(os, EntriesPerSource);
  }

  /** With the bot's three sources, one round gathers at most fifteen items. */
  lemma BotGathersAtMostFifteen(net: Source -> Reply, table: seq<Category>,
                                lower: string -> string, getText: string -> string)
    ensures |Gathered(Outcomes(Sources, net, table, lower, getText))| <= 15
  {
    GatheredBound(Sources, net, table, lower, getText);
  }

  /** Tasks that each add at most `n` items add at most `n` per task together. */
  lemma {:induction false} GatheredLength(outcomes: seq<TaskOutcome>, n: nat)
    requires forall k :: 0 <= k < |outcomes| ==> |Contribution(outcomes[k])| <= n
    ensures |Gathered(outcomes)| <= n * |outcomes|
    decreases |outcomes|
  {
    if |outcomes| > 0 {
      assert forall k :: 0 <= k < |outcomes| - 1 ==> outcomes[1..][k] == outcomes[k + 1];
      GatheredLength(outcomes[1..], n);
      assert |Contribution(outcomes[0])| <= n;
    }
  }

  /** Every collected item is well formed and names the source it came from. */
  lemma CollectedItemsComeFromSources(sources: seq<Source>, net: Source -> Reply, maxNews: int,
                                      table: seq<Category>, lower: string -> string,
                                      getText: string -> string, item: NewsItem)
    requires item in CollectAllNews(sources, net, maxNews, table, lower, getText)
    ensures exists j :: 0 <= j < |sources| && WellFormedItem(item, sources[j].name, table, lower)
  {
    var os := Outcomes(sources, net, table, lower, getText);
    var j := GatheredFrom(os, item);
    assert item in os[j].items;
  }

  /** An item of the gathered list belongs to the list of some returning task. */
  lemma {:induction false} GatheredFrom(outcomes: seq<TaskOutcome>, item: NewsItem) returns (j: nat)
    requires item in Gathered(outcomes)
    ensures j < |outcomes| && outcomes[j].Returned? && item in outcomes[j].items
    decreases |outcomes|
  {
    if item in Contribution(outcomes[0]) {
      j := 0;
    } else {
      var j' := GatheredFrom(outcomes[1..], item);
      j := j' + 1;
    }
  }
}
