/**
  `format_message` and the loop of `send_news_to_channel`. The channel, the
  clock and the pause are outside the model: `stamp(k)` is the timestamp text
  read while formatting the k-th message, `sent(k)` says whether the k-th
  `send_message` call returned normally, and the loop's effect is the trace of
  sends and pauses it performs.
*/
module Publisher {
  import opened Text
  import opened Categorizer
  import opened Fetcher

  /** The emoji for a category missing from the table. */
  const DefaultEmoji: string := "📰"

  /** The closing line of every message. */
  const Divider: string := "➖➖➖➖➖➖➖➖➖➖"

  /** `self.categories.get(category, {"emoji": "📰"})["emoji"]`; the first row
      with that name stands for the dictionary entry. */
  function EmojiFor(table: seq<Category>, category: string): string
  {
    if |table| == 0 then DefaultEmoji
    else if table[0].name == category then table[0].emoji
    else EmojiFor(table[1..], category)
  }

  /** `table[i]` is the first row named `category`. */
  ghost predicate FirstRowNamed(table: seq<Category>, category: string, i: int) {
    && 0 <= i < |table|
    && table[i].name == category
    && forall j :: 0 <= j < i ==> table[j].name != category
  }

  /** The emoji is the first matching row's, or the default when no row matches. */
  lemma {:induction false} EmojiForIsLookup(table: seq<Category>, category: string)
    ensures (exists i :: 0 <= i < |table| && table[i].name == category) ==>
              exists i :: FirstRowNamed(table, category, i) && EmojiFor(table, category) == table[i].emoji
    ensures (forall i :: 0 <= i < |table| ==> table[i].name != category) ==>
              EmojiFor(table, category) == DefaultEmoji
    decreases |table|
  {
    if |table| > 0 && table[0].name != category {
      EmojiForIsLookup(table[1..], category);
      assert forall i :: 1 <= i < |table| ==> table[i] == table[1..][i - 1];
      if exists i :: 0 <= i < |table| && table[i].name == category {
        var i :| 0 <= i < |table| && table[i].name == category;
        assert table[1..][i - 1].name == category;
        var k :| FirstRowNamed(table[1..], category, k) && EmojiFor(table[1..], category) == table[1..][k].emoji;
        assert FirstRowNamed(table, category, k + 1);
      }
    } else if |table| > 0 {
      assert FirstRowNamed(table, category, 0);
    }
  }

  /** `category.replace(' ', '_')`. */
  function Hashtag(category: string): (h: string)
    ensures |h| == |category|
    ensures forall i :: 0 <= i < |h| ==> h[i] == if category[i] == ' ' then '_' else category[i]
  {
    if |category| == 0 then ""
    else [if category[0] == ' ' then '_' else category[0]] + Hashtag(category[1..])
  }

  /** The template's first line: the emoji and the bold title. */
  function Headline(news: NewsItem, emoji: string): string {
    emoji + " **" + news.title + "**"
  }

  /** The summary, link, source and timestamp lines, each after its blank or line break. */
  function Details(news: NewsItem, timestamp: string): string {
    "\n\n📝 " + news.summary
    + "\n\n🔗 [مطالعه بیشتر](" + news.url + ")\n\n📡 منبع: " + news.source
    + "\n📅 " + timestamp
  }

  /** The tag line and the divider. */
  function Footer(category: string): string {
    "\n🏷️ #" + Hashtag(category) + "\n\n" + Divider
  }

  /** The message template with its fields filled in. */
  function Body(news: NewsItem, emoji: string, timestamp: string): string {
    Headline(news, emoji) + Details(news, timestamp) + Footer(news.category)
  }

  /** The template's opening line break and its closing line break and indentation. */
  const Opening: string := "\n"
  const Closing: string := "\n        "

  lemma PaddingIsSpace()
    ensures forall i :: 0 <= i < |Opening| ==> IsSpace(Opening[i])
    ensures forall i :: 0 <= i < |Closing| ==> IsSpace(Closing[i])
  {
    assert forall i :: 0 <= i < |Closing| ==> Closing[i] == '\n' || Closing[i] == ' ';
  }

  /** `format_message(news)`: the triple-quoted template, which opens with a
      line break and closes with a line break and indentation, then `.strip()`. */
  function FormatMessage(news: NewsItem, table: seq<Category>, timestamp: string): (m: string)
    ensures Trimmed(m)
    ensures EndsWith(m, Divider)
  {
    Render(news, EmojiFor(table, news.category), timestamp)
  }

  /** The stripped template for a given emoji. */
  function Render(news: NewsItem, emoji: string, timestamp: string): (m: string)
    ensures Trimmed(m)
    ensures EndsWith(m, Divider)
  {
    var text := Opening + Body(news, emoji, timestamp);
    BodyEndsWithDivider(news, emoji, timestamp);
    PaddingIsSpace();
    StripKeepsTail(text, Divider, Closing);
    Strip(text + Closing)
  }

  /** Every filled-in template ends with the divider. */
  lemma BodyEndsWithDivider(news: NewsItem, emoji: string, timestamp: string)
    ensures EndsWith(Opening + Body(news, emoji, timestamp), Divider)
  {
    var f := Footer(news.category);
    var p := "\n🏷️ #" + Hashtag(news.category) + "\n\n";
    assert f == p + Divider;
    EndsWithAppend(Headline(news, emoji) + Details(news, timestamp), f, Divider);
    EndsWithAppend(Opening, Body(news, emoji, timestamp), Divider);
  }

  /** A suffix of the second part is a suffix of the whole. */
  lemma EndsWithAppend(a: string, b: string, t: string)
    requires EndsWith(b, t)
    ensures EndsWith(a + b, t)
  {
    assert (a + b)[|a + b| - |t|..] == b[|b| - |t|..];
  }

  /** Stripping text that ends in a run of visible `tail` characters followed
      by whitespace keeps `tail` at the end. */
  lemma StripKeepsTail(text: string, tail: string, trail: string)
    requires EndsWith(text, tail)
    requires |tail| > 0 && forall i :: 0 <= i < |tail| ==> !IsSpace(tail[i])
    requires forall i :: 0 <= i < |trail| ==> IsSpace(trail[i])
    ensures EndsWith(Strip(text + trail), tail)
  {
    var x := text + trail;
    var r := Strip(x);
    var a := StripIsSlice(x);
    var start, end := |text| - |tail|, |text|;
    assert x[start..end] == tail;
    assert !IsSpace(x[start]) && !IsSpace(x[end - 1]);
    assert a <= start;
    assert a + |r| >= end;
    assert a + |r| == end;
    assert r[|r| - |tail|..] == x[start..end];
  }

  /** Stripping removes exactly the whitespace padding around trimmed text. */
  lemma StripPadding(lead: string, body: string, trail: string)
    requires |body| > 0 && Trimmed(body)
    requires forall i :: 0 <= i < |lead| ==> IsSpace(lead[i])
    requires forall i :: 0 <= i < |trail| ==> IsSpace(trail[i])
    ensures Strip(lead + body + trail) == body
  {
    var x := lead + body + trail;
    var r := Strip(x);
    var a := StripIsSlice(x);
    var start, end := |lead|, |lead| + |body|;
    assert x[start..end] == body;
    assert !IsSpace(x[start]) && !IsSpace(x[end - 1]);
    assert a <= start && a + |r| >= end;
    assert |r| > 0;
    assert a >= start by { assert r[0] == x[a]; }
    assert a + |r| <= end by { assert r[|r| - 1] == x[a + |r| - 1]; }
  }

  /** A template whose emoji starts with a visible character is trimmed. */
  lemma BodyTrimmed(news: NewsItem, emoji: string, timestamp: string)
    requires |emoji| > 0 && !IsSpace(emoji[0])
    ensures |Body(news, emoji, timestamp)| > 0 && Trimmed(Body(news, emoji, timestamp))
  {
    var body := Body(news, emoji, timestamp);
    var h := Headline(news, emoji);
    assert h[0] == emoji[0];
    assert body[0] == h[0];
    BodyEndsWithDivider(news, emoji, timestamp);
    assert body[|body| - 1] == Divider[|Divider| - 1];
  }

  /** When the emoji starts with a visible character, `.strip()` removes only
      the template's opening and closing whitespace. */
  lemma RenderIsBody(news: NewsItem, emoji: string, timestamp: string)
    requires |emoji| > 0 && !IsSpace(emoji[0])
    ensures Render(news, emoji, timestamp) == Body(news, emoji, timestamp)
  {
    BodyTrimmed(news, emoji, timestamp);
    PaddingIsSpace();
    StripPadding(Opening, Body(news, emoji, timestamp), Closing);
  }

  /** Every emoji of the table, and the default, starts with a visible character. */
  ghost predicate VisibleEmojis(table: seq<Category>) {
    forall i :: 0 <= i < |table| ==> |table[i].emoji| > 0 && !IsSpace(table[i].emoji[0])
  }

  /** Looking up an emoji in a table of visible emojis gives a visible one. */
  lemma {:induction false} EmojiForVisible(table: seq<Category>, category: string)
    requires VisibleEmojis(table)
    ensures var e := EmojiFor(table, category); |e| > 0 && !IsSpace(e[0])
    decreases |table|
  {
    if |table| > 0 && table[0].name != category {
      assert VisibleEmojis(table[1..]) by {
        forall i | 0 <= i < |table[1..]| ensures |table[1..][i].emoji| > 0 && !IsSpace(table[1..][i].emoji[0]) {
          assert table[1..][i] == table[i + 1];
        }
      }
      EmojiForVisible(table[1..], category);
    } else if |table| == 0 {
      assert DefaultEmoji[0] == '📰';
    }
  }

  /** With the bot's table every message is the filled-in template. */
  lemma BotMessagesAreBodies(news: NewsItem, timestamp: string)
    ensures FormatMessage(news, Table, timestamp) == Body(news, EmojiFor(Table, news.category), timestamp)
  {
    assert VisibleEmojis(Table) by {
      assert Table[0].emoji[0] == '🏛' && Table[1].emoji[0] == '💰';
      assert Table[2].emoji[0] == '🌍' && Table[3].emoji[0] == '⚽';
    }
    EmojiForVisible(Table, news.category);
    RenderIsBody(news, EmojiFor(Table, news.category), timestamp);
  }

  /** A message of the bot opens with its category's emoji and the bold title,
      and closes with the tag line, which carries the category with spaces made
      underscores, and the divider. */
  lemma BotMessageShape(news: NewsItem, timestamp: string)
    ensures Headline(news, EmojiFor(Table, news.category)) <= FormatMessage(news, Table, timestamp)
    ensures EndsWith(FormatMessage(news, Table, timestamp), Footer(news.category))
  {
    BotMessagesAreBodies(news, timestamp);
    var h := Headline(news, EmojiFor(Table, news.category));
    var d := Details(news, timestamp);
    var f := Footer(news.category);
    assert (h + d + f)[..|h|] == h;
    assert (h + d + f)[|h + d + f| - |f|..] == f;
  }

  // ---------------------------------------------------------------------------
  // The send loop

  /** One externally visible step of the loop. */
  datatype Action = Send(text: string) | Pause(seconds: nat)

  /** The pause after a successful send, in seconds. */
  const PostDelay: nat := 5

  /** `send_news_to_channel(news_items)`: each item in order is formatted and
      sent; a send that returns is followed by the pause, one that raises an
      `Exception` is logged and the loop moves on. An empty list sends nothing. */
  function SendNewsToChannel(items: seq<NewsItem>, table: seq<Category>,
                             stamp: nat -> string, sent: nat -> bool): (trace: seq<Action>)
    ensures |items| == 0 ==> trace == []
    ensures Sends(trace) == Messages(items, table, stamp)
  {
    if |items| == 0 then [] else SendFrom(Messages(items, table, stamp), 0, sent)
  }

  /** The formatted message of every item; `stamp(k)` is the clock reading
      taken while formatting the k-th. */
  function Messages(items: seq<NewsItem>, table: seq<Category>, stamp: nat -> string): (ms: seq<string>)
    ensures |ms| == |items|
  {
    seq(|items|, k requires 0 <= k < |items| => FormatMessage(items[k], table, stamp(k)))
  }

  /** The loop from the k-th message on. */
  function SendFrom(messages: seq<string>, k: nat, sent: nat -> bool): (trace: seq<Action>)
    requires k <= |messages|
    ensures Sends(trace) == messages[k..]
    ensures |trace| > 0 ==> trace[0].Send?
    decreases |messages| - k
  {
    if k == |messages| then []
    else
      var rest := SendFrom(messages, k + 1, sent);
      var step := [Send(messages[k])] + (if sent(k) then [Pause(PostDelay)] else []);
      SendsAppend(step, rest);
      assert messages[k..] == [messages[k]] + messages[k + 1..];
      step + rest
  }

  /** The texts sent, in order. */
  function Sends(trace: seq<Action>): seq<string>
  {
    if |trace| == 0 then []
    else (if trace[0].Send? then [trace[0].text] else []) + Sends(trace[1..])
  }

  /** The texts whose send was followed by the pause, that is, confirmed sends. */
  function Confirmed(trace: seq<Action>): seq<string>
  {
    if |trace| == 0 then []
    else if trace[0].Send? && |trace| > 1 && trace[1].Pause? then [trace[0].text] + Confirmed(trace[1..])
    else Confirmed(trace[1..])
  }

  /** The total time paused, in seconds. */
  function PauseTime(trace: seq<Action>): nat
  {
    if |trace| == 0 then 0
    else (if trace[0].Pause? then trace[0].seconds else 0) + PauseTime(trace[1..])
  }

  /** The messages from the k-th on whose send succeeded, in order. */
  function Delivered(messages: seq<string>, sent: nat -> bool, k: nat): seq<string>
    requires k <= |messages|
    decreases |messages| - k
  {
    if k == |messages| then []
    else (if sent(k) then [messages[k]] else []) + Delivered(messages, sent, k + 1)
  }

  /** How many of the sends from the k-th of n on succeeded. */
  function Successes(n: nat, sent: nat -> bool, k: nat): nat
    requires k <= n
    decreases n - k
  {
    if k == n then 0 else (if sent(k) then 1 else 0) + Successes(n, sent, k + 1)
  }

  lemma {:induction false} SendsAppend(a: seq<Action>, b: seq<Action>)
    ensures Sends(a + b) == Sends(a) + Sends(b)
    decreases |a|
  {
    if |a| == 0 {
      assert a + b == b;
    } else {
      assert (a + b)[1..] == a[1..] + b;
      SendsAppend(a[1..], b);
    }
  }

  /** A successful send step in front of a trace that starts with a send, or is empty. */
  lemma SuccessStep(text: string, rest: seq<Action>)
    requires |rest| == 0 || rest[0].Send?
    ensures Confirmed([Send(text), Pause(PostDelay)] + rest) == [text] + Confirmed(rest)
    ensures PauseTime([Send(text), Pause(PostDelay)] + rest) == PostDelay + PauseTime(rest)
  {
    var trace := [Send(text), Pause(PostDelay)] + rest;
    assert trace[1..] == [Pause(PostDelay)] + rest;
    assert trace[1..][1..] == rest;
  }

  /** A failed send step in front of a trace that starts with a send, or is empty. */
  lemma FailureStep(text: string, rest: seq<Action>)
    requires |rest| == 0 || rest[0].Send?
    ensures Confirmed([Send(text)] + rest) == Confirmed(rest)
    ensures PauseTime([Send(text)] + rest) == PauseTime(rest)
  {
    var trace := [Send(text)] + rest;
    assert trace[1..] == rest;
  }

  /** Exactly the successful sends are followed by a pause, so the confirmed
      messages are those whose send succeeded, in order, and the loop pauses
      five seconds per success. */
  lemma {:induction false} SendLoopConfirmsSuccesses(messages: seq<string>, k: nat, sent: nat -> bool)
    requires k <= |messages|
    ensures Confirmed(SendFrom(messages, k, sent)) == Delivered(messages, sent, k)
    ensures PauseTime(SendFrom(messages, k, sent)) == PostDelay * Successes(|messages|, sent, k)
    decreases |messages| - k
  {
    if k < |messages| {
      SendLoopConfirmsSuccesses(messages, k + 1, sent);
      var rest := SendFrom(messages, k + 1, sent);
      if sent(k) {
        assert SendFrom(messages, k, sent) == [Send(messages[k]), Pause(PostDelay)] + rest;
        SuccessStep(messages[k], rest);
      } else {
        assert SendFrom(messages, k, sent) == [Send(messages[k])] + rest;
        FailureStep(messages[k], rest);
      }
    }
  }

  /** A failed send does not stop the loop: whatever the outcomes, every item
      is attempted exactly once, in order. */
  lemma EveryItemAttempted(items: seq<NewsItem>, table: seq<Category>, stamp: nat -> string,
                           sent: nat -> bool, sent': nat -> bool)
    ensures Sends(SendNewsToChannel(items, table, stamp, sent)) ==
            Sends(SendNewsToChannel(items, table, stamp, sent'))
    ensures |Sends(SendNewsToChannel(items, table, stamp, sent))| == |items|
  {
  }
}
