# SimpleNewsBot news pipeline, in Dafny

This project models the pure news-item pipeline of `SimpleNewsBot` (`main.py`),
a bot that reads three Persian-language RSS feeds and posts the news to a
Telegram channel. It covers these stages:

- **`clean_html`**: after markup removal, runs of whitespace collapse to one space and both ends are stripped.
- **`categorize_news`**: the first category in table order with a keyword in the lower-cased text wins; otherwise the label is "عمومی".
- **The entry loop of `fetch_news_from_source`**: keep the first five entries, clean them, drop short titles, truncate, categorise.
- **`collect_all_news`**: concatenate the per-source lists in source order, skip failed tasks, cut to `max_news`.
- **`format_message`**: the emoji lookup with its 📰 default, the hashtag, and the stripped template.
- **The loop of `send_news_to_channel`**: every item is attempted in order, a send that raises an `Exception` is isolated, and each success is followed by a five-second pause.

The Python behaviour is modelled as written:

- `\s` and `str.strip()` use the same set of whitespace code points (`Text.IsSpace`).
- `s[:n]` allows a negative `n` (`Text.Take`).
- `needle in hay` is a substring test (`Text.Contains`).
- The category dictionary and the source dictionary keep insertion order, so both are ordered sequences (`Categorizer.Table`, `Aggregator.Sources`).

The functions the model cannot see arrive as parameters:

| parameter | what it stands for |
|---|---|
| `lower` | `str.lower` |
| `getText` | BeautifulSoup's `get_text` |
| `net` | one `Reply` per source: an HTTP status with the parsed entries, a caught exception, or an uncaught one |
| `stamp` | the timestamp read while formatting the k-th message |
| `sent` | whether the k-th `send_message` returned, as opposed to raising an `Exception` |

The send loop's effect is its trace of sends and pauses.

Modules follow the program:

| module | file | contents |
|---|---|---|
| `Text` | text.dfy | string primitives |
| `Cleaner` | cleaner.dfy | `clean_html`, plus an independent split/join reference |
| `Categorizer` | categorizer.dfy | the category table and `categorize_news` |
| `Fetcher` | fetcher.dfy | `NewsItem`, the raw entry, the reply and `fetch_news_from_source` |
| `Aggregator` | aggregator.dfy | the source table and `collect_all_news` |
| `Publisher` | publisher.dfy | `format_message` and the send loop |
| `Seqs` | seqs.dfy | the generic filter-and-map shape of the entry loop |
| `Optional` | optional.dfy | `dict.get` with a default |

`main.py` has no deduplication, fingerprints, recency sort or blocklist, and neither has the model.

## Model

| member | source | states |
|---|---|---|
| Text.Contains | main.py:87 | `keyword in text` holds exactly when the keyword occurs at some index of the text |
| Text.Take | main.py:114-115 | `s[:n]` is a prefix of `s` of length min(n, len) for n >= 0, and drops -n elements from the end for negative n |
| Text.Strip | main.py:79 | the result of `strip()` has no whitespace at either end |
| Text.StripIsSlice | main.py:79 | `strip()` returns a slice of its input with only whitespace before and after it |
| Text.Collapse | main.py:78 | `re.sub(r'\s+', ' ', s)` is empty exactly when `s` is, and starts with whitespace exactly when `s` does |
| Text.CollapseShape | main.py:78 | after the substitution no two whitespace characters are adjacent, every whitespace character is a plain space, and the non-whitespace characters are those of the input, in order |
| Text.StripKeepsShape | main.py:79 | stripping keeps the non-whitespace characters and keeps the single-plain-space form |
| Text.StripTrimmed | main.py:107-108 | text with no whitespace at either end is unchanged by `strip()` |
| Text.CollapseSingleSpaced | main.py:78 | text already in single-plain-space form is unchanged by the substitution |
| Cleaner.Normalize | main.py:78-79 | collapse-then-strip yields text with no outer whitespace, no double whitespace, only plain spaces, and the input's non-whitespace characters |
| Cleaner.CleanHtml | main.py:71-79 | empty input gives ""; every result has no outer whitespace, no double whitespace and only plain spaces |
| Cleaner.CleanHtmlIsSplitJoin | main.py:76-79 | for non-empty input the result equals `' '.join(get_text(text).split())` and keeps the extracted text's non-whitespace characters |
| Cleaner.NormalizeIsSplitJoin | main.py:78-79 | collapse-then-strip equals Python's `' '.join(s.split())` for every string |
| Cleaner.NormalizeFixesNormalized | main.py:78-79 | text is unchanged by the normalisation if and only if it is already normalised |
| Cleaner.NormalizeIdempotent | main.py:78-79 | normalising twice gives the same as normalising once |
| Cleaner.CleanHtmlIsStripped | main.py:107-108 | the extra `.strip()` the entry loop applies after `clean_html` changes nothing |
| Categorizer.AnyKeyword | main.py:86-88 | the keyword loop succeeds exactly when some lower-cased keyword occurs in the lower-cased text |
| Categorizer.FirstMatch | main.py:85-88 | the category loop stops at the first category, in table order, with a matching keyword, and finds none only when no category matches |
| Categorizer.Categorize | main.py:81-90 | the label is always a table label or "عمومی" |
| Categorizer.CategorizeIsFirstMatch | main.py:83-90 | the label is that of the first category mentioning the text, earlier categories winning ties, and "عمومی" when none does |
| Categorizer.GeneralIffNoMatch | main.py:85-90 | when no category is named "عمومی", that label comes back if and only if no category matches |
| Categorizer.GeneralMeansNoMatch | main.py:52-69 | with the bot's table, "عمومی" comes back if and only if no keyword of any category matches |
| Categorizer.PoliticsWinsTies | main.py:52-56 | a text with a political keyword is political whatever else it mentions |
| Categorizer.SportsWhenNothingEarlier | main.py:65-68 | a text with a sports keyword and none of the three earlier categories is filed under sports |
| Fetcher.CleanField | main.py:107-108 | a cleaned field is `clean_html` of the field (or of "" when it is missing), the trailing `.strip()` changing nothing; it is normalised, and a missing field cleans to "" |
| Fetcher.Accepted | main.py:110-111 | the length filter: an entry is kept when its cleaned title has at least 10 characters; its consequence for items is stated by MakeItem and FetchSelectsLeadingEntries |
| Fetcher.MakeItem | main.py:110-125 | the title and summary are the prefixes of length min(len, 100) and min(len, 200) of the cleaned texts; an accepted title is 10..100 long; the url is the link or ""; the source is the source name; the category is that of the truncated title + " " + summary |
| Fetcher.ProcessEntries | main.py:105-127 | the loop returns at most one item per entry, all well formed |
| Fetcher.FetchNewsFromSource | main.py:92-134 | a non-200 status or a caught exception gives []; only an uncaught exception raises; a source yields at most 5 well-formed items |
| Fetcher.FetchSelectsLeadingEntries | main.py:106-127 | for status 200 the items are exactly the accepted entries among the first five, in feed order, each made into its item |
| Seqs.FilterMapSelects | main.py:106-127 | the filter loop keeps every kept element, drops every other, and never reorders |
| Seqs.FilterMap | main.py:105-127 | the filter-and-append loop, returning at most one element per input; its meaning is stated by FilterMapSelects |
| Seqs.FilterMapFrom | main.py:127 | every element the loop appends comes from a kept entry |
| Aggregator.CollectAllNews | main.py:136-155 | the result is a prefix of the source-ordered concatenation of the returned lists, of length min(max_news, total) for max_news >= 0 and max(0, total + max_news) otherwise |
| Aggregator.Outcomes | main.py:141-146 | one task result per configured source, in source order, each the outcome of `fetch_news_from_source` on that source's reply |
| Aggregator.Contribution | main.py:149-150 | what one task adds: its list, or nothing when it raised; stated by FailingSourceIsIsolated |
| Aggregator.Gathered | main.py:148-150 | the returned lists concatenated in task order; stated by GatheredAround, GatheredBound and CollectedItemsComeFromSources |
| Aggregator.DefaultCollectsAtMostThree | main.py:153 | with `MAX_NEWS_PER_POST` at its default of 3 (main.py:40), the result has min(3, total) items |
| Aggregator.GatheredAround | main.py:148-150 | the gathered list is the lists before task i, task i's list, and the lists after, in order |
| Aggregator.FailingSourceIsIsolated | main.py:146-150 | a source that fails in any way adds nothing, and the others' items stay in source order |
| Aggregator.GatheredBound | main.py:142-150 | the gathered list has at most five items per source |
| Aggregator.BotGathersAtMostFifteen | main.py:46-50 | with the three sources of `news_sources` (`Aggregator.Sources`), one round of `collect_all_news` gathers at most fifteen items before the cut to `max_news` |
| Aggregator.CollectedItemsComeFromSources | main.py:142-153 | every collected item is well formed for some configured source |
| Publisher.EmojiForIsLookup | main.py:159-160 | the emoji is that of the first table row with the category's name, or 📰 when no row has it |
| Publisher.EmojiFor | main.py:159-160 | the emoji lookup with the 📰 default; stated by EmojiForIsLookup |
| Publisher.Hashtag | main.py:173 | the hashtag has the category's length, with every space replaced by `_` and every other character kept |
| Publisher.FormatMessage | main.py:157-178 | the message has no whitespace at either end and ends with the divider line |
| Publisher.RenderIsBody | main.py:164-176 | when the emoji starts with a visible character, `.strip()` removes exactly the template's opening line break and closing indentation |
| Publisher.Render | main.py:164-176 | the stripped template for a given emoji is trimmed and ends with the divider line |
| Publisher.BotMessagesAreBodies | main.py:157-178 | with the bot's table, every message is the filled-in template |
| Publisher.BotMessageShape | main.py:159-176 | every message opens with the category's emoji and the bold title, and ends with the tag line and the divider |
| Publisher.SendNewsToChannel | main.py:180-201 | an empty list sends nothing; otherwise the texts sent are the formatted items, in order |
| Publisher.SendFrom | main.py:186-201 | from item k on, the loop sends each remaining message once, in order, starting with a send |
| Publisher.Messages | main.py:186-188 | one formatted message per item, in item order |
| Publisher.SendLoopConfirmsSuccesses | main.py:186-201 | exactly the successful sends are followed by a pause, and the loop pauses 5 seconds per success |
| Publisher.EveryItemAttempted | main.py:186-201 | which sends raise an `Exception` changes nothing about what is sent: every item is attempted exactly once, in order |

## Left out

- Environment and credential loading and the constructor's `ValueError` (main.py:38-45) are configuration plumbing. `max_news` is a parameter; its default of 3 is `Aggregator.DefaultMaxNews`.
- The aiohttp request and its timeout (main.py:97, 140), and `feedparser.parse` (main.py:103), are network I/O and a foreign library. Each source's outcome arrives as a `Reply`.
- BeautifulSoup's `get_text` (main.py:76-77) and `str.lower` (main.py:83, 87) are foreign code. They are the opaque parameters `getText` and `lower`.
- The concurrency of `asyncio.gather` (main.py:146) is not modelled. The results are consumed in task order, so they are a sequence indexed by source.
- An exception the handler's `except Exception` does not catch (`asyncio.CancelledError`, or another `BaseException` that `gather(..., return_exceptions=True)` returns as the task's result) is modelled only for a whole task: `Cancelled`, which becomes `Raised`. `KeyboardInterrupt` and `SystemExit`, which leave the event loop instead, are not modelled.
- Fetcher.FetchNewsFromSource: an exception raised partway through the entry loop is folded into `Failed`, with the same `[]` result that Python's handler returns, rather than modelled entry by entry.
- The Telegram `send_message` call (main.py:190-195) and `asyncio.sleep(5)` (main.py:198) are external I/O. They become the `sent` oracle and the `Send`/`Pause` trace.
- All `logger` calls and the logging setup (main.py:22-26, 95, 99, 129, 133, 183, 197, 201, and those in `run_once` and `main`) are logging only; they change no result and are dropped.
- Publisher.SendNewsToChannel: a `BaseException` that is not an `Exception` (`asyncio.CancelledError`, `KeyboardInterrupt`) raised by `send_message` or `asyncio.sleep` escapes the loop's `except Exception` and ends it, so later items are never attempted. This is not modelled: `sent(k)` only distinguishes returning from raising an `Exception`, and the trace always covers every item.
- Publisher.SendNewsToChannel: Python formats each message inside the loop's `try`. The model formats them all before the loop, reading `stamp(k)` for the k-th, which yields the same sends. A failure inside `format_message` is not modelled, since it has no failing path on strings.
- `datetime.now().strftime(...)` (main.py:162) reads the wall clock. The formatted timestamp is the parameter `stamp`.
- `run_once`, `main` and `exit` (main.py:203-233) are entry-point plumbing.
- Publisher.EmojiForIsLookup: a dictionary has unique keys. With a table that repeats a name, the first row stands for the dictionary entry.
