/**
  `categorize_news`: the ordered category table and the first-match keyword
  lookup. Lower-casing (`str.lower`) is an opaque `lower` function applied to
  the text and to every keyword.
*/
module Categorizer {
  import opened Text
  import opened Optional

  /** One row of the category table: its label, keywords and display emoji. */
  datatype Category = Category(name: string, keywords: seq<string>, emoji: string)

  /** The label returned when no keyword matches. */
  const General: string := "عمومی"

  /** The bot's category table, in the dictionary's insertion order. */
  const Table: seq<Category> := [
    Category("سیاسی", ["سیاست", "انتخابات", "دولت", "پارلمان", "رئیس‌جمهور"], "🏛️"),
    Category("اقتصادی", ["اقتصاد", "بورس", "ارز", "تورم", "تجارت", "بانک"], "💰"),
    Category("بین‌المللی", ["آمریکا", "اروپا", "جهان", "بین‌المللی", "کشور"], "🌍"),
    Category("ورزشی", ["فوتبال", "ورزش", "تیم", "بازیکن", "مسابقه"], "⚽")
  ]

  /** Some keyword of `c`, lower-cased, occurs in the lower-cased `text`. */
  ghost predicate Mentions(c: Category, lower: string -> string, text: string) {
    exists j :: 0 <= j < |c.keywords| && Contains(lower(text), lower(c.keywords[j]))
  }

  /** The labels of a table, in order. */
  function Labels(table: seq<Category>): (ls: seq<string>)
    ensures |ls| == |table|
    ensures forall i :: 0 <= i < |table| ==> ls[i] == table[i].name
  {
    if |table| == 0 then [] else [table[0].name] + Labels(table[1..])
  }

  /** The inner loop: does any keyword, lower-cased, occur in `lowered`? */
  function AnyKeyword(keywords: seq<string>, lower: string -> string, lowered: string): (b: bool)
    ensures b <==> exists j :: 0 <= j < |keywords| && Contains(lowered, lower(keywords[j]))
  {
    if |keywords| == 0 then false
    else if Contains(lowered, lower(keywords[0])) then true
    else
      var b := AnyKeyword(keywords[1..], lower, lowered);
      assert forall j :: 1 <= j < |keywords| ==> keywords[j] == keywords[1..][j - 1];
      b
  }

  /** The outer loop: the index of the first category, in table order, with a
      keyword in `lowered`, or None. */
  function FirstMatch(table: seq<Category>, lower: string -> string, lowered: string): (r: Option<nat>)
    ensures r.Some? ==> r.value < |table|
                        && AnyKeyword(table[r.value].keywords, lower, lowered)
                        && forall j :: 0 <= j < r.value ==> !AnyKeyword(table[j].keywords, lower, lowered)
    ensures r.None? ==> forall j :: 0 <= j < |table| ==> !AnyKeyword(table[j].keywords, lower, lowered)
  {
    if |table| == 0 then None
    else if AnyKeyword(table[0].keywords, lower, lowered) then Some(0)
    else
      match FirstMatch(table[1..], lower, lowered)
      case None => None
      case Some(i) => Some(i + 1)
  }

  /** `categorize_news(text)`: the label of the first category in table order
      that mentions the text, or the general label when none does. */
  function Categorize(table: seq<Category>, lower: string -> string, text: string): (r: string)
    ensures r == General || r in Labels(table)
  {
    match FirstMatch(table, lower, lower(text))
    case Some(i) => table[i].name
    case None => General
  }

  /** `table[i]` is the first category that mentions the text. */
  ghost predicate FirstMention(table: seq<Category>, lower: string -> string, text: string, i: int) {
    && 0 <= i < |table|
    && Mentions(table[i], lower, text)
    && forall j :: 0 <= j < i ==> !Mentions(table[j], lower, text)
  }

  /** The label is that of the first category, in table order, that mentions
      the text, and the general label when no category does. */
  lemma CategorizeIsFirstMatch(table: seq<Category>, lower: string -> string, text: string)
    ensures (exists i :: 0 <= i < |table| && Mentions(table[i], lower, text)) ==>
              exists i :: FirstMention(table, lower, text, i) && Categorize(table, lower, text) == table[i].name
    ensures (forall i :: 0 <= i < |table| ==> !Mentions(table[i], lower, text)) ==>
              Categorize(table, lower, text) == General
  {
    match FirstMatch(table, lower, lower(text))
    case Some(i) =>
      assert FirstMention(table, lower, text, i);
    case None =>
  }

  /** When no category is named like the general label, the general label
      is returned exactly when no category mentions the text. */
  lemma GeneralIffNoMatch(table: seq<Category>, lower: string -> string, text: string)
    requires forall i :: 0 <= i < |table| ==> table[i].name != General
    ensures Categorize(table, lower, text) == General <==>
            forall i :: 0 <= i < |table| ==> !Mentions(table[i], lower, text)
  {
    CategorizeIsFirstMatch(table, lower, text);
    assert General !in Labels(table);
  }

  /** On the bot's table the general label means that no category matched. */
  lemma GeneralMeansNoMatch(lower: string -> string, text: string)
    ensures Categorize(Table, lower, text) == General <==>
            forall i :: 0 <= i < |Table| ==> !Mentions(Table[i], lower, text)
  {
    assert forall i :: 0 <= i < |Table| ==> Table[i].name[0] != General[0];
    GeneralIffNoMatch(Table, lower, text);
  }

  /** Earlier categories win ties: a text that mentions a political keyword is
      political whatever else it mentions. */
  lemma PoliticsWinsTies(lower: string -> string, text: string, k: nat)
    requires k < |Table[0].keywords| && Contains(lower(text), lower(Table[0].keywords[k]))
    ensures Categorize(Table, lower, text) == "سیاسی"
  {
    assert Mentions(Table[0], lower, text);
    CategorizeIsFirstMatch(Table, lower, text);
  }

  /** A text that mentions a sports keyword and nothing of the three earlier
      categories is filed under sports. */
  lemma SportsWhenNothingEarlier(lower: string -> string, text: string, k: nat)
    requires k < |Table[3].keywords| && Contains(lower(text), lower(Table[3].keywords[k]))
    requires forall i :: 0 <= i < 3 ==> !Mentions(Table[i], lower, text)
    ensures Categorize(Table, lower, text) == "ورزشی"
  {
    assert Mentions(Table[3], lower, text);
    CategorizeIsFirstMatch(Table, lower, text);
  }
}
