/**
 * The search page (src/pages/Search.tsx): the debounced query, when a search runs,
 * clearing, the trending chips and genre tags that fill the query, and the chip label.
 * The 500 ms debounce delay becomes a pending timer that fires as an event.
 */
module Search {
  import opened Wrappers
  import opened JsBuiltins
  import opened Api

  /** `debouncedQuery.length >= 2`: both the query's `enabled` flag and `showResults`. */
  predicate SearchEnabled(debouncedQuery: string) {
    |debouncedQuery| >= 2
  }

  /** `{query && <button …>}`: the clear button is shown for a non-empty query. */
  predicate ShowsClearButton(query: string) {
    query != ""
  }

  /** The most trending chips shown. */
  const MaxTrendingChips: nat := 8

  /** `trendingData?.slice(0, 8)`: the first eight trending titles, none before the data arrives. */
  function TrendingChips(trending: Option<seq<Drama>>): (chips: seq<Drama>)
    ensures |chips| <= MaxTrendingChips
    ensures trending.None? ==> chips == []
    ensures trending.Some? ==> chips <= trending.value
    ensures trending.Some? ==> |chips| == if |trending.value| < MaxTrendingChips then |trending.value| else MaxTrendingChips
  {
    match trending
    case None => []
    case Some(list) => if |list| <= MaxTrendingChips then list else list[..MaxTrendingChips]
  }

  /** The "Genre Populer" tags, in the order shown. */
  const GenreTags: seq<string> :=
    ["Romantis", "CEO", "Perselingkuhan", "Balas Dendam", "Hidden Identity", "Amnesia", "Second Chance", "Penyesalan"]

  /** `slice(0, 3)` on a piece list. */
  function FirstThree(parts: seq<string>): (r: seq<string>)
    ensures r == parts[..if |parts| < 3 then |parts| else 3]
  {
    if |parts| <= 3 then parts else parts[..3]
  }

  /** `bookName.split(" ").slice(0, 3).join(" ")`: the chip's label. */
  function ChipLabel(bookName: string): string
  {
    Join(FirstThree(Split(bookName, ' ')), ' ')
  }

  /**
   * The label is a prefix of the name with at most two spaces; it is the whole name exactly
   * when the name has at most two spaces, and otherwise it has exactly two (three words).
   */
  lemma {:induction false} ChipLabelProperties(bookName: string)
    ensures ChipLabel(bookName) <= bookName
    ensures Occurrences(ChipLabel(bookName), ' ') <= 2
    ensures ChipLabel(bookName) == bookName <==> Occurrences(bookName, ' ') <= 2
    ensures Occurrences(bookName, ' ') >= 2 ==> Occurrences(ChipLabel(bookName), ' ') == 2
    ensures Occurrences(bookName, ' ') > 2 ==>
              |ChipLabel(bookName)| < |bookName| && bookName[|ChipLabel(bookName)|] == ' '
  {
    var parts := Split(bookName, ' ');
    var k := if |parts| < 3 then |parts| else 3;
    var taken := parts[..k];
    JoinSplit(bookName, ' ');
    SplitLength(bookName, ' ');
    JoinTakePrefix(parts, k, ' ');
    JoinCount(taken, ' ');
    if k == |parts| {
      assert taken == parts;
    } else {
      JoinAt(parts, 3, ' ');
    }
  }

  /** A four-word name loses its fourth word. */
  lemma ChipLabelExample()
    ensures ChipLabel("a b c d") == "a b c"
  {
    assert "a b c d"[1..] == " b c d";
    assert " b c d"[1..] == "b c d";
    assert "b c d"[1..] == " c d";
    assert " c d"[1..] == "c d";
    assert "c d"[1..] == " d";
    assert " d"[1..] == "d";
    assert "d"[1..] == "";
    assert ['d'] + "" == "d";
    assert Split("d", ' ') == ["d"];
    assert Split(" d", ' ') == ["", "d"];
    assert ["", "d"][1..] == ["d"];
    assert ['c'] + "" == "c";
    assert Split("c d", ' ') == [['c'] + ""] + ["d"] == ["c", "d"];
    assert Split(" c d", ' ') == ["", "c", "d"];
    assert ["", "c", "d"][1..] == ["c", "d"];
    assert ['b'] + "" == "b";
    assert Split("b c d", ' ') == [['b'] + ""] + ["c", "d"] == ["b", "c", "d"];
    assert Split(" b c d", ' ') == ["", "b", "c", "d"];
    assert ["", "b", "c", "d"][1..] == ["b", "c", "d"];
    assert ['a'] + "" == "a";
    assert Split("a b c d", ' ') == [['a'] + ""] + ["b", "c", "d"] == ["a", "b", "c", "d"];
    assert FirstThree(["a", "b", "c", "d"]) == ["a", "b", "c"];
    assert Join(["c"], ' ') == "c";
    assert Join(["b", "c"], ' ') == "b c";
  }

  class SearchPage {
    var query: string
    var debouncedQuery: string
    /** The debounce timer still pending, with the query it will commit when it fires. */
    var pending: Option<string>

    /** A pending timer always carries the latest query: each change of `query` replaced it. */
    ghost predicate Valid()
      reads this
    {
      pending.Some? ==> pending.value == query
    }

    /** Mounting: both queries empty, and the debounce effect's first run arms a timer. */
    constructor ()
      ensures Valid()
      ensures query == "" && debouncedQuery == "" && pending == Some("")
    {
      query, debouncedQuery := "", "";
      pending := Some("");
    }

    /**
     * `setQuery(q)` from typing, a trending chip or a genre tag. React skips the update for an
     * unchanged value; otherwise the debounce effect cancels the pending timer and arms a new one.
     */
    method SetQuery(q: string)
      requires Valid()
      modifies this`query, this`pending
      ensures Valid()
      ensures query == q
      ensures q != old(query) ==> pending == Some(q)
      ensures q == old(query) ==> pending == old(pending)
    {
      if q != query {
        query := q;
        pending := Some(q);
      }
    }

    /** The debounce timer fires: the debounced query becomes the latest query. */
    method FireDebounce()
      requires Valid()
      modifies this`debouncedQuery, this`pending
      ensures Valid()
      ensures pending == None
      ensures old(pending).Some? ==> debouncedQuery == query
      ensures old(pending).None? ==> debouncedQuery == old(debouncedQuery)
    {
      if pending.Some? {
        debouncedQuery := pending.value;
        pending := None;
      }
    }

    /** `clearSearch`: both queries become empty, so neither results nor the clear button show. */
    method ClearSearch()
      requires Valid()
      modifies this`query, this`debouncedQuery, this`pending
      ensures Valid()
      ensures query == "" && debouncedQuery == ""
      ensures !SearchEnabled(debouncedQuery) && !ShowsClearButton(query)
      ensures pending == if old(query) != "" then Some("") else old(pending)
    {
      SetQuery("");
      debouncedQuery := "";
    }

    /** A tap on trending chip `i`: the query becomes the title's full name, not its label. */
    method ClickTrendingChip(trending: Option<seq<Drama>>, i: nat)
      requires Valid() && i < |TrendingChips(trending)|
      modifies this`query, this`pending
      ensures Valid()
      ensures trending.Some? && i < |trending.value|
      ensures query == trending.value[i].bookName
      ensures query != old(query) ==> pending == Some(query)
      ensures query == old(query) ==> pending == old(pending)
    {
      SetQuery(TrendingChips(trending)[i].bookName);
    }

    /** A tap on genre tag `i`: the query becomes the tag. */
    method ClickGenreTag(i: nat)
      requires Valid() && i < |GenreTags|
      modifies this`query, this`pending
      ensures Valid()
      ensures query == GenreTags[i]
      ensures query != old(query) ==> pending == Some(query)
      ensures query == old(query) ==> pending == old(pending)
    {
      SetQuery(GenreTags[i]);
    }
  }

  /** Typing two different values and then letting the timer fire commits only the last one. */
  method TypeThenSettle(page: SearchPage, first: string, second: string)
    requires page.Valid() && first != second
    modifies page
    ensures page.Valid()
    ensures page.debouncedQuery == second == page.query
    ensures SearchEnabled(page.debouncedQuery) <==> |second| >= 2
  {
    page.SetQuery(first);
    page.SetQuery(second);
    page.FireDebounce();
  }
}
