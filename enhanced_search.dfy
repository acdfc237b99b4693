/** The listing search pipeline of `useEnhancedSearch`: an optional fuzzy
    search, the price / category / date filters, the sort selected by
    `sortBy`, the result statistics and the word suggestions.

    The fuzzy index is not modelled: its answer for the current query is a
    parameter `hits`, of which the model assumes only what the index
    guarantees (every hit names a distinct record of the data). Date
    parsing is a parameter `parseDate` as well. */
module EnhancedSearch {
  import opened Common
  import opened Text
  import opened Numbers
  import opened Seqs
  import opened Records

  /** One result of the fuzzy index: the position of the matched record in
      the data, its score (lower is a better match) and the text of each
      matched field. */
  datatype Hit = Hit(index: nat, score: real, matchValues: seq<string>)

  /** What the fuzzy index guarantees about its results. */
  predicate ValidHits(data: seq<Listing>, hits: seq<Hit>) {
    && (forall i :: 0 <= i < |hits| ==> hits[i].index < |data|)
    && (forall i, j :: 0 <= i < j < |hits| ==> hits[i].index != hits[j].index)
  }

  /** A record as the pipeline passes it on: the listing, with the score and
      the match texts attached when it came out of the fuzzy search. */
  datatype Entry = Entry(item: Listing, searchScore: Option<real>, searchMatches: seq<string>)

  /** The `filters` state. Bounds are the raw text of the form inputs. */
  datatype Filters = Filters(
    sortBy: string,
    priceMin: string,
    priceMax: string,
    selectedCategories: seq<string>,
    dateFrom: string,
    dateTo: string)

  const InitialFilters := Filters("newest", "", "", [], "", "")

  /** A query is active when it is not blank (`searchQuery.trim()` is truthy). */
  predicate Searching(query: string) {
    Trim(query) != ""
  }

  // ----- Search stage -----

  /** The records the filters see: the fuzzy results in the index's order,
      each with its score and matches, or the whole data set when no query
      is active. */
  function SearchStage(data: seq<Listing>, hits: seq<Hit>, query: string): seq<Entry>
    requires ValidHits(data, hits)
  {
    if Searching(query) then
      seq(|hits|, i requires 0 <= i < |hits| => Entry(data[hits[i].index], Some(hits[i].score), hits[i].matchValues))
    else
      seq(|data|, i requires 0 <= i < |data| => Entry(data[i], None, []))
  }

  /** A blank query skips the fuzzy search: the filters receive every
      record of the data, in order and without a score. */
  lemma BlankQuerySkipsSearch(data: seq<Listing>, hits: seq<Hit>, query: string)
    requires ValidHits(data, hits)
    requires IsBlank(query)
    ensures |SearchStage(data, hits, query)| == |data|
    ensures forall i :: 0 <= i < |data| ==>
      SearchStage(data, hits, query)[i].item == data[i] && SearchStage(data, hits, query)[i].searchScore.None?
  {
    TrimEmptyIffBlank(query);
  }

  /** The search stage never invents records and never yields more records
      than the data holds (the fuzzy index returns each record once). */
  lemma SearchStageWithinData(data: seq<Listing>, hits: seq<Hit>, query: string)
    requires ValidHits(data, hits)
    ensures |SearchStage(data, hits, query)| <= |data|
    ensures forall e :: e in SearchStage(data, hits, query) ==> e.item in data
  {
    if Searching(query) {
      var indices := seq(|hits|, i requires 0 <= i < |hits| => hits[i].index as int);
      DistinctBelow(indices, |data|);
    }
  }

  // ----- Filter stage -----

  const DayMs := 86_400_000

  /** `toDate.setHours(23, 59, 59, 999)`: the last millisecond of the day
      that holds instant `t` (days counted from the epoch). */
  function EndOfDay(t: int): (e: int)
    ensures t <= e < t + DayMs
    ensures e % DayMs == DayMs - 1
  {
    t - t % DayMs + DayMs - 1
  }

  /** The price is below a set minimum; a bound that does not parse
      (`NaN`) excludes nothing. */
  predicate BelowMin(min: string, price: real) {
    min != "" && ParseFloat(min).Some? && price < ParseFloat(min).value
  }

  predicate AboveMax(max: string, price: real) {
    max != "" && ParseFloat(max).Some? && price > ParseFloat(max).value
  }

  predicate OutsideCategories(selected: seq<string>, category: string) {
    |selected| > 0 && category !in selected
  }

  /** Created before the `from` date; an invalid date excludes nothing. */
  predicate BeforeFrom(from: string, createdAt: int, parseDate: string -> Option<int>) {
    from != "" && parseDate(from).Some? && createdAt < parseDate(from).value
  }

  /** Created after the end of the `to` day. */
  predicate AfterTo(to: string, createdAt: int, parseDate: string -> Option<int>) {
    to != "" && parseDate(to).Some? && createdAt > EndOfDay(parseDate(to).value)
  }

  /** The filter callback: a record is dropped as soon as one test rejects it. */
  predicate Passes(f: Filters, parseDate: string -> Option<int>, item: Listing) {
    && !BelowMin(f.priceMin, item.price)
    && !AboveMax(f.priceMax, item.price)
    && !OutsideCategories(f.selectedCategories, item.category)
    && !BeforeFrom(f.dateFrom, item.createdAt, parseDate)
    && !AfterTo(f.dateTo, item.createdAt, parseDate)
  }

  function PassFilter(f: Filters, parseDate: string -> Option<int>): Entry -> bool {
    (e: Entry) => Passes(f, parseDate, e.item)
  }

  /** What the filters let through, stated positively: the inclusive price
      bounds that parse, membership in a non-empty category selection, and
      the date range from the start of `from` to the end of the `to` day. */
  predicate WithinFilters(f: Filters, parseDate: string -> Option<int>, item: Listing) {
    && (ParseFloat(f.priceMin).Some? ==> item.price >= ParseFloat(f.priceMin).value)
    && (ParseFloat(f.priceMax).Some? ==> item.price <= ParseFloat(f.priceMax).value)
    && (f.selectedCategories != [] ==> item.category in f.selectedCategories)
    && (f.dateFrom != "" && parseDate(f.dateFrom).Some? ==> item.createdAt >= parseDate(f.dateFrom).value)
    && (f.dateTo != "" && parseDate(f.dateTo).Some? ==> item.createdAt <= EndOfDay(parseDate(f.dateTo).value))
  }

  /** The filter callback accepts exactly the records within the filters; in
      particular an empty bound and an empty selection exclude nothing. */
  lemma PassesIffWithin(f: Filters, parseDate: string -> Option<int>, item: Listing)
    ensures Passes(f, parseDate, item) <==> WithinFilters(f, parseDate, item)
  {
    MinBoundIff(f.priceMin, item.price);
    MaxBoundIff(f.priceMax, item.price);
  }

  /** A minimum excludes a price exactly when it parses and exceeds it. */
  lemma MinBoundIff(min: string, price: real)
    ensures !BelowMin(min, price) <==> (ParseFloat(min).Some? ==> price >= ParseFloat(min).value)
  {
    if min == "" {
      ParseFloatEmpty();
    }
  }

  /** A maximum excludes a price exactly when it parses and is below it. */
  lemma MaxBoundIff(max: string, price: real)
    ensures !AboveMax(max, price) <==> (ParseFloat(max).Some? ==> price <= ParseFloat(max).value)
  {
    if max == "" {
      ParseFloatEmpty();
    }
  }

  /** Search, then filter: the records handed to the sort. */
  function FilterStage(data: seq<Listing>, hits: seq<Hit>, query: string, f: Filters, parseDate: string -> Option<int>): seq<Entry>
    requires ValidHits(data, hits)
  {
    Keep(SearchStage(data, hits, query), PassFilter(f, parseDate))
  }

  // ----- Sort stage -----

  /** The comparator handed to `sort`, negative when `a` goes first. */
  function Compare(sortBy: string, searching: bool, a: Entry, b: Entry): real {
    if sortBy == "newest" then (b.item.createdAt - a.item.createdAt) as real
    else if sortBy == "oldest" then (a.item.createdAt - b.item.createdAt) as real
    else if sortBy == "price-low" then a.item.price - b.item.price
    else if sortBy == "price-high" then b.item.price - a.item.price
    else if sortBy == "title" then LexCompare(a.item.title, b.item.title) as real
    else if sortBy == "location" then LexCompare(a.item.location, b.item.location) as real
    else if sortBy == "relevance" then
      if searching then a.searchScore.GetOr(0.0) - b.searchScore.GetOr(0.0)
      else (b.item.createdAt - a.item.createdAt) as real
    else 0.0
  }

  /** `a` may stay before `b`. */
  function SortLe(sortBy: string, searching: bool): (Entry, Entry) -> bool {
    (a: Entry, b: Entry) => Compare(sortBy, searching, a, b) <= 0.0
  }

  /** The order each sort key promises, written without the comparator. */
  predicate InOrder(sortBy: string, searching: bool, a: Entry, b: Entry) {
    if sortBy == "newest" then a.item.createdAt >= b.item.createdAt
    else if sortBy == "oldest" then a.item.createdAt <= b.item.createdAt
    else if sortBy == "price-low" then a.item.price <= b.item.price
    else if sortBy == "price-high" then a.item.price >= b.item.price
    else if sortBy == "title" then LexCompare(a.item.title, b.item.title) <= 0
    else if sortBy == "location" then LexCompare(a.item.location, b.item.location) <= 0
    else if sortBy == "relevance" then
      if searching then a.searchScore.GetOr(0.0) <= b.searchScore.GetOr(0.0)
      else a.item.createdAt >= b.item.createdAt
    else true
  }

  /** The text a lexical sort key compares. */
  function SortText(sortBy: string, e: Entry): string {
    if sortBy == "title" then e.item.title else e.item.location
  }

  /** Every comparator the source can select is consistent, so the sort's
      result is well defined. */
  lemma SortLeTotalPreorder(sortBy: string, searching: bool)
    ensures TotalPreorder(SortLe(sortBy, searching))
  {
    var le := SortLe(sortBy, searching);
    if sortBy == "title" || sortBy == "location" {
      forall a, b ensures le(a, b) || le(b, a) {
        LexCompareAntisymmetric(SortText(sortBy, a), SortText(sortBy, b));
      }
      forall a, b, c | le(a, b) && le(b, c) ensures le(a, c) {
        LexCompareTransitive(SortText(sortBy, a), SortText(sortBy, b), SortText(sortBy, c));
      }
    }
  }

  /** The whole `filteredData` computation. */
  function FilteredData(data: seq<Listing>, hits: seq<Hit>, query: string, f: Filters, parseDate: string -> Option<int>): seq<Entry>
    requires ValidHits(data, hits)
  {
    StableSort(FilterStage(data, hits, query, f, parseDate), SortLe(f.sortBy, Searching(query)))
  }

  /** Every record of the result comes from the data and lies within every
      filter, and the result is no longer than the data. */
  lemma FilteredDataRespectsFilters(data: seq<Listing>, hits: seq<Hit>, query: string, f: Filters, parseDate: string -> Option<int>)
    requires ValidHits(data, hits)
    ensures |FilteredData(data, hits, query, f, parseDate)| <= |data|
    ensures forall e :: e in FilteredData(data, hits, query, f, parseDate) ==>
      e.item in data && WithinFilters(f, parseDate, e.item)
  {
    var candidates := SearchStage(data, hits, query);
    var kept := FilterStage(data, hits, query, f, parseDate);
    var r := FilteredData(data, hits, query, f, parseDate);
    SearchStageWithinData(data, hits, query);
    StableSortPermutation(kept, SortLe(f.sortBy, Searching(query)));
    KeepMembers(candidates, PassFilter(f, parseDate));
    forall e | e in r ensures e.item in data && WithinFilters(f, parseDate, e.item) {
      assert e in multiset(r);
      assert e in kept;
      PassesIffWithin(f, parseDate, e.item);
    }
  }

  /** The result is a rearrangement of the records that passed the filters:
      none lost, none added, none duplicated. */
  lemma FilteredDataPermutation(data: seq<Listing>, hits: seq<Hit>, query: string, f: Filters, parseDate: string -> Option<int>)
    requires ValidHits(data, hits)
    ensures multiset(FilteredData(data, hits, query, f, parseDate)) == multiset(FilterStage(data, hits, query, f, parseDate))
  {
    StableSortPermutation(FilterStage(data, hits, query, f, parseDate), SortLe(f.sortBy, Searching(query)));
  }

  /** The result is ordered by the selected key: newest or oldest first by
      creation time, cheapest or dearest first, title or location
      lexically, relevance by ascending score while a query is active and
      newest first otherwise. */
  lemma FilteredDataSorted(data: seq<Listing>, hits: seq<Hit>, query: string, f: Filters, parseDate: string -> Option<int>)
    requires ValidHits(data, hits)
    ensures var r := FilteredData(data, hits, query, f, parseDate);
      forall i, j :: 0 <= i < j < |r| ==> InOrder(f.sortBy, Searching(query), r[i], r[j])
  {
    var searching := Searching(query);
    var le := SortLe(f.sortBy, searching);
    var r := StableSort(FilterStage(data, hits, query, f, parseDate), le);
    SortLeTotalPreorder(f.sortBy, searching);
    StableSortSorted(FilterStage(data, hits, query, f, parseDate), le);
    forall i, j | 0 <= i < j < |r| ensures InOrder(f.sortBy, searching, r[i], r[j]) {
      assert le(r[i], r[j]);
      CompareInOrder(f.sortBy, searching, r[i], r[j]);
    }
  }

  /** A comparator result of at most 0 means the pair is in the key's order. */
  lemma CompareInOrder(sortBy: string, searching: bool, a: Entry, b: Entry)
    requires Compare(sortBy, searching, a, b) <= 0.0
    ensures InOrder(sortBy, searching, a, b)
  {
  }

  /** The sort is stable: records the comparator ties with any given one
      keep the order the filter stage gave them. */
  lemma FilteredDataStable(data: seq<Listing>, hits: seq<Hit>, query: string, f: Filters, parseDate: string -> Option<int>, c: Entry)
    requires ValidHits(data, hits)
    ensures var le := SortLe(f.sortBy, Searching(query));
      Keep(FilteredData(data, hits, query, f, parseDate), y => Tied(le, y, c))
      == Keep(FilterStage(data, hits, query, f, parseDate), y => Tied(le, y, c))
  {
    var le := SortLe(f.sortBy, Searching(query));
    SortLeTotalPreorder(f.sortBy, Searching(query));
    StableSortStable(FilterStage(data, hits, query, f, parseDate), le, c);
  }

  predicate KnownSortKey(sortBy: string) {
    sortBy in ["newest", "oldest", "price-low", "price-high", "title", "location", "relevance"]
  }

  /** An unknown sort key compares every pair as equal, so the filtered
      records come out in the order they went in. */
  lemma UnknownSortKeepsOrder(data: seq<Listing>, hits: seq<Hit>, query: string, f: Filters, parseDate: string -> Option<int>)
    requires ValidHits(data, hits)
    requires !KnownSortKey(f.sortBy)
    ensures FilteredData(data, hits, query, f, parseDate) == FilterStage(data, hits, query, f, parseDate)
  {
    var le := SortLe(f.sortBy, Searching(query));
    forall a, b ensures le(a, b) {
      UnknownKeyTies(f.sortBy, Searching(query), a, b);
    }
    StableSortAllTied(FilterStage(data, hits, query, f, parseDate), le);
  }

  lemma UnknownKeyTies(sortBy: string, searching: bool, a: Entry, b: Entry)
    requires !KnownSortKey(sortBy)
    ensures Compare(sortBy, searching, a, b) == 0.0
  {
    assert sortBy != "newest" && sortBy != "oldest" && sortBy != "price-low" && sortBy != "price-high";
    assert sortBy != "title" && sortBy != "location" && sortBy != "relevance";
  }

  // ----- Statistics -----

  datatype Stats = Stats(total: nat, filtered: nat, hasActiveFilters: bool, filterPercentage: int)

  /** `Math.round(part / whole * 100)`, halves rounded up, and 0 for an
      empty whole: the integer nearest to `100 * part / whole`. */
  function RoundedPercentage(part: nat, whole: nat): (p: int)
    ensures whole == 0 ==> p == 0
    ensures whole > 0 ==> (2 * p - 1) * whole <= 200 * part < (2 * p + 1) * whole
  {
    if whole > 0 then
      var p := (200 * part + whole) / (2 * whole);
      assert p * (2 * whole) <= 200 * part + whole < p * (2 * whole) + 2 * whole;
      p
    else 0
  }

  /** A part of a whole rounds to a percentage between 0 and 100, and the
      whole to exactly 100. */
  lemma PercentageBounds(part: nat, whole: nat)
    requires part <= whole
    ensures 0 <= RoundedPercentage(part, whole) <= 100
    ensures whole > 0 && part == whole ==> RoundedPercentage(part, whole) == 100
  {
    var p := RoundedPercentage(part, whole);
    if whole > 0 {
      if p > 100 {
        MulMonotonic(201, 2 * p - 1, whole);
      }
      if p < 0 {
        MulMonotonic(2 * p + 1, -1, whole);
      }
      if part == whole && p < 100 {
        MulMonotonic(2 * p + 1, 199, whole);
      }
    }
  }

  /** Any filter or query in effect. */
  predicate HasActiveFilters(f: Filters, query: string) {
    || f.selectedCategories != [] || f.priceMin != "" || f.priceMax != ""
    || f.dateFrom != "" || f.dateTo != "" || Searching(query)
  }

  function ComputeStats(data: seq<Listing>, filtered: seq<Entry>, f: Filters, query: string): Stats {
    Stats(|data|, |filtered|, HasActiveFilters(f, query), RoundedPercentage(|filtered|, |data|))
  }

  /** The statistics of the pipeline's own result: never more results than
      records, a percentage between 0 and 100, and with no filter and no
      query in effect every record is a result (100%, or 0 for no data). */
  lemma PipelineStats(data: seq<Listing>, hits: seq<Hit>, query: string, f: Filters, parseDate: string -> Option<int>)
    requires ValidHits(data, hits)
    ensures var s := ComputeStats(data, FilteredData(data, hits, query, f, parseDate), f, query);
      && s.total == |data|
      && s.filtered <= s.total
      && 0 <= s.filterPercentage <= 100
      && (!s.hasActiveFilters ==> s.filtered == s.total && s.filterPercentage == (if s.total > 0 then 100 else 0))
  {
    var r := FilteredData(data, hits, query, f, parseDate);
    FilteredDataRespectsFilters(data, hits, query, f, parseDate);
    PercentageBounds(|r|, |data|);
    if !HasActiveFilters(f, query) {
      NoFiltersKeepsAll(data, hits, query, f, parseDate);
      PercentageBounds(|data|, |data|);
    }
  }

  /** With no filter and no query in effect, every record of the data
      reaches the result. */
  lemma NoFiltersKeepsAll(data: seq<Listing>, hits: seq<Hit>, query: string, f: Filters, parseDate: string -> Option<int>)
    requires ValidHits(data, hits)
    requires !HasActiveFilters(f, query)
    ensures multiset(FilteredData(data, hits, query, f, parseDate)) == multiset(SearchStage(data, hits, query))
    ensures |FilteredData(data, hits, query, f, parseDate)| == |data|
  {
    var candidates := SearchStage(data, hits, query);
    var pass := PassFilter(f, parseDate);
    forall i | 0 <= i < |candidates| ensures pass(candidates[i]) {
      UnsetFiltersPass(f, parseDate, candidates[i].item);
    }
    KeepAll(candidates, pass);
    assert FilterStage(data, hits, query, f, parseDate) == candidates;
    FilteredDataPermutation(data, hits, query, f, parseDate);
    var r := FilteredData(data, hits, query, f, parseDate);
    assert |r| == |multiset(r)| == |multiset(candidates)| == |candidates|;
  }

  lemma UnsetFiltersPass(f: Filters, parseDate: string -> Option<int>, item: Listing)
    requires f.selectedCategories == [] && f.priceMin == "" && f.priceMax == "" && f.dateFrom == "" && f.dateTo == ""
    ensures Passes(f, parseDate, item)
  {
  }

  // ----- Suggestions -----

  const SuggestionHitLimit := 20

  /** The words of one match text, split on white space, when the text is
      longer than two characters. */
  function ValueWords(v: string): seq<string> {
    if Utf16Length(v) > 2 then Split(v, IsWhitespace) else []
  }

  function MatchWords(values: seq<string>): seq<string>
    decreases |values|
  {
    if values == [] then []
    else MatchWords(values[..|values| - 1]) + ValueWords(values[|values| - 1])
  }

  /** Every candidate word of the hits, in the order the loops visit them. */
  function HitWords(hits: seq<Hit>): seq<string>
    decreases |hits|
  {
    if hits == [] then []
    else HitWords(hits[..|hits| - 1]) + MatchWords(hits[|hits| - 1].matchValues)
  }

  /** A word is suggested when it contains the query ignoring case, is
      longer than two characters and is not the query itself. */
  predicate IsSuggestion(word: string, query: string) {
    Contains(ToLower(word), ToLower(query)) && Utf16Length(word) > 2 && ToLower(word) != ToLower(query)
  }

  function SuggestionFilter(query: string): string -> bool {
    (w: string) => IsSuggestion(w, query)
  }

  function FirstHits(hits: seq<Hit>): seq<Hit> {
    if |hits| <= SuggestionHitLimit then hits else hits[..SuggestionHitLimit]
  }

  /** `suggestions`: the first six distinct suggested words of the first
      twenty hits, none when the query is blank or shorter than 2. */
  function SuggestionList(hits: seq<Hit>, query: string): seq<string> {
    if !Searching(query) || Utf16Length(query) < 2 then []
    else FirstDistinct(HitWords(FirstHits(hits)), SuggestionFilter(query), MaxSuggestions)
  }

  /** The loops that fill the suggestion set, one hit at a time. */
  method Suggestions(hits: seq<Hit>, query: string) returns (r: seq<string>)
    ensures r == SuggestionList(hits, query)
  {
    if !Searching(query) || Utf16Length(query) < 2 {
      return [];
    }
    var limited := FirstHits(hits);
    var unique: seq<string> := [];
    var i := 0;
    while i < |limited|
      invariant 0 <= i <= |limited|
      invariant unique == AddAll([], HitWords(limited[..i]), SuggestionFilter(query))
    {
      var values := limited[i].matchValues;
      HitWordsSnoc(limited, i);
      AddAllConcat([], HitWords(limited[..i]), MatchWords(values), SuggestionFilter(query));
      unique := AddMatchWords(unique, values, query);
      i := i + 1;
    }
    assert limited[..|limited|] == limited;
    r := unique[..if |unique| < MaxSuggestions then |unique| else MaxSuggestions];
  }

  /** The loop over the matches of one hit. */
  method AddMatchWords(acc: seq<string>, values: seq<string>, query: string) returns (unique: seq<string>)
    ensures unique == AddAll(acc, MatchWords(values), SuggestionFilter(query))
  {
    unique := acc;
    var j := 0;
    while j < |values|
      invariant 0 <= j <= |values|
      invariant unique == AddAll(acc, MatchWords(values[..j]), SuggestionFilter(query))
    {
      var value := values[j];
      MatchWordsSnoc(values, j);
      AddAllConcat(acc, MatchWords(values[..j]), ValueWords(value), SuggestionFilter(query));
      if Utf16Length(value) > 2 {
        unique := AddSuggestedWords(unique, Split(value, IsWhitespace), query);
      }
      j := j + 1;
    }
    assert values[..|values|] == values;
  }

  /** The loop over the words of one match text. */
  method AddSuggestedWords(acc: seq<string>, words: seq<string>, query: string) returns (unique: seq<string>)
    ensures unique == AddAll(acc, words, SuggestionFilter(query))
  {
    unique := acc;
    var k := 0;
    while k < |words|
      invariant 0 <= k <= |words|
      invariant unique == AddAll(acc, words[..k], SuggestionFilter(query))
    {
      var word := words[k];
      AddAllSnoc(acc, words[..k], word, SuggestionFilter(query));
      assert words[..k + 1] == words[..k] + [word];
      if IsSuggestion(word, query) && word !in unique {
        unique := unique + [word];
      }
      k := k + 1;
    }
    assert words[..|words|] == words;
  }

  lemma MatchWordsSnoc(values: seq<string>, j: nat)
    requires j < |values|
    ensures MatchWords(values[..j + 1]) == MatchWords(values[..j]) + ValueWords(values[j])
  {
    assert values[..j + 1][..j] == values[..j];
  }

  lemma HitWordsSnoc(hits: seq<Hit>, i: nat)
    requires i < |hits|
    ensures HitWords(hits[..i + 1]) == HitWords(hits[..i]) + MatchWords(hits[i].matchValues)
  {
    assert hits[..i + 1][..i] == hits[..i];
  }

  /** Where a word of the hits comes from: a match text of one of them. */
  predicate WordOfValues(w: string, values: seq<string>) {
    exists v :: v in values && w in ValueWords(v)
  }

  lemma {:induction false} MatchWordsMembers(values: seq<string>, w: string)
    ensures w in MatchWords(values) <==> WordOfValues(w, values)
    decreases |values|
  {
    if values != [] {
      var front := values[..|values| - 1];
      var last := values[|values| - 1];
      MatchWordsMembers(front, w);
      assert values == front + [last];
      if WordOfValues(w, values) {
        var v :| v in values && w in ValueWords(v);
        if v != last { assert v in front; }
      }
    }
  }

  lemma {:induction false} HitWordsMembers(hits: seq<Hit>, w: string)
    ensures w in HitWords(hits) <==> exists i :: 0 <= i < |hits| && WordOfValues(w, hits[i].matchValues)
    decreases |hits|
  {
    if hits != [] {
      var front := hits[..|hits| - 1];
      HitWordsMembers(front, w);
      MatchWordsMembers(hits[|hits| - 1].matchValues, w);
      if exists i :: 0 <= i < |hits| && WordOfValues(w, hits[i].matchValues) {
        var i :| 0 <= i < |hits| && WordOfValues(w, hits[i].matchValues);
        if i < |hits| - 1 { assert hits[i] == front[i]; }
      }
      if exists i :: 0 <= i < |front| && WordOfValues(w, front[i].matchValues) {
        var i :| 0 <= i < |front| && WordOfValues(w, front[i].matchValues);
        assert hits[i] == front[i];
      }
    }
  }

  /** The suggestions are at most six distinct words, each a white-space
      free word of a match text (longer than two characters) of one of the
      first twenty hits, each containing the query ignoring case without
      being it; fewer than six only when no other word qualifies, and none
      for a blank query or one shorter than two characters. */
  lemma SuggestionListProperties(hits: seq<Hit>, query: string)
    ensures var r := SuggestionList(hits, query);
      && |r| <= MaxSuggestions
      && Distinct(r)
      && (!Searching(query) || Utf16Length(query) < 2 ==> r == [])
      && (forall w :: w in r ==>
            && IsSuggestion(w, query)
            && (exists i :: 0 <= i < |hits| && i < SuggestionHitLimit && WordOfValues(w, hits[i].matchValues))
            && (forall c :: c in w ==> !IsWhitespace(c)))
      && (|r| < MaxSuggestions && Searching(query) && Utf16Length(query) >= 2 ==>
            forall w :: w in HitWords(FirstHits(hits)) && IsSuggestion(w, query) ==> w in r)
  {
    var r := SuggestionList(hits, query);
    if Searching(query) && Utf16Length(query) >= 2 {
      forall w | w in r
        ensures exists i :: 0 <= i < |hits| && i < SuggestionHitLimit && WordOfValues(w, hits[i].matchValues)
        ensures forall c :: c in w ==> !IsWhitespace(c)
      {
        assert w in HitWords(FirstHits(hits));
        HitWordOrigin(hits, w);
      }
    }
  }

  /** A candidate word of the first twenty hits comes from a match text of
      one of them and holds no white space. */
  lemma HitWordOrigin(hits: seq<Hit>, w: string)
    requires w in HitWords(FirstHits(hits))
    ensures exists i :: 0 <= i < |hits| && i < SuggestionHitLimit && WordOfValues(w, hits[i].matchValues)
    ensures forall c :: c in w ==> !IsWhitespace(c)
  {
    var limited := FirstHits(hits);
    HitWordsMembers(limited, w);
    var i :| 0 <= i < |limited| && WordOfValues(w, limited[i].matchValues);
    assert limited[i] == hits[i];
    var v :| v in limited[i].matchValues && w in ValueWords(v);
    SplitPieces(v, IsWhitespace);
  }
}
