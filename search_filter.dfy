/** The `SearchFilter` component's state: the query, the recent-search
    history, the filter inputs it hands to the search hook, and the word
    suggestions it derives from the listings. */
module SearchFilter {
  import opened Common
  import opened Text
  import opened Seqs
  import opened Records
  import EnhancedSearch

  const HistoryLimit := 5

  // ----- Search history -----

  /** The history after searching `term`: the term first, then the earlier
      entries other than it, keeping five at most. */
  function NewHistory(term: string, history: seq<string>): seq<string> {
    var all := [term] + Keep(history, (h: string) => h != term);
    if |all| <= HistoryLimit then all else all[..HistoryLimit]
  }

  /** The new history starts with the term and holds no other copy of it,
      has at most five entries, and the rest are earlier entries in their
      earlier order; an earlier entry is dropped only when five are kept.
      A history without duplicates stays without duplicates. */
  lemma NewHistoryProperties(term: string, history: seq<string>)
    ensures var r := NewHistory(term, history);
      && 1 <= |r| <= HistoryLimit
      && r[0] == term
      && term !in r[1..]
      && IsSubsequence(r[1..], history)
      && (|r| < HistoryLimit ==> forall h :: h in history && h != term ==> h in r)
      && (Distinct(history) ==> Distinct(r))
  {
    var p := (h: string) => h != term;
    var rest := Keep(history, p);
    var all := [term] + rest;
    var r := NewHistory(term, history);
    KeepMembers(history, p);
    KeepIsSubsequence(history, p);
    assert r[1..] <= rest by {
      assert all[1..] == rest;
    }
    PrefixIsSubsequence(r[1..], rest);
    SubsequenceTransitive(r[1..], rest, history);
    SubsequenceMembers(r[1..], rest);
    if Distinct(history) {
      KeepDistinct(history, p);
      forall i, j | 0 <= i < j < |r| ensures r[i] != r[j] {
        if i == 0 {
          assert r[j] in r[1..];
        } else {
          assert r[i] == rest[i - 1] && r[j] == rest[j - 1];
        }
      }
    }
  }

  // ----- Category selection -----

  /** `handleCategoryToggle`: remove every copy of a selected category,
      append an unselected one. */
  function Toggle(selected: seq<string>, category: string): seq<string> {
    if category in selected then Keep(selected, (c: string) => c != category)
    else selected + [category]
  }

  /** Toggling flips the membership of that category and of no other; an
      absent category goes at the end, and removing one keeps the others in
      their order. */
  lemma ToggleMembership(selected: seq<string>, category: string)
    ensures forall c :: c in Toggle(selected, category) <==>
      if c == category then category !in selected else c in selected
    ensures category !in selected ==> Toggle(selected, category) == selected + [category]
    ensures category in selected ==> IsSubsequence(Toggle(selected, category), selected)
  {
    if category in selected {
      KeepMembers(selected, (c: string) => c != category);
      KeepIsSubsequence(selected, (c: string) => c != category);
    }
  }

  /** Toggling the same category twice gives back the same selection
      (as a set of categories; exactly when the category was not selected). */
  lemma ToggleTwice(selected: seq<string>, category: string)
    ensures forall c :: c in Toggle(Toggle(selected, category), category) <==> c in selected
    ensures category !in selected ==> Toggle(Toggle(selected, category), category) == selected
  {
    var once := Toggle(selected, category);
    ToggleMembership(selected, category);
    ToggleMembership(once, category);
    if category !in selected {
      var p := (c: string) => c != category;
      KeepConcat(selected, [category], p);
      forall i | 0 <= i < |selected| ensures p(selected[i]) {
        assert selected[i] in selected;
      }
      KeepAll(selected, p);
    }
  }

  /** The "Clear filters" button shows when a category is selected or a
      price or date bound is set; sort order and query do not count. */
  predicate FiltersActive(selected: seq<string>, priceMin: string, priceMax: string, dateFrom: string, dateTo: string) {
    selected != [] || priceMin != "" || priceMax != "" || dateFrom != "" || dateTo != ""
  }

  // ----- Local suggestions -----

  predicate IsSpace(c: char) {
    c == ' '
  }

  /** The candidate words of one listing: its title and description split
      on single spaces, then its whole location and category. */
  function ListingWords(l: Listing): seq<string> {
    Split(l.title, IsSpace) + Split(l.description, IsSpace) + [l.location, l.category]
  }

  function AllListingWords(listings: seq<Listing>): seq<string>
    decreases |listings|
  {
    if listings == [] then []
    else AllListingWords(listings[..|listings| - 1]) + ListingWords(listings[|listings| - 1])
  }

  /** A word is suggested when it contains the query ignoring case and is
      longer than two characters (it may be the query itself). */
  predicate IsLocalSuggestion(word: string, query: string) {
    Contains(ToLower(word), ToLower(query)) && Utf16Length(word) > 2
  }

  function LocalFilter(query: string): string -> bool {
    (w: string) => IsLocalSuggestion(w, query)
  }

  /** The suggestions for a debounced query: the first six distinct
      suggested words of the listings, none for a query of fewer than two
      characters. */
  function LocalSuggestionList(listings: seq<Listing>, query: string): seq<string> {
    if Utf16Length(query) > 1 then FirstDistinct(AllListingWords(listings), LocalFilter(query), MaxSuggestions)
    else []
  }

  /** The loops of the suggestion effect, listing by listing. */
  method LocalSuggestions(listings: seq<Listing>, query: string) returns (r: seq<string>)
    ensures r == LocalSuggestionList(listings, query)
  {
    if Utf16Length(query) <= 1 {
      return [];
    }
    var unique: seq<string> := [];
    var i := 0;
    while i < |listings|
      invariant 0 <= i <= |listings|
      invariant unique == AddAll([], AllListingWords(listings[..i]), LocalFilter(query))
    {
      var words := ListingWords(listings[i]);
      assert listings[..i + 1][..i] == listings[..i];
      AddAllConcat([], AllListingWords(listings[..i]), words, LocalFilter(query));
      unique := AddWords(unique, words, query);
      i := i + 1;
    }
    assert listings[..|listings|] == listings;
    r := unique[..if |unique| < MaxSuggestions then |unique| else MaxSuggestions];
  }

  /** The inner loop: each suggested word of one listing not yet collected
      is appended. */
  method AddWords(unique: seq<string>, words: seq<string>, query: string) returns (r: seq<string>)
    ensures r == AddAll(unique, words, LocalFilter(query))
  {
    r := unique;
    var k := 0;
    while k < |words|
      invariant 0 <= k <= |words|
      invariant r == AddAll(unique, words[..k], LocalFilter(query))
    {
      var word := words[k];
      AddAllSnoc(unique, words[..k], word, LocalFilter(query));
      assert words[..k + 1] == words[..k] + [word];
      if IsLocalSuggestion(word, query) && word !in r {
        r := r + [word];
      }
      k := k + 1;
    }
    assert words[..|words|] == words;
  }

  lemma {:induction false} AllListingWordsMembers(listings: seq<Listing>, w: string)
    ensures w in AllListingWords(listings) <==> exists l :: l in listings && w in ListingWords(l)
    decreases |listings|
  {
    if listings != [] {
      var front := listings[..|listings| - 1];
      var last := listings[|listings| - 1];
      AllListingWordsMembers(front, w);
      assert listings == front + [last];
      if exists l :: l in listings && w in ListingWords(l) {
        var l :| l in listings && w in ListingWords(l);
        if l != last { assert l in front; }
      }
    }
  }

  /** The suggestions are at most six distinct words, each longer than two
      characters, containing the query ignoring case, and each a word of
      some listing's title or description or its whole location or
      category; fewer than six only when no other word qualifies. */
  lemma LocalSuggestionProperties(listings: seq<Listing>, query: string)
    ensures var r := LocalSuggestionList(listings, query);
      && |r| <= MaxSuggestions
      && Distinct(r)
      && (Utf16Length(query) <= 1 ==> r == [])
      && (forall w :: w in r ==>
            IsLocalSuggestion(w, query) && exists l :: l in listings && w in ListingWords(l))
      && (|r| < MaxSuggestions && Utf16Length(query) > 1 ==>
            forall l, w :: l in listings && w in ListingWords(l) && IsLocalSuggestion(w, query) ==> w in r)
  {
    var r := LocalSuggestionList(listings, query);
    if Utf16Length(query) > 1 {
      forall w | w in r ensures exists l :: l in listings && w in ListingWords(l) {
        AllListingWordsMembers(listings, w);
      }
      if |r| < MaxSuggestions {
        forall l, w | l in listings && w in ListingWords(l) && IsLocalSuggestion(w, query) ensures w in r {
          AllListingWordsMembers(listings, w);
        }
      }
    }
  }

  // ----- Component state -----

  class SearchBox {
    var query: string
    var showSuggestions: bool
    var suggestions: seq<string>
    var searchHistory: seq<string>
    var sortBy: string
    var priceMin: string
    var priceMax: string
    var selectedCategories: seq<string>
    var dateFrom: string
    var dateTo: string

    /** The initial state for an initial query; the stored history is
        loaded separately. */
    constructor(initialQuery: string)
      ensures query == initialQuery && searchHistory == [] && suggestions == []
      ensures !showSuggestions
      ensures Filters() == EnhancedSearch.InitialFilters
    {
      query := initialQuery;
      showSuggestions := false;
      suggestions := [];
      searchHistory := [];
      sortBy := "newest";
      priceMin := "";
      priceMax := "";
      selectedCategories := [];
      dateFrom := "";
      dateTo := "";
    }

    /** The filters handed to `onFiltersChange`. */
    function Filters(): EnhancedSearch.Filters
      reads this
    {
      EnhancedSearch.Filters(sortBy, priceMin, priceMax, selectedCategories, dateFrom, dateTo)
    }

    predicate ShowClearFilters()
      reads this
    {
      FiltersActive(selectedCategories, priceMin, priceMax, dateFrom, dateTo)
    }

    /** The history read back from storage at start-up; nothing stored
        leaves the history as it is. */
    method LoadHistory(stored: Option<seq<string>>)
      modifies this
      ensures searchHistory == if stored.Some? then stored.value else old(searchHistory)
      ensures query == old(query) && Filters() == old(Filters())
      ensures suggestions == old(suggestions) && showSuggestions == old(showSuggestions)
    {
      if stored.Some? {
        searchHistory := stored.value;
      }
    }

    /** `handleSearch`: take the term as the query, hide the suggestions and
        record a non-blank term in the history. */
    method HandleSearch(term: string)
      modifies this
      ensures query == term && !showSuggestions
      ensures searchHistory == if Trim(term) != "" then NewHistory(term, old(searchHistory)) else old(searchHistory)
      ensures Filters() == old(Filters()) && suggestions == old(suggestions)
    {
      query := term;
      showSuggestions := false;
      if Trim(term) != "" {
        searchHistory := NewHistory(term, searchHistory);
      }
    }

    /** `clearSearch`. */
    method ClearSearch()
      modifies this
      ensures query == "" && !showSuggestions
      ensures searchHistory == old(searchHistory) && Filters() == old(Filters())
      ensures suggestions == old(suggestions)
    {
      query := "";
      showSuggestions := false;
    }

    /** `clearFilters`: every bound and the selection emptied and the sort
        back to newest first, which is the hook's initial filter state; the
        query and the history are untouched. */
    method ClearFilters()
      modifies this
      ensures Filters() == EnhancedSearch.InitialFilters
      ensures !ShowClearFilters()
      ensures query == old(query) && searchHistory == old(searchHistory)
      ensures suggestions == old(suggestions) && showSuggestions == old(showSuggestions)
    {
      priceMin := "";
      priceMax := "";
      selectedCategories := [];
      dateFrom := "";
      dateTo := "";
      sortBy := "newest";
    }

    /** `handleCategoryToggle`. */
    method HandleCategoryToggle(category: string)
      modifies this
      ensures selectedCategories == Toggle(old(selectedCategories), category)
      ensures sortBy == old(sortBy) && priceMin == old(priceMin) && priceMax == old(priceMax)
      ensures dateFrom == old(dateFrom) && dateTo == old(dateTo)
      ensures query == old(query) && searchHistory == old(searchHistory)
      ensures suggestions == old(suggestions) && showSuggestions == old(showSuggestions)
    {
      selectedCategories := Toggle(selectedCategories, category);
    }

    /** The suggestion effect for a new debounced query. */
    method UpdateSuggestions(debouncedQuery: string, listings: seq<Listing>)
      modifies this
      ensures suggestions == LocalSuggestionList(listings, debouncedQuery)
      ensures query == old(query) && searchHistory == old(searchHistory) && Filters() == old(Filters())
      ensures showSuggestions == old(showSuggestions)
    {
      suggestions := LocalSuggestions(listings, debouncedQuery);
    }
  }

  /** The button shows exactly when the filters differ from the cleared ones
      in anything other than the sort order. */
  lemma ClearFiltersButtonIffNotCleared(f: EnhancedSearch.Filters)
    ensures FiltersActive(f.selectedCategories, f.priceMin, f.priceMax, f.dateFrom, f.dateTo)
        <==> f.(sortBy := "newest") != EnhancedSearch.InitialFilters
  {
  }
}
