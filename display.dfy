/** The display rules of `SearchStats` and `NotificationBadge`: which parts
    of the results header appear and what they say, and the label of the
    unread-message badge. */
module Display {
  import opened Common
  import opened Text
  import opened Numbers
  import EnhancedSearch

  // ----- Results header -----

  /** What the results header shows: a loading skeleton, or the heading, the
      result count (during a search), the share badge, the quoted query and
      the total count (when not searching). */
  datatype Header =
    | Skeleton
    | Panel(
        heading: string,
        resultLine: Option<string>,
        percentBadge: Option<int>,
        searchingFor: Option<string>,
        totalLine: Option<string>)

  /** A query that is not blank or a category other than "All". */
  predicate HasActiveSearch(query: string, category: string) {
    Trim(query) != "" || category != "All"
  }

  function Plural(n: nat, one: string, many: string): string {
    if n == 1 then one else many
  }

  /** "<n> <noun>", with the singular noun exactly for one. */
  function CountLine(n: nat, one: string, many: string): string {
    IntToString(n) + " " + Plural(n, one, many)
  }

  function Heading(query: string, category: string): string {
    if !HasActiveSearch(query, category) then "All Listings"
    else if query != "" then "Search Results"
    else category + " Listings"
  }

  /** `SearchStats` for the hook's statistics. */
  function Render(stats: EnhancedSearch.Stats, query: string, category: string, loading: bool): Header {
    if loading then Skeleton
    else
      var active := HasActiveSearch(query, category);
      Panel(
        Heading(query, category),
        if active then Some(CountLine(stats.filtered, "result", "results")) else None,
        if active && stats.hasActiveFilters && stats.total > stats.filtered then Some(stats.filterPercentage) else None,
        if query != "" then Some(query) else None,
        if !active then Some(CountLine(stats.total, "item", "items")) else None)
  }

  /** While loading only the skeleton is shown. */
  lemma LoadingShowsSkeleton(stats: EnhancedSearch.Stats, query: string, category: string)
    ensures Render(stats, query, category, true) == Skeleton
  {
  }

  /** The heading: "All Listings" for a blank query in category "All",
      "Search Results" for a query that is not blank, and the category's
      name for an empty query in another category. */
  lemma HeadingRules(query: string, category: string)
    ensures IsBlank(query) && category == "All" ==> Heading(query, category) == "All Listings"
    ensures !IsBlank(query) ==> Heading(query, category) == "Search Results"
    ensures query == "" && category != "All" ==> Heading(query, category) == category + " Listings"
  {
    TrimEmptyIffBlank(query);
  }

  /** The heading tests the untrimmed query: a query of only white space
      in a category other than "All" is titled "Search Results", although
      the search hook treats that query as no search at all. */
  lemma BlankQueryHeading(query: string, category: string)
    requires query != "" && IsBlank(query) && category != "All"
    ensures Heading(query, category) == "Search Results"
    ensures !EnhancedSearch.Searching(query)
  {
    TrimEmptyIffBlank(query);
  }

  /** During a search the header reads "<filtered> result(s)", and the
      text reads back as the count. */
  lemma ResultLineRules(stats: EnhancedSearch.Stats, query: string, category: string)
    requires HasActiveSearch(query, category)
    ensures Render(stats, query, category, false).resultLine == Some(CountLine(stats.filtered, "result", "results"))
    ensures ParseLeadingInt(CountLine(stats.filtered, "result", "results")) == Some(stats.filtered as int)
  {
    CountLineReadsBack(stats.filtered, "result", "results");
  }

  /** The "% filtered" badge shows exactly during a search with filters in
      effect that left out some records, and shows the hook's percentage. */
  lemma PercentBadgeRule(stats: EnhancedSearch.Stats, query: string, category: string)
    ensures var h := Render(stats, query, category, false);
      && (h.percentBadge.Some? <==>
            HasActiveSearch(query, category) && stats.hasActiveFilters && stats.total > stats.filtered)
      && (h.percentBadge.Some? ==> h.percentBadge.value == stats.filterPercentage)
  {
  }

  /** The quoted query shows exactly when the query is not empty, as typed
      (white space included). */
  lemma SearchingForRule(stats: EnhancedSearch.Stats, query: string, category: string)
    ensures Render(stats, query, category, false).searchingFor == if query == "" then None else Some(query)
  {
  }

  /** The total count shows exactly when there is no search, reads
      "<total> item(s)", and reads back as the total. */
  lemma TotalLineRules(stats: EnhancedSearch.Stats, query: string, category: string)
    ensures Render(stats, query, category, false).totalLine ==
      if HasActiveSearch(query, category) then None else Some(CountLine(stats.total, "item", "items"))
    ensures ParseLeadingInt(CountLine(stats.total, "item", "items")) == Some(stats.total as int)
  {
    CountLineReadsBack(stats.total, "item", "items");
  }

  /** A count line reads back as its count, and uses the singular exactly
      for one. */
  lemma CountLineReadsBack(n: nat, one: string, many: string)
    requires one != many
    ensures ParseLeadingInt(CountLine(n, one, many)) == Some(n as int)
    ensures CountLine(n, one, many) == IntToString(n) + " " + one <==> n == 1
  {
    var word := Plural(n, one, many);
    ParsePrintedFollowed(n, " " + word);
    assert IntToString(n) + " " + word == IntToString(n) + (" " + word);
    var head := IntToString(n) + " ";
    assert CountLine(n, one, many) == head + word;
    assert head + word == head + one ==> word == one by {
      if head + word == head + one {
        assert word == (head + word)[|head|..];
        assert one == (head + one)[|head|..];
      }
    }
  }

  // ----- Notification badge -----

  const BadgeCap := 99

  /** The badge text for a count: nothing for a missing count or 0, "99+"
      above 99, the count itself otherwise (negative counts included). */
  function BadgeLabel(count: Option<int>): (shown: Option<string>)
    ensures shown.None? <==> count.None? || count.value == 0
    ensures count.Some? && count.value > BadgeCap ==> shown == Some("99+")
  {
    match count
    case None => None
    case Some(c) =>
      if c == 0 then None
      else if c > BadgeCap then Some("99+")
      else Some(IntToString(c))
  }

  /** A shown badge reads as the count, capped at 99: "99" for 99 and
      "99+" (which reads as 99 followed by a plus) for 100 and more. */
  lemma BadgeLabelReadsAsCount(count: int)
    requires count != 0
    ensures BadgeLabel(Some(count)).Some?
    ensures ParseLeadingInt(BadgeLabel(Some(count)).value) == Some(if count > BadgeCap then BadgeCap else count)
    ensures count <= BadgeCap ==> BadgeLabel(Some(count)).value == IntToString(count)
  {
    if count > BadgeCap {
      CappedLabelReadsBack();
    } else {
      ParsePrinted(count);
    }
  }

  lemma CappedLabelReadsBack()
    ensures ParseLeadingInt("99+") == Some(BadgeCap)
  {
    assert NatToString(BadgeCap) + "+" == "99+" by {
      assert NatToString(9) == "9";
      assert NatToString(99) == NatToString(9) + [DigitChar(9)] == "99";
    }
    ParseNaturalPrinted(BadgeCap, "+");
  }
}
