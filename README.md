# Marketplace search, paging and message-count model

This project models the client-side logic of a classifieds marketplace built
with Next.js, written in Dafny. It covers:

- **Search hook.** The `useEnhancedSearch` hook runs the fuzzy search, then
  the price, category and date filters, then the sort by the selected key.
  It also derives word suggestions and the result statistics.
- **Pagination.** The `usePagination` hook slices the results into pages. The
  `Pagination` component shows a windowed list of page numbers with
  ellipses, plus a jump-to-page box.
- **Search filter.** The `SearchFilter` component keeps the query, the
  recent-search history (five entries, most recent first), the filter inputs
  and the suggestions it derives from the listings.
- **Unread count.** The `useUnreadMessages` hook keeps a count of unread
  messages: it is fetched once, then updated from realtime insert and update
  events.
- **Messages page.** It lists the seller's messages and marks one as read
  when it is opened.
- **My-listings page.** It deletes one of the seller's listings after a
  confirmation.
- **Displays.** `SearchStats` shows the results header and
  `NotificationBadge` shows the badge label.

How the model is laid out:

- Pure computations become functions with lemmas about them.
- The React components and hooks become classes. Their state is fields and
  their handlers are methods. An `async` handler is split into the part that
  runs before the backend call and the part that runs after it. The
  backend's answer arrives as an argument: `Fetch<T>` is the rows returned,
  or a failure.
- The fuzzy index (Fuse.js) is not modelled. Its answer is a parameter: a
  list of hits, each naming a record of the data with its score and its
  matched texts. Date parsing is a parameter too, a function from text to
  an optional instant.

Modules:

- `Common`: option and fetch outcome, and small arithmetic helpers.
- `Text`: `trim`, `toLowerCase`, `includes`, `split`/`join` and the
  comparison that stands for `localeCompare`.
- `Numbers`: `parseInt` in base 10, `parseFloat` on decimal text with exact
  values, and `String(n)`.
- `Seqs`: `filter`, a stable sort for `Array.prototype.sort`, and a JavaScript
  `Set` read back in insertion order.
- `Records`: listing and message rows.
- `EnhancedSearch`, `Paging`, `PageNumbers`, `SearchFilter`, `UnreadMessages`,
  `MessagesPage`, `MyListings` and `Display`: one per source file or pair of
  display components.

## Model

| member | source | states |
|---|---|---|
| Text.TrimStart | src/hooks/useEnhancedSearch.js:32 | `trimStart` yields a suffix of the input that starts with a non-white-space character, or nothing (that only white space goes is TrimStartDropsBlank) |
| Text.TrimEnd | src/hooks/useEnhancedSearch.js:32 | `trimEnd` yields a prefix of the input that ends with a non-white-space character, or nothing (that only white space goes is TrimEndDropsBlank) |
| Text.TrimStartDropsBlank | src/hooks/useEnhancedSearch.js:32 | everything the start trim removes is white space |
| Text.TrimEndDropsBlank | src/hooks/useEnhancedSearch.js:32 | everything the end trim removes is white space |
| Text.Trim | src/hooks/useEnhancedSearch.js:32 | `trim()` as the end trim of the start trim; its meaning is in the trim lemmas |
| Text.TrimEmptyIffBlank | src/hooks/useEnhancedSearch.js:32 | a trimmed query is empty exactly when the query is all white space |
| Text.TrimStartBlank | src/hooks/useEnhancedSearch.js:32 | trimming the start removes everything exactly when the text is all white space |
| Text.TrimEndKeepsNonBlank | src/hooks/useEnhancedSearch.js:32 | trimming the end of a text that starts with a non-white-space character leaves something |
| Text.Utf16Length | src/hooks/useEnhancedSearch.js:103 | `.length` counts UTF-16 code units: two for a character above U+FFFF, one for any other |
| Text.Utf16LengthBounds | src/hooks/useEnhancedSearch.js:103 | the code-unit length lies between the character count and twice it, and equals the character count inside the Basic Multilingual Plane |
| Text.ToLower | src/hooks/useEnhancedSearch.js:117-119 | `toLowerCase` keeps the length and maps each character on its own |
| Text.Contains | src/hooks/useEnhancedSearch.js:117 | `includes`; characterised by ContainsIffOccurs |
| Text.ContainsIffOccurs | src/hooks/useEnhancedSearch.js:117 | `includes` holds exactly when the needle occurs at some offset |
| Text.ContainsWitness | src/hooks/useEnhancedSearch.js:117 | a text that includes the needle has an offset where it occurs |
| Text.OccursContains | src/hooks/useEnhancedSearch.js:117 | a needle occurring at an offset is included |
| Text.Split | src/components/SearchFilter.js:46-47 | `split(' ')` always yields at least one piece |
| Text.SplitPieces | src/hooks/useEnhancedSearch.js:115 | no piece of a split holds a separator, and every character of a piece comes from the text |
| Text.JoinExtendLast | src/components/SearchFilter.js:46 | appending a character to the last piece appends it to the joined text |
| Text.ReplaceSeparators | src/hooks/useEnhancedSearch.js:115 | every separator replaced by one character, the length and every other character kept |
| Text.JoinSplit | src/hooks/useEnhancedSearch.js:115 | for any class of separators, joining the pieces of a split with one character gives the text with each separator replaced by that character, so the pieces cover the text in order |
| Text.JoinSplitOne | src/components/SearchFilter.js:46 | joining the pieces of `split(' ')` with a space gives the text back |
| Text.LexCompare | src/hooks/useEnhancedSearch.js:84-86 | the stand-in for `localeCompare`, code-point lexicographic order, returns -1, 0 or 1 |
| Text.LexCompareAntisymmetric | src/hooks/useEnhancedSearch.js:84-86 | swapping the operands negates the comparison, and it is 0 exactly for equal texts |
| Text.LexCompareTransitive | src/hooks/useEnhancedSearch.js:84-86 | the comparison is transitive, so the title and location sorts are well defined |
| Numbers.DigitPrefix | src/hooks/useEnhancedSearch.js:44-47 | the digit run `parseInt` and `parseFloat` read is a prefix of the text, all digits, stopped by a non-digit |
| Numbers.ParseLeadingInt | src/components/Pagination.js:19 | `parseInt(s)` in base 10; characterised by ParsePrinted, ParseUnsigned, ParseNegative and ParseTrimmed |
| Numbers.ParseDigits | src/hooks/useEnhancedSearch.js:44-47 | a number is read exactly when the text starts with a digit |
| Numbers.NatToString | src/components/SearchStats.js:28 | the decimal text of a count is non-empty and all digits |
| Numbers.NatToStringValue | src/components/SearchStats.js:28 | the decimal text of a count has that count as its value |
| Numbers.ParsePrinted | src/components/Pagination.js:19 | `parseInt(String(n))` is `n`, negative numbers included |
| Numbers.ParsePrintedFollowed | src/components/SearchStats.js:28 | a printed number followed by a non-digit still reads back as that number |
| Numbers.ParseNaturalPrinted | src/components/SearchStats.js:28 | a printed natural followed by any text starting with a non-digit reads back as that natural |
| Numbers.ParseNegativePrinted | src/components/Pagination.js:19 | a printed negative number followed by a non-digit reads back as that number |
| Numbers.DigitsOfPrinted | src/components/SearchStats.js:28 | the digit run of a printed count followed by a non-digit is that count |
| Numbers.DigitPrefixStops | src/hooks/useEnhancedSearch.js:44-47 | the digit run stops at the first non-digit |
| Numbers.ParseUnsigned | src/components/Pagination.js:19 | a text that starts with digits reads as their value |
| Numbers.ParseNegative | src/components/Pagination.js:19 | a minus sign before the digits negates the value |
| Numbers.ParseTrimmed | src/components/Pagination.js:19 | leading white space is skipped before the sign |
| Numbers.Pow10 | src/hooks/useEnhancedSearch.js:44-47 | a power of ten is at least 1 |
| Numbers.Scale | src/hooks/useEnhancedSearch.js:44-47 | scaling by a power of ten keeps a number non-negative |
| Numbers.Fraction | src/hooks/useEnhancedSearch.js:44-47 | the value of digits after the point is non-negative |
| Numbers.ScaleUp | src/hooks/useEnhancedSearch.js:44-47 | scaling by a non-negative exponent multiplies by that power of ten |
| Numbers.FractionQuotient | src/hooks/useEnhancedSearch.js:44-47 | `k` digits after the point spelling `n` are worth `n / 10^k` |
| Numbers.ParseFloat | src/hooks/useEnhancedSearch.js:44 | `parseFloat(s)`: white space skipped, one optional sign, then the longest decimal prefix; characterised by the ParseFloat lemmas |
| Numbers.Value | src/hooks/useEnhancedSearch.js:44-47 | a decimal literal's exact value is never negative |
| Numbers.ParseDecimal | src/hooks/useEnhancedSearch.js:44-47 | an unsigned decimal reads exactly when it starts with a digit, or with a point and a digit, and its value is non-negative |
| Numbers.ReadDecimal | src/hooks/useEnhancedSearch.js:44-47 | the decimal literal is found exactly when the text starts with a digit, or with a point and a digit |
| Numbers.ExponentOf | src/hooks/useEnhancedSearch.js:44-47 | the exponent part `e`/`E`, optional sign and digits, 0 when it has no digits; characterised by ParseFloatExponent |
| Numbers.ParseFloatEmpty | src/hooks/useEnhancedSearch.js:44 | the empty text is `NaN` |
| Numbers.ParseFloatPrinted | src/hooks/useEnhancedSearch.js:44-47 | `parseFloat(String(n))` is `n` for every integer |
| Numbers.ParseFloatDigits | src/hooks/useEnhancedSearch.js:44-47 | a run of digits reads as the whole number it spells |
| Numbers.ParseFloatNegatedDigits | src/hooks/useEnhancedSearch.js:44-47 | a minus sign before a run of digits negates its value |
| Numbers.ReadDecimalDigits | src/hooks/useEnhancedSearch.js:44-47 | a run of digits is a whole part with no fraction and no exponent |
| Numbers.ParseFloatFraction | src/hooks/useEnhancedSearch.js:44-47 | digits, a point and digits (one side may be empty) read as the whole part plus the fraction, so `"10.5"` is ten and a half and `".5"` a half |
| Numbers.PointNotInteger | src/components/Pagination.js:19 | text starting with a point has no `parseInt` reading |
| Numbers.ReadDecimalPointed | src/hooks/useEnhancedSearch.js:44-47 | digits, a point and digits are a whole part and a fraction with that many places |
| Numbers.ParseFloatExponent | src/hooks/useEnhancedSearch.js:44-47 | digits, `e` and digits read as the number times ten to the exponent, so `"1e3"` is a thousand |
| Numbers.ReadDecimalExponent | src/hooks/useEnhancedSearch.js:44-47 | digits, `e` and digits are a whole part with that exponent |
| Numbers.ParseFloatNoSign | src/hooks/useEnhancedSearch.js:44-47 | text starting with a digit or a point reads as the value of the literal it starts with |
| Numbers.PointedValue | src/hooks/useEnhancedSearch.js:44-47 | without an exponent a literal is worth its whole part plus its fraction |
| Numbers.WholeValue | src/hooks/useEnhancedSearch.js:44-47 | without a fraction a literal is worth its whole part scaled by its exponent |
| Seqs.Keep | src/hooks/useEnhancedSearch.js:42-70 | `filter` yields a sequence no longer than its input |
| Seqs.KeepMultiset | src/hooks/useEnhancedSearch.js:42-70 | `filter` keeps every copy of an element that passes and no copy of one that fails |
| Seqs.KeepMembers | src/hooks/useEnhancedSearch.js:42-70 | an element is kept exactly when it is in the input and passes the test |
| Seqs.KeepAll | src/hooks/useEnhancedSearch.js:42-70 | when every element passes, `filter` returns its input unchanged |
| Seqs.KeepIsSubsequence | src/hooks/useEnhancedSearch.js:42-70 | `filter` keeps the input's order |
| Seqs.KeepConcat | src/components/SearchFilter.js:104-105 | filtering a concatenation concatenates the filtered parts |
| Seqs.KeepDistinct | src/components/SearchFilter.js:82 | filtering a list without duplicates leaves none |
| Seqs.DistinctBelow | src/hooks/useEnhancedSearch.js:33 | distinct indices into the data are no more than the records |
| Seqs.DistinctCard | src/hooks/useEnhancedSearch.js:33 | a duplicate-free sequence has as many distinct elements as entries |
| Seqs.SubsetCard | src/hooks/useEnhancedSearch.js:33 | a subset has no more elements than its superset |
| Seqs.SubsequenceExtend | src/hooks/useEnhancedSearch.js:42-70 | a subsequence stays one when the larger sequence gets an extra element in front |
| Seqs.SubsequenceDropFirst | src/hooks/useEnhancedSearch.js:42-70 | dropping the first element of a subsequence leaves a subsequence |
| Seqs.SubsequenceMembers | src/components/SearchFilter.js:82 | every element of a subsequence is an element of the larger sequence |
| Seqs.PrefixIsSubsequence | src/components/SearchFilter.js:82 | `slice(0, 5)` keeps a subsequence |
| Seqs.SubsequenceTransitive | src/components/SearchFilter.js:82 | a subsequence of a subsequence is a subsequence |
| Seqs.AddAllProperties | src/hooks/useEnhancedSearch.js:105-126 | adding words to a `Set` keeps the earlier ones in front, never duplicates, and holds exactly the old entries and the added words that pass the test |
| Seqs.AddAllSnoc | src/hooks/useEnhancedSearch.js:116-122 | adding one more word changes the set exactly as `Set.add` would |
| Seqs.AddAllConcat | src/components/SearchFilter.js:44-58 | adding two lists in turn equals adding their concatenation |
| Seqs.FirstDistinct | src/hooks/useEnhancedSearch.js:128 | `Array.from(set).slice(0, n)` has at most n distinct entries, all qualifying words, is a prefix of the words in first-seen order, and is short only when no other word qualifies |
| Seqs.AddAllFromEmpty | src/hooks/useEnhancedSearch.js:105 | a `Set` filled from empty holds exactly the qualifying words, once each |
| Seqs.MemberOfAddAll | src/hooks/useEnhancedSearch.js:105-126 | every member of the filled `Set` is a qualifying word |
| Seqs.PrefixOfAddAll | src/hooks/useEnhancedSearch.js:128 | a prefix of the `Set`'s entries is duplicate-free and holds only qualifying words |
| Seqs.Insert | src/hooks/useEnhancedSearch.js:73-96 | one insertion step of the sort adds exactly one entry |
| Seqs.StableSort | src/hooks/useEnhancedSearch.js:73-96 | `sort` keeps the length |
| Seqs.InsertMultiset | src/hooks/useEnhancedSearch.js:73-96 | an insertion step adds exactly the inserted element |
| Seqs.StableSortPermutation | src/hooks/useEnhancedSearch.js:73-96 | `sort` yields a permutation of its input |
| Seqs.InsertSorted | src/hooks/useEnhancedSearch.js:73-96 | an insertion step into a sorted list keeps it sorted |
| Seqs.StableSortSorted | src/hooks/useEnhancedSearch.js:73-96 | with a total preorder, `sort` yields a sorted result |
| Seqs.InsertStable | src/hooks/useEnhancedSearch.js:73-96 | an insertion step keeps tied elements in their order |
| Seqs.StableSortStable | src/hooks/useEnhancedSearch.js:73-96 | `sort` is stable: elements tied with any given one keep their input order |
| Seqs.StableSortAllTied | src/hooks/useEnhancedSearch.js:93-94 | a comparator that ties everything leaves the order unchanged |
| Common.MulMonotonic | src/hooks/useEnhancedSearch.js:147 | multiplying both sides of an inequality by a natural number keeps it |
| EnhancedSearch.FilteredData | src/hooks/useEnhancedSearch.js:28-99 | the search, filter and sort pipeline; characterised by FilteredDataRespectsFilters, FilteredDataPermutation, FilteredDataSorted and FilteredDataStable |
| EnhancedSearch.SearchStage | src/hooks/useEnhancedSearch.js:31-39 | the fuzzy hits as scored records while the trimmed query is not empty, the data otherwise; characterised by BlankQuerySkipsSearch and SearchStageWithinData |
| EnhancedSearch.Passes | src/hooks/useEnhancedSearch.js:42-70 | the filter callback; characterised by PassesIffWithin |
| EnhancedSearch.Compare | src/hooks/useEnhancedSearch.js:73-96 | the sort comparator; characterised by CompareInOrder, SortLeTotalPreorder and UnknownKeyTies |
| EnhancedSearch.HasActiveFilters | src/hooks/useEnhancedSearch.js:134-140 | the statistics' active-filter test; used by PipelineStats and NoFiltersKeepsAll |
| EnhancedSearch.ComputeStats | src/hooks/useEnhancedSearch.js:131-148 | the statistics; characterised by PipelineStats, RoundedPercentage and PercentageBounds |
| EnhancedSearch.IsSuggestion | src/hooks/useEnhancedSearch.js:117-119 | the word test; its meaning is stated in SuggestionListProperties |
| EnhancedSearch.SuggestionList | src/hooks/useEnhancedSearch.js:102-129 | the suggestions; characterised by SuggestionListProperties and computed by Suggestions |
| EnhancedSearch.BlankQuerySkipsSearch | src/hooks/useEnhancedSearch.js:29-39 | with a blank query the filters see every record, in order, with no score |
| EnhancedSearch.SearchStageWithinData | src/hooks/useEnhancedSearch.js:32-39 | the search yields only records of the data, and no more than the data holds |
| EnhancedSearch.EndOfDay | src/hooks/useEnhancedSearch.js:65 | `setHours(23, 59, 59, 999)` yields the last millisecond of the same day |
| EnhancedSearch.PassesIffWithin | src/hooks/useEnhancedSearch.js:42-70 | the filter callback keeps a record exactly when it lies within every bound that is set and parses: inclusive price range, selected categories, from the `from` instant to the end of the `to` day |
| EnhancedSearch.MinBoundIff | src/hooks/useEnhancedSearch.js:44-46 | a minimum drops a price exactly when it parses (an empty bound never does) and exceeds the price |
| EnhancedSearch.MaxBoundIff | src/hooks/useEnhancedSearch.js:47-49 | a maximum drops a price exactly when it parses (an empty bound never does) and is below the price |
| EnhancedSearch.SortLeTotalPreorder | src/hooks/useEnhancedSearch.js:73-96 | for every sort key the comparator is a total preorder |
| EnhancedSearch.FilteredDataRespectsFilters | src/hooks/useEnhancedSearch.js:28-99 | every result is a record of the data within all filters, and there are no more results than records |
| EnhancedSearch.FilteredDataPermutation | src/hooks/useEnhancedSearch.js:72-98 | the sort neither adds nor drops a filtered record |
| EnhancedSearch.FilteredDataSorted | src/hooks/useEnhancedSearch.js:73-96 | the results are ordered by the selected key: newest, oldest, cheapest, dearest, title, location, or relevance (score while searching, newest otherwise) |
| EnhancedSearch.CompareInOrder | src/hooks/useEnhancedSearch.js:73-96 | a comparator value of at most 0 means the pair is in the key's order |
| EnhancedSearch.FilteredDataStable | src/hooks/useEnhancedSearch.js:73-96 | records the comparator ties keep the order the search and filter gave them |
| EnhancedSearch.UnknownSortKeepsOrder | src/hooks/useEnhancedSearch.js:93-94 | an unknown sort key leaves the filtered records in their order |
| EnhancedSearch.UnknownKeyTies | src/hooks/useEnhancedSearch.js:93-94 | an unknown sort key compares every pair as 0 |
| EnhancedSearch.RoundedPercentage | src/hooks/useEnhancedSearch.js:147 | the percentage is within one half of 100·filtered/total, and 0 for no data |
| EnhancedSearch.PercentageBounds | src/hooks/useEnhancedSearch.js:147 | the percentage lies between 0 and 100, and is 100 when every record is a result |
| EnhancedSearch.PipelineStats | src/hooks/useEnhancedSearch.js:132-148 | total is the data's size, filtered is at most total, the percentage is 0 to 100, and with nothing active every record is a result |
| EnhancedSearch.NoFiltersKeepsAll | src/hooks/useEnhancedSearch.js:42-70 | with no filter and no query the result is a permutation of the data |
| EnhancedSearch.UnsetFiltersPass | src/hooks/useEnhancedSearch.js:44-67 | filters that are all empty reject no record |
| EnhancedSearch.Suggestions | src/hooks/useEnhancedSearch.js:102-129 | the suggestion loops produce exactly the suggestion list |
| EnhancedSearch.AddMatchWords | src/hooks/useEnhancedSearch.js:112-124 | the loop over one hit's matches adds its qualifying words to the set in order |
| EnhancedSearch.AddSuggestedWords | src/hooks/useEnhancedSearch.js:116-122 | the loop over one match's words adds the qualifying ones to the set in order |
| EnhancedSearch.MatchWordsSnoc | src/hooks/useEnhancedSearch.js:112-124 | the words of one more match text follow the earlier ones |
| EnhancedSearch.HitWordsSnoc | src/hooks/useEnhancedSearch.js:110-126 | the words of one more hit follow the earlier ones |
| EnhancedSearch.MatchWordsMembers | src/hooks/useEnhancedSearch.js:113-115 | a word is a candidate exactly when it is a piece of a match text longer than two characters |
| EnhancedSearch.HitWordsMembers | src/hooks/useEnhancedSearch.js:110-126 | a word is a candidate exactly when it comes from the matches of one of the hits |
| EnhancedSearch.HitWordOrigin | src/hooks/useEnhancedSearch.js:108-122 | a candidate word of the first twenty hits is a white-space-free piece of a match text of one of them |
| EnhancedSearch.SuggestionListProperties | src/hooks/useEnhancedSearch.js:102-129 | at most six distinct words, each free of white space, longer than 2, containing the query but not equal to it (ignoring case), from one of the first 20 hits; fewer than six only when no other word qualifies; none for a blank or one-character query |
| Paging.TotalPagesOf | src/hooks/useEnhancedSearch.js:166 | `Math.ceil(n / size)`: the least page count whose pages hold every record, 0 only for no records |
| Paging.PageSlice | src/hooks/useEnhancedSearch.js:167-169 | the page holds the records from `(page-1)·size`, at most `size` of them, cut off at the end of the data |
| Paging.ClampPage | src/hooks/useEnhancedSearch.js:177 | `max(1, min(page, totalPages))`: a page in range is kept, a page past the end goes to the last page, any other to page 1 |
| Paging.FirstPagesPrefix | src/hooks/useEnhancedSearch.js:167-169 | the first k pages together are the first k·size records |
| Paging.PagesCoverData | src/hooks/useEnhancedSearch.js:166-169 | all pages together are exactly the data, in order |
| Paging.PageSizes | src/hooks/useEnhancedSearch.js:166-169 | every page in range is non-empty, and every page but the last is full |
| Paging.DisplayStart | src/hooks/useEnhancedSearch.js:201 | the one-based index of the page's first record; characterised by DisplayRangeMatchesSlice |
| Paging.DisplayEnd | src/hooks/useEnhancedSearch.js:202 | the one-based index of the page's last record, clamped to the data; characterised by DisplayRangeMatchesSlice |
| Paging.DisplayRangeMatchesSlice | src/hooks/useEnhancedSearch.js:201-202 | the one-based start and end indices name the first and last record of the page and count its records |
| Paging.Pager.constructor | src/hooks/useEnhancedSearch.js:163-164 | pagination starts on page 1 |
| Paging.Pager.GoToPage | src/hooks/useEnhancedSearch.js:176-178 | the new page is the requested page clamped to the pages that exist; the data is unchanged |
| Paging.Pager.GoToNext | src/hooks/useEnhancedSearch.js:180-184 | moves one page on exactly when there is a next page |
| Paging.Pager.GoToPrevious | src/hooks/useEnhancedSearch.js:186-190 | moves one page back exactly when there is a previous page |
| Paging.Pager.SetData | src/hooks/useEnhancedSearch.js:172-174 | new data puts pagination back on page 1 |
| Paging.Pager.CurrentData | src/hooks/useEnhancedSearch.js:167-169 | the current page's records, the page slice of PageSlice |
| Paging.Pager.HasNext | src/hooks/useEnhancedSearch.js:199 | `currentPage < totalPages`; the guard GoToNext is proved against |
| Paging.Pager.HasPrevious | src/hooks/useEnhancedSearch.js:200 | `currentPage > 1`; the guard GoToPrevious is proved against |
| PageNumbers.Run | src/components/Pagination.js:33-35 | the consecutive page numbers `lo` to `hi` |
| PageNumbers.PageList | src/components/Pagination.js:27-66 | the page numbers with ellipses; characterised by SmallPageList, PageListEnds, PageListLength, PageListIncreasing, PageListWindow and PageListEllipses |
| PageNumbers.GetPageNumbers | src/components/Pagination.js:27-66 | the pushes build exactly the page list |
| PageNumbers.PushRun | src/components/Pagination.js:50-52 | the counting loop appends the pages `lo` to `hi` in order |
| PageNumbers.RunSnoc | src/components/Pagination.js:33-35 | one more iteration appends the next page |
| PageNumbers.SmallPageList | src/components/Pagination.js:31-35 | with at most seven pages every page is listed, in order |
| PageNumbers.PageListEnds | src/components/Pagination.js:36-63 | with more than seven pages the list starts at page 1 and ends at the last page |
| PageNumbers.PageListLength | src/components/Pagination.js:27-66 | the list never has more than nine entries |
| PageNumbers.IncreasingConcat | src/components/Pagination.js:36-63 | joining two increasing runs over adjacent ranges is increasing over the union |
| PageNumbers.PageListIncreasing | src/components/Pagination.js:27-66 | the listed page numbers are strictly increasing and are pages that exist |
| PageNumbers.PageListWindow | src/components/Pagination.js:36-63 | a page is listed exactly when it is the first, the last, or within two of the current page; the current page is always listed |
| PageNumbers.PageListEllipses | src/components/Pagination.js:44-57 | adjacent listed numbers are consecutive pages, and every ellipsis sits between two numbers that skip pages |
| PageNumbers.WindowShape | src/components/Pagination.js:36-63 | in a list of first page, optional ellipsis, window, optional ellipsis and last page, adjacent numbers are consecutive and every ellipsis marks a gap |
| PageNumbers.View | src/components/Pagination.js:68 | nothing renders for at most one page; otherwise the page list |
| PageNumbers.ViewListsFirstAndLast | src/components/Pagination.js:68 | a rendered list always offers the first and the last page |
| PageNumbers.JumpTarget | src/components/Pagination.js:17-25 | Enter jumps exactly when the typed text reads as a page from 1 to the page count, and jumps to that page |
| PageNumbers.JumpToTypedPage | src/components/Pagination.js:17-25 | typing an existing page's number and pressing Enter goes to that page |
| PageNumbers.PageJumpBox.constructor | src/components/Pagination.js:15 | the box starts empty |
| PageNumbers.PageJumpBox.SetInputPage | src/components/Pagination.js:15 | typing replaces the box's text |
| PageNumbers.PageJumpBox.HandlePageInput | src/components/Pagination.js:17-25 | the key press jumps as the jump rule says, and a jump empties the box |
| SearchFilter.NewHistory | src/components/SearchFilter.js:82 | the new recent-search list; characterised by NewHistoryProperties |
| SearchFilter.Toggle | src/components/SearchFilter.js:101-107 | the category toggle; characterised by ToggleMembership and ToggleTwice |
| SearchFilter.FiltersActive | src/components/SearchFilter.js:219 | the clear-filters button's test; characterised by ClearFiltersButtonIffNotCleared |
| SearchFilter.LocalSuggestionList | src/components/SearchFilter.js:36-64 | the local suggestions; characterised by LocalSuggestionProperties and computed by LocalSuggestions |
| SearchFilter.NewHistoryProperties | src/components/SearchFilter.js:82 | the new history starts with the term, holds no other copy of it and at most five entries; the rest keep their earlier order; an entry is dropped only when five are kept; no duplicates appear |
| SearchFilter.ToggleMembership | src/components/SearchFilter.js:101-107 | toggling flips the membership of that category only; a new category goes at the end; removing keeps the order |
| SearchFilter.ToggleTwice | src/components/SearchFilter.js:101-107 | toggling twice restores the selected categories, and restores the list exactly for an unselected category |
| SearchFilter.LocalSuggestions | src/components/SearchFilter.js:40-63 | the loops over the listings produce exactly the local suggestion list |
| SearchFilter.AddWords | src/components/SearchFilter.js:52-57 | the loop over one listing's words adds the qualifying ones to the set in order |
| SearchFilter.AllListingWordsMembers | src/components/SearchFilter.js:44-50 | a word is a candidate exactly when it is a word of some listing's title or description, or its location or category |
| SearchFilter.LocalSuggestionProperties | src/components/SearchFilter.js:40-63 | at most six distinct words, each longer than two characters, containing the query ignoring case and coming from some listing; fewer than six only when no other word qualifies; none for a query shorter than two |
| SearchFilter.SearchBox.constructor | src/components/SearchFilter.js:13-22 | the box starts with the initial query, no history or suggestions, and the search hook's initial filters |
| SearchFilter.SearchBox.LoadHistory | src/components/SearchFilter.js:28-33 | the stored history replaces the history when there is one; nothing else changes |
| SearchFilter.SearchBox.HandleSearch | src/components/SearchFilter.js:76-86 | the query becomes the term and the suggestions close; a term that is not blank enters the history |
| SearchFilter.SearchBox.ClearSearch | src/components/SearchFilter.js:88-92 | the query is emptied and the suggestions close; history, suggestion list and filters stay |
| SearchFilter.SearchBox.ClearFilters | src/components/SearchFilter.js:94-99 | the filters return to their initial values and the clear button disappears |
| SearchFilter.SearchBox.HandleCategoryToggle | src/components/SearchFilter.js:101-107 | the selection is toggled and nothing else changes |
| SearchFilter.SearchBox.UpdateSuggestions | src/components/SearchFilter.js:36-64 | the suggestions become the local suggestion list for the debounced query; nothing else changes |
| SearchFilter.ClearFiltersButtonIffNotCleared | src/components/SearchFilter.js:219 | the clear-filters button shows exactly when the filters other than the sort differ from their initial values |
| UnreadMessages.FetchedCount | src/hooks/useUnreadMessages.js:24-32 | the fetched count is the number of rows returned, 0 when rows are missing or the query failed |
| UnreadMessages.Step | src/hooks/useUnreadMessages.js:51-69 | one realtime event's effect on the count; characterised by ReplayNonNegative, InsertThenRead and UpdateEffect |
| UnreadMessages.ReplayNonNegative | src/hooks/useUnreadMessages.js:5-77 | no sequence of sign-outs, fetches, inserts and updates makes the count negative |
| UnreadMessages.InsertThenRead | src/hooks/useUnreadMessages.js:51-69 | a new message that is then read leaves the count unchanged |
| UnreadMessages.UpdateEffect | src/hooks/useUnreadMessages.js:64-69 | only an unread-to-read change lowers the count, by one and not below 0 |
| UnreadMessages.UnreadTracker.constructor | src/hooks/useUnreadMessages.js:5-6 | the count starts at 0 and loading |
| UnreadMessages.UnreadTracker.RunEffect | src/hooks/useUnreadMessages.js:8-71 | with no user the count is 0 and loading stops; with a user the `messages` channel opens, filtered on that user as seller |
| UnreadMessages.UnreadTracker.FetchCompleted | src/hooks/useUnreadMessages.js:16-36 | the count becomes the fetched count and loading stops on every path |
| UnreadMessages.UnreadTracker.OnInsert | src/hooks/useUnreadMessages.js:51-54 | an insert adds one to the count |
| UnreadMessages.UnreadTracker.OnUpdate | src/hooks/useUnreadMessages.js:64-69 | an update changes the count as the update rule says |
| UnreadMessages.UnreadTracker.Teardown | src/hooks/useUnreadMessages.js:74-76 | the cleanup closes the channel and leaves the count |
| MessagesPage.MarkRead | src/app/messages/page.js:68-74 | every message with the id is marked read and every other message is unchanged |
| MessagesPage.MarkReadUnreadCount | src/app/messages/page.js:68-95 | marking lowers the unread count by the number of unread messages with that id |
| MessagesPage.MarkReadIdempotent | src/app/messages/page.js:68-74 | afterwards no message with that id is unread, and marking again changes nothing |
| MessagesPage.UnreadCount | src/app/messages/page.js:95 | the number of unread messages; related to marking by MarkReadUnreadCount |
| MessagesPage.Inbox.constructor | src/app/messages/page.js:10-14 | no messages, nothing pending, no message open |
| MessagesPage.Inbox.FetchMessages | src/app/messages/page.js:40-54 | the messages become the returned rows, or none when rows are missing or the query failed |
| MessagesPage.Inbox.BeginMarkAsRead | src/app/messages/page.js:57 | the id becomes pending |
| MessagesPage.Inbox.FinishMarkAsRead | src/app/messages/page.js:59-83 | on success the message is marked read locally, on failure nothing changes; the id stops being pending; the unread count never rises |
| MessagesPage.Inbox.HandleMessageClick | src/app/messages/page.js:86-93 | the message opens, and a read update is requested exactly for an unread message |
| MessagesPage.ShowBadge | src/app/messages/page.js:163-165 | the header badge shows exactly when some message is unread |
| MyListings.RemoveListingProperties | src/app/my-listings/page.js:81 | deleting drops every listing with that id and keeps the others in order; an absent id changes nothing |
| MyListings.RemoveListing | src/app/my-listings/page.js:81 | the local removal after a delete; characterised by RemoveListingProperties |
| MyListings.CountLabel | src/app/my-listings/page.js:177 | the noun is singular exactly for one listing |
| MyListings.ListingsPage.constructor | src/app/my-listings/page.js:10-12 | no listings, no pending delete, no message |
| MyListings.ListingsPage.FetchUserListings | src/app/my-listings/page.js:49-63 | the listings become the returned rows, or none when rows are missing or the query failed |
| MyListings.ListingsPage.BeginDelete | src/app/my-listings/page.js:65-70 | a declined confirmation sends nothing and changes nothing; otherwise the listing is pending and the request is sent |
| MyListings.ListingsPage.FinishDelete | src/app/my-listings/page.js:71-90 | on success the listing is removed and the success message shown; the pending mark is cleared on every path |
| MyListings.ListingsPage.ClearMessage | src/app/my-listings/page.js:84 | the timer empties the message |
| Display.LoadingShowsSkeleton | src/components/SearchStats.js:4-11 | while loading only the skeleton shows |
| Display.HasActiveSearch | src/components/SearchStats.js:13 | a non-blank query or a category other than "All"; used by the header rules |
| Display.Heading | src/components/SearchStats.js:19-22 | the header title; characterised by HeadingRules and BlankQueryHeading |
| Display.Render | src/components/SearchStats.js:3-55 | the results header; characterised by the header rule lemmas |
| Display.HeadingRules | src/components/SearchStats.js:13-22 | "All Listings" for a blank query in "All", "Search Results" for a query that is not blank, "<category> Listings" for an empty query in another category |
| Display.BlankQueryHeading | src/components/SearchStats.js:13-22 | a query of only white space in another category is headed "Search Results", though the search hook treats it as no search |
| Display.ResultLineRules | src/components/SearchStats.js:14-29 | during a search the header shows "<filtered> result(s)", which reads back as the filtered count |
| Display.PercentBadgeRule | src/components/SearchStats.js:30-34 | the percentage badge shows exactly during a search with active filters that dropped records, and shows the computed percentage |
| Display.SearchingForRule | src/components/SearchStats.js:40-47 | the query is echoed exactly when it is not empty |
| Display.TotalLineRules | src/components/SearchStats.js:49-51 | the total "<total> item(s)" shows exactly when there is no search, and reads back as the total |
| Display.CountLineReadsBack | src/components/SearchStats.js:14-50 | a count line reads back as its count and uses the singular noun exactly for one |
| Display.BadgeLabel | src/components/NotificationBadge.js:2-11 | no badge for a missing or zero count, "99+" above 99 |
| Display.BadgeLabelReadsAsCount | src/components/NotificationBadge.js:2-11 | a shown badge reads as the count capped at 99, and up to 99 is the count itself |
| Display.CappedLabelReadsBack | src/components/NotificationBadge.js:11 | "99+" reads as 99 |

## Left out

- The fuzzy index (Fuse.js: threshold, distance, keys, scoring) is a third-party library. The model takes its hits as a parameter. It requires only that they name distinct records of the data.
- Date parsing (`new Date(...)`) is a parameter. `setHours` works on local time, but the model counts days in UTC.
- Prices and price bounds are exact decimals (`real`). `parseFloat` yields a double, so digits past double precision are rounded and huge values become `Infinity`; the model keeps the exact value. `parseFloat` also reads `"Infinity"`, which the model reads as `NaN`.
- `parseInt` also accepts a hex prefix, which the model does not. The page box is a number input.
- The scores and `Math.round` are floating point. The model uses exact real scores and exact rounding (half up) of the rational 100·filtered/total.
- `localeCompare` depends on the locale. The model uses code-point lexicographic order in its place: a total order, with the same three-valued results. Code-point order also differs from UTF-16 code-unit order between characters above U+FFFF and those from U+E000 to U+FFFF.
- Strings are sequences of Unicode scalar values. The length tests of the suggestions count UTF-16 code units through `Text.Utf16Length`, as `.length` does; unpaired surrogates, which a JavaScript string may hold, are not modelled.
- `toLowerCase` is modelled for ASCII letters only.
- `split(/\s+/)` is modelled as a split on each white-space character. The two differ only in empty pieces, and the length test drops those.
- Backend calls, authentication, redirects, `localStorage`, debouncing, `alert`, focus handling and JSX markup are not modelled. Each backend answer is an argument (`Fetch<T>`) and each confirmation is a boolean.
- `setTimeout` is not modelled. `MyListings.ListingsPage.ClearMessage` stands for the timer firing.
- Concurrency between a pending fetch and realtime events, or between overlapping delete and mark-as-read requests, is not modelled. Each handler is split into its start and its end, and any interleaving of those calls is allowed.
- The session and loading flags of the messages and my-listings pages are not modelled, and neither are the simple `onChange` setters of the filter inputs.
- The render between a data change and the page-reset effect is not modelled. It briefly shows the old page number against the new data, and `Paging.Pager.SetData` resets at once.
- The other pages, API routes, middleware, the Supabase client and the debugging scripts are not part of this model.
- `UnreadMessages.UnreadTracker.RunEffect`: the realtime channel is the constant `messages`, and only its filter names the seller. The model records that seller id; the filter itself is the backend's, so the model counts every event it is given.
