/**
 * The request handling of the Flask front end that is not Flask itself:
 * reading the search arguments (query, page, genre, year and rating
 * filters, sort), the pagination arithmetic, shaping each result document
 * for the template (plot and review text, highlighted text, poster, the
 * 300-character snippet), the autocomplete guard and its suggestions, and
 * the two template filters.  Solr is a function-valued parameter from the
 * parameters `search` sends to what the Solr call gives back.
 */
module WebApp {
  import opened Wrappers
  import opened Text
  import opened Json
  import opened Sequences
  import opened SolrClient

  const ResultsPerPage: int := 10
  const DefaultYearMin: int := 1900
  const DefaultYearMax: int := 2024
  const RatingMax: string := "10.0"
  const SnippetLength: int := 300
  const Ellipsis: string := "..."
  const MinPrefixLength: int := 2
  const AutocompleteRows: int := 10
  const SearchFacets: seq<string> := ["genres", "year"]
  const CommaSeparator: string := ", "

  // ---------------------------------------------------------------------
  // The query string of /search
  // ---------------------------------------------------------------------

  /** The raw arguments of a /search request; None is an argument that is
      not given, `genres` is `getlist('genres')`. */
  datatype SearchArgs = SearchArgs(
    q: Option<string>, page: Option<string>, genres: seq<string>,
    yearMin: Option<string>, yearMax: Option<string>, ratingMin: Option<string>,
    sort: Option<string>)

  /** `request.args.get(name, '').strip()`. */
  function Stripped(arg: Option<string>): string {
    Strip(arg.GetOr(""))
  }

  /** `request.args.get('q', '*:*').strip()`, or '*:*' when that is empty.
      The query is match-all exactly when it is blank or '*:*'; any other
      query reaches Solr stripped. */
  function NormalizeQuery(q: Option<string>): (r: string)
    ensures |r| > 0 && !IsSpace(r[0]) && !IsSpace(r[|r| - 1])
    ensures IsMatchAll(r) <==> Strip(q.GetOr(MatchAllQuery)) == "" || Strip(q.GetOr(MatchAllQuery)) == MatchAllQuery
    ensures !IsMatchAll(r) ==> r == Strip(q.GetOr(MatchAllQuery))
  {
    var query := Strip(q.GetOr(MatchAllQuery));
    if query == "" then MatchAllQuery else query
  }

  /** Normalising a normalised query changes nothing. */
  lemma NormalizeQueryIdempotent(q: Option<string>)
    ensures NormalizeQuery(Some(NormalizeQuery(q))) == NormalizeQuery(q)
  {
    StripUnchanged(NormalizeQuery(q));
  }

  /** `int(request.args.get('page', 1))`: 1 when absent; None where `int()`
      raises. */
  function PageNumber(page: Option<string>): (r: Option<int>)
    ensures page.None? ==> r == Some(1)
    ensures page.Some? && r.Some? ==> |Strip(page.value)| > 0
  {
    match page
    case None => Some(1)
    case Some(text) => ParseInt(text)
  }

  /** A page number written in decimal reads back as itself. */
  lemma PageNumberRoundTrip(p: int)
    ensures PageNumber(Some(IntToString(p))) == Some(p)
  {
    IntToStringRoundTrip(p);
  }

  /** `(page - 1) * RESULTS_PER_PAGE`: the index of the page's first result. */
  function Offset(page: int): (r: int)
    ensures r % ResultsPerPage == 0 && r / ResultsPerPage == page - 1
    ensures page >= 1 ==> r >= 0
  {
    (page - 1) * ResultsPerPage
  }

  /** Result `k` is shown on page `p` exactly when `p` is `k // 10 + 1`: the
      pages split the results into consecutive windows of ten. */
  lemma PageWindow(page: int, k: nat)
    requires page >= 1
    ensures Offset(page) <= k < Offset(page) + ResultsPerPage <==> page == k / ResultsPerPage + 1
  {
  }

  /** `(total + RESULTS_PER_PAGE - 1) // RESULTS_PER_PAGE`: the number of
      pages of ten that hold `total` results, rounded up. */
  function TotalPages(total: int): (r: int)
    ensures total >= 0 ==> r >= 0 && r * ResultsPerPage >= total && (r == 0 || (r - 1) * ResultsPerPage < total)
  {
    (total + ResultsPerPage - 1) / ResultsPerPage
  }

  /** Every result lies on a page that exists, and the last result is on
      the last page. */
  lemma ResultsFitPages(total: nat, k: nat)
    requires k < total
    ensures 1 <= k / ResultsPerPage + 1 <= TotalPages(total)
    ensures k == total - 1 ==> k / ResultsPerPage + 1 == TotalPages(total)
  {
  }

  /** One year bound: the default when the stripped argument is empty, else
      `int()` of it (None where that raises). */
  function YearBound(arg: Option<string>, default: int): (r: Option<int>)
    ensures Stripped(arg) == "" ==> r == Some(default)
    ensures r.None? ==> Stripped(arg) != ""
  {
    var text := Stripped(arg);
    if text == "" then Some(default) else ParseInt(text)
  }

  /** A year written in decimal is read back as itself. */
  lemma YearBoundRoundTrip(y: int, default: int)
    ensures YearBound(Some(IntToString(y)), default) == Some(y)
  {
    var text := IntToString(y);
    assert !IsSpace(text[0]) && !IsSpace(text[|text| - 1]);
    StripUnchanged(text);
    IntToStringRoundTrip(y);
  }

  /** Whether a year filter is added: either bound is given. */
  predicate YearGiven(args: SearchArgs) {
    Stripped(args.yearMin) != "" || Stripped(args.yearMax) != ""
  }

  /** The fields of a `filters` dict, in insertion order. */
  function FilterFields(filters: seq<(string, FilterValue)>): (r: seq<string>)
    ensures |r| == |filters| && forall k :: 0 <= k < |filters| ==> r[k] == filters[k].0
  {
    if filters == [] then [] else [filters[0].0] + FilterFields(filters[1..])
  }

  /** The genre entry of `filters`: present when any genre is selected. */
  function GenreFilter(args: SearchArgs): seq<(string, FilterValue)> {
    if |args.genres| > 0 then [("genres", Many(args.genres))] else []
  }

  /** The year entry of `filters`: present when either bound is given, with
      1900 and 2024 standing in for a missing bound; None where `int()`
      raises. */
  function YearFilter(args: SearchArgs): (r: Option<seq<(string, FilterValue)>>)
    ensures r.None? <==> YearGiven(args) && (YearBound(args.yearMin, DefaultYearMin).None? || YearBound(args.yearMax, DefaultYearMax).None?)
  {
    if !YearGiven(args) then Some([])
    else
      var low := YearBound(args.yearMin, DefaultYearMin);
      var high := YearBound(args.yearMax, DefaultYearMax);
      if low.None? || high.None? then None
      else Some([("year", Range(IntToString(low.value), IntToString(high.value)))])
  }

  /** The rating entry of `filters`: the range from the given minimum up to
      10.0; `floatText` is `str(float(x))`, None where `float()` raises. */
  function RatingFilter(args: SearchArgs, floatText: string -> Option<string>): (r: Option<seq<(string, FilterValue)>>)
    ensures r.None? <==> Stripped(args.ratingMin) != "" && floatText(Stripped(args.ratingMin)).None?
  {
    var rating := Stripped(args.ratingMin);
    if rating == "" then Some([])
    else if floatText(rating).None? then None
    else Some([("rating", Range(floatText(rating).value, RatingMax))])
  }

  /** The `filters` dict `search` builds, in insertion order: genres, year,
      rating.  None where `int()` or `float()` raises. */
  function SearchFilters(args: SearchArgs, floatText: string -> Option<string>): (r: Option<seq<(string, FilterValue)>>)
    ensures r.None? <==>
      || (YearGiven(args) && (YearBound(args.yearMin, DefaultYearMin).None? || YearBound(args.yearMax, DefaultYearMax).None?))
      || (Stripped(args.ratingMin) != "" && floatText(Stripped(args.ratingMin)).None?)
  {
    var year := YearFilter(args);
    var rating := RatingFilter(args, floatText);
    if year.None? || rating.None? then None
    else Some(GenreFilter(args) + year.value + rating.value)
  }

  /** Which filters `search` adds, in order, and with what values: the
      genres when any is selected, the year range when either bound is
      given (a missing minimum read as 1900, a missing maximum as 2024), the
      rating range when a minimum is given. */
  lemma SearchFiltersShape(args: SearchArgs, floatText: string -> Option<string>)
    requires SearchFilters(args, floatText).Some?
    ensures var filters := SearchFilters(args, floatText).value;
      && FilterFields(filters) ==
           (if |args.genres| > 0 then ["genres"] else [])
           + (if YearGiven(args) then ["year"] else [])
           + (if Stripped(args.ratingMin) != "" then ["rating"] else [])
      && (|args.genres| > 0 ==> filters[0] == ("genres", Many(args.genres)))
      && (YearGiven(args) ==>
            ("year", Range(IntToString(YearBound(args.yearMin, DefaultYearMin).value),
                           IntToString(YearBound(args.yearMax, DefaultYearMax).value))) in filters)
      && (Stripped(args.ratingMin) != "" ==>
            ("rating", Range(floatText(Stripped(args.ratingMin)).value, RatingMax)) in filters)
  {
    var genre := GenreFilter(args);
    var year := YearFilter(args).value;
    var rating := RatingFilter(args, floatText).value;
    FilterFieldsConcat(genre, year);
    FilterFieldsConcat(genre + year, rating);
    assert SearchFilters(args, floatText).value == genre + year + rating;
    if YearGiven(args) {
      assert (genre + year + rating)[|genre|] == year[0];
    }
    if Stripped(args.ratingMin) != "" {
      assert (genre + year + rating)[|genre| + |year|] == rating[0];
    }
  }

  lemma FilterFieldsConcat(a: seq<(string, FilterValue)>, b: seq<(string, FilterValue)>)
    ensures FilterFields(a + b) == FilterFields(a) + FilterFields(b)
  {
    var l := FilterFields(a + b);
    var r := FilterFields(a) + FilterFields(b);
    assert |l| == |r|;
    forall k | 0 <= k < |l| ensures l[k] == r[k] {
      assert (a + b)[k] == if k < |a| then a[k] else b[k - |a|];
    }
  }

  /** `request.args.get('sort', '')`, None when empty (relevance order). */
  function SortArg(sort: Option<string>): (r: Option<string>)
    ensures r.Some? <==> sort.Some? && sort.value != ""
    ensures SortGiven(r) <==> r.Some?
    ensures r.Some? ==> r == sort
  {
    if sort.None? || sort.value == "" then None else sort
  }

  // ---------------------------------------------------------------------
  // Shaping one result document
  // ---------------------------------------------------------------------

  /** A list-valued plot or review text collapses to its first element, or
      '' when the list is empty; any other value is kept. */
  function FirstOrEmpty(j: Json): (r: Json)
    ensures !j.JList? ==> r == j
    ensures j.JList? && |j.items| == 0 ==> r == JStr("")
    ensures j.JList? && |j.items| > 0 ==> r == j.items[0]
  {
    match j
    case JList(items) => if |items| > 0 then items[0] else JStr("")
    case _ => j
  }

  /** `x[0]` on a highlighting value; None where it raises (an empty list
      or string, a dict, a number, None). */
  function Index0(j: Json): (r: Option<Json>)
    ensures r.Some? <==> (j.JList? && |j.items| > 0) || (j.JStr? && |j.s| > 0)
    ensures j.JList? && |j.items| > 0 ==> r == Some(j.items[0])
    ensures j.JStr? && |j.s| > 0 ==> r == Some(JStr([j.s[0]]))
  {
    match j
    case JList(items) => if |items| > 0 then Some(items[0]) else None
    case JStr(s) => if |s| > 0 then Some(JStr([s[0]])) else None
    case _ => None
  }

  /** The highlighting entry of a document: present when the highlighting
      is an object with the document's (string) id as a key. */
  function HighlightEntry(highlighting: Json, docId: Json): (r: Option<Json>)
    ensures r.Some? <==> highlighting.JObject? && docId.JStr? && docId.s in highlighting.fields
    ensures r.Some? ==> r.value == highlighting.fields[docId.s]
  {
    if highlighting.JObject? && docId.JStr? && docId.s in highlighting.fields
    then Some(highlighting.fields[docId.s])
    else None
  }

  /** `hl.get(field, [fallback])[0]`; None where `.get` or `[0]` raises. */
  function HighlightedText(entry: Json, field: string, fallback: Json): (r: Option<Json>)
    ensures entry.JObject? && field !in entry.fields ==> r == Some(fallback)
    ensures entry.JObject? && field in entry.fields ==> r == Index0(entry.fields[field])
    ensures entry.JObject? && field in entry.fields && entry.fields[field].JList? && |entry.fields[field].items| > 0 ==>
      r == Some(entry.fields[field].items[0])
    ensures !entry.JObject? ==> r.None?
  {
    if entry.JObject? then Index0(GetOr(entry.fields, field, JList([fallback]))) else None
  }

  /** The snippet of a truthy text: the text, or its first 300 characters
      and '...' when it is longer; None where `len()` or the concatenation
      raises (a number or boolean, a list or dict longer than 300). */
  function Snip(j: Json): (r: Option<Json>)
    ensures j.JStr? ==> r.Some? && r.value.JStr?
    ensures j.JStr? ==> |r.value.s| <= SnippetLength + |Ellipsis|
    ensures j.JStr? && |j.s| <= SnippetLength ==> r == Some(j)
    ensures j.JStr? && |j.s| > SnippetLength ==>
      |r.value.s| == SnippetLength + |Ellipsis| && IsPrefix(r.value.s[..SnippetLength], j.s)
      && r.value.s[SnippetLength..] == Ellipsis
    ensures r.Some? && !j.JStr? ==> r == Some(j)
  {
    match j
    case JStr(s) => Some(if |s| > SnippetLength then JStr(s[..SnippetLength] + Ellipsis) else j)
    case JList(items) => if |items| > SnippetLength then None else Some(j)
    case JObject(fields) => if |fields| > SnippetLength then None else Some(j)
    case _ => None
  }

  /** Cutting a snippet again changes nothing. */
  lemma SnipIdempotent(s: string)
    ensures Snip(JStr(s)).Some? && Snip(Snip(JStr(s)).value) == Snip(JStr(s))
  {
    if |s| > SnippetLength {
      var t := s[..SnippetLength] + Ellipsis;
      assert t[..SnippetLength] == s[..SnippetLength];
    }
  }

  /** The snippet: of the highlighted plot when truthy, else of the
      highlighted reviews when truthy, else ''. */
  function Snippet(plot: Json, reviews: Json): (r: Option<Json>)
    ensures Truthy(plot) ==> r == Snip(plot)
    ensures !Truthy(plot) && Truthy(reviews) ==> r == Snip(reviews)
    ensures !Truthy(plot) && !Truthy(reviews) ==> r == Some(JStr(""))
  {
    if Truthy(plot) then Snip(plot)
    else if Truthy(reviews) then Snip(reviews)
    else Some(JStr(""))
  }

  /** A non-empty poster list collapses to its first element; anything
      else, None included, is kept. */
  function Poster(poster: Json): (r: Json)
    ensures poster.JList? && |poster.items| > 0 ==> r == poster.items[0]
    ensures !(poster.JList? && |poster.items| > 0) ==> r == poster
  {
    if poster.JList? && |poster.items| > 0 then poster.items[0] else poster
  }

  /** The keys the loop body of `search` sets on a document. */
  const ShapedKeys: set<string> := {"highlighted_plot", "highlighted_reviews", "poster", "snippet"}

  /** The highlighted plot and reviews of a document: from its highlighting
      entry when it has one, else its own plot and reviews. */
  function Highlights(doc: Dict, highlighting: Json): (r: Option<(Json, Json)>)
    requires "id" in doc
    ensures HighlightEntry(highlighting, doc["id"]).None? ==>
      r == Some((FirstOrEmpty(GetOr(doc, "plot", JStr(""))), FirstOrEmpty(GetOr(doc, "reviews", JStr("")))))
    ensures HighlightEntry(highlighting, doc["id"]).Some? ==>
      var entry := HighlightEntry(highlighting, doc["id"]).value;
      var hp := HighlightedText(entry, "plot", FirstOrEmpty(GetOr(doc, "plot", JStr(""))));
      var hr := HighlightedText(entry, "reviews", FirstOrEmpty(GetOr(doc, "reviews", JStr(""))));
      && (r.Some? <==> hp.Some? && hr.Some?)
      && (r.Some? ==> r.value == (hp.value, hr.value))
  {
    var plot := FirstOrEmpty(GetOr(doc, "plot", JStr("")));
    var reviews := FirstOrEmpty(GetOr(doc, "reviews", JStr("")));
    match HighlightEntry(highlighting, doc["id"])
    case None => Some((plot, reviews))
    case Some(entry) =>
      var hp := HighlightedText(entry, "plot", plot);
      var hr := HighlightedText(entry, "reviews", reviews);
      if hp.None? || hr.None? then None else Some((hp.value, hr.value))
  }

  /** The loop body of `search` on one document: None where it raises
      (`doc['id']` missing, a highlighting entry that cannot be indexed, a
      snippet source `len()` rejects). */
  function ShapeDoc(doc: Dict, highlighting: Json): (r: Option<Dict>)
    ensures "id" !in doc ==> r.None?
    ensures r.Some? ==> r.value.Keys == doc.Keys + ShapedKeys
    ensures r.Some? ==> forall k :: k in doc && k !in ShapedKeys ==> r.value[k] == doc[k]
    ensures r.Some? ==> r.value["poster"] == Poster(Get(doc, "poster"))
    ensures r.Some? ==> Some(r.value["snippet"]) == Snippet(r.value["highlighted_plot"], r.value["highlighted_reviews"])
    ensures "id" in doc && HighlightEntry(highlighting, doc["id"]).None? ==>
      (r.Some? <==> Snippet(FirstOrEmpty(GetOr(doc, "plot", JStr(""))), FirstOrEmpty(GetOr(doc, "reviews", JStr("")))).Some?)
    ensures r.Some? && HighlightEntry(highlighting, doc["id"]).None? ==>
      && r.value["highlighted_plot"] == FirstOrEmpty(GetOr(doc, "plot", JStr("")))
      && r.value["highlighted_reviews"] == FirstOrEmpty(GetOr(doc, "reviews", JStr("")))
    ensures r.Some? ==> Highlights(doc, highlighting) == Some((r.value["highlighted_plot"], r.value["highlighted_reviews"]))
    ensures "id" in doc && Highlights(doc, highlighting).Some? ==>
      (r.Some? <==> Snippet(Highlights(doc, highlighting).value.0, Highlights(doc, highlighting).value.1).Some?)
  {
    if "id" !in doc then None
    else
      match Highlights(doc, highlighting)
      case None => None
      case Some((hp, hr)) =>
        match Snippet(hp, hr)
        case None => None
        case Some(snippet) =>
          Some(doc["highlighted_plot" := hp]["highlighted_reviews" := hr]
                  ["poster" := Poster(Get(doc, "poster"))]["snippet" := snippet])
  }

  /** A document without highlighting whose plot is a non-empty string gets
      that plot as its snippet, cut at 300 characters. */
  lemma PlainPlotSnippet(doc: Dict, highlighting: Json, plot: string)
    requires "id" in doc && HighlightEntry(highlighting, doc["id"]).None?
    requires "plot" in doc && doc["plot"] == JStr(plot) && |plot| > 0
    ensures ShapeDoc(doc, highlighting).Some?
    ensures var snippet := ShapeDoc(doc, highlighting).value["snippet"];
      snippet.JStr? && |snippet.s| <= SnippetLength + |Ellipsis|
      && (|plot| <= SnippetLength ==> snippet.s == plot)
      && (|plot| > SnippetLength ==> IsPrefix(snippet.s[..SnippetLength], plot))
  {
  }

  /** A document whose highlighting entry holds snippet lists for both
      the plot and the reviews gets the first snippet of each, and its
      snippet is cut from the highlighted plot when that is non-empty. */
  lemma HighlightedDocSnippets(doc: Dict, highlighting: Json, plots: seq<Json>, reviews: seq<Json>)
    requires "id" in doc && HighlightEntry(highlighting, doc["id"]).Some?
    requires var entry := HighlightEntry(highlighting, doc["id"]).value;
      && entry.JObject?
      && "plot" in entry.fields && entry.fields["plot"] == JList(plots) && |plots| > 0
      && "reviews" in entry.fields && entry.fields["reviews"] == JList(reviews) && |reviews| > 0
    requires plots[0].JStr? && |plots[0].s| > 0
    ensures ShapeDoc(doc, highlighting).Some?
    ensures var shaped := ShapeDoc(doc, highlighting).value;
      && shaped["highlighted_plot"] == plots[0]
      && shaped["highlighted_reviews"] == reviews[0]
      && Some(shaped["snippet"]) == Snip(plots[0])
  {
    var entry := HighlightEntry(highlighting, doc["id"]).value;
    assert Highlights(doc, highlighting) == Some((plots[0], reviews[0]));
  }

  /** The loop of `search` over the result documents: every document
      shaped, in order; None where shaping one raises. */
  method ShapeDocs(docs: seq<Dict>, highlighting: Json) returns (shaped: Option<seq<Dict>>)
    ensures shaped.Some? <==> forall i :: 0 <= i < |docs| ==> ShapeDoc(docs[i], highlighting).Some?
    ensures shaped.Some? ==>
      && |shaped.value| == |docs|
      && forall i :: 0 <= i < |docs| ==> shaped.value[i] == ShapeDoc(docs[i], highlighting).value
  {
    var out: seq<Dict> := [];
    var i := 0;
    while i < |docs|
      invariant 0 <= i <= |docs| && |out| == i
      invariant forall j :: 0 <= j < i ==> ShapeDoc(docs[j], highlighting) == Some(out[j])
    {
      var doc := ShapeDoc(docs[i], highlighting);
      if doc.None? {
        return None;
      }
      out := out + [doc.value];
      i := i + 1;
    }
    return Some(out);
  }

  // ---------------------------------------------------------------------
  // /search
  // ---------------------------------------------------------------------

  /** The keyword arguments `search` passes to the results template. */
  datatype ResultsPage = ResultsPage(
    query: string, results: seq<Dict>, totalResults: int, page: int, totalPages: int,
    resultsPerPage: int, facets: map<string, seq<FacetCount>>,
    selectedGenres: seq<string>, yearMin: string, yearMax: string, ratingMin: string,
    sort: Option<string>)

  /** The `search` view: reads the arguments, asks Solr for one page of ten
      with genre and year facets and highlighting, and shapes the
      documents.  `params` is what was sent to Solr (None when reading the
      arguments raised); `page` is None where the view raises. */
  method SearchView(args: SearchArgs, floatText: string -> Option<string>, solr: SearchParams -> SolrOutcome)
    returns (params: Option<SearchParams>, page: Option<ResultsPage>)
    ensures params.None? <==> PageNumber(args.page).None? || SearchFilters(args, floatText).None?
    ensures page.Some? ==> params.Some?
    ensures params.Some? ==>
      var p := params.value;
      && p.q == (if IsMatchAll(NormalizeQuery(args.q)) then MatchAllQuery else NormalizeQuery(args.q))
      && p.start == Offset(PageNumber(args.page).value) && p.rows == ResultsPerPage
      && p.sort == SortArg(args.sort)
      && p.defType == (if IsMatchAll(NormalizeQuery(args.q)) then None else Some("edismax"))
      && p.qf == (if IsMatchAll(NormalizeQuery(args.q)) then None else Some(QueryFields))
      && p.pf == (if IsMatchAll(NormalizeQuery(args.q)) then None else Some(PhraseFields))
      && p.fl == Fields
      && (p.fq.Some? <==> |SearchFilters(args, floatText).value| > 0)
      && (p.fq.Some? ==>
            var filters := SearchFilters(args, floatText).value;
            && |p.fq.value| == |filters|
            && forall k :: 0 <= k < |filters| ==> p.fq.value[k] == FilterQuery(filters[k].0, filters[k].1))
      && p.facet == Some(FacetParams(SearchFacets, FacetMinCount, FacetLimit))
      && p.hl == Some(HighlightParams("plot,reviews", HighlightPre, HighlightPost, HighlightFragSize))
    ensures params.Some? ==>
      var response := Search(solr(params.value));
      var highlighting := response.highlighting.GetOr(JObject(map[]));
      && (page.Some? <==> forall i :: 0 <= i < |response.docs| ==> ShapeDoc(response.docs[i], highlighting).Some?)
      && (page.Some? ==>
            && page.value.query == NormalizeQuery(args.q)
            && page.value.page == PageNumber(args.page).value
            && page.value.totalResults == response.numFound
            && page.value.totalPages == TotalPages(response.numFound)
            && page.value.resultsPerPage == ResultsPerPage
            && page.value.facets == response.facets
            && page.value.selectedGenres == args.genres
            && page.value.yearMin == Stripped(args.yearMin) && page.value.yearMax == Stripped(args.yearMax)
            && page.value.ratingMin == Stripped(args.ratingMin)
            && page.value.sort == SortArg(args.sort)
            && |page.value.results| == |response.docs|
            && forall i :: 0 <= i < |response.docs| ==>
                 page.value.results[i] == ShapeDoc(response.docs[i], highlighting).value)
  {
    var query := NormalizeQuery(args.q);
    var pageNumber := PageNumber(args.page);
    if pageNumber.None? {
      return None, None;
    }
    var start := Offset(pageNumber.value);
    var filters := SearchFilters(args, floatText);
    if filters.None? {
      return None, None;
    }
    var sort := SortArg(args.sort);
    var sent := BuildParams(query, filters.value, SearchFacets, sort, start, ResultsPerPage, true);
    params := Some(sent);
    var response := Search(solr(sent));
    var totalPages := TotalPages(response.numFound);
    var shaped := ShapeDocs(response.docs, response.highlighting.GetOr(JObject(map[])));
    if shaped.None? {
      return params, None;
    }
    page := Some(ResultsPage(query, shaped.value, response.numFound, pageNumber.value, totalPages,
                             ResultsPerPage, response.facets, args.genres, Stripped(args.yearMin),
                             Stripped(args.yearMax), Stripped(args.ratingMin), sort));
  }

  // ---------------------------------------------------------------------
  // /api/autocomplete
  // ---------------------------------------------------------------------

  /** One suggestion: the title, year ('' when absent) and id. */
  datatype Suggestion = Suggestion(title: Json, year: Json, id: Json)

  /** The title-prefix query of a stripped prefix of two or more
      characters; None for a shorter one, which is answered with []. */
  function AutocompleteQuery(q: Option<string>): (r: Option<string>)
    ensures r.None? <==> |Stripped(q)| < MinPrefixLength
    ensures r.Some? ==>
      && |r.value| == |Stripped(q)| + 7 && StartsWith(r.value, "title:")
      && r.value[6..|r.value| - 1] == Stripped(q) && r.value[|r.value| - 1] == '*'
  {
    var prefix := Stripped(q);
    if |prefix| < MinPrefixLength then None else Some("title:" + prefix + "*")
  }

  /** The suggestions comprehension: one per document, in order; None where
      a document has no title or no id. */
  function Suggestions(docs: seq<Dict>): (r: Option<seq<Suggestion>>)
    ensures r.Some? <==> forall i :: 0 <= i < |docs| ==> "title" in docs[i] && "id" in docs[i]
    ensures r.Some? ==> |r.value| == |docs| && forall i :: 0 <= i < |docs| ==>
      r.value[i] == Suggestion(docs[i]["title"], GetOr(docs[i], "year", JStr("")), docs[i]["id"])
  {
    if docs == [] then Some([])
    else
      var d := docs[0];
      if "title" !in d || "id" !in d then None
      else
        match Suggestions(docs[1..])
        case None => None
        case Some(rest) => Some([Suggestion(d["title"], GetOr(d, "year", JStr("")), d["id"])] + rest)
  }

  /** The `api_autocomplete` view: [] without a Solr call for a short
      prefix; otherwise a ten-row edismax search for the title prefix and
      its suggestions (none when the search raised). */
  method Autocomplete(q: Option<string>, solr: SearchParams -> SolrOutcome)
    returns (params: Option<SearchParams>, suggestions: Option<seq<Suggestion>>)
    ensures |Stripped(q)| < MinPrefixLength ==> params.None? && suggestions == Some([])
    ensures |Stripped(q)| >= MinPrefixLength ==>
      && params.Some?
      && params.value.q == AutocompleteQuery(q).value && params.value.defType == Some("edismax")
      && params.value.start == 0 && params.value.rows == AutocompleteRows
      && params.value.fq.None? && params.value.facet.None? && params.value.hl.None? && params.value.sort.None?
      && suggestions == Suggestions(Search(solr(params.value)).docs)
  {
    var query := AutocompleteQuery(q);
    if query.None? {
      return None, Some([]);
    }
    assert query.value[0] == 't';
    var sent := BuildParams(query.value, [], [], None, 0, AutocompleteRows, false);
    params := Some(sent);
    suggestions := Suggestions(Search(solr(sent)).docs);
  }

  // ---------------------------------------------------------------------
  // Template filters
  // ---------------------------------------------------------------------

  /** `truncate_list`: `lst[:length]` (a negative length counts from the
      end, as in Python), [] for an empty list. */
  function TruncateList<T>(lst: seq<T>, length: int): (r: seq<T>)
    ensures |r| <= |lst| && r == lst[..|r|]
    ensures length >= 0 ==> |r| == if length < |lst| then length else |lst|
    ensures length < 0 ==> |r| == if |lst| + length > 0 then |lst| + length else 0
  {
    if |lst| == 0 then []
    else if length >= 0 then (if length < |lst| then lst[..length] else lst)
    else if |lst| + length > 0 then lst[..|lst| + length]
    else []
  }

  /** `str()` of each item. */
  function ItemTexts(items: seq<Json>, reprOf: Json -> string): (r: seq<string>)
    ensures |r| == |items| && forall k :: 0 <= k < |items| ==> r[k] == StrOf(items[k], reprOf)
  {
    if items == [] then [] else [StrOf(items[0], reprOf)] + ItemTexts(items[1..], reprOf)
  }

  /** `join_with_comma`: the items' text joined by ', ', '' for an empty
      list. */
  function JoinWithComma(items: seq<Json>, reprOf: Json -> string): (r: string)
    ensures |items| == 0 ==> r == ""
    ensures |items| == 1 ==> r == StrOf(items[0], reprOf)
  {
    if |items| == 0 then "" else Join(ItemTexts(items, reprOf), CommaSeparator)
  }

  /** Splitting the joined text on ', ' gives back each item's text, when
      no item text contains ', ' or ends with ','. */
  lemma JoinWithCommaRoundTrip(items: seq<Json>, reprOf: Json -> string)
    requires |items| > 0
    requires forall k :: 0 <= k < |items| ==> Separable(StrOf(items[k], reprOf), CommaSeparator)
    ensures SplitOn(JoinWithComma(items, reprOf), CommaSeparator) == ItemTexts(items, reprOf)
  {
    var texts := ItemTexts(items, reprOf);
    assert JoinWithComma(items, reprOf) == Join(texts, CommaSeparator);
    forall k | 0 <= k < |texts| ensures Separable(texts[k], CommaSeparator) {
      assert texts[k] == StrOf(items[k], reprOf);
    }
    SplitOnJoin(texts, CommaSeparator);
  }
}
