/**
 * The Solr client's request and response shaping: the parameter dict
 * `search` sends, the filter-query strings, the pairing of Solr's flat facet
 * lists and the result dicts of `search`, `get_facet_values` and
 * `more_like_this`.  What Solr answers is a parameter (`SolrOutcome`,
 * `MltOutcome`); nothing here depends on Solr itself.
 */
module SolrClient {
  import opened Wrappers
  import opened Text
  import opened Json

  // ---------------------------------------------------------------------
  // search: the request parameters
  // ---------------------------------------------------------------------

  /** The facet keys: `facet='true'` with the requested fields. */
  datatype FacetParams = FacetParams(fields: seq<string>, minCount: int, limit: int)

  /** The highlighting keys: `hl='true'` with its fields, tags and fragment size. */
  datatype HighlightParams = HighlightParams(fields: string, pre: string, post: string, fragSize: int)

  /** The keyword arguments `search` passes to Solr; a None field is a key
      that is not set. */
  datatype SearchParams = SearchParams(
    q: string, defType: Option<string>, qf: Option<string>, pf: Option<string>,
    start: int, rows: int, fl: string,
    sort: Option<string>, fq: Option<seq<string>>,
    facet: Option<FacetParams>, hl: Option<HighlightParams>)

  /** A filter value, by the branch `search` takes on it; the values are
      given as the text `str()` gives them.  A tuple of any other length
      than two is `One` of its text. */
  datatype FilterValue =
    | Many(values: seq<string>)        // a list: OR of equality clauses
    | Range(low: string, high: string) // a 2-tuple: a range query
    | One(text: string)                // anything else: one equality clause

  const MatchAllQuery: string := "*:*"
  const Fields: string := "id,title,year,rating,tomatometer,genres,directors,cast,plot,reviews,url,site,num_reviews,poster"
  const QueryFields: string := "title^10 cast^5 directors^5 plot^2 reviews^2 genres"
  const PhraseFields: string := "title^25 cast^10 directors^10 plot^3 reviews^3"
  const FacetMinCount: int := 1
  const FacetLimit: int := 20
  const HighlightPre: string := "<mark>"
  const HighlightPost: string := "</mark>"
  const HighlightFragSize: int := 200
  const OrSeparator: string := " OR "

  /** `(not query) or (query == '*:*')`. */
  predicate IsMatchAll(query: string) {
    query == "" || query == MatchAllQuery
  }

  /** `f'{field}:"{v}"'`. */
  function Quoted(field: string, v: string): string {
    field + ":\"" + v + "\""
  }

  /** The OR clauses of a list filter, one per value, in order. */
  function OrClauses(field: string, values: seq<string>): (r: seq<string>)
    ensures |r| == |values|
    ensures forall k :: 0 <= k < |values| ==> r[k] == Quoted(field, values[k])
  {
    if values == [] then [] else [Quoted(field, values[0])] + OrClauses(field, values[1..])
  }

  /** The filter query of one `filters` entry. */
  function FilterQuery(field: string, value: FilterValue): string {
    match value
    case Many(values) => "(" + Join(OrClauses(field, values), OrSeparator) + ")"
    case Range(low, high) => field + ":[" + low + " TO " + high + "]"
    case One(text) => Quoted(field, text)
  }

  /** A list filter is a parenthesised OR of its clauses: between the
      parentheses, splitting on " OR " gives back one `field:"v"` clause per
      value, in order, provided no clause text itself contains " OR ". */
  lemma ManyFilterRoundTrip(field: string, values: seq<string>)
    requires |values| > 0
    requires forall k :: 0 <= k < |values| ==> Separable(Quoted(field, values[k]), OrSeparator)
    ensures var fq := FilterQuery(field, Many(values));
      && |fq| >= 2 && fq[0] == '(' && fq[|fq| - 1] == ')'
      && SplitOn(fq[1..|fq| - 1], OrSeparator) == OrClauses(field, values)
  {
    var clauses := OrClauses(field, values);
    var body := Join(clauses, OrSeparator);
    var fq := "(" + body + ")";
    assert fq[1..|fq| - 1] == body;
    SplitOnJoin(clauses, OrSeparator);
  }

  /** Every filter query names its field first (inside the parenthesis for
      a list). */
  lemma FilterQueryField(field: string, value: FilterValue)
    ensures var fq := FilterQuery(field, value);
      if value.Many? && |value.values| > 0 then StartsWith(fq, "(" + field + ":")
      else if value.Many? then fq == "()"
      else StartsWith(fq, field + ":")
  {
    var fq := FilterQuery(field, value);
    match value
    case Many(values) =>
      if |values| > 0 {
        var clauses := OrClauses(field, values);
        assert StartsWith(Join(clauses, OrSeparator), field + ":") by {
          if |clauses| == 1 {
            assert Join(clauses, OrSeparator) == clauses[0];
          } else {
            assert Join(clauses, OrSeparator) == clauses[0] + OrSeparator + Join(clauses[1..], OrSeparator);
          }
          assert clauses[0][..|field| + 1] == field + ":";
        }
        assert fq == "(" + Join(clauses, OrSeparator) + ")";
        assert fq[..|field| + 2] == "(" + Join(clauses, OrSeparator)[..|field| + 1];
      }
    case Range(low, high) =>
      assert fq[..|field| + 1] == field + ":";
    case One(text) =>
      assert fq[..|field| + 1] == field + ":";
  }

  /** The loop of `search` over the filter dict: one filter query per
      entry, in order. */
  method FilterQueries(filters: seq<(string, FilterValue)>) returns (fqList: seq<string>)
    ensures |fqList| == |filters|
    ensures forall k :: 0 <= k < |filters| ==> fqList[k] == FilterQuery(filters[k].0, filters[k].1)
  {
    fqList := [];
    var i := 0;
    while i < |filters|
      invariant 0 <= i <= |filters|
      invariant |fqList| == i
      invariant forall k :: 0 <= k < i ==> fqList[k] == FilterQuery(filters[k].0, filters[k].1)
    {
      var (field, value) := filters[i];
      match value {
        case Many(values) =>
          fqList := fqList + ["(" + Join(OrClauses(field, values), OrSeparator) + ")"];
        case Range(low, high) =>
          fqList := fqList + [field + ":[" + low + " TO " + high + "]"];
        case One(text) =>
          fqList := fqList + [Quoted(field, text)];
      }
      i := i + 1;
    }
  }

  /** Python truthiness of the optional `sort` argument. */
  predicate SortGiven(sort: Option<string>) {
    sort.Some? && sort.value != ""
  }

  /** The parameters of `search`, set key by key.  `filters` lists the
      filter dict's items in insertion order (None and {} are both the empty
      list), and `facets` is the facet field list (None and [] alike). */
  method BuildParams(query: string, filters: seq<(string, FilterValue)>, facets: seq<string>,
                     sort: Option<string>, start: int, rows: int, highlight: bool)
    returns (params: SearchParams)
    ensures params.q == if IsMatchAll(query) then MatchAllQuery else query
    ensures params.defType == if IsMatchAll(query) then None else Some("edismax")
    ensures params.qf == (if IsMatchAll(query) then None else Some(QueryFields))
    ensures params.pf == (if IsMatchAll(query) then None else Some(PhraseFields))
    ensures params.start == start && params.rows == rows && params.fl == Fields
    ensures params.sort == if SortGiven(sort) then Some(sort.value) else None
    ensures params.fq.Some? <==> |filters| > 0
    ensures params.fq.Some? ==>
      && |params.fq.value| == |filters|
      && forall k :: 0 <= k < |filters| ==> params.fq.value[k] == FilterQuery(filters[k].0, filters[k].1)
    ensures params.facet == if |facets| > 0 then Some(FacetParams(facets, FacetMinCount, FacetLimit)) else None
    ensures params.hl ==
      if highlight then Some(HighlightParams("plot,reviews", HighlightPre, HighlightPost, HighlightFragSize)) else None
  {
    var matchAll := query == "" || query == MatchAllQuery;
    if matchAll {
      params := SearchParams(MatchAllQuery, None, None, None, start, rows, Fields, None, None, None, None);
    } else {
      params := SearchParams(query, Some("edismax"), Some(QueryFields), Some(PhraseFields),
                             start, rows, Fields, None, None, None, None);
    }

    if sort.Some? && sort.value != "" {
      params := params.(sort := Some(sort.value));
    }

    if |filters| > 0 {
      var fqList := FilterQueries(filters);
      params := params.(fq := Some(fqList));
    }

    if |facets| > 0 {
      params := params.(facet := Some(FacetParams(facets, FacetMinCount, FacetLimit)));
    }

    if highlight {
      params := params.(hl := Some(HighlightParams("plot,reviews", HighlightPre, HighlightPost, HighlightFragSize)));
    }
  }

  // ---------------------------------------------------------------------
  // Facet pairing
  // ---------------------------------------------------------------------

  /** One facet bucket. */
  datatype FacetCount = FacetCount(value: Json, count: Json)

  /** `xs[0::2]`. */
  function EveryOther<T>(xs: seq<T>): (r: seq<T>)
    ensures |r| == (|xs| + 1) / 2
    ensures forall k :: 0 <= k < |r| ==> r[k] == xs[2 * k]
  {
    if |xs| <= 1 then xs else [xs[0]] + EveryOther(xs[2..])
  }

  /** `zip(values, counts)` into buckets: as long as the shorter list. */
  function ZipFacets(values: seq<Json>, counts: seq<Json>): (r: seq<FacetCount>)
    ensures |r| == if |values| <= |counts| then |values| else |counts|
    ensures forall k :: 0 <= k < |r| ==> r[k] == FacetCount(values[k], counts[k])
  {
    if values == [] || counts == [] then []
    else [FacetCount(values[0], counts[0])] + ZipFacets(values[1..], counts[1..])
  }

  /** `[{'value': v, 'count': c} for v, c in zip(flat[0::2], flat[1::2])]`:
      consecutive elements become one bucket, a trailing odd element is
      dropped. */
  function FacetPairs(flat: seq<Json>): (r: seq<FacetCount>)
    ensures |r| == |flat| / 2
    ensures forall k :: 0 <= k < |r| ==> r[k] == FacetCount(flat[2 * k], flat[2 * k + 1])
  {
    var odds := if flat == [] then [] else EveryOther(flat[1..]);
    ZipFacets(EveryOther(flat), odds)
  }

  /** The facets of a `search` response: every field's flat list paired. */
  function ProcessFacets(facetFields: Option<map<string, seq<Json>>>): (r: map<string, seq<FacetCount>>)
    ensures facetFields.None? ==> r == map[]
    ensures facetFields.Some? ==> r.Keys == facetFields.value.Keys
    ensures forall f :: f in r ==> |r[f]| == |facetFields.value[f]| / 2
  {
    match facetFields
    case None => map[]
    case Some(ff) => map f | f in ff :: FacetPairs(ff[f])
  }

  /** The stepped loop of `_parse_facets`: an element at an even index and
      its successor form a bucket when the successor exists.  It yields the
      same buckets as the slice-and-zip pairing. */
  method PairStepwise(values: seq<Json>) returns (facetList: seq<FacetCount>)
    ensures facetList == FacetPairs(values)
  {
    facetList := [];
    var i := 0;
    while i < |values|
      invariant 0 <= i <= |values| + 1 && i % 2 == 0
      invariant |facetList| == (if i <= |values| then i else |values|) / 2
      invariant forall k :: 0 <= k < |facetList| ==> facetList[k] == FacetCount(values[2 * k], values[2 * k + 1])
    {
      if i + 1 < |values| {
        facetList := facetList + [FacetCount(values[i], values[i + 1])];
      }
      i := i + 2;
    }
    assert |facetList| == |FacetPairs(values)|;
  }

  /** `_parse_facets`: {} for a falsy facet dict or one without
      `facet_fields` (both are None here), otherwise every field's flat list
      paired by the stepped loop. */
  method ParseFacets(facetFields: Option<map<string, seq<Json>>>) returns (parsed: map<string, seq<FacetCount>>)
    ensures parsed == ProcessFacets(facetFields)
  {
    parsed := map[];
    if facetFields.None? {
      return;
    }
    var fields := facetFields.value;
    var remaining := fields.Keys;
    while remaining != {}
      invariant remaining <= fields.Keys
      invariant parsed.Keys == fields.Keys - remaining
      invariant forall f :: f in parsed ==> parsed[f] == FacetPairs(fields[f])
      decreases |remaining|
    {
      var field :| field in remaining;
      var facetList := PairStepwise(fields[field]);
      parsed := parsed[field := facetList];
      remaining := remaining - {field};
    }
  }

  // ---------------------------------------------------------------------
  // search and get_facet_values: the responses
  // ---------------------------------------------------------------------

  /** What the Solr call in `search` or `get_facet_values` gave: an
      exception, or the documents, hit count, `facet_fields` (None when the
      result has no facets or no `facet_fields`) and highlighting (None when
      the result has no such attribute). */
  datatype SolrOutcome =
    | Raised
    | Results(docs: seq<Dict>, hits: int, facetFields: Option<map<string, seq<Json>>>, highlighting: Option<Json>)

  /** The dict `search` returns; `highlighting` is None when the key is
      absent (the error dict has none). */
  datatype SearchResponse = SearchResponse(docs: seq<Dict>, numFound: int,
                                           facets: map<string, seq<FacetCount>>, highlighting: Option<Json>)

  /** The response of `search`: on an exception, no documents, zero hits and
      no facets; otherwise the documents and hit count as Solr gave them,
      the paired facets and the highlighting ({} when absent). */
  function Search(outcome: SolrOutcome): (r: SearchResponse)
    ensures outcome.Raised? ==> r.docs == [] && r.numFound == 0 && r.facets == map[] && r.highlighting.None?
    ensures outcome.Results? ==>
      && r.docs == outcome.docs && r.numFound == outcome.hits
      && r.facets == ProcessFacets(outcome.facetFields)
      && r.highlighting == Some(outcome.highlighting.GetOr(JObject(map[])))
  {
    match outcome
    case Raised => SearchResponse([], 0, map[], None)
    case Results(docs, hits, facetFields, highlighting) =>
      SearchResponse(docs, hits, ProcessFacets(facetFields), Some(highlighting.GetOr(JObject(map[]))))
  }

  /** `get_facet_values`: the field's buckets, [] when the field is not
      among the facets, when there are no facets, or on an exception. */
  function GetFacetValues(outcome: SolrOutcome, field: string): (r: seq<FacetCount>)
    ensures outcome.Raised? || (outcome.Results? && outcome.facetFields.None?) ==> r == []
    ensures outcome.Results? && outcome.facetFields.Some? && field in outcome.facetFields.value ==>
      |r| == |outcome.facetFields.value[field]| / 2
    ensures outcome.Results? && outcome.facetFields.Some? && field !in outcome.facetFields.value ==> r == []
  {
    match outcome
    case Raised => []
    case Results(_, _, facetFields, _) =>
      match facetFields
      case None => []
      case Some(ff) => FacetPairs(if field in ff then ff[field] else [])
  }

  /** The single-field facets agree with the facets `search` reports. */
  lemma FacetValuesAgree(outcome: SolrOutcome, field: string)
    requires outcome.Results? && outcome.facetFields.Some? && field in outcome.facetFields.value
    ensures field in Search(outcome).facets
    ensures GetFacetValues(outcome, field) == Search(outcome).facets[field]
  {
  }

  // ---------------------------------------------------------------------
  // more_like_this
  // ---------------------------------------------------------------------

  /** The default similarity fields. */
  const DefaultMltFields: seq<string> := ["plot", "title", "genres", "cast", "directors", "reviews"]

  /** The keyword arguments of the `more_like_this` request. */
  datatype MltParams = MltParams(q: string, fields: string, minDf: int, minTf: int, count: int,
                                 interestingTerms: string, fl: string)

  /** The `more_like_this` request: the given fields (the default list when
      None) comma-joined, `rows` similar documents. */
  function MoreLikeThisParams(docId: string, mltFields: Option<seq<string>>, rows: int): (r: MltParams)
    ensures r.q == "id:" + docId && r.count == rows
    ensures mltFields.None? ==> r.fields == Join(DefaultMltFields, ",")
  {
    var fields := mltFields.GetOr(DefaultMltFields);
    MltParams("id:" + docId, Join(fields, ","), 1, 1, rows, "details",
              "id,title,year,rating,genres,directors,cast,plot,url,site,poster")
  }

  /** Solr reads back exactly the requested similarity fields when none of
      them contains a comma. */
  lemma MltFieldsRoundTrip(docId: string, fields: seq<string>, rows: int)
    requires |fields| > 0
    requires forall k :: 0 <= k < |fields| ==> !Contains(fields[k], ",")
    ensures SplitOn(MoreLikeThisParams(docId, Some(fields), rows).fields, ",") == fields
  {
    forall k | 0 <= k < |fields| ensures Separable(fields[k], ",") {
    }
    SplitOnJoin(fields, ",");
  }

  /** One `moreLikeThis` entry: a dict (its `docs` list, None when absent)
      or any other iterable of documents. */
  datatype MltEntry = MltDocs(docs: Option<seq<Json>>) | MltItems(items: seq<Json>)

  /** What the Solr call in `more_like_this` gave: an exception (its text),
      or the `moreLikeThis` dict of the raw response (None when the raw
      response has none) and the one pysolr parsed (empty when absent). */
  datatype MltOutcome =
    | MltRaised(error: string)
    | MltResults(raw: Option<map<string, MltEntry>>, parsed: map<string, MltEntry>)

  /** The dict `more_like_this` returns. */
  datatype MltResponse = MltResponse(docs: seq<Json>, numFound: int, sourceId: Option<string>, error: Option<string>)

  /** The documents of the entry for `docId` (an absent entry is `{}`). */
  function EntryDocs(entries: map<string, MltEntry>, docId: string): seq<Json> {
    var entry := if docId in entries then entries[docId] else MltDocs(None);
    match entry
    case MltDocs(docs) => docs.GetOr([])
    case MltItems(items) => items
  }

  /** `more_like_this`'s result shaping: the raw response's entry wins,
      then the parsed one when non-empty; `num_found` is always the number
      of documents returned, and an exception gives no documents and its
      message. */
  function MoreLikeThis(docId: string, outcome: MltOutcome): (r: MltResponse)
    ensures r.numFound == |r.docs|
    ensures outcome.MltRaised? ==> r.docs == [] && r.sourceId.None? && r.error == Some(outcome.error)
    ensures outcome.MltResults? ==> r.sourceId == Some(docId) && r.error.None?
    ensures outcome.MltResults? && outcome.raw.Some? ==> r.docs == EntryDocs(outcome.raw.value, docId)
    ensures outcome.MltResults? && outcome.raw.None? && |outcome.parsed| > 0 ==> r.docs == EntryDocs(outcome.parsed, docId)
    ensures outcome.MltResults? && outcome.raw.None? && |outcome.parsed| == 0 ==> r.docs == []
  {
    match outcome
    case MltRaised(error) => MltResponse([], 0, None, Some(error))
    case MltResults(raw, parsed) =>
      var similar :=
        if raw.Some? then EntryDocs(raw.value, docId)
        else if |parsed| > 0 then EntryDocs(parsed, docId)
        else [];
      MltResponse(similar, |similar|, Some(docId), None)
  }
}
