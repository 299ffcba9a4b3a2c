/**
 * The multi-source merger: IMDb movies keyed by `tconst`, enriched with
 * OMDb records keyed by `imdb_id` and matched against Roger Ebert reviews by
 * lower-cased title and year, with a title-only fallback.
 *
 * The input files are given as the record lists `json.load` produced (an
 * absent or undecodable file is the empty list); the output file is the
 * `saved` field.  A dict's insertion order is kept where the source relies
 * on it: the order of `movies`, which is the order of the saved list.
 */
module MergeData {
  import opened Wrappers
  import opened Text
  import opened Sequences
  import opened Json

  // ---------------------------------------------------------------------
  // _get_title_year_key
  // ---------------------------------------------------------------------

  /** `_get_title_year_key`: the lower-cased title, '_', and the year's text. */
  function TitleYearKey(title: string, year: string): (r: string)
    ensures |r| == |title| + 1 + |year| && r[|title|] == '_' && r[|title| + 1..] == year
  {
    Lower(title) + "_" + year
  }

  /** In a key built from an integer year, the last '_' is the one after
      the title. */
  lemma KeySeparator(title: string, year: int)
    ensures LastIndexOfChar(TitleYearKey(title, IntToString(year)), '_') == Some(|title|)
  {
    var y := IntToString(year);
    var k := TitleYearKey(title, y);
    assert k[|title|] == '_';
    assert forall j :: |title| < j < |k| ==> k[j] == y[j - |title| - 1];
    var r := LastIndexOfChar(k, '_');
    assert r.Some?;
    assert !(r.value < |title|);
    assert !(r.value > |title|);
  }

  /** Two movies get the same key exactly when their lower-cased titles and
      their years are equal. */
  lemma TitleYearKeyInjective(t1: string, y1: int, t2: string, y2: int)
    ensures TitleYearKey(t1, IntToString(y1)) == TitleYearKey(t2, IntToString(y2))
            <==> Lower(t1) == Lower(t2) && y1 == y2
  {
    var k1 := TitleYearKey(t1, IntToString(y1));
    var k2 := TitleYearKey(t2, IntToString(y2));
    if k1 == k2 {
      KeySeparator(t1, y1);
      KeySeparator(t2, y2);
      assert |t1| == |t2|;
      assert Lower(t1) == k1[..|t1|];
      assert Lower(t2) == k2[..|t2|];
      assert IntToString(y1) == k1[|t1| + 1..];
      assert IntToString(y2) == k2[|t2| + 1..];
      IntToStringInjective(y1, y2);
    }
  }

  // ---------------------------------------------------------------------
  // load_data: the keying loops
  // ---------------------------------------------------------------------

  /** Records inserted in order under their key: a later record with the
      same key replaces an earlier one, a record without a key is skipped. */
  function IndexFrom<K>(m: map<K, Dict>, records: seq<Dict>, keyOf: Dict -> Option<K>): map<K, Dict> {
    if records == [] then m
    else
      var prev := IndexFrom(m, records[..|records| - 1], keyOf);
      var last := records[|records| - 1];
      match keyOf(last)
      case None => prev
      case Some(k) => prev[k := last]
  }

  /** Record `i` is the last one filed under `k`. */
  ghost predicate LastWithKey<K>(records: seq<Dict>, keyOf: Dict -> Option<K>, k: K, i: int) {
    && 0 <= i < |records|
    && keyOf(records[i]) == Some(k)
    && forall j :: i < j < |records| ==> keyOf(records[j]) != Some(k)
  }

  /** The index holds a key iff it held it before or some record has it. */
  lemma {:induction false} IndexFromKeys<K>(m: map<K, Dict>, records: seq<Dict>, keyOf: Dict -> Option<K>, k: K)
    ensures k in IndexFrom(m, records, keyOf) <==>
            k in m || exists i :: 0 <= i < |records| && keyOf(records[i]) == Some(k)
  {
    if records != [] {
      var init := records[..|records| - 1];
      IndexFromKeys(m, init, keyOf, k);
      assert forall i :: 0 <= i < |init| ==> init[i] == records[i];
    }
  }

  /** A filed key holds the last record filed under it. */
  lemma {:induction false} IndexFromLast<K>(m: map<K, Dict>, records: seq<Dict>, keyOf: Dict -> Option<K>, k: K, i: int)
    requires LastWithKey(records, keyOf, k, i)
    ensures k in IndexFrom(m, records, keyOf) && IndexFrom(m, records, keyOf)[k] == records[i]
  {
    var init := records[..|records| - 1];
    if i < |init| {
      assert LastWithKey(init, keyOf, k, i);
      IndexFromLast(m, init, keyOf, k, i);
    }
  }

  /** A key no record has keeps its old value. */
  lemma {:induction false} IndexFromUntouched<K>(m: map<K, Dict>, records: seq<Dict>, keyOf: Dict -> Option<K>, k: K)
    requires k in m && forall i :: 0 <= i < |records| ==> keyOf(records[i]) != Some(k)
    ensures k in IndexFrom(m, records, keyOf) && IndexFrom(m, records, keyOf)[k] == m[k]
  {
    if records != [] {
      var init := records[..|records| - 1];
      assert forall i :: 0 <= i < |init| ==> init[i] == records[i];
      IndexFromUntouched(m, init, keyOf, k);
    }
  }

  /** The keys in order of first insertion: a key is appended the first
      time it is filed. */
  function OrderFrom<K(==)>(order: seq<K>, records: seq<Dict>, keyOf: Dict -> Option<K>): seq<K> {
    if records == [] then order
    else
      var prev := OrderFrom(order, records[..|records| - 1], keyOf);
      match keyOf(records[|records| - 1])
      case None => prev
      case Some(k) => if k in prev then prev else prev + [k]
  }

  /** The keys of the records that have one, in file order. */
  function RecordKeys<K>(records: seq<Dict>, keyOf: Dict -> Option<K>): (r: seq<K>)
    ensures |r| <= |records|
  {
    if records == [] then []
    else
      var init := records[..|records| - 1];
      var last := records[|records| - 1];
      RecordKeys(init, keyOf) + (match keyOf(last) case None => [] case Some(k) => [k])
  }

  /** The key order is the old order followed by the records' keys, each
      kept at its first occurrence: new keys appear in the order of their
      first records. */
  lemma {:induction false} OrderFromDedup<K>(order: seq<K>, records: seq<Dict>, keyOf: Dict -> Option<K>)
    requires NoDuplicates(order)
    ensures OrderFrom(order, records, keyOf) == DedupBy(order + RecordKeys(records, keyOf), Identity)
  {
    if records == [] {
      assert order + [] == order;
      DedupOfDistinct(order);
    } else {
      var init := records[..|records| - 1];
      var last := records[|records| - 1];
      OrderFromDedup(order, init, keyOf);
      var prev := OrderFrom(order, init, keyOf);
      var es := order + RecordKeys(init, keyOf);
      match keyOf(last)
      case None =>
        assert OrderFrom(order, records, keyOf) == prev;
        assert RecordKeys(records, keyOf) == RecordKeys(init, keyOf) + [];
        assert order + RecordKeys(records, keyOf) == es;
      case Some(k) =>
        assert OrderFrom(order, records, keyOf) == if k in prev then prev else prev + [k];
        assert RecordKeys(records, keyOf) == RecordKeys(init, keyOf) + [k];
        assert order + RecordKeys(records, keyOf) == es + [k];
        DedupByStep(es, k, Identity);
        KeysIdentity(prev, k);
    }
  }

  lemma {:induction false} OrderFromSpec<K>(order: seq<K>, records: seq<Dict>, keyOf: Dict -> Option<K>)
    ensures IsPrefix(order, OrderFrom(order, records, keyOf))
    ensures NoDuplicates(order) ==> NoDuplicates(OrderFrom(order, records, keyOf))
    ensures forall k :: k in OrderFrom(order, records, keyOf) <==>
            k in order || exists i :: 0 <= i < |records| && keyOf(records[i]) == Some(k)
  {
    if records != [] {
      var init := records[..|records| - 1];
      OrderFromSpec(order, init, keyOf);
      var prev := OrderFrom(order, init, keyOf);
      assert forall i :: 0 <= i < |init| ==> init[i] == records[i];
      match keyOf(records[|records| - 1])
      case None =>
      case Some(k) =>
        if k !in prev {
          assert (prev + [k])[..|order|] == prev[..|order|];
        }
    }
  }

  /** The records filed under `k`, in order. */
  function WithKey<K(==)>(records: seq<Dict>, keyOf: Dict -> Option<K>, k: K): (r: seq<Dict>)
    ensures forall d :: d in r <==> d in records && keyOf(d) == Some(k)
  {
    if records == [] then []
    else
      var last := records[|records| - 1];
      WithKey(records[..|records| - 1], keyOf, k) + (if keyOf(last) == Some(k) then [last] else [])
  }

  /** Records appended in order to the list under their key. */
  function GroupFrom<K>(m: map<K, seq<Dict>>, records: seq<Dict>, keyOf: Dict -> Option<K>): map<K, seq<Dict>> {
    if records == [] then m
    else
      var prev := GroupFrom(m, records[..|records| - 1], keyOf);
      var last := records[|records| - 1];
      match keyOf(last)
      case None => prev
      case Some(k) => prev[k := (if k in prev then prev[k] else []) + [last]]
  }

  /** The group of `k` is its old group followed by every record with key
      `k`, in file order. */
  lemma {:induction false} GroupFromSpec<K>(m: map<K, seq<Dict>>, records: seq<Dict>, keyOf: Dict -> Option<K>, k: K)
    ensures k in GroupFrom(m, records, keyOf) <==>
            k in m || exists i :: 0 <= i < |records| && keyOf(records[i]) == Some(k)
    ensures k in GroupFrom(m, records, keyOf) ==>
            GroupFrom(m, records, keyOf)[k] == (if k in m then m[k] else []) + WithKey(records, keyOf, k)
    ensures k !in GroupFrom(m, records, keyOf) ==> WithKey(records, keyOf, k) == []
  {
    if records != [] {
      var init := records[..|records| - 1];
      var last := records[|records| - 1];
      GroupFromSpec(m, init, keyOf, k);
      var prev := GroupFrom(m, init, keyOf);
      var g := GroupFrom(m, records, keyOf);
      assert WithKey(records, keyOf, k) == WithKey(init, keyOf, k) + (if keyOf(last) == Some(k) then [last] else []);
      if keyOf(last) == Some(k) {
        assert g == prev[k := (if k in prev then prev[k] else []) + [last]];
      } else {
        assert k in g <==> k in prev;
        assert k in g ==> g[k] == prev[k];
        forall i | 0 <= i < |records| && keyOf(records[i]) == Some(k)
          ensures i < |init| && keyOf(init[i]) == Some(k)
        {
          assert i != |records| - 1;
        }
        assert WithKey(records, keyOf, k) == WithKey(init, keyOf, k) + [];
      }
    }
  }

  /** One more record filed into an index. */
  lemma IndexFromStep<K>(m: map<K, Dict>, records: seq<Dict>, keyOf: Dict -> Option<K>, i: nat)
    requires i < |records|
    ensures IndexFrom(m, records[..i + 1], keyOf) ==
      match keyOf(records[i])
      case None => IndexFrom(m, records[..i], keyOf)
      case Some(k) => IndexFrom(m, records[..i], keyOf)[k := records[i]]
  {
    var prefix := records[..i + 1];
    assert prefix[..|prefix| - 1] == records[..i];
  }

  /** One more record appended to its group. */
  lemma GroupFromStep<K>(m: map<K, seq<Dict>>, records: seq<Dict>, keyOf: Dict -> Option<K>, i: nat)
    requires i < |records|
    ensures GroupFrom(m, records[..i + 1], keyOf) ==
      var prev := GroupFrom(m, records[..i], keyOf);
      match keyOf(records[i])
      case None => prev
      case Some(k) => prev[k := (if k in prev then prev[k] else []) + [records[i]]]
  {
    var prefix := records[..i + 1];
    assert prefix[..|prefix| - 1] == records[..i];
  }

  /** The Roger Ebert keying step as `load_data` writes it. */
  lemma EbertKeyStep(m: map<string, Dict>, records: seq<Dict>, i: nat, reprOf: Json -> string)
    requires i < |records| && !EbertTitleRaises(records[i])
    ensures IndexFrom(m, records[..i + 1], EbertKeyOf(reprOf)) ==
      if "title" in records[i]
      then IndexFrom(m, records[..i], EbertKeyOf(reprOf))[TitleYearKey(records[i]["title"].s, StrOf(GetOr(records[i], "year", JInt(0)), reprOf)) := records[i]]
      else IndexFrom(m, records[..i], EbertKeyOf(reprOf))
  {
    IndexFromStep(m, records, EbertKeyOf(reprOf), i);
  }

  /** The Roger Ebert grouping step as `load_data` writes it. */
  lemma EbertTitleStep(m: map<string, seq<Dict>>, records: seq<Dict>, i: nat)
    requires i < |records| && !EbertTitleRaises(records[i])
    ensures GroupFrom(m, records[..i + 1], EbertTitleOf) ==
      var prev := GroupFrom(m, records[..i], EbertTitleOf);
      var t := Strip(Lower(TextOf(GetOr(records[i], "title", JNull))));
      if "title" in records[i]
      then prev[t := (if t in prev then prev[t] else []) + [records[i]]]
      else prev
  {
    GroupFromStep(m, records, EbertTitleOf, i);
  }

  /** The IMDb key: the record's `tconst`. */
  function TconstOf(d: Dict): Option<Json> {
    if "tconst" in d then Some(d["tconst"]) else None
  }

  /** The OMDb key: the record's `imdb_id`. */
  function ImdbIdOf(d: Dict): Option<Json> {
    if "imdb_id" in d then Some(d["imdb_id"]) else None
  }

  /** A Rotten Tomatoes record is keyed by title and year when it has both. */
  function RtKeyOf(reprOf: Json -> string): Dict -> Option<string> {
    d =>
      if "title" in d && "year" in d then
        Some(TitleYearKey(TextOf(d["title"]), StrOf(d["year"], reprOf)))
      else None
  }

  /** The year of a Roger Ebert record, 0 when absent. */
  function EbertYear(d: Dict): Json {
    GetOr(d, "year", JInt(0))
  }

  /** A Roger Ebert record with a title is keyed by title and year. */
  function EbertKeyOf(reprOf: Json -> string): Dict -> Option<string> {
    d =>
      if "title" in d then
        Some(TitleYearKey(TextOf(d["title"]), StrOf(EbertYear(d), reprOf)))
      else None
  }

  /** A Roger Ebert record with a title is also filed under its lower-cased,
      stripped title. */
  function EbertTitleOf(d: Dict): Option<string> {
    if "title" in d then Some(Strip(Lower(TextOf(d["title"])))) else None
  }

  /** The Roger Ebert maps after filing `records` into `data0` and
      `titles0`: by title and year, and grouped by cleaned title. */
  ghost predicate EbertFiled(data: map<string, Dict>, titles: map<string, seq<Dict>>,
                             data0: map<string, Dict>, titles0: map<string, seq<Dict>>,
                             records: seq<Dict>, reprOf: Json -> string)
  {
    data == IndexFrom(data0, records, EbertKeyOf(reprOf)) && titles == GroupFrom(titles0, records, EbertTitleOf)
  }

  /** A Rotten Tomatoes record on which `load_data` raises: it has a title
      and a year, and `.lower()` meets a title that is not a string. */
  predicate RtTitleRaises(d: Dict) {
    "title" in d && "year" in d && !d["title"].JStr?
  }

  /** A Roger Ebert record on which `load_data` raises: its title is not a
      string. */
  predicate EbertTitleRaises(d: Dict) {
    "title" in d && !d["title"].JStr?
  }

  // ---------------------------------------------------------------------
  // process_and_merge, one movie at a time
  // ---------------------------------------------------------------------

  /** The OMDb step: metascore, tomatometer and poster are copied (None when
      missing) and a truthy plot replaces the movie's. */
  function MergeOmdb(movie: Dict, omdb: Option<Dict>): Dict {
    match omdb
    case None => movie
    case Some(o) =>
      var m := movie["metascore" := Get(o, "metascore")]["tomatometer" := Get(o, "tomatometer")]["poster" := Get(o, "poster")];
      if Truthy(Get(o, "plot")) then m["plot" := o["plot"]] else m
  }

  /** The title the source matches on: `primaryTitle or title`. */
  function MovieTitle(movie: Dict): (r: Json)
    ensures Truthy(Get(movie, "primaryTitle")) ==> r == Get(movie, "primaryTitle")
    ensures !Truthy(Get(movie, "primaryTitle")) ==> r == Get(movie, "title")
    ensures Truthy(r) <==> Truthy(Get(movie, "primaryTitle")) || Truthy(Get(movie, "title"))
  {
    PyOr(Get(movie, "primaryTitle"), Get(movie, "title"))
  }

  /** `int(startYear or year)` when both the title and the year are truthy;
      None when they are not or `int` raises. */
  function MovieYear(movie: Dict): (r: Option<int>)
    ensures r.Some? ==> Truthy(MovieTitle(movie))
    ensures Truthy(MovieTitle(movie)) && Get(movie, "startYear").JInt? && Get(movie, "startYear").i != 0 ==>
      r == Some(Get(movie, "startYear").i)
    ensures Truthy(MovieTitle(movie)) && !Truthy(Get(movie, "startYear")) && Get(movie, "year").JInt? && Get(movie, "year").i != 0 ==>
      r == Some(Get(movie, "year").i)
  {
    var yearValue := PyOr(Get(movie, "startYear"), Get(movie, "year"));
    if Truthy(MovieTitle(movie)) && Truthy(yearValue) then ToInt(yearValue) else None
  }

  /** What `process_and_merge` demands of a movie: `.lower()` is only ever
      applied to a string title. */
  predicate TitleIsText(movie: Dict) {
    MovieYear(movie).Some? ==> MovieTitle(movie).JStr?
  }

  /** `cand_year == 0 or abs(cand_year - year) <= 1`; None where the
      subtraction raises TypeError. */
  function YearClose(candYear: Json, year: int): Option<bool> {
    match candYear
    case JInt(i) => Some(i == 0 || -1 <= i - year <= 1)
    case JBool(b) => var v := if b then 1 else 0; Some(v == 0 || -1 <= v - year <= 1)
    case JNum(x) => Some(x == 0.0 || -1.0 <= x - year as real <= 1.0)
    case _ => None
  }

  /** Candidate `n` is the first one whose year is close, and none before it
      raised. */
  ghost predicate FirstClose(candidates: seq<Dict>, year: int, n: int) {
    && 0 <= n < |candidates|
    && YearClose(EbertYear(candidates[n]), year) == Some(true)
    && forall m :: 0 <= m < n ==> YearClose(EbertYear(candidates[m]), year) == Some(false)
  }

  /** The outcome of the candidate loop. */
  datatype Scan = Found(record: Dict) | NotFound | Raised

  /** The fallback loop: the first candidate whose year is 0 or within one
      year; a year that cannot be subtracted ends the loop with TypeError. */
  function FirstCandidate(candidates: seq<Dict>, year: int): (r: Scan)
    ensures r.Found? <==> exists n :: FirstClose(candidates, year, n)
    ensures r.Found? ==> exists n :: FirstClose(candidates, year, n) && candidates[n] == r.record
    ensures r.NotFound? <==> forall m :: 0 <= m < |candidates| ==> YearClose(EbertYear(candidates[m]), year) == Some(false)
  {
    if candidates == [] then NotFound
    else
      match YearClose(EbertYear(candidates[0]), year)
      case None => Raised
      case Some(close) =>
        if close then
          assert FirstClose(candidates, year, 0);
          Found(candidates[0])
        else
          var rest := FirstCandidate(candidates[1..], year);
          assert forall n :: FirstClose(candidates[1..], year, n) <==> FirstClose(candidates, year, n + 1);
          assert !FirstClose(candidates, year, 0);
          assert forall n :: FirstClose(candidates, year, n) ==> n == 0 || FirstClose(candidates[1..], year, n - 1);
          assert forall m :: 0 < m < |candidates| ==> candidates[m] == candidates[1..][m - 1];
          rest
  }

  /** The exact key of a movie whose year parses. */
  function ExactKey(movie: Dict): string
    requires MovieYear(movie).Some?
  {
    TitleYearKey(TextOf(MovieTitle(movie)), IntToString(MovieYear(movie).value))
  }

  /** The exact key finds a truthy record. */
  predicate ExactHit(movie: Dict, reData: map<string, Dict>) {
    MovieYear(movie).Some? && ExactKey(movie) in reData && |reData[ExactKey(movie)]| > 0
  }

  /** The title-map candidates for a movie. */
  function Candidates(movie: Dict, titles: map<string, seq<Dict>>): seq<Dict> {
    var t := Strip(Lower(TextOf(MovieTitle(movie))));
    if t in titles then titles[t] else []
  }

  /** The Roger Ebert record a movie is matched with, if any: the record
      under its exact title/year key, else the first title-only candidate
      whose year is 0 or within one year.  A falsy (empty) record does not
      count as a match. */
  function EbertLookup(movie: Dict, reData: map<string, Dict>, titles: map<string, seq<Dict>>): (r: Option<Dict>)
    ensures r.Some? ==> MovieYear(movie).Some? && |r.value| > 0
    ensures ExactHit(movie, reData) ==> r == Some(reData[ExactKey(movie)])
    ensures r.Some? && !ExactHit(movie, reData) ==>
            exists n :: FirstClose(Candidates(movie, titles), MovieYear(movie).value, n)
                        && Candidates(movie, titles)[n] == r.value
    ensures MovieYear(movie).Some? && !ExactHit(movie, reData) ==>
            (r.Some? <==> exists n :: FirstClose(Candidates(movie, titles), MovieYear(movie).value, n)
                                      && |Candidates(movie, titles)[n]| > 0)
  {
    match MovieYear(movie)
    case None => None
    case Some(year) =>
      var key := ExactKey(movie);
      if key in reData && |reData[key]| > 0 then Some(reData[key])
      else
        var candidates := Candidates(movie, titles);
        if |candidates| == 0 then None
        else
          match FirstCandidate(candidates, year)
          case Found(d) =>
            assert forall n, n' :: FirstClose(candidates, year, n) && FirstClose(candidates, year, n') ==> n == n';
            if |d| > 0 then Some(d) else None
          case _ => None
  }

  /** The `reviews` field after a match with `re`: created as an empty list
      when absent, then a list gets the review text appended and a string
      becomes the pair of itself and the review text; any other value stays. */
  function ReviewsAfterMatch(movie: Dict, re: Dict): (r: Json)
    ensures "reviews" !in movie ==> r == JList([GetOr(re, "reviews", JStr(""))])
    ensures "reviews" in movie && (movie["reviews"].JList? || movie["reviews"].JStr?) ==>
      r.JList? && |r.items| > 0 && r.items[|r.items| - 1] == GetOr(re, "reviews", JStr(""))
    ensures "reviews" in movie && movie["reviews"].JList? ==> r.items[..|r.items| - 1] == movie["reviews"].items
    ensures "reviews" in movie && !movie["reviews"].JList? && !movie["reviews"].JStr? ==> r == movie["reviews"]
  {
    var review := GetOr(re, "reviews", JStr(""));
    match GetOr(movie, "reviews", JList([]))
    case JList(xs) =>
      assert "reviews" !in movie ==> xs == [] && xs + [review] == [review];
      JList(xs + [review])
    case JStr(s) => JList([JStr(s), review])
    case other => other
  }

  /** The Roger Ebert step: the review, critic, rating and URL are copied
      (None when missing) and `reviews` is updated as above. */
  function ApplyEbert(movie: Dict, re: Dict): (r: Dict)
    ensures r.Keys == movie.Keys + EbertFields
    ensures forall f :: f !in EbertFields ==> Kept(movie, r, f)
    ensures r["rogerebert_review"] == Get(re, "reviews") && r["rogerebert_url"] == Get(re, "url")
  {
    movie["rogerebert_review" := Get(re, "reviews")]["rogerebert_critic" := Get(re, "critic")]
         ["rogerebert_rating" := Get(re, "rating")]["rogerebert_url" := Get(re, "url")]
         ["reviews" := ReviewsAfterMatch(movie, re)]
  }

  /** The `source` list: IMDb, then OMDb, then Roger Ebert. */
  function SourceList(fromOmdb: bool, fromEbert: bool): seq<Json> {
    [JStr("imdb")] + (if fromOmdb then [JStr("omdb")] else []) + (if fromEbert then [JStr("rogerebert")] else [])
  }

  /** The last step: `id` is the `tconst`, `source` is set and `tconst` is
      dropped. */
  function Finalize(movie: Dict, fromOmdb: bool): Dict {
    var m := movie["id" := Get(movie, "tconst")];
    m["source" := JList(SourceList(fromOmdb, "rogerebert_review" in m))] - {"tconst"}
  }

  /** The Roger Ebert step when there is a match. */
  function EbertStep(movie: Dict, ebert: Option<Dict>): Dict {
    match ebert
    case Some(re) => ApplyEbert(movie, re)
    case None => movie
  }

  /** The steps `process_and_merge` applies to one movie dict, given its
      OMDb record and its Roger Ebert match, if any. */
  function MergeFields(movie: Dict, omdb: Option<Dict>, ebert: Option<Dict>): Dict {
    Finalize(EbertStep(MergeOmdb(movie, omdb), ebert), omdb.Some?)
  }

  /** One movie through `process_and_merge`: the Roger Ebert match is looked
      up on the movie as the OMDb step left it. */
  function MergeMovie(imdbId: Json, movie: Dict, omdb: map<Json, Dict>,
                      reData: map<string, Dict>, titles: map<string, seq<Dict>>): Dict
  {
    var o := if imdbId in omdb then Some(omdb[imdbId]) else None;
    MergeFields(movie, o, EbertLookup(MergeOmdb(movie, o), reData, titles))
  }

  /** The fields each step may write. */
  const OmdbFields: set<string> := {"metascore", "tomatometer", "poster", "plot"}
  const EbertFields: set<string> :=
    {"rogerebert_review", "rogerebert_critic", "rogerebert_rating", "rogerebert_url", "reviews"}
  const FinalFields: set<string> := {"id", "source", "tconst"}

  /** Field `f` is present in `after` iff it was in `before`, with the same value. */
  predicate Kept(before: Dict, after: Dict, f: string) {
    (f in after <==> f in before) && (f in before ==> after[f] == before[f])
  }

  lemma OmdbStepKeeps(movie: Dict, omdb: Option<Dict>, f: string)
    requires f !in OmdbFields
    ensures Kept(movie, MergeOmdb(movie, omdb), f)
  {
  }

  lemma EbertStepKeeps(movie: Dict, ebert: Option<Dict>, f: string)
    requires ebert.None? || f !in EbertFields
    ensures Kept(movie, EbertStep(movie, ebert), f)
  {
  }

  lemma FinalizeKeeps(movie: Dict, fromOmdb: bool, f: string)
    requires f !in FinalFields
    ensures Kept(movie, Finalize(movie, fromOmdb), f)
  {
  }

  /** The OMDb step leaves the title and year fields alone, so the Roger
      Ebert match is the one of the movie as loaded. */
  lemma MatchAfterOmdb(movie: Dict, omdb: Option<Dict>, reData: map<string, Dict>, titles: map<string, seq<Dict>>)
    ensures EbertLookup(MergeOmdb(movie, omdb), reData, titles) == EbertLookup(movie, reData, titles)
  {
    var m := MergeOmdb(movie, omdb);
    assert MovieTitle(m) == MovieTitle(movie) by {
      assert Get(m, "primaryTitle") == Get(movie, "primaryTitle");
      assert Get(m, "title") == Get(movie, "title");
    }
    assert MovieYear(m) == MovieYear(movie) by {
      assert Get(m, "startYear") == Get(movie, "startYear");
      assert Get(m, "year") == Get(movie, "year");
    }
    LookupByTitleAndYear(m, movie, reData, titles);
  }

  /** The match depends on nothing but the title and the year. */
  lemma LookupByTitleAndYear(a: Dict, b: Dict, reData: map<string, Dict>, titles: map<string, seq<Dict>>)
    requires MovieTitle(a) == MovieTitle(b) && MovieYear(a) == MovieYear(b)
    ensures EbertLookup(a, reData, titles) == EbertLookup(b, reData, titles)
  {
    assert Candidates(a, titles) == Candidates(b, titles);
    if MovieYear(a).Some? {
      assert ExactKey(a) == ExactKey(b);
    }
  }

  /** The merge of a movie, in terms of its OMDb record and its match. */
  lemma MergeMovieFields(imdbId: Json, movie: Dict, omdb: map<Json, Dict>,
                         reData: map<string, Dict>, titles: map<string, seq<Dict>>)
    ensures MergeMovie(imdbId, movie, omdb, reData, titles)
            == MergeFields(movie, if imdbId in omdb then Some(omdb[imdbId]) else None, EbertLookup(movie, reData, titles))
  {
    MatchAfterOmdb(movie, if imdbId in omdb then Some(omdb[imdbId]) else None, reData, titles);
  }

  /** Every merged movie has `id` equal to its old `tconst`, no `tconst`,
      and a `source` list of IMDb, OMDb iff there is an OMDb record, and
      Roger Ebert iff a review was matched (or the movie already carried
      one). */
  lemma MergeFieldsIdentity(movie: Dict, omdb: Option<Dict>, ebert: Option<Dict>)
    ensures var r := MergeFields(movie, omdb, ebert);
      && "tconst" !in r
      && "id" in r && r["id"] == Get(movie, "tconst")
      && "source" in r
      && r["source"] == JList(SourceList(omdb.Some?, ebert.Some? || "rogerebert_review" in movie))
  {
    var m1 := MergeOmdb(movie, omdb);
    OmdbStepKeeps(movie, omdb, "tconst");
    OmdbStepKeeps(movie, omdb, "rogerebert_review");
    EbertStepKeeps(m1, ebert, "tconst");
  }

  /** With an OMDb record, metascore, tomatometer and poster come from it
      and a truthy OMDb plot replaces the movie's. */
  lemma MergeFieldsOmdb(movie: Dict, o: Dict, ebert: Option<Dict>)
    ensures var r := MergeFields(movie, Some(o), ebert);
      && r["metascore"] == Get(o, "metascore")
      && r["tomatometer"] == Get(o, "tomatometer")
      && r["poster"] == Get(o, "poster")
      && Get(r, "plot") == (if Truthy(Get(o, "plot")) then o["plot"] else Get(movie, "plot"))
  {
    LaterStepsKeepOmdb(MergeOmdb(movie, Some(o)), ebert);
  }

  /** The Roger Ebert and final steps leave the OMDb fields alone. */
  lemma LaterStepsKeepOmdb(m1: Dict, ebert: Option<Dict>)
    ensures var r := Finalize(EbertStep(m1, ebert), true);
      Kept(m1, r, "metascore") && Kept(m1, r, "tomatometer") && Kept(m1, r, "poster") && Kept(m1, r, "plot")
  {
    var m2 := EbertStep(m1, ebert);
    forall f | f in OmdbFields ensures Kept(m1, Finalize(m2, true), f) {
      EbertStepKeeps(m1, ebert, f);
      FinalizeKeeps(m2, true, f);
    }
  }

  /** Without an OMDb record, metascore, tomatometer, poster and plot are
      as they were. */
  lemma MergeFieldsNoOmdb(movie: Dict, ebert: Option<Dict>)
    ensures forall f :: f in OmdbFields ==> Kept(movie, MergeFields(movie, None, ebert), f)
  {
    var m2 := EbertStep(movie, ebert);
    forall f | f in OmdbFields ensures Kept(movie, MergeFields(movie, None, ebert), f) {
      EbertStepKeeps(movie, ebert, f);
      FinalizeKeeps(m2, false, f);
    }
  }

  /** On a match with `re`, the four `rogerebert_*` fields come from it and
      `reviews` follows the list/string rule. */
  lemma MergeFieldsEbert(movie: Dict, omdb: Option<Dict>, re: Dict)
    ensures var r := MergeFields(movie, omdb, Some(re));
      && r["rogerebert_review"] == Get(re, "reviews")
      && r["rogerebert_critic"] == Get(re, "critic")
      && r["rogerebert_rating"] == Get(re, "rating")
      && r["rogerebert_url"] == Get(re, "url")
      && Get(r, "reviews") == ReviewsAfterMatch(movie, re)
  {
    var m1 := MergeOmdb(movie, omdb);
    var m2 := EbertStep(m1, Some(re));
    OmdbStepKeeps(movie, omdb, "reviews");
    assert ReviewsAfterMatch(m1, re) == ReviewsAfterMatch(movie, re);
    forall f | f in EbertFields ensures Kept(m2, Finalize(m2, omdb.Some?), f) {
      FinalizeKeeps(m2, omdb.Some?, f);
    }
  }

  /** Without a match, the Roger Ebert fields are as they were. */
  lemma MergeFieldsNoEbert(movie: Dict, omdb: Option<Dict>)
    ensures forall f :: f in EbertFields ==> Kept(movie, MergeFields(movie, omdb, None), f)
  {
    var m1 := MergeOmdb(movie, omdb);
    forall f | f in EbertFields ensures Kept(movie, MergeFields(movie, omdb, None), f) {
      OmdbStepKeeps(movie, omdb, f);
      FinalizeKeeps(m1, omdb.Some?, f);
    }
  }

  /** Nothing outside the merged fields changes. */
  lemma MergeFieldsUntouched(movie: Dict, omdb: Option<Dict>, ebert: Option<Dict>)
    ensures forall f :: f !in OmdbFields + EbertFields + FinalFields ==> Kept(movie, MergeFields(movie, omdb, ebert), f)
  {
    var m1 := MergeOmdb(movie, omdb);
    var m2 := EbertStep(m1, ebert);
    forall f | f !in OmdbFields + EbertFields + FinalFields ensures Kept(movie, MergeFields(movie, omdb, ebert), f) {
      OmdbStepKeeps(movie, omdb, f);
      EbertStepKeeps(m1, ebert, f);
      FinalizeKeeps(m2, omdb.Some?, f);
    }
  }

  /** The documents of `m`, in the order `order` lists their keys. */
  function ValuesInOrder(order: seq<Json>, m: map<Json, Dict>): (r: seq<Dict>)
    requires forall k :: k in order ==> k in m
    ensures |r| == |order|
    ensures forall i :: 0 <= i < |order| ==> r[i] == m[order[i]]
  {
    if order == [] then [] else [m[order[0]]] + ValuesInOrder(order[1..], m)
  }

  class DataMerger {
    var movies: map<Json, Dict>
    var movieOrder: seq<Json>                 // the keys of `movies` in insertion order
    var omdbData: map<Json, Dict>
    var rtData: map<string, Dict>
    var rogerEbertData: map<string, Dict>
    var rogerEbertTitleMap: map<string, seq<Dict>>
    var saved: Option<seq<Dict>>               // the output file, None until written

    ghost predicate Valid()
      reads this
    {
      (forall k :: k in movieOrder <==> k in movies) && NoDuplicates(movieOrder)
    }

    constructor()
      ensures Valid()
      ensures movies == map[] && movieOrder == [] && omdbData == map[] && rtData == map[]
      ensures rogerEbertData == map[] && rogerEbertTitleMap == map[] && saved == None
    {
      movies := map[];
      movieOrder := [];
      omdbData := map[];
      rtData := map[];
      rogerEbertData := map[];
      rogerEbertTitleMap := map[];
      saved := None;
    }

    /** `load_data`: files each source's records under its key.  A title
        that is not a string makes `.lower()` raise: the records before it
        stay filed, and `raised` reports the exception, which ends the load
        (and the program). */
    method LoadData(imdbMovies: seq<Dict>, omdbMovies: seq<Dict>, rtMovies: seq<Dict>, reReviews: seq<Dict>,
                    reprOf: Json -> string)
      returns (raised: bool)
      requires Valid()
      modifies this
      ensures Valid()
      ensures movies == IndexFrom(old(movies), imdbMovies, TconstOf)
      ensures movieOrder == OrderFrom(old(movieOrder), imdbMovies, TconstOf)
      ensures omdbData == IndexFrom(old(omdbData), omdbMovies, ImdbIdOf)
      ensures var n := FirstWhere(rtMovies, RtTitleRaises);
        rtData == IndexFrom(old(rtData), rtMovies[..n], RtKeyOf(reprOf))
      ensures var n := FirstWhere(reReviews, EbertTitleRaises);
        if FirstWhere(rtMovies, RtTitleRaises) < |rtMovies| then
          rogerEbertData == old(rogerEbertData) && rogerEbertTitleMap == old(rogerEbertTitleMap)
        else
          EbertFiled(rogerEbertData, rogerEbertTitleMap, old(rogerEbertData), old(rogerEbertTitleMap), reReviews[..n], reprOf)
      ensures raised <==> FirstWhere(rtMovies, RtTitleRaises) < |rtMovies| || FirstWhere(reReviews, EbertTitleRaises) < |reReviews|
      ensures saved == old(saved)
    {
      LoadImdb(imdbMovies);
      LoadOmdb(omdbMovies);
      raised := LoadRt(rtMovies, reprOf);
      if raised {
        return;
      }
      raised := LoadEbert(reReviews, reprOf);
    }

    /** The IMDb file: movies keyed by `tconst`, new keys appended to the order. */
    method LoadImdb(records: seq<Dict>)
      requires Valid()
      modifies this
      ensures Valid()
      ensures movies == IndexFrom(old(movies), records, TconstOf)
      ensures movieOrder == OrderFrom(old(movieOrder), records, TconstOf)
      ensures omdbData == old(omdbData) && rtData == old(rtData) && saved == old(saved)
      ensures rogerEbertData == old(rogerEbertData) && rogerEbertTitleMap == old(rogerEbertTitleMap)
    {
      var i := 0;
      while i < |records|
        invariant 0 <= i <= |records|
        invariant Valid()
        invariant movies == IndexFrom(old(movies), records[..i], TconstOf)
        invariant movieOrder == OrderFrom(old(movieOrder), records[..i], TconstOf)
        invariant omdbData == old(omdbData) && rtData == old(rtData) && saved == old(saved)
        invariant rogerEbertData == old(rogerEbertData) && rogerEbertTitleMap == old(rogerEbertTitleMap)
      {
        var movie := records[i];
        assert records[..i + 1][..i] == records[..i];
        if "tconst" in movie {
          var key := movie["tconst"];
          if key !in movies {
            movieOrder := movieOrder + [key];
          }
          movies := movies[key := movie];
        }
        i := i + 1;
      }
      assert records[..i] == records;
    }

    /** The OMDb file: records keyed by `imdb_id`. */
    method LoadOmdb(records: seq<Dict>)
      modifies this
      ensures omdbData == IndexFrom(old(omdbData), records, ImdbIdOf)
      ensures movies == old(movies) && movieOrder == old(movieOrder) && rtData == old(rtData) && saved == old(saved)
      ensures rogerEbertData == old(rogerEbertData) && rogerEbertTitleMap == old(rogerEbertTitleMap)
    {
      var i := 0;
      while i < |records|
        invariant 0 <= i <= |records|
        invariant omdbData == IndexFrom(old(omdbData), records[..i], ImdbIdOf)
        invariant movies == old(movies) && movieOrder == old(movieOrder) && rtData == old(rtData) && saved == old(saved)
        invariant rogerEbertData == old(rogerEbertData) && rogerEbertTitleMap == old(rogerEbertTitleMap)
      {
        var movie := records[i];
        assert records[..i + 1][..i] == records[..i];
        if "imdb_id" in movie {
          omdbData := omdbData[movie["imdb_id"] := movie];
        }
        i := i + 1;
      }
      assert records[..i] == records;
    }

    /** The Rotten Tomatoes file: records keyed by title and year, up to
        the first title `.lower()` raises on. */
    method LoadRt(records: seq<Dict>, reprOf: Json -> string) returns (raised: bool)
      modifies this
      ensures raised <==> FirstWhere(records, RtTitleRaises) < |records|
      ensures rtData == IndexFrom(old(rtData), records[..FirstWhere(records, RtTitleRaises)], RtKeyOf(reprOf))
      ensures movies == old(movies) && movieOrder == old(movieOrder) && omdbData == old(omdbData) && saved == old(saved)
      ensures rogerEbertData == old(rogerEbertData) && rogerEbertTitleMap == old(rogerEbertTitleMap)
    {
      ghost var data0 := rtData;
      var i := 0;
      while i < |records|
        invariant 0 <= i <= |records|
        invariant forall k :: 0 <= k < i ==> !RtTitleRaises(records[k])
        invariant rtData == IndexFrom(data0, records[..i], RtKeyOf(reprOf))
        invariant movies == old(movies) && movieOrder == old(movieOrder) && omdbData == old(omdbData) && saved == old(saved)
        invariant rogerEbertData == old(rogerEbertData) && rogerEbertTitleMap == old(rogerEbertTitleMap)
      {
        if RtTitleRaises(records[i]) {
          break;
        }
        FileRt(records, i, reprOf, data0);
        i := i + 1;
      }
      FirstWhereAt(records, RtTitleRaises, i);
      raised := i < |records|;
    }

    /** One iteration of the Rotten Tomatoes loop, on a record whose title
        (if it has a title and a year) is a string. */
    method FileRt(records: seq<Dict>, i: nat, reprOf: Json -> string, ghost data0: map<string, Dict>)
      requires i < |records| && !RtTitleRaises(records[i])
      requires rtData == IndexFrom(data0, records[..i], RtKeyOf(reprOf))
      modifies this
      ensures rtData == IndexFrom(data0, records[..i + 1], RtKeyOf(reprOf))
      ensures movies == old(movies) && movieOrder == old(movieOrder) && omdbData == old(omdbData) && saved == old(saved)
      ensures rogerEbertData == old(rogerEbertData) && rogerEbertTitleMap == old(rogerEbertTitleMap)
    {
      var movie := records[i];
      IndexFromStep(data0, records, RtKeyOf(reprOf), i);
      if "title" in movie && "year" in movie {
        var key := TitleYearKey(movie["title"].s, StrOf(movie["year"], reprOf));
        rtData := rtData[key := movie];
      }
    }

    /** The Roger Ebert file: records keyed by title and year (0 when
        absent), and grouped by cleaned title. */
    method LoadEbert(records: seq<Dict>, reprOf: Json -> string) returns (raised: bool)
      modifies this
      ensures raised <==> FirstWhere(records, EbertTitleRaises) < |records|
      ensures EbertFiled(rogerEbertData, rogerEbertTitleMap, old(rogerEbertData), old(rogerEbertTitleMap),
                         records[..FirstWhere(records, EbertTitleRaises)], reprOf)
      ensures movies == old(movies) && movieOrder == old(movieOrder) && omdbData == old(omdbData)
      ensures rtData == old(rtData) && saved == old(saved)
    {
      ghost var data0, titles0 := rogerEbertData, rogerEbertTitleMap;
      var i := 0;
      while i < |records|
        invariant 0 <= i <= |records|
        invariant forall k :: 0 <= k < i ==> !EbertTitleRaises(records[k])
        invariant EbertFiled(rogerEbertData, rogerEbertTitleMap, data0, titles0, records[..i], reprOf)
        invariant movies == old(movies) && movieOrder == old(movieOrder) && omdbData == old(omdbData)
        invariant rtData == old(rtData) && saved == old(saved)
      {
        if EbertTitleRaises(records[i]) {
          break;
        }
        FileEbert(records, i, reprOf, data0, titles0);
        i := i + 1;
      }
      FirstWhereAt(records, EbertTitleRaises, i);
      raised := i < |records|;
    }

    /** One iteration of the Roger Ebert loop, on a record whose title (if
        any) is a string. */
    method FileEbert(records: seq<Dict>, i: nat, reprOf: Json -> string,
                     ghost data0: map<string, Dict>, ghost titles0: map<string, seq<Dict>>)
      requires i < |records| && !EbertTitleRaises(records[i])
      requires EbertFiled(rogerEbertData, rogerEbertTitleMap, data0, titles0, records[..i], reprOf)
      modifies this
      ensures EbertFiled(rogerEbertData, rogerEbertTitleMap, data0, titles0, records[..i + 1], reprOf)
      ensures movies == old(movies) && movieOrder == old(movieOrder) && omdbData == old(omdbData)
      ensures rtData == old(rtData) && saved == old(saved)
    {
      FileEbertKey(records, i, reprOf, data0);
      FileEbertTitle(records, i, titles0);
    }

    /** One iteration of the Roger Ebert loop, first half: record `i` is
        filed under its title and year. */
    method FileEbertKey(records: seq<Dict>, i: nat, reprOf: Json -> string, ghost data0: map<string, Dict>)
      requires i < |records| && !EbertTitleRaises(records[i])
      requires rogerEbertData == IndexFrom(data0, records[..i], EbertKeyOf(reprOf))
      modifies this
      ensures rogerEbertData == IndexFrom(data0, records[..i + 1], EbertKeyOf(reprOf))
      ensures movies == old(movies) && movieOrder == old(movieOrder) && omdbData == old(omdbData)
      ensures rtData == old(rtData) && saved == old(saved) && rogerEbertTitleMap == old(rogerEbertTitleMap)
    {
      var movie := records[i];
      EbertKeyStep(data0, records, i, reprOf);
      if "title" in movie {
        var year := GetOr(movie, "year", JInt(0));
        var key := TitleYearKey(movie["title"].s, StrOf(year, reprOf));
        rogerEbertData := rogerEbertData[key := movie];
      }
    }

    /** One iteration of the Roger Ebert loop, second half: record `i` is
        appended to the group of its cleaned title. */
    method FileEbertTitle(records: seq<Dict>, i: nat, ghost titles0: map<string, seq<Dict>>)
      requires i < |records| && !EbertTitleRaises(records[i])
      requires rogerEbertTitleMap == GroupFrom(titles0, records[..i], EbertTitleOf)
      modifies this
      ensures rogerEbertTitleMap == GroupFrom(titles0, records[..i + 1], EbertTitleOf)
      ensures movies == old(movies) && movieOrder == old(movieOrder) && omdbData == old(omdbData)
      ensures rtData == old(rtData) && saved == old(saved) && rogerEbertData == old(rogerEbertData)
    {
      var movie := records[i];
      EbertTitleStep(titles0, records, i);
      if "title" in movie {
        var cleanTitle := Strip(Lower(movie["title"].s));
        var group := if cleanTitle in rogerEbertTitleMap then rogerEbertTitleMap[cleanTitle] else [];
        rogerEbertTitleMap := rogerEbertTitleMap[cleanTitle := group + [movie]];
      }
    }

    /** `process_and_merge`: every movie is merged in place; no movie is
        added or removed. */
    method ProcessAndMerge()
      requires Valid()
      requires forall k :: k in movies ==> TitleIsText(movies[k])
      modifies this
      ensures Valid() && movieOrder == old(movieOrder)
      ensures movies.Keys == old(movies).Keys
      ensures forall k :: k in movies ==>
        movies[k] == MergeMovie(k, old(movies)[k], omdbData, rogerEbertData, rogerEbertTitleMap)
      ensures omdbData == old(omdbData) && rtData == old(rtData) && saved == old(saved)
      ensures rogerEbertData == old(rogerEbertData) && rogerEbertTitleMap == old(rogerEbertTitleMap)
    {
      var omdb, reData, titles := omdbData, rogerEbertData, rogerEbertTitleMap;
      MergeInOrder((k: Json, movie: Dict) => MergeMovie(k, movie, omdb, reData, titles));
    }

    /** The loop of `process_and_merge`: each movie, in insertion order, is
        replaced by `merge` of its id and itself. */
    method MergeInOrder(merge: (Json, Dict) -> Dict)
      requires Valid()
      modifies this
      ensures Valid() && movieOrder == old(movieOrder)
      ensures movies.Keys == old(movies).Keys
      ensures forall k :: k in movies ==> movies[k] == merge(k, old(movies)[k])
      ensures omdbData == old(omdbData) && rtData == old(rtData) && saved == old(saved)
      ensures rogerEbertData == old(rogerEbertData) && rogerEbertTitleMap == old(rogerEbertTitleMap)
    {
      var i := 0;
      while i < |movieOrder|
        invariant 0 <= i <= |movieOrder|
        invariant Valid() && movieOrder == old(movieOrder)
        invariant movies.Keys == old(movies).Keys
        invariant forall k :: k in movies ==> movies[k] == if k in movieOrder[..i] then merge(k, old(movies)[k]) else old(movies)[k]
        invariant omdbData == old(omdbData) && rtData == old(rtData) && saved == old(saved)
        invariant rogerEbertData == old(rogerEbertData) && rogerEbertTitleMap == old(rogerEbertTitleMap)
      {
        var imdbId := movieOrder[i];
        assert imdbId !in movieOrder[..i];
        assert movieOrder[..i + 1] == movieOrder[..i] + [imdbId];
        MergeOne(imdbId, merge);
        i := i + 1;
      }
      assert movieOrder[..i] == movieOrder;
    }

    /** One iteration of `process_and_merge`: the movie under `imdbId` is
        replaced by its merge. */
    method MergeOne(imdbId: Json, merge: (Json, Dict) -> Dict)
      requires imdbId in movies
      modifies this
      ensures movies == old(movies)[imdbId := merge(imdbId, old(movies)[imdbId])]
      ensures movieOrder == old(movieOrder) && omdbData == old(omdbData) && rtData == old(rtData) && saved == old(saved)
      ensures rogerEbertData == old(rogerEbertData) && rogerEbertTitleMap == old(rogerEbertTitleMap)
    {
      movies := movies[imdbId := merge(imdbId, movies[imdbId])];
    }

    /** `save_merged_data`: writes the movies in insertion order, unless
        there are none. */
    method SaveMergedData()
      requires Valid()
      modifies this
      ensures movies == old(movies) && movieOrder == old(movieOrder) && omdbData == old(omdbData)
      ensures rtData == old(rtData) && rogerEbertData == old(rogerEbertData)
      ensures rogerEbertTitleMap == old(rogerEbertTitleMap)
      ensures Valid()
      ensures saved == if |movies| == 0 then old(saved) else Some(ValuesInOrder(movieOrder, movies))
    {
      if |movies| == 0 {
        return;
      }
      saved := Some(ValuesInOrder(movieOrder, movies));
    }
  }

  /** The saved list holds each movie exactly once. */
  lemma SavedListIsMovies(order: seq<Json>, m: map<Json, Dict>)
    requires (forall k :: k in order <==> k in m) && NoDuplicates(order)
    ensures |ValuesInOrder(order, m)| == |m|
    ensures forall k :: k in m ==> exists i :: 0 <= i < |order| && ValuesInOrder(order, m)[i] == m[k]
  {
    DistinctLength(order, m.Keys);
    forall k | k in m ensures exists i :: 0 <= i < |order| && ValuesInOrder(order, m)[i] == m[k] {
      var i :| 0 <= i < |order| && order[i] == k;
      assert ValuesInOrder(order, m)[i] == m[k];
    }
  }

  /** A duplicate-free sequence of exactly the elements of `s` has |s| elements. */
  lemma {:induction false} DistinctLength<T>(order: seq<T>, s: set<T>)
    requires (forall k :: k in order <==> k in s) && NoDuplicates(order)
    ensures |order| == |s|
  {
    if order != [] {
      var rest := order[1..];
      assert forall k :: k in rest <==> k in s - {order[0]} by {
        forall k ensures k in rest <==> k in s - {order[0]} {
          if k in rest {
            var j :| 0 <= j < |rest| && rest[j] == k;
            assert order[j + 1] == k;
          }
          if k in s - {order[0]} {
            var j :| 0 <= j < |order| && order[j] == k;
            assert j != 0;
            assert rest[j - 1] == k;
          }
        }
      }
      DistinctLength(rest, s - {order[0]});
    } else {
      assert forall k :: k !in s;
      assert s == {};
    }
  }
}
