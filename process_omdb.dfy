/**
 * The OMDb enrichment step: the IMDb ids still to fetch, the formatting of
 * one OMDb API answer into a movie record (including the "NN%" and "NN/100"
 * rating strings), and the processor that appends the records and saves
 * them every hundred.
 *
 * The API is a parameter (`fetch`: the decoded answer for an id, None when
 * the request failed); Python's `float()` on the IMDb rating text is a
 * parameter too (`toFloat`, None where it raises).  Files are values: the
 * IMDb input as its record list (None when missing), the output as a
 * `StoredFile`.
 */
module ProcessOmdb {
  import opened Wrappers
  import opened Text
  import opened Sequences
  import opened Json

  // ---------------------------------------------------------------------
  // _get_imdb_ids and the batch selection of process_movies
  // ---------------------------------------------------------------------

  /** `movie.get('tconst')` is truthy. */
  predicate HasTconst(movie: Dict) {
    Truthy(Get(movie, "tconst"))
  }

  function TconstValue(movie: Dict): Json {
    Get(movie, "tconst")
  }

  /** `_get_imdb_ids`: the truthy `tconst` of every record, in file order;
      [] when the input file is missing. */
  function ImdbIds(imdbFile: Option<seq<Dict>>): (ids: seq<Json>)
    ensures imdbFile.None? ==> ids == []
  {
    match imdbFile
    case None => []
    case Some(records) => FilterMap(records, HasTconst, TconstValue)
  }

  /** The ids are exactly the truthy `tconst` values of the records. */
  lemma ImdbIdsMembers(records: seq<Dict>)
    ensures forall id :: id in ImdbIds(Some(records)) ==> Truthy(id)
    ensures forall id :: id in ImdbIds(Some(records)) <==>
      exists n :: 0 <= n < |records| && HasTconst(records[n]) && id == TconstValue(records[n])
  {
    FilterMapMembers(records, HasTconst, TconstValue);
  }

  /** `{m.get('imdb_id') for m in existing_data if m.get('imdb_id')}`. */
  function ExistingIds(records: seq<Dict>): (ids: set<Json>)
    ensures forall id :: id in ids <==> exists m :: m in records && Truthy(Get(m, "imdb_id")) && id == Get(m, "imdb_id")
  {
    set m | m in records && Truthy(Get(m, "imdb_id")) :: Get(m, "imdb_id")
  }

  /** The ids in order without the stored ones, then cut to the first
      `limit` when `limit > 0`. */
  function IdsToProcess(ids: seq<Json>, existing: set<Json>, limit: int): (r: seq<Json>)
  {
    var unseen := FilterMap(ids, (id: Json) => id !in existing, (id: Json) => id);
    if limit > 0 && limit < |unseen| then unseen[..limit] else unseen
  }

  /** The batch is an order-preserving selection of the ids not stored
      yet; without a limit it holds every one of them, with a limit it is
      the first `limit` of them (all, when fewer). */
  lemma IdsToProcessSpec(ids: seq<Json>, existing: set<Json>, limit: int)
    ensures var unseen := FilterMap(ids, (id: Json) => id !in existing, (id: Json) => id);
      && IsPrefix(IdsToProcess(ids, existing, limit), unseen)
      && (limit > 0 ==> |IdsToProcess(ids, existing, limit)| == if limit < |unseen| then limit else |unseen|)
      && (limit <= 0 ==> IdsToProcess(ids, existing, limit) == unseen)
    ensures forall id :: id in IdsToProcess(ids, existing, limit) ==> id in ids && id !in existing
    ensures limit <= 0 ==> forall id :: id in ids && id !in existing ==> id in IdsToProcess(ids, existing, limit)
  {
    var keep := (id: Json) => id !in existing;
    var same := (id: Json) => id;
    FilterMapMembers(ids, keep, same);
    var unseen := FilterMap(ids, keep, same);
    forall id | id in IdsToProcess(ids, existing, limit) ensures id in ids && id !in existing {
      assert id in unseen;
      var n :| 0 <= n < |ids| && keep(ids[n]) && id == same(ids[n]);
    }
    if limit <= 0 {
      forall id | id in ids && id !in existing ensures id in unseen {
        var n :| 0 <= n < |ids| && ids[n] == id;
      }
    }
  }

  // ---------------------------------------------------------------------
  // _format_document: the ratings loop
  // ---------------------------------------------------------------------

  /** The three rating entries OMDb's `Ratings` list is read for. */
  datatype RatingKey = ImdbRating | RottenTomatoes | Metacritic

  /** The rating a `Source` name is stored under, if any. */
  function KeyOfSource(source: Json): Option<RatingKey> {
    if source == JStr("Internet Movie Database") then Some(ImdbRating)
    else if source == JStr("Rotten Tomatoes") then Some(RottenTomatoes)
    else if source == JStr("Metacritic") then Some(Metacritic)
    else None
  }

  /** `value.split('/')[0]`. */
  function BeforeSlash(s: string): string {
    SplitOn(s, "/")[0]
  }

  /** The rating a `Value` gives under `key`: the IMDb text before '/' as a
      float, the Rotten Tomatoes text without '%' as an int, the Metacritic
      text before '/' as an int.  None where Python raises: a value that is
      not a string, or a text `float()`/`int()` rejects. */
  function ParseRating(key: RatingKey, value: Json, toFloat: string -> Option<real>): (r: Option<Json>)
    ensures key == ImdbRating && value.JStr? ==> r == (match toFloat(BeforeSlash(value.s)) case Some(x) => Some(JNum(x)) case None => None)
    ensures key == RottenTomatoes && value.JStr? ==> r == (match ParseInt(RemoveChar(value.s, '%')) case Some(n) => Some(JInt(n)) case None => None)
    ensures key == Metacritic && value.JStr? ==> r == (match ParseInt(BeforeSlash(value.s)) case Some(n) => Some(JInt(n)) case None => None)
    ensures !value.JStr? ==> r.None?
  {
    if !value.JStr? then None
    else
      var parsed: Option<Json> :=
        match key
        case ImdbRating => (match toFloat(BeforeSlash(value.s)) case Some(x) => Some(JNum(x)) case None => None)
        case RottenTomatoes => (match ParseInt(RemoveChar(value.s, '%')) case Some(n) => Some(JInt(n)) case None => None)
        case Metacritic => (match ParseInt(BeforeSlash(value.s)) case Some(n) => Some(JInt(n)) case None => None);
      parsed
  }

  /** A Rotten Tomatoes "NN%" reads as NN. */
  lemma RottenTomatoesPercent(n: nat, toFloat: string -> Option<real>)
    ensures ParseRating(RottenTomatoes, JStr(NatToString(n) + "%"), toFloat) == Some(JInt(n))
  {
    PercentText(n);
  }

  lemma PercentText(n: nat)
    ensures ParseInt(RemoveChar(NatToString(n) + "%", '%')) == Some(n)
  {
    var d := NatToString(n);
    RemoveCharConcat(d, "%", '%');
    assert RemoveChar("%", '%') == [];
    RemoveCharAbsent(d, '%');
    assert RemoveChar(d + "%", '%') == d;
    ParseIntDigits(d);
    ParseNatToString(n);
  }

  /** A Metacritic "NN/100" reads as NN. */
  lemma MetacriticOutOf100(n: nat, toFloat: string -> Option<real>)
    ensures ParseRating(Metacritic, JStr(NatToString(n) + "/100"), toFloat) == Some(JInt(n))
  {
    var d := NatToString(n);
    assert Separable(d, "/") by {
      forall i: nat ensures !OccursAt(d, i, "/") {
        if i + 1 <= |d| {
          assert d[i..i + 1][0] == d[i];
        }
      }
    }
    FirstIndexAfterPiece(d, "/", "100");
    assert (d + "/" + "100")[..|d|] == d;
    assert d + "/100" == d + "/" + "100";
    ParseIntDigits(d);
    ParseNatToString(n);
  }

  /** The ratings key of one `Ratings` entry (None for an entry that is not
      a dict or names another source). */
  function EntryKey(entry: Json): Option<RatingKey> {
    if entry.JObject? then KeyOfSource(Get(entry.fields, "Source")) else None
  }

  /** One iteration of the ratings loop; None where it raises (`r.get` on a
      non-dict, or a value that does not parse). */
  function AddRating(ratings: map<RatingKey, Json>, entry: Json, toFloat: string -> Option<real>): Option<map<RatingKey, Json>> {
    if !entry.JObject? then None
    else
      match EntryKey(entry)
      case None => Some(ratings)
      case Some(key) =>
        match ParseRating(key, Get(entry.fields, "Value"), toFloat)
        case None => None
        case Some(v) => Some(ratings[key := v])
  }

  /** The ratings dict after the loop over `entries`; None where it raises. */
  function RatingsFrom(entries: seq<Json>, toFloat: string -> Option<real>): Option<map<RatingKey, Json>> {
    if entries == [] then Some(map[])
    else
      match RatingsFrom(entries[..|entries| - 1], toFloat)
      case None => None
      case Some(ratings) => AddRating(ratings, entries[|entries| - 1], toFloat)
  }

  /** The ratings loop of `_format_document`. */
  method ExtractRatings(entries: seq<Json>, toFloat: string -> Option<real>) returns (ratings: Option<map<RatingKey, Json>>)
    ensures ratings == RatingsFrom(entries, toFloat)
  {
    var acc: map<RatingKey, Json> := map[];
    var i := 0;
    while i < |entries|
      invariant 0 <= i <= |entries|
      invariant RatingsFrom(entries[..i], toFloat) == Some(acc)
    {
      RatingsFromStep(entries, i, acc, toFloat);
      var entry := entries[i];
      if !entry.JObject? {
        ratings := None;
        RaisedStaysRaised(entries, i + 1, toFloat);
        return;
      }
      var key := EntryKey(entry);
      if key.Some? {
        var v := ParseRating(key.value, Get(entry.fields, "Value"), toFloat);
        if v.None? {
          ratings := None;
          RaisedStaysRaised(entries, i + 1, toFloat);
          return;
        }
        acc := acc[key.value := v.value];
      }
      i := i + 1;
    }
    assert entries[..i] == entries;
    ratings := Some(acc);
  }

  /** One more iteration of the loop over a prefix that has not raised. */
  lemma RatingsFromStep(entries: seq<Json>, i: nat, acc: map<RatingKey, Json>, toFloat: string -> Option<real>)
    requires i < |entries| && RatingsFrom(entries[..i], toFloat) == Some(acc)
    ensures RatingsFrom(entries[..i + 1], toFloat) == AddRating(acc, entries[i], toFloat)
  {
    assert entries[..i + 1][..i] == entries[..i];
  }

  /** Once the loop has raised, the later entries are never read. */
  lemma {:induction false} RaisedStaysRaised(entries: seq<Json>, i: nat, toFloat: string -> Option<real>)
    requires i <= |entries| && RatingsFrom(entries[..i], toFloat).None?
    ensures RatingsFrom(entries, toFloat).None?
    decreases |entries| - i
  {
    if i < |entries| {
      assert entries[..i + 1][..i] == entries[..i];
      RaisedStaysRaised(entries, i + 1, toFloat);
    } else {
      assert entries[..i] == entries;
    }
  }

  /** The loop over `entries` is the loop over all but the last, then one
      more iteration. */
  lemma RatingsFromLast(entries: seq<Json>, toFloat: string -> Option<real>)
    requires |entries| > 0 && RatingsFrom(entries, toFloat).Some?
    ensures RatingsFrom(entries[..|entries| - 1], toFloat).Some?
    ensures RatingsFrom(entries, toFloat)
            == AddRating(RatingsFrom(entries[..|entries| - 1], toFloat).value, entries[|entries| - 1], toFloat)
  {
  }

  /** An iteration for another source leaves this source's rating alone. */
  lemma AddRatingKeeps(ratings: map<RatingKey, Json>, entry: Json, toFloat: string -> Option<real>, key: RatingKey)
    requires AddRating(ratings, entry, toFloat).Some? && EntryKey(entry) != Some(key)
    ensures key in AddRating(ratings, entry, toFloat).value <==> key in ratings
    ensures key in ratings ==> AddRating(ratings, entry, toFloat).value[key] == ratings[key]
  {
  }

  /** An iteration for this source stores its parsed value. */
  lemma AddRatingSets(ratings: map<RatingKey, Json>, entry: Json, toFloat: string -> Option<real>, key: RatingKey)
    requires AddRating(ratings, entry, toFloat).Some? && EntryKey(entry) == Some(key)
    ensures key in AddRating(ratings, entry, toFloat).value
    ensures Some(AddRating(ratings, entry, toFloat).value[key]) == ParseRating(key, Get(entry.fields, "Value"), toFloat)
  {
  }

  /** A source no entry names gets no rating. */
  lemma {:induction false} AbsentRatingKey(entries: seq<Json>, toFloat: string -> Option<real>, key: RatingKey)
    requires RatingsFrom(entries, toFloat).Some?
    requires forall n :: 0 <= n < |entries| ==> EntryKey(entries[n]) != Some(key)
    ensures key !in RatingsFrom(entries, toFloat).value
  {
    if entries != [] {
      var init := entries[..|entries| - 1];
      RatingsFromLast(entries, toFloat);
      assert forall n :: 0 <= n < |init| ==> init[n] == entries[n];
      AbsentRatingKey(init, toFloat, key);
      AddRatingKeeps(RatingsFrom(init, toFloat).value, entries[|entries| - 1], toFloat, key);
    }
  }

  /** A later entry from the same source overwrites an earlier one: the
      rating stored for a source is the one parsed from the last entry
      naming it. */
  lemma {:induction false} LastRatingWins(entries: seq<Json>, toFloat: string -> Option<real>, key: RatingKey, j: nat)
    requires RatingsFrom(entries, toFloat).Some?
    requires j < |entries| && EntryKey(entries[j]) == Some(key)
    requires forall n :: j < n < |entries| ==> EntryKey(entries[n]) != Some(key)
    ensures key in RatingsFrom(entries, toFloat).value
    ensures Some(RatingsFrom(entries, toFloat).value[key]) == ParseRating(key, Get(entries[j].fields, "Value"), toFloat)
  {
    var init := entries[..|entries| - 1];
    var last := entries[|entries| - 1];
    RatingsFromLast(entries, toFloat);
    var prev := RatingsFrom(init, toFloat).value;
    if j < |init| {
      assert init[j] == entries[j];
      assert forall n :: j < n < |init| ==> init[n] == entries[n];
      LastRatingWins(init, toFloat, key, j);
      AddRatingKeeps(prev, last, toFloat, key);
    } else {
      AddRatingSets(prev, last, toFloat, key);
    }
  }

  // ---------------------------------------------------------------------
  // _format_document: the record
  // ---------------------------------------------------------------------

  /** The movie record `_format_document` returns; `source` is always
      "omdb". */
  datatype OmdbDocument = OmdbDocument(
    id: string, imdbId: Json, title: Json, year: Option<int>,
    genres: seq<string>, plot: Json, directors: seq<string>, cast: seq<string>,
    url: string, poster: Json, metascore: Json, tomatometer: Json, rating: Json)

  /** `data.get('Ratings', [])` as the loop iterates it: a list's items, an
      empty string or dict iterates nothing; None where the loop raises. */
  function RatingEntries(data: Dict): (r: Option<seq<Json>>)
    ensures "Ratings" !in data ==> r == Some([])
    ensures "Ratings" in data && data["Ratings"].JList? ==> r == Some(data["Ratings"].items)
    ensures "Ratings" in data && (data["Ratings"].JNull? || data["Ratings"].JBool? || data["Ratings"].JInt? || data["Ratings"].JNum?) ==> r.None?
  {
    match GetOr(data, "Ratings", JList([]))
    case JList(items) => Some(items)
    case JStr(s) => if s == "" then Some([]) else None
    case JObject(fields) => if |fields| == 0 then Some([]) else None
    case _ => None
  }

  /** `int(Year) if Year.isdigit() else None` (Year defaulting to ''); the
      outer None is where `isdigit` raises on a non-string. */
  function YearField(data: Dict): (r: Option<Option<int>>)
    ensures r.None? <==> !GetOr(data, "Year", JStr("")).JStr?
    ensures r.Some? ==> (r.value.Some? <==> IsDigitString(GetOr(data, "Year", JStr("")).s))
  {
    match GetOr(data, "Year", JStr(""))
    case JStr(s) => Some(if IsDigitString(s) then Some(ParseDigits(s) as int) else None)
    case _ => None
  }

  /** A year written in decimal reads back as that year; a text that is not
      all digits gives no year. */
  lemma YearFieldSpec(data: Dict, n: nat)
    ensures Get(data, "Year") == JStr(NatToString(n)) ==> YearField(data) == Some(Some(n))
    ensures "Year" !in data ==> YearField(data) == Some(None)
    ensures forall s :: Get(data, "Year") == JStr(s) && !IsDigitString(s) ==> YearField(data) == Some(None)
  {
    if Get(data, "Year") == JStr(NatToString(n)) {
      ParseNatToString(n);
    }
  }

  /** `data.get(key, '').split(', ') if data.get(key) else []`; None where
      `split` is applied to a truthy non-string. */
  function ListField(data: Dict, key: string): (r: Option<seq<string>>)
    ensures !Truthy(Get(data, key)) ==> r == Some([])
  {
    var v := Get(data, key);
    if !Truthy(v) then Some([])
    else if v.JStr? then Some(SplitOn(v.s, ", "))
    else None
  }

  /** A non-empty list field is split into pieces that join back into the
      field's text and contain no ", ". */
  lemma ListFieldRoundTrip(data: Dict, key: string)
    requires Get(data, key).JStr? && Get(data, key).s != ""
    ensures ListField(data, key).Some?
    ensures Join(ListField(data, key).value, ", ") == Get(data, key).s
    ensures forall k :: 0 <= k < |ListField(data, key).value| ==> !Contains(ListField(data, key).value[k], ", ")
  {
    JoinSplitOn(Get(data, key).s, ", ");
  }

  const ImdbTitleUrl: string := "https://www.imdb.com/title/"

  /** `_format_document` as a value: None where it raises.  The record's
      `id` and `url` are built from `str(imdbID)`. */
  function Formatted(data: Dict, toFloat: string -> Option<real>, reprOf: Json -> string): Option<OmdbDocument>
  {
    var imdbId := Get(data, "imdbID");
    match RatingEntries(data)
    case None => None
    case Some(entries) =>
      match RatingsFrom(entries, toFloat)
      case None => None
      case Some(ratings) =>
        var year := YearField(data);
        var genres := ListField(data, "Genre");
        var directors := ListField(data, "Director");
        var cast := ListField(data, "Actors");
        if year.None? || genres.None? || directors.None? || cast.None? then None
        else
          Some(OmdbDocument(
            "omdb_" + StrOf(imdbId, reprOf), imdbId, Get(data, "Title"), year.value,
            genres.value, Get(data, "Plot"), directors.value, cast.value,
            ImdbTitleUrl + StrOf(imdbId, reprOf) + "/", Get(data, "Poster"),
            GetOr(ratings, Metacritic, JNull), GetOr(ratings, RottenTomatoes, JNull),
            GetOr(ratings, ImdbRating, JNull)))
  }

  /** `d.get(key)` on the ratings dict. */
  function GetOr<K>(m: map<K, Json>, key: K, default: Json): Json {
    if key in m then m[key] else default
  }

  /** A formatted record names its movie twice: `id` is "omdb_" and the
      IMDb id, `url` is the IMDb title page of the same id; its scores are
      the last Metacritic and Rotten Tomatoes ratings. */
  lemma FormattedSpec(data: Dict, toFloat: string -> Option<real>, reprOf: Json -> string)
    requires Formatted(data, toFloat, reprOf).Some?
    ensures var doc := Formatted(data, toFloat, reprOf).value;
      && StartsWith(doc.id, "omdb_") && doc.id[5..] == StrOf(doc.imdbId, reprOf)
      && StartsWith(doc.url, ImdbTitleUrl) && doc.url == ImdbTitleUrl + doc.id[5..] + "/"
      && doc.imdbId == Get(data, "imdbID")
      && doc.metascore == GetOr(RatingsFrom(RatingEntries(data).value, toFloat).value, Metacritic, JNull)
      && doc.tomatometer == GetOr(RatingsFrom(RatingEntries(data).value, toFloat).value, RottenTomatoes, JNull)
  {
    var doc := Formatted(data, toFloat, reprOf).value;
    assert doc.id == "omdb_" + StrOf(doc.imdbId, reprOf);
    assert doc.id[..5] == "omdb_";
    assert doc.url[..|ImdbTitleUrl|] == ImdbTitleUrl;
  }

  /** The record as the JSON object written to the output file. */
  function ToDict(doc: OmdbDocument): Dict {
    map[
      "id" := JStr(doc.id), "imdb_id" := doc.imdbId, "title" := doc.title,
      "year" := (match doc.year case Some(y) => JInt(y) case None => JNull),
      "genres" := JList(StrList(doc.genres)), "plot" := doc.plot,
      "directors" := JList(StrList(doc.directors)), "cast" := JList(StrList(doc.cast)),
      "source" := JStr("omdb"), "url" := JStr(doc.url), "poster" := doc.poster,
      "metascore" := doc.metascore, "tomatometer" := doc.tomatometer, "rating" := doc.rating]
  }

  /** The written record carries the id, source "omdb", and a null year
      exactly when there is none. */
  lemma ToDictFields(doc: OmdbDocument)
    ensures var r := ToDict(doc);
      && r["source"] == JStr("omdb") && r["id"] == JStr(doc.id)
      && (r["year"].JNull? <==> doc.year.None?)
  {
  }

  function StrList(xs: seq<string>): (r: seq<Json>)
    ensures |r| == |xs|
  {
    if xs == [] then [] else [JStr(xs[0])] + StrList(xs[1..])
  }

  /** `fetch_movie_data` given the decoded API answer (None when the
      request failed): the answer when its `Response` is "True". */
  function AcceptAnswer(answer: Option<Dict>): (r: Option<Dict>)
    ensures r.Some? <==> answer.Some? && Get(answer.value, "Response") == JStr("True")
    ensures r.Some? ==> r == answer
  {
    match answer
    case Some(d) => if Get(d, "Response") == JStr("True") then Some(d) else None
    case None => None
  }

  // ---------------------------------------------------------------------
  // process_movies and save_data
  // ---------------------------------------------------------------------

  /** The new records of a batch and whether formatting raised: the loop
      stops at the first raise. */
  datatype Batch = Batch(records: seq<Dict>, raised: bool)

  /** The records the loop appends for `ids`. */
  function Enrich(ids: seq<Json>, fetch: Json -> Option<Dict>, toFloat: string -> Option<real>, reprOf: Json -> string): (b: Batch)
    ensures |b.records| <= |ids|
  {
    if ids == [] then Batch([], false)
    else
      var prev := Enrich(ids[..|ids| - 1], fetch, toFloat, reprOf);
      if prev.raised then prev
      else
        match AcceptAnswer(fetch(ids[|ids| - 1]))
        case None => prev
        case Some(data) =>
          match Formatted(data, toFloat, reprOf)
          case None => Batch(prev.records, true)
          case Some(doc) => Batch(prev.records + [ToDict(doc)], false)
  }

  /** Once a batch has raised, later ids change nothing. */
  lemma {:induction false} EnrichRaisedStable(ids: seq<Json>, i: nat, fetch: Json -> Option<Dict>, toFloat: string -> Option<real>, reprOf: Json -> string)
    requires i <= |ids| && Enrich(ids[..i], fetch, toFloat, reprOf).raised
    ensures Enrich(ids, fetch, toFloat, reprOf) == Enrich(ids[..i], fetch, toFloat, reprOf)
    decreases |ids| - i
  {
    if i < |ids| {
      assert ids[..i + 1][..i] == ids[..i];
      EnrichRaisedStable(ids, i + 1, fetch, toFloat, reprOf);
    } else {
      assert ids[..i] == ids;
    }
  }

  /** A batch gets one record per accepted answer, as long as none raises. */
  lemma {:induction false} EnrichCount(ids: seq<Json>, fetch: Json -> Option<Dict>, toFloat: string -> Option<real>, reprOf: Json -> string)
    requires forall id :: id in ids ==> AcceptAnswer(fetch(id)).None? || Formatted(fetch(id).value, toFloat, reprOf).Some?
    ensures !Enrich(ids, fetch, toFloat, reprOf).raised
    ensures |Enrich(ids, fetch, toFloat, reprOf).records| == |FilterMap(ids, (id: Json) => AcceptAnswer(fetch(id)).Some?, (id: Json) => id)|
  {
    if ids != [] {
      EnrichCount(ids[..|ids| - 1], fetch, toFloat, reprOf);
    }
  }

  /** The output file: absent, undecodable, or a saved record list. */
  datatype StoredFile = Absent | Corrupt | Stored(records: seq<Dict>)

  /** The stored records of a file that decodes. */
  function StoredIds(file: StoredFile): set<Json> {
    if file.Stored? then ExistingIds(file.records) else {}
  }

  const SaveEvery: nat := 100

  /** A record count at which the loop saves: a positive multiple of 100
      that the list reached at the end of an iteration, the first of
      which ended with `low` records and the last with `n`. */
  predicate SavePoint(k: int, low: int, n: int) {
    low <= k <= n && 0 < k && k % SaveEvery == 0
  }

  /** The output file after a loop that ended with `records` and whose
      first iteration ended with `low` records: the snapshot taken at the
      latest save point, or the file as it was when there was none. */
  function LastSave(before: StoredFile, records: seq<Dict>, low: int): (r: StoredFile)
    ensures (forall k :: !SavePoint(k, low, |records|)) ==> r == before
    ensures forall k :: SavePoint(k, low, |records|) ==>
      && r.Stored? && SavePoint(|r.records|, low, |records|)
      && k <= |r.records| && r.records == records[..|r.records|]
  {
    var m := |records| / SaveEvery * SaveEvery;
    assert forall k :: SavePoint(k, low, |records|) ==> k <= m by {
      forall k | SavePoint(k, low, |records|) ensures k <= m {
        MultipleBelow(k, |records|);
      }
    }
    assert m > 0 && m >= low ==> SavePoint(m, low, |records|);
    if m > 0 && m >= low then Stored(records[..m]) else before
  }

  /** A multiple of 100 up to `n` is at most `n` rounded down to one. */
  lemma MultipleBelow(k: nat, n: nat)
    requires k <= n && k % SaveEvery == 0
    ensures k <= n / SaveEvery * SaveEvery
  {
    assert k == k / SaveEvery * SaveEvery;
  }

  /** The record count at the end of a batch's first iteration, starting
      from `start` records; one past the end when the loop checks no count
      (no ids, or the first one raises). */
  function FirstCount(start: nat, ids: seq<Json>, fetch: Json -> Option<Dict>, toFloat: string -> Option<real>, reprOf: Json -> string): nat {
    if ids != [] && !Enrich(ids[..1], fetch, toFloat, reprOf).raised
    then start + |Enrich(ids[..1], fetch, toFloat, reprOf).records|
    else start + 1
  }

  /** One iteration of the loop, appending at most one record and then
      saving when the count is a save point, moves the output file from the
      latest save of the old list to the latest save of the new one. */
  lemma LastSaveStep(before: StoredFile, prev: seq<Dict>, next: seq<Dict>, low: int)
    requires |prev| <= |next| <= |prev| + 1 && next[..|prev|] == prev
    requires low <= |prev| + 1
    ensures (if |next| > 0 && |next| % SaveEvery == 0 then Stored(next) else LastSave(before, prev, low))
            == LastSave(before, next, if low > |prev| then |next| else low)
  {
    var low' := if low > |prev| then |next| else low;
    if |next| > 0 && |next| % SaveEvery == 0 {
      assert SavePoint(|next|, low', |next|);
      assert next[..|next|] == next;
    } else if |next| == |prev| {
      assert next == prev;
    } else {
      var m := |prev| / SaveEvery * SaveEvery;
      assert |next| / SaveEvery == |prev| / SaveEvery;
      assert next[..m] == prev[..m];
    }
  }

  class OmdbProcessor {
    var enrichedMovies: seq<Dict>
    var outputFile: StoredFile

    constructor(file: StoredFile)
      ensures enrichedMovies == [] && outputFile == file
    {
      enrichedMovies := [];
      outputFile := file;
    }

    /** `save_data`: writes the records unless there are none. */
    method SaveData()
      modifies this
      ensures enrichedMovies == old(enrichedMovies)
      ensures outputFile == if |enrichedMovies| == 0 then old(outputFile) else Stored(enrichedMovies)
    {
      if |enrichedMovies| == 0 {
        return;
      }
      outputFile := Stored(enrichedMovies);
    }

    /** `process_movies`: with an API key and a non-empty id list, resumes
        from the stored records, fetches the batch in order, appends each
        formatted answer and saves whenever the record count is a multiple
        of 100.  `raised` is whether formatting an answer raised, which ends
        the run. */
    method ProcessMovies(limit: int, apiKey: bool, imdbFile: Option<seq<Dict>>,
                         fetch: Json -> Option<Dict>, toFloat: string -> Option<real>, reprOf: Json -> string)
      returns (raised: bool)
      modifies this
      ensures !apiKey || ImdbIds(imdbFile) == [] ==>
        enrichedMovies == old(enrichedMovies) && outputFile == old(outputFile) && !raised
      ensures apiKey && ImdbIds(imdbFile) != [] ==>
        var start := if old(outputFile).Stored? then old(outputFile).records else old(enrichedMovies);
        var batch := Enrich(IdsToProcess(ImdbIds(imdbFile), StoredIds(old(outputFile)), limit), fetch, toFloat, reprOf);
        var ids := IdsToProcess(ImdbIds(imdbFile), StoredIds(old(outputFile)), limit);
        && enrichedMovies == start + batch.records && raised == batch.raised
        && outputFile == LastSave(old(outputFile), enrichedMovies, FirstCount(|start|, ids, fetch, toFloat, reprOf))
      ensures apiKey && !raised && IdsToProcess(ImdbIds(imdbFile), StoredIds(old(outputFile)), limit) != []
              && |enrichedMovies| > 0 && |enrichedMovies| % SaveEvery == 0 ==>
        outputFile == Stored(enrichedMovies)
    {
      raised := false;
      if !apiKey {
        return;
      }
      var imdbIds := ImdbIds(imdbFile);
      if imdbIds == [] {
        return;
      }
      var existingIds: set<Json> := {};
      if outputFile.Stored? {
        enrichedMovies := outputFile.records;
        existingIds := ExistingIds(outputFile.records);
      }
      var ids := IdsToProcess(imdbIds, existingIds, limit);
      raised := RunBatch(ids, fetch, toFloat, reprOf);
    }

    /** The fetch loop of `process_movies` over the ids still to process. */
    method RunBatch(ids: seq<Json>, fetch: Json -> Option<Dict>, toFloat: string -> Option<real>, reprOf: Json -> string)
      returns (raised: bool)
      modifies this
      ensures enrichedMovies == old(enrichedMovies) + Enrich(ids, fetch, toFloat, reprOf).records
      ensures raised == Enrich(ids, fetch, toFloat, reprOf).raised
      ensures outputFile == LastSave(old(outputFile), enrichedMovies, FirstCount(|old(enrichedMovies)|, ids, fetch, toFloat, reprOf))
      ensures !raised && ids != [] && |enrichedMovies| > 0 && |enrichedMovies| % SaveEvery == 0 ==>
        outputFile == Stored(enrichedMovies)
    {
      raised := false;
      ghost var start := enrichedMovies;
      ghost var file0 := outputFile;
      ghost var first := FirstCount(|start|, ids, fetch, toFloat, reprOf);
      var i := 0;
      while i < |ids|
        invariant 0 <= i <= |ids|
        invariant !Enrich(ids[..i], fetch, toFloat, reprOf).raised
        invariant enrichedMovies == start + Enrich(ids[..i], fetch, toFloat, reprOf).records
        invariant i > 0 ==> first <= |enrichedMovies|
        invariant outputFile == LastSave(file0, enrichedMovies, if i == 0 then |enrichedMovies| + 1 else first)
      {
        ghost var prev := enrichedMovies;
        ghost var low := if i == 0 then |enrichedMovies| + 1 else first;
        raised := ProcessOne(ids, i, fetch, toFloat, reprOf, start);
        if raised {
          EnrichRaisedStable(ids, i + 1, fetch, toFloat, reprOf);
          return;
        }
        LastSaveStep(file0, prev, enrichedMovies, low);
        SaveIfDue();
        i := i + 1;
      }
      assert ids[..i] == ids;
      if i > 0 && |enrichedMovies| > 0 && |enrichedMovies| % SaveEvery == 0 {
        assert SavePoint(|enrichedMovies|, first, |enrichedMovies|);
      }
    }
 
    /** One iteration of the loop without the save: fetch, and append the
        formatted answer when there is one. */
    method ProcessOne(ids: seq<Json>, i: nat, fetch: Json -> Option<Dict>, toFloat: string -> Option<real>, reprOf: Json -> string,
                      ghost start: seq<Dict>)
      returns (raised: bool)
      requires i < |ids| && !Enrich(ids[..i], fetch, toFloat, reprOf).raised
      requires enrichedMovies == start + Enrich(ids[..i], fetch, toFloat, reprOf).records
      modifies this
      ensures raised == Enrich(ids[..i + 1], fetch, toFloat, reprOf).raised
      ensures enrichedMovies == start + Enrich(ids[..i + 1], fetch, toFloat, reprOf).records
      ensures raised ==> enrichedMovies == old(enrichedMovies)
      ensures |old(enrichedMovies)| <= |enrichedMovies| <= |old(enrichedMovies)| + 1
      ensures enrichedMovies[..|old(enrichedMovies)|] == old(enrichedMovies)
      ensures outputFile == old(outputFile)
    {
      assert ids[..i + 1][..i] == ids[..i];
      raised := false;
      var movieData := AcceptAnswer(fetch(ids[i]));
      if movieData.Some? {
        var doc := FormatDocument(movieData.value, toFloat, reprOf);
        if doc.None? {
          raised := true;
          return;
        }
        enrichedMovies := enrichedMovies + [ToDict(doc.value)];
      }
    }

    /** The save at the end of each iteration: when the record count is a
        positive multiple of 100 the file becomes a snapshot of it. */
    method SaveIfDue()
      modifies this
      ensures enrichedMovies == old(enrichedMovies)
      ensures outputFile == if |enrichedMovies| > 0 && |enrichedMovies| % SaveEvery == 0 then Stored(enrichedMovies) else old(outputFile)
    {
      if |enrichedMovies| % SaveEvery == 0 {
        SaveData();
      }
    }
  }

  /** `_format_document`, with its ratings loop. */
  method FormatDocument(data: Dict, toFloat: string -> Option<real>, reprOf: Json -> string) returns (doc: Option<OmdbDocument>)
    ensures doc == Formatted(data, toFloat, reprOf)
  {
    var entries := RatingEntries(data);
    if entries.None? {
      return None;
    }
    var ratings := ExtractRatings(entries.value, toFloat);
    if ratings.None? {
      return None;
    }
    var imdbId := Get(data, "imdbID");
    var year := YearField(data);
    var genres := ListField(data, "Genre");
    var directors := ListField(data, "Director");
    var cast := ListField(data, "Actors");
    if year.None? || genres.None? || directors.None? || cast.None? {
      return None;
    }
    var r := ratings.value;
    doc := Some(OmdbDocument(
      "omdb_" + StrOf(imdbId, reprOf), imdbId, Get(data, "Title"), year.value,
      genres.value, Get(data, "Plot"), directors.value, cast.value,
      ImdbTitleUrl + StrOf(imdbId, reprOf) + "/", Get(data, "Poster"),
      GetOr(r, Metacritic, JNull), GetOr(r, RottenTomatoes, JNull), GetOr(r, ImdbRating, JNull)));
  }
}
