/**
 * The RogerEbert.com crawler: a breadth-first walk over listing pages
 * that resumes from the review file on disk, skips reviews it already
 * has, stops after `limit` new reviews and checkpoints every ten.
 *
 * The network is two function parameters (a failed fetch is None) and the
 * review file is the `outputFile` field.  Below `Crawl`, the review fetch
 * `_fetch_review` is the function `fetchReview`; `Crawl` passes
 * `ReviewFetcher(fetchDetail)`, whose value `FetchReview` computes.
 */
module RogerEbertCrawler {
  import opened Wrappers
  import opened Text
  import opened Sequences
  import opened ScraperUtils
  import opened RogerEbert

  const SaveEvery: nat := 10
  const StartListingUrls: seq<string> := ["https://www.rogerebert.com/", "https://www.rogerebert.com/reviews"]

  /** The review file on disk: absent, not valid JSON, or a saved list. */
  datatype OutputFile = Missing | Corrupt | Saved(docs: seq<ReviewDocument>)

  const ListingPagePrefix: string := BaseUrl + "/reviews/page/"

  /** The listing page for `page`: a URL on the site under /reviews/page/
      whose last segment reads back as `page`. */
  function PageUrl(page: int): (u: string)
    ensures StartsWith(u, ListingPagePrefix)
    ensures ParseInt(u[|ListingPagePrefix|..]) == Some(page)
  {
    var u := ListingPagePrefix + IntToString(page);
    assert u[..|ListingPagePrefix|] == ListingPagePrefix;
    assert u[|ListingPagePrefix|..] == IntToString(page);
    IntToStringRoundTrip(page);
    u
  }

  /** Appends each URL that is not yet in the queue, checking against the
      queue as it grows. */
  function AppendAbsent(queue: seq<string>, urls: seq<string>): (q: seq<string>)
    ensures NoDuplicates(queue) ==> NoDuplicates(q)
    ensures IsPrefix(queue, q)
    ensures forall u :: u in q <==> u in queue || u in urls
    decreases |urls|
  {
    if urls == [] then queue
    else
      var next := if urls[0] in queue then queue else queue + [urls[0]];
      assert next[..|queue|] == queue;
      var q := AppendAbsent(next, urls[1..]);
      assert forall u :: u in urls <==> u == urls[0] || u in urls[1..];
      assert q[..|queue|] == next[..|queue|];
      q
  }

  /** The first listing queue: the requested page (when above 1), then the
      default listing pages. */
  function InitialQueue(startPage: int): (q: seq<string>)
    ensures NoDuplicates(q)
    ensures startPage > 1 ==> q == [PageUrl(startPage)] + StartListingUrls
    ensures startPage <= 1 ==> q == StartListingUrls
  {
    var first := if startPage > 1 then [PageUrl(startPage)] else [];
    var q := AppendAbsent(first, StartListingUrls);
    assert StartListingUrls[0] != StartListingUrls[1] by {
      assert |StartListingUrls[0]| != |StartListingUrls[1]|;
    }
    assert q == first + StartListingUrls;
    q
  }

  /** Appends the discovered URLs that are not queued yet, in an arbitrary
      order (the source iterates over a set). */
  method EnqueueAll(queue: seq<string>, discovered: set<string>) returns (q: seq<string>)
    requires NoDuplicates(queue)
    ensures NoDuplicates(q)
    ensures IsPrefix(queue, q)
    ensures forall u :: u in q <==> u in queue || u in discovered
  {
    q := queue;
    var pending := discovered;
    while pending != {}
      invariant NoDuplicates(q)
      invariant IsPrefix(queue, q)
      invariant pending <= discovered
      invariant forall u :: u in q <==> u in queue || u in discovered - pending
      decreases |pending|
    {
      var u :| u in pending;
      if u !in q {
        q := q + [u];
      }
      pending := pending - {u};
    }
  }

  function DocUrl(d: ReviewDocument): string { d.base.url }

  /** The documents a crawl starts from: the saved list when the file
      loads, the documents in memory otherwise. */
  function LoadedDocuments(file: OutputFile, current: seq<ReviewDocument>): seq<ReviewDocument> {
    match file
    case Saved(docs) => docs
    case _ => current
  }

  /** The review URLs a crawl treats as already collected. */
  function SeenAtStart(file: OutputFile): set<string> {
    match file
    case Saved(docs) => Keys(docs, DocUrl)
    case _ => {}
  }

  /** `doc` was built from an entry of a fetched listing page together with
      that entry's fetched review page. */
  ghost predicate Harvested(doc: ReviewDocument, fetchListing: string -> Option<ListingPage>,
                            fetchReview: string -> Option<ReviewDetails>, md5: string -> string)
  {
    IsMd5Hex(md5) &&
    exists listingUrl: string, entry: ListingEntry ::
      && fetchListing(listingUrl).Some?
      && entry in ListingEntries(fetchListing(listingUrl).value.reviewLinks)
      && fetchReview(entry.url).Some?
      && doc == BuildDocument(entry, fetchReview(entry.url).value, md5)
  }

  /** Harvested, as a test on documents. */
  ghost function Provenance(fetchListing: string -> Option<ListingPage>,
                            fetchReview: string -> Option<ReviewDetails>, md5: string -> string): ReviewDocument -> bool
  {
    d => Harvested(d, fetchListing, fetchReview, md5)
  }

  /** Fetches one listing entry's review page and builds its document;
      None when the fetch fails. */
  method HarvestOne(entry: ListingEntry, fetchReview: string -> Option<ReviewDetails>,
                    md5: string -> string, ghost provenance: ReviewDocument -> bool)
    returns (doc: Option<ReviewDocument>)
    requires IsMd5Hex(md5)
    requires fetchReview(entry.url).Some? ==> provenance(EntryDocument(entry, fetchReview, md5))
    ensures doc.None? <==> fetchReview(entry.url).None?
    ensures doc.Some? ==> DocUrl(doc.value) == entry.url && provenance(doc.value)
    ensures doc.Some? ==> doc.value == BuildDocument(entry, fetchReview(entry.url).value, md5)
  {
    var details := fetchReview(entry.url);
    if details.None? {
      return None;
    }
    var document := BuildDocument(entry, details.value, md5);
    assert document == EntryDocument(entry, fetchReview, md5);
    return Some(document);
  }

  /** Whether the inner loop of `crawl`, below the limit, records an
      entry: its URL is not yet seen and its review page loads. */
  predicate Admitted(e: ListingEntry, seen: set<string>, fetchReview: string -> Option<ReviewDetails>)
  {
    e.url !in seen && fetchReview(e.url).Some?
  }

  /** The document an admitted entry contributes. */
  function EntryDocument(e: ListingEntry, fetchReview: string -> Option<ReviewDetails>, md5: string -> string): (d: ReviewDocument)
    requires IsMd5Hex(md5) && fetchReview(e.url).Some?
    ensures DocUrl(d) == e.url
  {
    BuildDocument(e, fetchReview(e.url).value, md5)
  }

  /** The document of an entry: built from its review page, None when that
      page fails to load. */
  function DocOf(fetchReview: string -> Option<ReviewDetails>, md5: string -> string): ListingEntry -> Option<ReviewDocument>
    requires IsMd5Hex(md5)
  {
    (e: ListingEntry) => if fetchReview(e.url).Some? then Some(EntryDocument(e, fetchReview, md5)) else None
  }

  /** Every document built from an entry of a fetched listing page passes
      a test that every harvested document passes. */
  lemma EntriesVouched(listingUrl: string, entries: seq<ListingEntry>, fetchListing: string -> Option<ListingPage>,
                       fetchReview: string -> Option<ReviewDetails>, md5: string -> string, provenance: ReviewDocument -> bool)
    requires IsMd5Hex(md5)
    requires forall d :: Harvested(d, fetchListing, fetchReview, md5) ==> provenance(d)
    requires fetchListing(listingUrl).Some? && entries == ListingEntries(fetchListing(listingUrl).value.reviewLinks)
    ensures forall e :: e in entries && fetchReview(e.url).Some? ==> provenance(EntryDocument(e, fetchReview, md5))
  {
    forall e | e in entries && fetchReview(e.url).Some?
      ensures provenance(EntryDocument(e, fetchReview, md5))
    {
      assert Harvested(EntryDocument(e, fetchReview, md5), fetchListing, fetchReview, md5);
    }
  }

  /** A document function that keeps each entry's URL. */
  ghost predicate KeepsUrl(docOf: ListingEntry -> Option<ReviewDocument>) {
    forall e :: docOf(e).Some? ==> DocUrl(docOf(e).value) == e.url
  }

  lemma DocOfKeepsUrl(fetchReview: string -> Option<ReviewDetails>, md5: string -> string)
    requires IsMd5Hex(md5)
    ensures KeepsUrl(DocOf(fetchReview, md5))
  {
  }

  /** The documents the inner loop of `crawl` builds from a listing page's
      entries from index `i` on, given the review URLs seen so far and the
      count collected so far: in order, one for each entry whose URL is not
      yet seen and whose document `docOf` gives, until `limit` reviews have
      been collected. */
  function HarvestFrom(entries: seq<ListingEntry>, i: nat, seen: set<string>, collected: int, limit: int,
                       docOf: ListingEntry -> Option<ReviewDocument>): seq<ReviewDocument>
    requires i <= |entries|
    decreases |entries| - i
  {
    if i == |entries| || collected >= limit then []
    else if entries[i].url !in seen && docOf(entries[i]).Some? then
      [docOf(entries[i]).value] + HarvestFrom(entries, i + 1, seen + {entries[i].url}, collected + 1, limit, docOf)
    else HarvestFrom(entries, i + 1, seen, collected, limit, docOf)
  }

  /** The harvest never takes `collected` past `limit`. */
  lemma {:induction false} HarvestFromBound(entries: seq<ListingEntry>, i: nat, seen: set<string>, collected: int, limit: int,
                                            docOf: ListingEntry -> Option<ReviewDocument>)
    requires i <= |entries| && collected < limit
    ensures collected + |HarvestFrom(entries, i, seen, collected, limit, docOf)| <= limit
    decreases |entries| - i
  {
    if i < |entries| {
      if entries[i].url !in seen && docOf(entries[i]).Some? {
        var seen' := seen + {entries[i].url};
        if collected + 1 < limit {
          HarvestFromBound(entries, i + 1, seen', collected + 1, limit, docOf);
        }
      } else {
        HarvestFromBound(entries, i + 1, seen, collected, limit, docOf);
      }
    }
  }

  /** Every harvested document is the document of an entry at `i` or later. */
  lemma {:induction false} HarvestFromOrigin(entries: seq<ListingEntry>, i: nat, seen: set<string>, collected: int, limit: int,
                                             docOf: ListingEntry -> Option<ReviewDocument>)
    requires i <= |entries|
    ensures forall d :: d in HarvestFrom(entries, i, seen, collected, limit, docOf) ==>
      exists k :: i <= k < |entries| && docOf(entries[k]) == Some(d)
    decreases |entries| - i
  {
    if i < |entries| && collected < limit {
      if entries[i].url !in seen && docOf(entries[i]).Some? {
        var rest := HarvestFrom(entries, i + 1, seen + {entries[i].url}, collected + 1, limit, docOf);
        HarvestFromOrigin(entries, i + 1, seen + {entries[i].url}, collected + 1, limit, docOf);
        forall d | d in rest ensures exists k :: i <= k < |entries| && docOf(entries[k]) == Some(d) {
          var k :| i + 1 <= k < |entries| && docOf(entries[k]) == Some(d);
        }
      } else {
        HarvestFromOrigin(entries, i + 1, seen, collected, limit, docOf);
      }
    }
  }

  /** Harvested URLs are new: none is in `seen`, and no two are equal. */
  lemma {:induction false} HarvestFromFresh(entries: seq<ListingEntry>, i: nat, seen: set<string>, collected: int, limit: int,
                                            docOf: ListingEntry -> Option<ReviewDocument>)
    requires i <= |entries| && KeepsUrl(docOf)
    ensures var r := HarvestFrom(entries, i, seen, collected, limit, docOf);
      DistinctKeys(r, DocUrl) && forall d :: d in r ==> DocUrl(d) !in seen
    decreases |entries| - i
  {
    if i < |entries| && collected < limit {
      if entries[i].url !in seen && docOf(entries[i]).Some? {
        var seen' := seen + {entries[i].url};
        HarvestFromFresh(entries, i + 1, seen', collected + 1, limit, docOf);
        var rest := HarvestFrom(entries, i + 1, seen', collected + 1, limit, docOf);
        DistinctKeysCons(docOf(entries[i]).value, rest, DocUrl);
      } else {
        HarvestFromFresh(entries, i + 1, seen, collected, limit, docOf);
      }
    }
  }

  /** Short of the limit, every entry at `i` or later that has a document
      has its URL in `seen` or among the harvested URLs. */
  lemma {:induction false} HarvestFromComplete(entries: seq<ListingEntry>, i: nat, seen: set<string>, collected: int, limit: int,
                                               docOf: ListingEntry -> Option<ReviewDocument>)
    requires i <= |entries| && KeepsUrl(docOf)
    requires collected + |HarvestFrom(entries, i, seen, collected, limit, docOf)| < limit
    ensures forall k :: i <= k < |entries| && docOf(entries[k]).Some? ==>
      entries[k].url in seen + Keys(HarvestFrom(entries, i, seen, collected, limit, docOf), DocUrl)
    decreases |entries| - i
  {
    if i < |entries| {
      var r := HarvestFrom(entries, i, seen, collected, limit, docOf);
      if entries[i].url !in seen && docOf(entries[i]).Some? {
        var seen' := seen + {entries[i].url};
        HarvestFromComplete(entries, i + 1, seen', collected + 1, limit, docOf);
        var rest := HarvestFrom(entries, i + 1, seen', collected + 1, limit, docOf);
        assert r == [docOf(entries[i]).value] + rest;
        assert Keys(r, DocUrl) == {entries[i].url} + Keys(rest, DocUrl);
      } else {
        HarvestFromComplete(entries, i + 1, seen, collected, limit, docOf);
      }
    }
  }

  /** What visiting one listing page harvests: nothing when the page fails
      to load, else the harvest of its entries. */
  function ListingHarvest(listingUrl: string, seen: set<string>, collected: int, limit: int,
                          fetchListing: string -> Option<ListingPage>, fetchReview: string -> Option<ReviewDetails>,
                          md5: string -> string): seq<ReviewDocument>
    requires IsMd5Hex(md5)
  {
    match fetchListing(listingUrl)
    case None => []
    case Some(page) => HarvestFrom(ListingEntries(page.reviewLinks), 0, seen, collected, limit, DocOf(fetchReview, md5))
  }

  /** The new documents of a crawl that visited the listing pages `visits`
      in order, starting from the URLs in `startSeen` and no reviews
      collected: each visit harvests with the URLs and count reached so far. */
  function CrawlHarvest(visits: seq<string>, startSeen: set<string>, limit: int,
                        fetchListing: string -> Option<ListingPage>, fetchReview: string -> Option<ReviewDetails>,
                        md5: string -> string): seq<ReviewDocument>
    requires IsMd5Hex(md5)
  {
    if visits == [] then []
    else
      var before := CrawlHarvest(visits[..|visits| - 1], startSeen, limit, fetchListing, fetchReview, md5);
      before + ListingHarvest(visits[|visits| - 1], startSeen + Keys(before, DocUrl), |before|, limit,
                              fetchListing, fetchReview, md5)
  }

  /** A listing URL the crawl can reach: one of the first queue, or a next
      listing URL of a page visited earlier. */
  ghost predicate Reachable(u: string, first: seq<string>, earlier: seq<string>, fetchListing: string -> Option<ListingPage>) {
    u in first
    || exists j :: 0 <= j < |earlier| && fetchListing(earlier[j]).Some? && u in NextListingUrls(fetchListing(earlier[j]).value)
  }

  class Crawler {
    var documents: seq<ReviewDocument>
    var outputFile: OutputFile

    constructor(file: OutputFile)
      ensures documents == [] && outputFile == file
    {
      documents := [];
      outputFile := file;
    }

    /** `save`: writes every document, unless there are none. */
    method Save()
      modifies this
      ensures documents == old(documents)
      ensures outputFile == if documents == [] then old(outputFile) else Saved(documents)
    {
      if documents == [] {
        return;
      }
      outputFile := Saved(documents);
    }

    /** `crawl`: load the saved reviews, then walk the listing queue until it
        is empty, `limit` new reviews are collected, or `fuel` listing pages
        have been visited.  `visits` are the listing pages visited, in order,
        and `pending` the queue left over. */
    method Crawl(limit: int, startPage: int,
                 fetchListing: string -> Option<ListingPage>, fetchDetail: string -> Option<DetailPage>,
                 md5: string -> string, fuel: nat)
      returns (collected: nat, ghost visits: seq<string>, ghost pending: seq<string>)
      requires IsMd5Hex(md5)
      modifies this
      ensures documents == LoadedDocuments(old(outputFile), old(documents))
                           + CrawlHarvest(visits, SeenAtStart(old(outputFile)), limit, fetchListing, ReviewFetcher(fetchDetail), md5)
      ensures CrawlState(documents, outputFile, LoadedDocuments(old(outputFile), old(documents)), SeenAtStart(old(outputFile)),
                       old(outputFile), collected, limit, Provenance(fetchListing, ReviewFetcher(fetchDetail), md5))
      ensures |visits| <= fuel
      ensures pending == [] || collected >= limit || |visits| == fuel
      ensures fuel > 0 && limit > 0 ==> |visits| > 0 && visits[0] == InitialQueue(startPage)[0]
      ensures forall k :: 0 <= k < |visits| ==> Reachable(visits[k], InitialQueue(startPage), visits[..k], fetchListing)
      ensures forall u :: u in pending ==> Reachable(u, InitialQueue(startPage), visits, fetchListing)
      ensures IsPrefix(InitialQueue(startPage), visits + pending)
      ensures forall u :: Reachable(u, InitialQueue(startPage), visits, fetchListing) ==> u in visits || u in pending
    {
      var initialFile := outputFile;
      if outputFile.Saved? {
        documents := outputFile.docs;
      }
      StartState(documents, initialFile, SeenAtStart(initialFile), limit, Provenance(fetchListing, ReviewFetcher(fetchDetail), md5));
      collected, visits, pending := Walk(InitialQueue(startPage), SeenAtStart(initialFile), limit,
                                         fetchListing, ReviewFetcher(fetchDetail), md5, fuel, documents, initialFile);
    }

    /** The loop of `crawl`, from the loaded reviews and the first queue. */
    method Walk(queue0: seq<string>, seen0: set<string>, limit: int,
                fetchListing: string -> Option<ListingPage>, fetchReview: string -> Option<ReviewDetails>,
                md5: string -> string, fuel: nat, ghost loaded: seq<ReviewDocument>, ghost initialFile: OutputFile)
      returns (collected: nat, ghost visits: seq<string>, ghost pending: seq<string>)
      requires IsMd5Hex(md5)
      requires queue0 != [] && NoDuplicates(queue0) && seen0 == SeenAtStart(initialFile) && documents == loaded
      requires CrawlState(documents, outputFile, loaded, seen0, initialFile, 0, limit, Provenance(fetchListing, fetchReview, md5))
      modifies this
      ensures documents == loaded + CrawlHarvest(visits, seen0, limit, fetchListing, fetchReview, md5)
      ensures CrawlState(documents, outputFile, loaded, seen0, initialFile, collected, limit, Provenance(fetchListing, fetchReview, md5))
      ensures forall k :: 0 <= k < |visits| ==> Reachable(visits[k], queue0, visits[..k], fetchListing)
      ensures forall u :: u in pending ==> Reachable(u, queue0, visits, fetchListing)
      ensures |visits| <= fuel
      ensures pending == [] || collected >= limit || |visits| == fuel
      ensures fuel > 0 && limit > 0 ==> |visits| > 0 && visits[0] == queue0[0]
      ensures IsPrefix(queue0, visits + pending)
      ensures forall u :: Reachable(u, queue0, visits, fetchListing) ==> u in visits || u in pending
    {
      ghost var provenance := Provenance(fetchListing, fetchReview, md5);
      assert documents[|loaded|..] == [];
      var queue, seen := queue0, seen0;
      collected := 0;
      visits := [];
      var steps := 0;
      assert visits + queue == queue0;
      CoveredAtStart(queue0, fetchListing);
      while queue != [] && collected < limit && steps < fuel
        invariant Walking(documents, outputFile, loaded, initialFile, collected, limit, seen, visits, queue, queue0,
                          fetchListing, fetchReview, md5)
        invariant steps <= fuel && |visits| == steps
        invariant steps == 0 ==> queue == queue0
        invariant fuel > 0 && limit > 0 && steps > 0 ==> visits[0] == queue0[0]
        invariant IsPrefix(queue0, visits + queue)
        invariant Covered(visits, queue, queue0, fetchListing)
        decreases fuel - steps
      {
        steps := steps + 1;
        ghost var stream := visits + queue;
        queue, seen, collected, visits := Turn(queue, seen, collected, visits, limit, queue0,
                                               fetchListing, fetchReview, md5, loaded, initialFile);
        PrefixTransitive(queue0, stream, visits + queue);
      }
      pending := queue;
    }

    /** One iteration of the `crawl` loop: pop the head of the queue and
        visit it.  The documents stay the loaded ones followed by the
        harvest of the visited pages, and every queued page stays
        reachable. */
    method Turn(queue0: seq<string>, seen0: set<string>, collected0: nat, ghost visits0: seq<string>,
                limit: int, first: seq<string>,
                fetchListing: string -> Option<ListingPage>, fetchReview: string -> Option<ReviewDetails>,
                md5: string -> string, ghost loaded: seq<ReviewDocument>, ghost initialFile: OutputFile)
      returns (queue: seq<string>, seen: set<string>, collected: nat, ghost visits: seq<string>)
      requires IsMd5Hex(md5) && queue0 != []
      requires Walking(documents, outputFile, loaded, initialFile, collected0, limit, seen0, visits0, queue0, first,
                       fetchListing, fetchReview, md5)
      requires Covered(visits0, queue0, first, fetchListing)
      modifies this
      ensures visits == visits0 + [queue0[0]]
      ensures NoDuplicates(queue) && IsPrefix(queue0[1..], queue)
      ensures forall u :: u in queue <==>
        u in queue0[1..] || (fetchListing(queue0[0]).Some? && u in NextListingUrls(fetchListing(queue0[0]).value))
      ensures IsPrefix(visits0 + queue0, visits + queue)
      ensures Covered(visits, queue, first, fetchListing)
      ensures Walking(documents, outputFile, loaded, initialFile, collected, limit, seen, visits, queue, first,
                      fetchListing, fetchReview, md5)
    {
      var listingUrl := queue0[0];
      ghost var startSeen := SeenAtStart(initialFile);
      ghost var provenance := Provenance(fetchListing, fetchReview, md5);
      ghost var before := CrawlHarvest(visits0, startSeen, limit, fetchListing, fetchReview, md5);
      assert documents[|loaded|..] == before;
      ghost var harvest := ListingHarvest(listingUrl, seen0, collected0, limit, fetchListing, fetchReview, md5);
      VisitStep(visits0, listingUrl, startSeen, seen0, collected0, limit, fetchListing, fetchReview, md5);
      queue, seen, collected := VisitListing(listingUrl, queue0[1..], seen0, collected0, limit, fetchListing, fetchReview, md5,
                                             loaded, initialFile, provenance);
      AppendAssoc(loaded, before, harvest);
      QueueAfterVisit(queue0, queue, first, visits0, fetchListing);
      VisitsAfterVisit(visits0, listingUrl, first, fetchListing);
      CoveredAfterVisit(queue0, queue, visits0, first, fetchListing);
      PopPrefix(visits0, queue0, queue);
      visits := visits0 + [listingUrl];
    }

    /** One turn of the `crawl` loop: fetch a listing page, queue the listing
        pages it links to, and harvest its entries. A page that fails to
        load changes nothing. */
    method VisitListing(listingUrl: string, queue0: seq<string>, seen0: set<string>, collected0: nat, limit: int,
                        fetchListing: string -> Option<ListingPage>, fetchReview: string -> Option<ReviewDetails>,
                        md5: string -> string, ghost loaded: seq<ReviewDocument>, ghost initialFile: OutputFile,
                        ghost provenance: ReviewDocument -> bool)
      returns (queue: seq<string>, seen: set<string>, collected: nat)
      requires IsMd5Hex(md5)
      requires forall d :: Harvested(d, fetchListing, fetchReview, md5) ==> provenance(d)
      requires NoDuplicates(queue0)
      requires CrawlState(documents, outputFile, loaded, SeenAtStart(initialFile), initialFile, collected0, limit, provenance)
      requires seen0 == SeenAtStart(initialFile) + Keys(documents[|loaded|..], DocUrl)
      modifies this
      ensures documents == old(documents) + ListingHarvest(listingUrl, seen0, collected0, limit, fetchListing, fetchReview, md5)
      ensures NoDuplicates(queue) && IsPrefix(queue0, queue)
      ensures forall u :: u in queue <==>
        u in queue0 || (fetchListing(listingUrl).Some? && u in NextListingUrls(fetchListing(listingUrl).value))
      ensures fetchListing(listingUrl).None? ==>
        queue == queue0 && seen == seen0 && collected == collected0 && outputFile == old(outputFile)
      ensures CrawlState(documents, outputFile, loaded, SeenAtStart(initialFile), initialFile, collected, limit, provenance)
      ensures seen == SeenAtStart(initialFile) + Keys(documents[|loaded|..], DocUrl)
    {
      queue, seen, collected := queue0, seen0, collected0;
      var listing := fetchListing(listingUrl);
      if listing.None? {
        return;
      }
      var entries, discovered := ParseListing(listing.value);
      queue := EnqueueAll(queue, discovered);
      if entries == [] {
        return;
      }
      EntriesVouched(listingUrl, entries, fetchListing, fetchReview, md5, provenance);
      seen, collected := HarvestEntries(entries, limit, seen, collected, fetchReview, md5,
                                        loaded, initialFile, provenance);
    }

    /** Appends a new harvested review and saves when the number of new
        reviews reaches a multiple of ten. */
    method Record(document: ReviewDocument, ghost loaded: seq<ReviewDocument>, ghost initialFile: OutputFile,
                  collected: nat, limit: int, ghost provenance: ReviewDocument -> bool)
      returns (count: nat)
      requires CrawlState(documents, outputFile, loaded, SeenAtStart(initialFile), initialFile, collected, limit, provenance)
      requires collected < limit
      requires provenance(document)
      requires DocUrl(document) !in SeenAtStart(initialFile) + Keys(documents[|loaded|..], DocUrl)
      modifies this
      ensures documents == old(documents) + [document]
      ensures Keys(documents[|loaded|..], DocUrl) == Keys(old(documents)[|loaded|..], DocUrl) + {DocUrl(document)}
      ensures count == collected + 1
      ensures CrawlState(documents, outputFile, loaded, SeenAtStart(initialFile), initialFile, count, limit, provenance)
    {
      AppendKeepsState(documents, outputFile, document, loaded, SeenAtStart(initialFile), initialFile,
                       collected, limit, provenance);
      documents := documents + [document];
      count := collected + 1;
      if count % SaveEvery == 0 {
        Save();
      }
    }

    /** The inner loop of `crawl` over one listing page's entries: it
        appends exactly the documents HarvestFrom describes. */
    method HarvestEntries(entries: seq<ListingEntry>, limit: int,
                          seen0: set<string>, collected0: nat,
                          fetchReview: string -> Option<ReviewDetails>,
                          md5: string -> string, ghost loaded: seq<ReviewDocument>, ghost initialFile: OutputFile,
                          ghost provenance: ReviewDocument -> bool)
      returns (seen: set<string>, collected: nat)
      requires IsMd5Hex(md5)
      requires forall e :: e in entries && fetchReview(e.url).Some? ==> provenance(EntryDocument(e, fetchReview, md5))
      requires CrawlState(documents, outputFile, loaded, SeenAtStart(initialFile), initialFile, collected0, limit, provenance)
      requires seen0 == SeenAtStart(initialFile) + Keys(documents[|loaded|..], DocUrl)
      modifies this
      ensures documents == old(documents) + HarvestFrom(entries, 0, seen0, collected0, limit, DocOf(fetchReview, md5))
      ensures CrawlState(documents, outputFile, loaded, SeenAtStart(initialFile), initialFile, collected, limit, provenance)
      ensures seen == SeenAtStart(initialFile) + Keys(documents[|loaded|..], DocUrl)
    {
      seen, collected := seen0, collected0;
      var i := 0;
      while i < |entries|
        invariant 0 <= i <= |entries|
        invariant CrawlState(documents, outputFile, loaded, SeenAtStart(initialFile), initialFile, collected, limit, provenance)
        invariant seen == SeenAtStart(initialFile) + Keys(documents[|loaded|..], DocUrl)
        invariant old(documents) + HarvestFrom(entries, 0, seen0, collected0, limit, DocOf(fetchReview, md5))
                  == documents + HarvestFrom(entries, i, seen, collected, limit, DocOf(fetchReview, md5))
      {
        if collected >= limit {
          break;
        }
        seen, collected := HarvestTurn(entries, i, limit, seen, collected, fetchReview, md5, loaded, initialFile, provenance);
        i := i + 1;
      }
    }

    /** One turn of the inner loop, below the limit, as a step of HarvestFrom:
        the documents gain the turn's share of the page's harvest. */
    method HarvestTurn(entries: seq<ListingEntry>, i: nat, limit: int, seen0: set<string>, collected0: nat,
                       fetchReview: string -> Option<ReviewDetails>,
                       md5: string -> string, ghost loaded: seq<ReviewDocument>, ghost initialFile: OutputFile,
                       ghost provenance: ReviewDocument -> bool)
      returns (seen: set<string>, collected: nat)
      requires IsMd5Hex(md5)
      requires forall e :: e in entries && fetchReview(e.url).Some? ==> provenance(EntryDocument(e, fetchReview, md5))
      requires i < |entries| && collected0 < limit
      requires CrawlState(documents, outputFile, loaded, SeenAtStart(initialFile), initialFile, collected0, limit, provenance)
      requires seen0 == SeenAtStart(initialFile) + Keys(documents[|loaded|..], DocUrl)
      modifies this
      ensures old(documents) + HarvestFrom(entries, i, seen0, collected0, limit, DocOf(fetchReview, md5))
              == documents + HarvestFrom(entries, i + 1, seen, collected, limit, DocOf(fetchReview, md5))
      ensures CrawlState(documents, outputFile, loaded, SeenAtStart(initialFile), initialFile, collected, limit, provenance)
      ensures seen == SeenAtStart(initialFile) + Keys(documents[|loaded|..], DocUrl)
    {
      ghost var added := if Admitted(entries[i], seen0, fetchReview) then [EntryDocument(entries[i], fetchReview, md5)] else [];
      seen, collected := HarvestEntry(entries, i, limit, seen0, collected0, fetchReview, md5,
                                      loaded, initialFile, provenance);
      HarvestFromStep(entries, i, seen0, collected0, seen, collected, limit, fetchReview, md5);
      ghost var after := HarvestFrom(entries, i + 1, seen, collected, limit, DocOf(fetchReview, md5));
      AppendAssoc(old(documents), added, after);
    }

    /** One turn of the inner loop, below the limit: an entry whose URL is
        not yet seen and whose review page loads is recorded; any other is
        skipped. */
    method HarvestEntry(entries: seq<ListingEntry>, i: nat, limit: int,
                        seen0: set<string>, collected0: nat,
                        fetchReview: string -> Option<ReviewDetails>,
                        md5: string -> string, ghost loaded: seq<ReviewDocument>, ghost initialFile: OutputFile,
                        ghost provenance: ReviewDocument -> bool)
      returns (seen: set<string>, collected: nat)
      requires IsMd5Hex(md5)
      requires forall e :: e in entries && fetchReview(e.url).Some? ==> provenance(EntryDocument(e, fetchReview, md5))
      requires i < |entries| && collected0 < limit
      requires CrawlState(documents, outputFile, loaded, SeenAtStart(initialFile), initialFile, collected0, limit, provenance)
      requires seen0 == SeenAtStart(initialFile) + Keys(documents[|loaded|..], DocUrl)
      modifies this
      ensures Admitted(entries[i], seen0, fetchReview) ==>
        && documents == old(documents) + [EntryDocument(entries[i], fetchReview, md5)]
        && seen == seen0 + {entries[i].url}
        && collected == collected0 + 1
      ensures !Admitted(entries[i], seen0, fetchReview) ==>
        documents == old(documents) && seen == seen0 && collected == collected0
      ensures CrawlState(documents, outputFile, loaded, SeenAtStart(initialFile), initialFile, collected, limit, provenance)
      ensures seen == SeenAtStart(initialFile) + Keys(documents[|loaded|..], DocUrl)
    {
      seen, collected := seen0, collected0;
      var entry := entries[i];
      if entry.url in seen {
        return;
      }
      var harvested := HarvestOne(entry, fetchReview, md5, provenance);
      if harvested.None? {
        return;
      }
      var document := harvested.value;
      assert document == EntryDocument(entry, fetchReview, md5);
      collected := Record(document, loaded, initialFile, collected, limit, provenance);
      seen := seen + {entry.url};
    }
  }

  /** Below the limit, the harvest from entry `i` on is entry `i`'s
      document, when it is admitted, followed by the harvest from the next
      entry with the state updated accordingly. */
  lemma HarvestFromStep(entries: seq<ListingEntry>, i: nat, seen: set<string>, collected: int,
                        seen': set<string>, collected': int, limit: int,
                        fetchReview: string -> Option<ReviewDetails>, md5: string -> string)
    requires IsMd5Hex(md5) && i < |entries| && collected < limit
    requires Admitted(entries[i], seen, fetchReview) ==> seen' == seen + {entries[i].url} && collected' == collected + 1
    requires !Admitted(entries[i], seen, fetchReview) ==> seen' == seen && collected' == collected
    ensures HarvestFrom(entries, i, seen, collected, limit, DocOf(fetchReview, md5))
      == (if Admitted(entries[i], seen, fetchReview) then [EntryDocument(entries[i], fetchReview, md5)] else [])
         + HarvestFrom(entries, i + 1, seen', collected', limit, DocOf(fetchReview, md5))
  {
    if !Admitted(entries[i], seen, fetchReview) {
      assert [] + HarvestFrom(entries, i + 1, seen', collected', limit, DocOf(fetchReview, md5))
          == HarvestFrom(entries, i + 1, seen', collected', limit, DocOf(fetchReview, md5));
    }
  }

  /** The crawl's step from `visits` to one more visited listing page. */
  lemma VisitStep(visits: seq<string>, listingUrl: string, startSeen: set<string>, seen: set<string>, collected: int,
                  limit: int, fetchListing: string -> Option<ListingPage>, fetchReview: string -> Option<ReviewDetails>,
                  md5: string -> string)
    requires IsMd5Hex(md5)
    requires var before := CrawlHarvest(visits, startSeen, limit, fetchListing, fetchReview, md5);
      seen == startSeen + Keys(before, DocUrl) && collected == |before|
    ensures CrawlHarvest(visits + [listingUrl], startSeen, limit, fetchListing, fetchReview, md5)
      == CrawlHarvest(visits, startSeen, limit, fetchListing, fetchReview, md5)
         + ListingHarvest(listingUrl, seen, collected, limit, fetchListing, fetchReview, md5)
  {
    assert (visits + [listingUrl])[..|visits|] == visits;
  }

  /** After visiting the head of the queue, every queued URL is reachable. */
  lemma QueueAfterVisit(queue0: seq<string>, queue: seq<string>, first: seq<string>, visits: seq<string>,
                        fetchListing: string -> Option<ListingPage>)
    requires queue0 != []
    requires forall u :: u in queue0 ==> Reachable(u, first, visits, fetchListing)
    requires forall u :: u in queue <==>
      u in queue0[1..] || (fetchListing(queue0[0]).Some? && u in NextListingUrls(fetchListing(queue0[0]).value))
    ensures forall u :: u in queue ==> Reachable(u, first, visits + [queue0[0]], fetchListing)
  {
    forall u | u in queue ensures Reachable(u, first, visits + [queue0[0]], fetchListing) {
      if u in queue0[1..] {
        assert u in queue0;
      }
      ReachableAfterVisit(u, first, visits, queue0[0], fetchListing);
    }
  }

  /** Visiting a reachable URL keeps every visit reachable from the ones
      before it. */
  lemma VisitsAfterVisit(visits: seq<string>, listingUrl: string, first: seq<string>,
                         fetchListing: string -> Option<ListingPage>)
    requires forall k :: 0 <= k < |visits| ==> Reachable(visits[k], first, visits[..k], fetchListing)
    requires Reachable(listingUrl, first, visits, fetchListing)
    ensures var vs := visits + [listingUrl];
      forall k :: 0 <= k < |vs| ==> Reachable(vs[k], first, vs[..k], fetchListing)
  {
    var vs := visits + [listingUrl];
    forall k | 0 <= k < |vs| ensures Reachable(vs[k], first, vs[..k], fetchListing) {
      if k == |visits| {
        assert vs[..k] == visits;
      } else {
        assert vs[..k] == visits[..k] && vs[k] == visits[k];
      }
    }
  }

  /** Every reachable page is visited or still queued. */
  ghost predicate Covered(visits: seq<string>, queue: seq<string>, first: seq<string>,
                          fetchListing: string -> Option<ListingPage>)
  {
    forall u :: Reachable(u, first, visits, fetchListing) ==> u in visits || u in queue
  }

  /** Before the first visit, the reachable pages are those of the first queue. */
  lemma CoveredAtStart(first: seq<string>, fetchListing: string -> Option<ListingPage>)
    ensures Covered([], first, first, fetchListing)
  {
  }

  /** A URL reachable after a visit was reachable before it, or is a next
      listing URL of the visited page. */
  lemma ReachableBeforeVisit(u: string, first: seq<string>, visits: seq<string>, listingUrl: string,
                             fetchListing: string -> Option<ListingPage>)
    requires Reachable(u, first, visits + [listingUrl], fetchListing)
    ensures Reachable(u, first, visits, fetchListing)
      || (fetchListing(listingUrl).Some? && u in NextListingUrls(fetchListing(listingUrl).value))
  {
    var vs := visits + [listingUrl];
    if u !in first {
      var j :| 0 <= j < |vs| && fetchListing(vs[j]).Some? && u in NextListingUrls(fetchListing(vs[j]).value);
      if j < |visits| {
        assert vs[j] == visits[j];
      }
    }
  }

  /** Popping the head of the queue into the visits and queueing the
      visited page's next listing URLs leaves every reachable page visited
      or queued. */
  lemma CoveredAfterVisit(queue0: seq<string>, queue: seq<string>, visits: seq<string>, first: seq<string>,
                          fetchListing: string -> Option<ListingPage>)
    requires queue0 != []
    requires Covered(visits, queue0, first, fetchListing)
    requires forall u :: u in queue <==>
      u in queue0[1..] || (fetchListing(queue0[0]).Some? && u in NextListingUrls(fetchListing(queue0[0]).value))
    ensures Covered(visits + [queue0[0]], queue, first, fetchListing)
  {
    var vs := visits + [queue0[0]];
    forall u | Reachable(u, first, vs, fetchListing) ensures u in vs || u in queue {
      ReachableBeforeVisit(u, first, visits, queue0[0], fetchListing);
      if Reachable(u, first, visits, fetchListing) && u !in visits && u != queue0[0] {
        assert queue0 == [queue0[0]] + queue0[1..];
        assert u in queue0[1..];
      }
    }
  }

  /** Popping the head into the visits and appending to the rest of the
      queue only extends the sequence of visited-then-queued pages. */
  lemma PopPrefix(visits: seq<string>, queue0: seq<string>, queue: seq<string>)
    requires queue0 != [] && IsPrefix(queue0[1..], queue)
    ensures IsPrefix(visits + queue0, visits + [queue0[0]] + queue)
  {
    var s := visits + [queue0[0]] + queue;
    assert s[..|visits| + |queue0|] == visits + [queue0[0]] + queue[..|queue0| - 1];
    assert queue0 == [queue0[0]] + queue0[1..];
  }

  /** A URL reachable before a visit stays reachable, and the visited
      page's next listing URLs become reachable. */
  lemma ReachableAfterVisit(u: string, first: seq<string>, visits: seq<string>, listingUrl: string,
                            fetchListing: string -> Option<ListingPage>)
    requires Reachable(u, first, visits, fetchListing)
      || (fetchListing(listingUrl).Some? && u in NextListingUrls(fetchListing(listingUrl).value))
    ensures Reachable(u, first, visits + [listingUrl], fetchListing)
  {
    var vs := visits + [listingUrl];
    if u !in first {
      if fetchListing(listingUrl).Some? && u in NextListingUrls(fetchListing(listingUrl).value) {
        assert vs[|visits|] == listingUrl;
      } else {
        var j :| 0 <= j < |visits| && fetchListing(visits[j]).Some? && u in NextListingUrls(fetchListing(visits[j]).value);
        assert vs[j] == visits[j];
      }
    }
  }

  /** The state of a crawl that started from `loaded`, has collected
      `collected` new reviews and may collect at most `limit`: the loaded
      documents are kept as a prefix; the new ones have pairwise distinct
      URLs, none of them already seen at the start, and each was built from
      fetched pages; the file holds the documents as of the last multiple of
      ten new reviews, and is untouched before the tenth. */
  ghost predicate CrawlState(docs: seq<ReviewDocument>, file: OutputFile,
                             loaded: seq<ReviewDocument>, startSeen: set<string>, initialFile: OutputFile,
                             collected: nat, limit: int, provenance: ReviewDocument -> bool)
  {
    && |docs| == |loaded| + collected
    && docs[..|loaded|] == loaded
    && (collected == 0 || collected <= limit)
    && DistinctKeys(docs[|loaded|..], DocUrl)
    && (forall d :: d in docs[|loaded|..] ==> DocUrl(d) !in startSeen && provenance(d))
    && file == (if collected >= SaveEvery
                then Saved(docs[..|loaded| + collected / SaveEvery * SaveEvery])
                else initialFile)
  }

  /** The state of the `crawl` loop after visiting the listing pages
      `visits`, with `queue` left to visit: the crawl state; the seen URLs
      are the saved ones and the new ones; the new documents are the
      harvest of the visits; the queue has no duplicates; and every visited
      or queued page is reachable from the pages visited before it. */
  ghost predicate Walking(docs: seq<ReviewDocument>, file: OutputFile, loaded: seq<ReviewDocument>, initialFile: OutputFile,
                          collected: nat, limit: int, seen: set<string>, visits: seq<string>, queue: seq<string>, first: seq<string>,
                          fetchListing: string -> Option<ListingPage>, fetchReview: string -> Option<ReviewDetails>,
                          md5: string -> string)
    requires IsMd5Hex(md5)
  {
    && CrawlState(docs, file, loaded, SeenAtStart(initialFile), initialFile, collected, limit, Provenance(fetchListing, fetchReview, md5))
    && |loaded| <= |docs|
    && seen == SeenAtStart(initialFile) + Keys(docs[|loaded|..], DocUrl)
    && docs == loaded + CrawlHarvest(visits, SeenAtStart(initialFile), limit, fetchListing, fetchReview, md5)
    && NoDuplicates(queue)
    && (forall k :: 0 <= k < |visits| ==> Reachable(visits[k], first, visits[..k], fetchListing))
    && (forall u :: u in queue ==> Reachable(u, first, visits, fetchListing))
  }

  /** A crawl that has only loaded the saved reviews is in the crawl state,
      with nothing new and so nothing seen beyond the saved URLs. */
  lemma StartState(loaded: seq<ReviewDocument>, initialFile: OutputFile, startSeen: set<string>,
                   limit: int, provenance: ReviewDocument -> bool)
    ensures CrawlState(loaded, initialFile, loaded, startSeen, initialFile, 0, limit, provenance)
    ensures startSeen + Keys(loaded[|loaded|..], DocUrl) == startSeen
  {
    assert loaded[|loaded|..] == [];
    assert loaded[..|loaded|] == loaded;
  }

  /** Appending one harvested review whose URL is new, then saving when the
      count reaches a multiple of ten, keeps the crawl state. */
  lemma AppendKeepsState(docs: seq<ReviewDocument>, file: OutputFile, d: ReviewDocument,
                         loaded: seq<ReviewDocument>, startSeen: set<string>, initialFile: OutputFile,
                         collected: nat, limit: int, provenance: ReviewDocument -> bool)
    requires CrawlState(docs, file, loaded, startSeen, initialFile, collected, limit, provenance)
    requires collected < limit
    requires provenance(d)
    requires DocUrl(d) !in startSeen + Keys(docs[|loaded|..], DocUrl)
    ensures var docs' := docs + [d];
      && Keys(docs'[|loaded|..], DocUrl) == Keys(docs[|loaded|..], DocUrl) + {DocUrl(d)}
      && CrawlState(docs', if (collected + 1) % SaveEvery == 0 then Saved(docs') else file,
                    loaded, startSeen, initialFile, collected + 1, limit, provenance)
  {
    var docs' := docs + [d];
    var added := docs[|loaded|..];
    assert docs'[|loaded|..] == added + [d];
    assert docs'[..|loaded|] == loaded;
    KeysAppend(added, d, DocUrl);
    FreshAppend(added, d, startSeen);
    CheckpointStep(docs, d, |loaded|, collected, file, initialFile);
    assert forall x :: x in docs'[|loaded|..] ==> x in added || x == d;
  }

  /** One more document moves the file from the checkpoint of the old
      documents to that of the new ones. */
  lemma CheckpointStep(docs: seq<ReviewDocument>, d: ReviewDocument, base: nat, collected: nat,
                       file: OutputFile, initialFile: OutputFile)
    requires |docs| == base + collected
    requires file == (if collected >= SaveEvery then Saved(docs[..base + collected / SaveEvery * SaveEvery]) else initialFile)
    ensures var c := collected + 1;
      (if c % SaveEvery == 0 then Saved(docs + [d]) else file)
      == (if c >= SaveEvery then Saved((docs + [d])[..base + c / SaveEvery * SaveEvery]) else initialFile)
  {
    var docs' := docs + [d];
    var c := collected + 1;
    if c % SaveEvery == 0 {
      assert c >= SaveEvery;
      assert base + c / SaveEvery * SaveEvery == |docs'|;
      assert docs'[..|docs'|] == docs';
    } else if c >= SaveEvery {
      assert collected >= SaveEvery;
      CheckpointPrefix(docs, d, base, c);
    } else {
      assert collected < SaveEvery;
    }
  }

  /** Appending a document whose URL is new keeps the added documents'
      URLs distinct and unseen. */
  lemma FreshAppend(added: seq<ReviewDocument>, d: ReviewDocument, startSeen: set<string>)
    requires DistinctKeys(added, DocUrl)
    requires DocUrl(d) !in startSeen + Keys(added, DocUrl)
    ensures DistinctKeys(added + [d], DocUrl)
  {
    var s := added + [d];
    forall i, j | 0 <= i < j < |s| ensures DocUrl(s[i]) != DocUrl(s[j]) {
      assert s[i] == added[i];
      if j == |added| {
        assert added[i] in added;
      } else {
        assert s[j] == added[j];
      }
    }
  }

  /** The checkpoint prefix is unaffected by appending one document, unless
      the new count is a multiple of ten. */
  lemma CheckpointPrefix(docs: seq<ReviewDocument>, d: ReviewDocument, base: nat, collected: nat)
    requires collected >= 1 && |docs| == base + collected - 1
    ensures collected % SaveEvery != 0 && collected - 1 >= SaveEvery ==>
      (docs + [d])[..base + collected / SaveEvery * SaveEvery] == docs[..base + (collected - 1) / SaveEvery * SaveEvery]
  {
    if collected % SaveEvery != 0 && collected - 1 >= SaveEvery {
      assert collected / SaveEvery == (collected - 1) / SaveEvery;
      var k := base + collected / SaveEvery * SaveEvery;
      assert k <= |docs|;
      assert (docs + [d])[..k] == docs[..k];
    }
  }
}
