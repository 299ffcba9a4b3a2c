/**
 * The page-level logic of the RogerEbert.com crawler: reading a listing
 * page (review candidates and next listing pages), reading a review page
 * through ordered fallback probes, and merging both into a document.
 *
 * A fetched page is an abstract record of what each CSS probe of the
 * scraper found; anchors carry their `href` already resolved to an
 * absolute URL (and that URL's path).
 */
module RogerEbert {
  import opened Wrappers
  import opened Text
  import opened ScraperUtils
  import opened Sequences

  const BaseUrl: string := "https://www.rogerebert.com"
  const ReviewPathPrefix: string := "/reviews/"
  const MaxEntriesPerPage: nat := 50
  const UntitledReview: string := "Untitled Review"
  const MoreReviewsText: string := "More Reviews"
  const DefaultRatingScale: real := 4.0
  const Site: string := "rogerebert"

  // ---------------------------------------------------------------------
  // Records
  // ---------------------------------------------------------------------

  /** What the scraper reads about one review link on a listing page. */
  datatype ListingEntry = ListingEntry(
    title: string, url: string, year: Option<int>, critic: Option<string>, summary: string)

  /** What the scraper reads from one review page. */
  datatype ReviewDetails = ReviewDetails(
    reviewText: string,
    ratingValue: Option<real>,
    ratingScale: real,
    reviewDate: Option<string>,
    critic: Option<string>,
    movieYear: Option<int>,
    movieTitle: Option<string>,
    genres: seq<string>,
    directors: seq<string>,
    cast: seq<string>)

  /** A saved review: the canonical movie document plus the fields the
      scraper adds with `doc.update(...)`. */
  datatype ReviewDocument = ReviewDocument(
    base: MovieDocument,
    critic: Option<string>,
    reviewDate: Option<string>,
    ratingValue: Option<real>,
    ratingScale: real,
    summary: string)

  // ---------------------------------------------------------------------
  // Listing pages
  // ---------------------------------------------------------------------

  /** The teaser probes inside the closest enclosing <article> or <div>:
      the text of `.review-stack__tease`, and of the first <p>. */
  datatype Container = Container(tease: Option<string>, firstParagraph: Option<string>)

  /** An anchor selected by `a[href*="/reviews/"]`. */
  datatype ReviewLink = ReviewLink(
    href: string,              // the raw attribute, "" when empty
    url: string,               // href resolved against BaseUrl
    path: string,              // the path component of url
    text: string,              // the anchor's text
    article: Option<Container>,
    div: Option<Container>)

  /** An element found by a pagination probe: its raw href ("" when
      missing) and that href resolved against the listing page's URL. */
  datatype HrefElement = HrefElement(href: string, resolved: string)

  /** An <a> element with its `.string` (None when it has several children). */
  datatype TextAnchor = TextAnchor(text: Option<string>, link: HrefElement)

  datatype ListingPage = ListingPage(
    reviewLinks: seq<ReviewLink>,
    headNext: Option<HrefElement>,        // link[rel="next"]
    relNext: Option<HrefElement>,         // a[rel="next"]
    paginationNext: Option<HrefElement>,  // .pagination__next a
    anchors: seq<TextAnchor>)             // every <a>, in document order

  /** `_looks_like_review`: the path is under /reviews/ and has a slug with
      at least two hyphens. */
  predicate LooksLikeReview(path: string) {
    StartsWith(path, ReviewPathPrefix) && CountChar(path, '-') >= 2
  }

  /** "/reviews/" has no hyphen, so both hyphens are in the slug after it. */
  lemma LooksLikeReviewSlug(path: string)
    ensures LooksLikeReview(path) <==>
      StartsWith(path, ReviewPathPrefix) && CountChar(path[|ReviewPathPrefix|..], '-') >= 2
  {
    if StartsWith(path, ReviewPathPrefix) {
      assert path == ReviewPathPrefix + path[|ReviewPathPrefix|..];
      assert '-' !in ReviewPathPrefix;
    }
  }

  predicate IsCandidate(link: ReviewLink) {
    link.href != "" && LooksLikeReview(link.path)
  }

  /** The teaser text near a link: the enclosing <article>, else <div>,
      and in it `.review-stack__tease`, else the first <p>. */
  function Teaser(link: ReviewLink): Option<string> {
    match OrElse(link.article, link.div)
    case None => None
    case Some(c) => OrElse(c.tease, c.firstParagraph)
  }

  /** `_extract_summary_near_link`: the cleaned teaser, "" when there is
      none; it is empty exactly when the teaser is missing or blank. */
  function SummaryNearLink(link: ReviewLink): (s: string)
    ensures Teaser(link).Some? ==> s == CleanText(Teaser(link).value)
    ensures Teaser(link).None? ==> s == ""
    ensures IsClean(s)
    ensures s == "" <==> Teaser(link).None? || NonSpaceChars(Teaser(link).value) == ""
    ensures Teaser(link).Some? ==> NonSpaceChars(s) == NonSpaceChars(Teaser(link).value)
  {
    match Teaser(link)
    case None => ""
    case Some(t) => CleanTextKeepsContent(t); CleanText(t)
  }

  /** The entry `_parse_listing` builds for one accepted link. */
  function MakeEntry(link: ReviewLink): (e: ListingEntry)
    ensures e.url == link.url && e.critic.None?
    ensures e.title != ""
    ensures CleanText(link.text) == "" ==> e.title == UntitledReview
    ensures CleanText(link.text) != "" ==> e.title == CleanText(link.text)
    ensures e.summary == SummaryNearLink(link)
    ensures e.year == OrElse(ExtractYear(e.title), ExtractYear(e.summary))
  {
    var cleaned := CleanText(link.text);
    var title := if cleaned != "" then cleaned else UntitledReview;
    var summary := SummaryNearLink(link);
    ListingEntry(title, link.url, OrElse(ExtractYear(title), ExtractYear(summary)), None, summary)
  }

  function EntryUrl(e: ListingEntry): string { e.url }

  /** The entries of every accepted link, in page order, duplicates kept. */
  function Candidates(links: seq<ReviewLink>): seq<ListingEntry> {
    FilterMap(links, IsCandidate, MakeEntry)
  }

  /** What `_parse_listing` returns as entries: the first 50 candidates
      with distinct URLs. */
  function ListingEntries(links: seq<ReviewLink>): (r: seq<ListingEntry>)
    ensures |r| <= MaxEntriesPerPage
  {
    var d := DedupBy(Candidates(links), EntryUrl);
    if |d| <= MaxEntriesPerPage then d else d[..MaxEntriesPerPage]
  }

  /** `_parse_listing`: collect review entries, then the next listing URLs. */
  method ParseListing(page: ListingPage) returns (entries: seq<ListingEntry>, nextListingUrls: set<string>)
    ensures entries == ListingEntries(page.reviewLinks)
    ensures nextListingUrls == NextListingUrls(page)
  {
    var links := page.reviewLinks;
    entries := [];
    var seenUrls: set<string> := {};
    var i := 0;
    while i < |links|
      invariant 0 <= i <= |links|
      invariant entries == DedupBy(Candidates(links[..i]), EntryUrl)
      invariant seenUrls == Keys(entries, EntryUrl)
      invariant |entries| < MaxEntriesPerPage
    {
      var link := links[i];
      ghost var before := Candidates(links[..i]);
      FilterMapStep(links, i, IsCandidate, MakeEntry);
      i := i + 1;
      if link.href == "" {
        assert before + [] == before;
        continue;
      }
      var reviewUrl := link.url;
      if !LooksLikeReview(link.path) {
        assert before + [] == before;
        continue;
      }
      DedupByStep(before, MakeEntry(link), EntryUrl);
      if reviewUrl in seenUrls {
        continue;
      }
      var entry := MakeEntry(link);
      KeysAppend(entries, entry, EntryUrl);
      entries := entries + [entry];
      seenUrls := seenUrls + {reviewUrl};
      if |entries| >= MaxEntriesPerPage {
        break;
      }
    }
    ListingEntriesFromPrefix(links, i);
    nextListingUrls := NextListingUrls(page);
  }

  /** The loop may stop early: once 50 distinct candidates are found, the
      remaining links cannot change the first 50. */
  lemma ListingEntriesFromPrefix(links: seq<ReviewLink>, i: nat)
    requires i <= |links|
    requires var d := DedupBy(Candidates(links[..i]), EntryUrl);
      |d| == MaxEntriesPerPage || (i == |links| && |d| < MaxEntriesPerPage)
    ensures ListingEntries(links) == DedupBy(Candidates(links[..i]), EntryUrl)
  {
    if i < |links| {
      FilterMapPrefix(links, i, IsCandidate, MakeEntry);
      DedupPrefix(Candidates(links[..i]), Candidates(links), EntryUrl);
    } else {
      assert links[..i] == links;
    }
  }

  /** At most 50 entries, with pairwise distinct URLs. */
  lemma ListingEntriesDistinct(links: seq<ReviewLink>)
    ensures var r := ListingEntries(links);
      |r| <= MaxEntriesPerPage && forall i, j :: 0 <= i < j < |r| ==> r[i].url != r[j].url
  {
    var d := DedupBy(Candidates(links), EntryUrl);
    var r := ListingEntries(links);
    DedupDistinct(Candidates(links), EntryUrl);
    forall i, j | 0 <= i < j < |r| ensures r[i].url != r[j].url {
      assert r[i] == d[i] && r[j] == d[j];
      assert EntryUrl(d[i]) != EntryUrl(d[j]);
    }
  }

  /** The cut to 50 keeps only deduplicated candidates. */
  lemma ListingEntriesSub(links: seq<ReviewLink>)
    ensures forall e :: e in ListingEntries(links) ==> e in DedupBy(Candidates(links), EntryUrl)
  {
  }

  /** Each entry is built from an accepted link, the first accepted link
      with that URL; so its title is non-empty (falling back to "Untitled
      Review") and its year comes from the title, then the teaser. */
  lemma ListingEntriesFromLinks(links: seq<ReviewLink>)
    ensures forall e :: e in ListingEntries(links) ==>
      && e.title != "" && e.critic.None?
      && e.year == OrElse(ExtractYear(e.title), ExtractYear(e.summary))
      && exists n :: 0 <= n < |links| && IsCandidate(links[n]) && e == MakeEntry(links[n])
           && forall m :: 0 <= m < n && IsCandidate(links[m]) ==> links[m].url != e.url
  {
    var d := DedupBy(Candidates(links), EntryUrl);
    DedupOfFilterMap(links, IsCandidate, MakeEntry, EntryUrl);
    ListingEntriesSub(links);
    forall e | e in ListingEntries(links)
      ensures && e.title != "" && e.critic.None?
              && e.year == OrElse(ExtractYear(e.title), ExtractYear(e.summary))
              && exists n :: 0 <= n < |links| && IsCandidate(links[n]) && e == MakeEntry(links[n])
                   && forall m :: 0 <= m < n && IsCandidate(links[m]) ==> links[m].url != e.url
    {
      assert e in d;
      var n :| 0 <= n < |links| && IsCandidate(links[n]) && e == MakeEntry(links[n])
        && forall m :: 0 <= m < n && IsCandidate(links[m]) ==> EntryUrl(MakeEntry(links[m])) != EntryUrl(e);
      forall m | 0 <= m < n && IsCandidate(links[m]) ensures links[m].url != e.url {
        assert EntryUrl(MakeEntry(links[m])) == links[m].url;
      }
    }
  }

  /** When at most 50 distinct URLs qualify, no accepted link is missed. */
  lemma ListingEntriesComplete(links: seq<ReviewLink>)
    requires |DedupBy(Candidates(links), EntryUrl)| <= MaxEntriesPerPage
    ensures forall n :: 0 <= n < |links| && IsCandidate(links[n]) ==>
      exists e :: e in ListingEntries(links) && e.url == links[n].url
  {
    var r := ListingEntries(links);
    assert r == DedupBy(Candidates(links), EntryUrl);
    DedupOfFilterMap(links, IsCandidate, MakeEntry, EntryUrl);
    forall n | 0 <= n < |links| && IsCandidate(links[n])
      ensures exists e :: e in r && e.url == links[n].url
    {
      var u := EntryUrl(MakeEntry(links[n]));
      assert u in Keys(r, EntryUrl);
      var e :| e in r && EntryUrl(e) == u;
    }
  }

  /** The href of a probe's element, resolved, when it has a non-empty href. */
  function ProbeUrl(e: Option<HrefElement>): set<string> {
    match e
    case Some(h) => if h.href != "" then {h.resolved} else {}
    case None => {}
  }

  /** `soup.find("a", string=...)`: the first anchor whose string contains
      "More Reviews". */
  function MoreReviewsAnchor(anchors: seq<TextAnchor>): (r: Option<HrefElement>)
    ensures r.None? <==> forall i :: 0 <= i < |anchors| ==> !IsMoreReviews(anchors[i])
    ensures r.Some? ==> exists i :: (0 <= i < |anchors| && IsMoreReviews(anchors[i]) && anchors[i].link == r.value
      && forall j :: 0 <= j < i ==> !IsMoreReviews(anchors[j]))
  {
    if anchors == [] then None
    else if IsMoreReviews(anchors[0]) then Some(anchors[0].link)
    else
      var r := MoreReviewsAnchor(anchors[1..]);
      assert forall i :: 1 <= i < |anchors| ==> anchors[i] == anchors[1..][i - 1];
      r
  }

  /** The `string=` test: a non-empty string containing "More Reviews". */
  predicate IsMoreReviews(a: TextAnchor) {
    a.text.Some? && a.text.value != "" && Contains(a.text.value, MoreReviewsText)
  }

  /** `_extract_next_listing_urls`: the union of the three probes' URLs,
      keeping only those on the site itself. */
  function NextListingUrls(page: ListingPage): (r: set<string>)
    ensures forall u :: u in r ==> StartsWith(u, BaseUrl)
    ensures forall u :: u in r <==> (StartsWith(u, BaseUrl) &&
      (u in ProbeUrl(page.headNext) || u in ProbeUrl(OrElse(page.relNext, page.paginationNext))
       || u in ProbeUrl(MoreReviewsAnchor(page.anchors))))
  {
    var urls := ProbeUrl(page.headNext) + ProbeUrl(OrElse(page.relNext, page.paginationNext))
                + ProbeUrl(MoreReviewsAnchor(page.anchors));
    set u | u in urls && StartsWith(u, BaseUrl)
  }

  // ---------------------------------------------------------------------
  // Review pages
  // ---------------------------------------------------------------------

  /** A numeric attribute: its text, and `float(text)` (None on ValueError). */
  datatype NumberAttr = NumberAttr(text: string, asFloat: Option<real>)

  /** A credit column of `#content-lower .credit-col`: its <h4> text, the
      texts of its `li a` links and of its `li` items. */
  datatype CreditColumn = CreditColumn(heading: Option<string>, linkTexts: seq<string>, itemTexts: seq<string>)

  /** A `div.review-info__item`: its label and value spans' texts. */
  datatype MetadataItem = MetadataItem(caption: Option<string>, content: Option<string>)

  datatype DetailPage = DetailPage(
    ratingMeta: Option<NumberAttr>,        // meta[itemprop="ratingValue"] content
    starBoxClasses: Option<seq<string>>,   // class list of div.star-box img.filled
    starRating: Option<NumberAttr>,        // span.star-rating data-rating
    datePublished: Option<string>,         // meta[itemprop="datePublished"] content
    ogUpdatedTime: Option<string>,         // meta[property="og:updated_time"] content
    reviewInfoDate: Option<string>,        // text of span.review-info__date
    publishDate: Option<string>,           // text of span.publish-date
    authorMeta: Option<string>,            // meta[name="author"] content
    contributorLink: Option<string>,       // text of a[href*="/contributors/"]
    bylineName: Option<string>,            // text of .byline__name
    authorLink: Option<string>,            // text of a.author
    pageTitleHeading: Option<string>,      // text of h1.page-title
    firstHeading: Option<string>,          // text of the first h1
    reviewDeck: Option<string>,            // text of .review-info__deck
    articleDeck: Option<string>,           // text of .article-info__deck
    descriptionMeta: Option<string>,       // meta[name="description"] content
    ogDescriptionMeta: Option<string>,     // meta[property="og:description"] content
    genreColumn: Option<seq<string>>,      // genre link texts of the primary credit column
    creditColumns: seq<CreditColumn>,
    metadataItems: seq<MetadataItem>,
    reviewBody: Option<seq<string>>,       // paragraph texts of div.review__body
    articleBody: Option<seq<string>>,      // ... of div.article-body
    entryContent: Option<seq<string>>)     // ... of div.entry-content

  /** Ordered fallback probes: the first one that finds something wins and
      no later probe is consulted. */
  function FirstSuccess<T>(probes: seq<Option<T>>): (r: Option<T>)
    ensures r.None? <==> forall i :: 0 <= i < |probes| ==> probes[i].None?
    ensures r.Some? ==> exists i :: 0 <= i < |probes| && probes[i] == r
                          && forall j :: 0 <= j < i ==> probes[j].None?
  {
    if probes == [] then None
    else if probes[0].Some? then probes[0]
    else
      var r := FirstSuccess(probes[1..]);
      assert forall i :: 1 <= i < |probes| ==> probes[i] == probes[1..][i - 1];
      r
  }

  /** A present attribute whose text is non-empty. */
  function NonEmpty(a: Option<string>): Option<string> {
    if a.Some? && a.value != "" then a else None
  }

  /** `clean_text` of a found element's text, None when nothing was found. */
  function MapClean(a: Option<string>): (r: Option<string>)
    ensures r.Some? <==> a.Some?
    ensures a.Some? ==> r == Some(CleanText(a.value))
    ensures r.Some? ==> IsClean(r.value)
  {
    match a
    case Some(t) => Some(CleanText(t))
    case None => None
  }

  function NumberProbe(a: Option<NumberAttr>): Option<real> {
    match a
    case Some(n) => if n.text != "" then n.asFloat else None
    case None => None
  }

  /** `cls.startswith("star") and cls[4:].isdigit()`. */
  predicate IsStarClass(c: string) {
    StartsWith(c, "star") && IsDigitString(c[4..])
  }

  /** The star-box probe: the first class "starNN" with NN all digits gives NN/10. */
  function StarClassRating(classes: seq<string>): (r: Option<real>)
    ensures r.None? <==> forall i :: 0 <= i < |classes| ==> !IsStarClass(classes[i])
    ensures r.Some? ==> exists i :: (0 <= i < |classes| && IsStarClass(classes[i])
      && r.value == ParseDigits(classes[i][4..]) as real / 10.0
      && forall j :: 0 <= j < i ==> !IsStarClass(classes[j]))
  {
    if classes == [] then None
    else if IsStarClass(classes[0]) then
      Some(ParseDigits(classes[0][4..]) as real / 10.0)
    else
      var r := StarClassRating(classes[1..]);
      assert forall i :: 1 <= i < |classes| ==> classes[i] == classes[1..][i - 1];
      r
  }

  /** A star class reads as its number of tenths. */
  lemma StarClassOfTenths(n: nat)
    ensures StarClassRating(["star" + NatToString(n)]) == Some(n as real / 10.0)
  {
    var c := "star" + NatToString(n);
    assert c[4..] == NatToString(n);
    assert c[..4] == "star";
    ParseNatToString(n);
  }

  /** `_extract_rating`: meta ratingValue, then the star-box class, then the
      data-rating attribute. */
  function ExtractRating(p: DetailPage): (r: Option<real>)
    ensures NumberProbe(p.ratingMeta).Some? ==> r == NumberProbe(p.ratingMeta)
    ensures NumberProbe(p.ratingMeta).None? && p.starBoxClasses.Some? && StarClassRating(p.starBoxClasses.value).Some? ==>
      r == StarClassRating(p.starBoxClasses.value)
    ensures NumberProbe(p.ratingMeta).None? && (p.starBoxClasses.None? || StarClassRating(p.starBoxClasses.value).None?) ==>
      r == NumberProbe(p.starRating)
    ensures r.None? <==>
      && NumberProbe(p.ratingMeta).None?
      && (p.starBoxClasses.None? || StarClassRating(p.starBoxClasses.value).None?)
      && NumberProbe(p.starRating).None?
  {
    var star := match p.starBoxClasses case Some(cs) => StarClassRating(cs) case None => None;
    OrElse(NumberProbe(p.ratingMeta), OrElse(star, NumberProbe(p.starRating)))
  }

  /** `_extract_review_date`: meta datePublished, then the date part of
      og:updated_time, then a visible date label. */
  function ExtractReviewDate(p: DetailPage): (r: Option<string>)
    ensures NonEmpty(p.datePublished).Some? ==> r == p.datePublished
    ensures NonEmpty(p.datePublished).None? && NonEmpty(p.ogUpdatedTime).Some? ==>
      && r == Some(SplitOn(p.ogUpdatedTime.value, "T")[0])
      && !Contains(r.value, "T") && StartsWith(p.ogUpdatedTime.value, r.value)
    ensures NonEmpty(p.datePublished).None? && NonEmpty(p.ogUpdatedTime).None? && OrElse(p.reviewInfoDate, p.publishDate).Some? ==>
      r == Some(CleanText(OrElse(p.reviewInfoDate, p.publishDate).value))
    ensures r.None? <==> NonEmpty(p.datePublished).None? && NonEmpty(p.ogUpdatedTime).None?
                         && p.reviewInfoDate.None? && p.publishDate.None?
  {
    var og := match NonEmpty(p.ogUpdatedTime)
      case Some(c) => Some(SplitOn(c, "T")[0])
      case None => None;
    assert og.Some? ==> StartsWith(p.ogUpdatedTime.value, og.value) by {
      if og.Some? {
        DatePartIsPrefix(p.ogUpdatedTime.value);
      }
    }
    OrElse(NonEmpty(p.datePublished), OrElse(og, MapClean(OrElse(p.reviewInfoDate, p.publishDate))))
  }

  lemma DatePartIsPrefix(c: string)
    ensures StartsWith(c, SplitOn(c, "T")[0])
  {
    match FirstIndexOf(c, "T")
    case None =>
      assert SplitOn(c, "T")[0] == c;
    case Some(i) =>
      assert SplitOn(c, "T")[0] == c[..i];
  }

  /** `_extract_critic`: meta author, then a contributor link, then a byline. */
  function ExtractCritic(p: DetailPage): (r: Option<string>)
    ensures NonEmpty(p.authorMeta).Some? ==> r == p.authorMeta
    ensures NonEmpty(p.authorMeta).None? && p.contributorLink.Some? ==> r == Some(CleanText(p.contributorLink.value))
    ensures NonEmpty(p.authorMeta).None? && p.contributorLink.None? ==>
      r == MapClean(OrElse(p.bylineName, p.authorLink))
  {
    var probes := [NonEmpty(p.authorMeta), MapClean(p.contributorLink), MapClean(OrElse(p.bylineName, p.authorLink))];
    assert probes[1..] == [probes[1], probes[2]];
    FirstSuccess(probes)
  }

  /** `_extract_movie_title`: h1.page-title, else the first h1, cleaned. */
  function ExtractMovieTitle(p: DetailPage): (r: Option<string>)
    ensures p.pageTitleHeading.Some? ==> r == Some(CleanText(p.pageTitleHeading.value))
    ensures p.pageTitleHeading.None? && p.firstHeading.Some? ==> r == Some(CleanText(p.firstHeading.value))
    ensures r.Some? ==> IsClean(r.value)
    ensures r.None? <==> p.pageTitleHeading.None? && p.firstHeading.None?
  {
    MapClean(OrElse(p.pageTitleHeading, p.firstHeading))
  }

  /** `_extract_summary`: the deck, else the description meta, else "". */
  function ExtractSummary(p: DetailPage): (r: string)
    ensures IsClean(r)
    ensures OrElse(p.reviewDeck, p.articleDeck).Some? ==> r == CleanText(OrElse(p.reviewDeck, p.articleDeck).value)
    ensures OrElse(p.reviewDeck, p.articleDeck).None? && NonEmpty(OrElse(p.descriptionMeta, p.ogDescriptionMeta)).Some? ==>
      r == CleanText(OrElse(p.descriptionMeta, p.ogDescriptionMeta).value)
    ensures OrElse(p.reviewDeck, p.articleDeck).None? && NonEmpty(OrElse(p.descriptionMeta, p.ogDescriptionMeta)).None? ==> r == ""
  {
    var deck := MapClean(OrElse(p.reviewDeck, p.articleDeck));
    var meta := MapClean(NonEmpty(OrElse(p.descriptionMeta, p.ogDescriptionMeta)));
    OrElse(deck, meta).GetOr("")
  }

  predicate IsNonEmptyText(t: string) { t != "" }

  function Identity(s: string): string { s }

  /** Paragraph texts that are not empty: the list comprehension
      `[t for t in texts if t]`, in order and with repeats kept. */
  function NonEmptyTexts(texts: seq<string>): (r: seq<string>)
    ensures r == FilterMap(texts, IsNonEmptyText, Identity)
  {
    if texts == [] then []
    else
      var r := (if texts[0] != "" then [texts[0]] else []) + NonEmptyTexts(texts[1..]);
      FilterMapCons(texts[0], texts[1..], IsNonEmptyText, Identity);
      assert [texts[0]] + texts[1..] == texts;
      r
  }

  /** `_extract_review_body`: the first content container's non-empty
      paragraphs joined with single spaces; "" when no container matches. */
  function ExtractReviewBody(p: DetailPage): (r: string)
    ensures p.reviewBody.None? && p.articleBody.None? && p.entryContent.None? ==> r == ""
    ensures p.reviewBody.Some? ==> r == Join(NonEmptyTexts(p.reviewBody.value), " ")
    ensures p.reviewBody.None? && p.articleBody.Some? ==> r == Join(NonEmptyTexts(p.articleBody.value), " ")
    ensures p.reviewBody.None? && p.articleBody.None? && p.entryContent.Some? ==>
      r == Join(NonEmptyTexts(p.entryContent.value), " ")
  {
    match OrElse(p.reviewBody, OrElse(p.articleBody, p.entryContent))
    case Some(paragraphs) => Join(NonEmptyTexts(paragraphs), " ")
    case None => ""
  }

  // ----- list extractors: loops in the source, proved against functions -----

  /** Lower-cased labels, as `{label.lower() for label in labels}`. */
  function LabelSet(labels: seq<string>): set<string> {
    set l | l in labels :: Lower(l)
  }

  predicate HasCleanText(t: string) { CleanText(t) != "" }

  /** Cleaned, non-empty texts: each text cleaned, in order, the blank
      ones dropped. */
  function CleanedTexts(texts: seq<string>): (r: seq<string>)
    ensures r == FilterMap(texts, HasCleanText, CleanText)
  {
    if texts == [] then []
    else
      var t := CleanText(texts[|texts| - 1]);
      CleanedTexts(texts[..|texts| - 1]) + (if t != "" then [t] else [])
  }

  /** Every cleaned text is non-empty and clean. */
  lemma {:induction false} CleanedTextsClean(texts: seq<string>)
    ensures forall k :: 0 <= k < |CleanedTexts(texts)| ==> CleanedTexts(texts)[k] != "" && IsClean(CleanedTexts(texts)[k])
  {
    if texts != [] {
      CleanedTextsClean(texts[..|texts| - 1]);
    }
  }

  /** Whether a genre link's cleaned text is kept. */
  predicate IsGenreText(t: string) {
    t != "" && Lower(t) != "movie reviews"
  }

  predicate IsGenreLink(text: string) {
    IsGenreText(CleanText(text))
  }

  /** The genres read from the primary credit column's genre links: the
      distinct kept texts, cleaned, in order. */
  function GenreList(texts: seq<string>): seq<string> {
    DedupBy(FilterMap(texts, IsGenreLink, CleanText), Identity)
  }

  /** The genres are distinct, never "movie reviews" in any letter case,
      each is the cleaned text of a link, and every qualifying link's
      cleaned text is among them. */
  lemma GenreListSound(texts: seq<string>)
    ensures var g := GenreList(texts);
      && (forall i, j :: 0 <= i < j < |g| ==> g[i] != g[j])
      && (forall t :: t in g ==> IsGenreText(t) && exists k :: 0 <= k < |texts| && t == CleanText(texts[k]))
      && (forall k :: 0 <= k < |texts| && IsGenreText(CleanText(texts[k])) ==> CleanText(texts[k]) in g)
  {
    var g := GenreList(texts);
    DedupDistinct(FilterMap(texts, IsGenreLink, CleanText), Identity);
    assert forall i, j :: 0 <= i < j < |g| ==> Identity(g[i]) != Identity(g[j]);
    DedupOfFilterMap(texts, IsGenreLink, CleanText, Identity);
    forall k | 0 <= k < |texts| && IsGenreText(CleanText(texts[k])) ensures CleanText(texts[k]) in g {
      assert IsGenreLink(texts[k]);
      var t := CleanText(texts[k]);
      assert Identity(t) in Keys(g, Identity);
    }
  }

  /** `_extract_genres`. */
  method ExtractGenres(column: Option<seq<string>>) returns (genres: seq<string>)
    ensures genres == (match column case Some(ts) => GenreList(ts) case None => [])
  {
    if column.None? {
      return [];
    }
    var links := column.value;
    genres := [];
    var i := 0;
    while i < |links|
      invariant 0 <= i <= |links|
      invariant genres == GenreList(links[..i])
    {
      ghost var before := FilterMap(links[..i], IsGenreLink, CleanText);
      FilterMapStep(links, i, IsGenreLink, CleanText);
      var text := CleanText(links[i]);
      DedupByStep(before, text, Identity);
      if text != "" && Lower(text) != "movie reviews" {
        assert text in genres <==> Identity(text) in Keys(genres, Identity);
        if text !in genres {
          genres := genres + [text];
        }
      } else {
        assert before + [] == before;
      }
      i := i + 1;
    }
    assert links[..i] == links;
  }

  /** The texts a credit column's values are read from: its list links
      when it has any, else its list items. */
  function ColumnSource(c: CreditColumn): seq<string> {
    if c.linkTexts != [] then c.linkTexts else c.itemTexts
  }

  /** The values a matching credit column contributes. */
  function ColumnValues(c: CreditColumn): seq<string> {
    CleanedTexts(ColumnSource(c))
  }

  /** A column contributes exactly the non-empty cleaned texts of its
      source. */
  lemma ColumnValuesMembers(c: CreditColumn)
    ensures forall v :: v in ColumnValues(c) <==>
      v != "" && exists n :: 0 <= n < |ColumnSource(c)| && v == CleanText(ColumnSource(c)[n])
  {
    FilterMapMembers(ColumnSource(c), HasCleanText, CleanText);
  }

  predicate ColumnMatches(c: CreditColumn, labels: set<string>) {
    c.heading.Some? && Lower(CleanText(c.heading.value)) in labels
  }

  /** What one column adds to the credit list. */
  function Contribution(c: CreditColumn, labels: set<string>): seq<string> {
    if ColumnMatches(c, labels) then ColumnValues(c) else []
  }

  /** The values `_extract_credit_list` collects: each column's
      contribution, column by column (so, by ConcatMapPrefix, the values of
      the first k columns come first). */
  function CreditList(columns: seq<CreditColumn>, labels: set<string>): seq<string> {
    ConcatMap(columns, c => Contribution(c, labels))
  }

  /** A value is collected exactly when some column whose heading matches
      contributes it (see ColumnValuesMembers); every value is a clean
      non-empty text; no matching heading gives []. */
  lemma CreditListSound(columns: seq<CreditColumn>, labels: set<string>)
    ensures forall v :: v in CreditList(columns, labels) <==>
      exists k :: 0 <= k < |columns| && ColumnMatches(columns[k], labels) && v in ColumnValues(columns[k])
    ensures forall v :: v in CreditList(columns, labels) ==> v != "" && IsClean(v)
    ensures (forall k :: 0 <= k < |columns| ==> !ColumnMatches(columns[k], labels)) ==> CreditList(columns, labels) == []
  {
    var f := c => Contribution(c, labels);
    ConcatMapMembers(columns, f);
    forall k | 0 <= k < |columns| {
      ContributionClean(columns[k], labels);
    }
    if forall k :: 0 <= k < |columns| ==> !ColumnMatches(columns[k], labels) {
      var r := CreditList(columns, labels);
      if r != [] {
        assert r[0] in r;
      }
    }
  }

  lemma ContributionClean(c: CreditColumn, labels: set<string>)
    ensures forall v :: v in Contribution(c, labels) ==> v != "" && IsClean(v)
    ensures forall v :: v in Contribution(c, labels) <==> ColumnMatches(c, labels) && v in ColumnValues(c)
  {
    var vs := ColumnValues(c);
    CleanedTextsClean(ColumnSource(c));
    forall v | v in vs ensures v != "" && IsClean(v) {
      var k :| 0 <= k < |vs| && vs[k] == v;
    }
  }

  /** One more text cleaned, appended after what the earlier ones gave. */
  lemma AppendCleanedStep(values: seq<string>, texts: seq<string>, j: nat, r: seq<string>)
    requires j < |texts| && r == values + CleanedTexts(texts[..j])
    ensures var t := CleanText(texts[j]);
      (if t != "" then r + [t] else r) == values + CleanedTexts(texts[..j + 1])
  {
    assert texts[..j + 1][..j] == texts[..j];
  }

  /** Appends the cleaned, non-empty texts to `values`. */
  method AppendCleaned(values: seq<string>, texts: seq<string>) returns (r: seq<string>)
    ensures r == values + CleanedTexts(texts)
  {
    r := values;
    var j := 0;
    while j < |texts|
      invariant 0 <= j <= |texts|
      invariant r == values + CleanedTexts(texts[..j])
    {
      var text := CleanText(texts[j]);
      AppendCleanedStep(values, texts, j, r);
      if text != "" {
        r := r + [text];
      }
      j := j + 1;
    }
    assert texts[..j] == texts;
  }

  /** `_extract_credit_list`. */
  method ExtractCreditList(columns: seq<CreditColumn>, labels: seq<string>) returns (values: seq<string>)
    ensures values == CreditList(columns, LabelSet(labels))
  {
    var labelSet := LabelSet(labels);
    values := [];
    var i := 0;
    while i < |columns|
      invariant 0 <= i <= |columns|
      invariant values == CreditList(columns[..i], labelSet)
    {
      var column := columns[i];
      assert columns[..i + 1][..i] == columns[..i];
      i := i + 1;
      if column.heading.None? {
        continue;
      }
      var headingText := Lower(CleanText(column.heading.value));
      if headingText !in labelSet {
        continue;
      }
      if column.linkTexts != [] {
        values := AppendCleaned(values, column.linkTexts);
      } else {
        values := AppendCleaned(values, column.itemTexts);
      }
    }
    assert columns[..i] == columns;
  }

  /** The values the metadata label/value pairs contribute. */
  function MetadataValues(items: seq<MetadataItem>, labels: set<string>): seq<string> {
    if items == [] then []
    else
      MetadataValues(items[..|items| - 1], labels) + ItemValues(items[|items| - 1], labels)
  }

  /** The values one label/value pair contributes: its content split on
      commas when its caption is one of the labels. */
  function ItemValues(it: MetadataItem, labels: set<string>): seq<string> {
    if it.caption.Some? && it.content.Some? && Lower(CleanText(it.caption.value)) in labels
    then SplitList(it.content.value, ",") else []
  }

  lemma MetadataValuesStep(items: seq<MetadataItem>, labels: set<string>, i: int)
    requires 0 <= i < |items|
    ensures MetadataValues(items[..i + 1], labels) == MetadataValues(items[..i], labels) + ItemValues(items[i], labels)
  {
    assert items[..i + 1][..i] == items[..i];
  }

  /** What `_extract_metadata_list` returns: the metadata values, or the
      credit columns' values when there are none. */
  function MetadataList(items: seq<MetadataItem>, columns: seq<CreditColumn>, labels: seq<string>): seq<string> {
    var v := MetadataValues(items, LabelSet(labels));
    if v != [] then v else CreditList(columns, LabelSet(labels))
  }

  /** `_extract_metadata_list`. */
  method ExtractMetadataList(items: seq<MetadataItem>, columns: seq<CreditColumn>, labels: seq<string>)
    returns (values: seq<string>)
    ensures values == MetadataList(items, columns, labels)
  {
    values := [];
    var labelSet := LabelSet(labels);
    var i := 0;
    while i < |items|
      invariant 0 <= i <= |items|
      invariant values == MetadataValues(items[..i], labelSet)
    {
      var item := items[i];
      MetadataValuesStep(items, labelSet, i);
      i := i + 1;
      if item.caption.None? || item.content.None? {
        continue;
      }
      var caption := Lower(CleanText(item.caption.value));
      if caption !in labelSet {
        continue;
      }
      values := values + SplitList(item.content.value, ",");
    }
    assert items[..i] == items;
    if values != [] {
      return values;
    }
    values := ExtractCreditList(columns, labels);
  }

  const GenreLabels: seq<string> := ["Genre", "Genres"]
  const DirectorLabels: seq<string> := ["Directed by", "Director"]
  const CastLabels: seq<string> := ["Cast"]

  /** The details `_fetch_review` builds from a fetched review page. */
  function DetailsOf(p: DetailPage): ReviewDetails {
    var title := ExtractMovieTitle(p);
    var genres := match p.genreColumn case Some(ts) => GenreList(ts) case None => [];
    var body := ExtractReviewBody(p);
    ReviewDetails(
      reviewText := if body != "" then body else ExtractSummary(p),
      ratingValue := ExtractRating(p),
      ratingScale := DefaultRatingScale,
      reviewDate := ExtractReviewDate(p),
      critic := ExtractCritic(p),
      movieYear := if title.Some? && title.value != "" then ExtractYear(title.value) else None,
      movieTitle := title,
      genres := if genres != [] then genres else MetadataList(p.metadataItems, p.creditColumns, GenreLabels),
      directors := MetadataList(p.metadataItems, p.creditColumns, DirectorLabels),
      cast := CreditList(p.creditColumns, LabelSet(CastLabels)))
  }

  /** `_fetch_review` as a function of the URL: the details of the fetched
      review page, None when the fetch fails. */
  function ReviewFetcher(fetchDetail: string -> Option<DetailPage>): string -> Option<ReviewDetails> {
    url => match fetchDetail(url) case Some(p) => Some(DetailsOf(p)) case None => None
  }

  /** `_fetch_review`: None when the fetch fails, otherwise the details. */
  method FetchReview(url: string, fetchDetail: string -> Option<DetailPage>) returns (details: Option<ReviewDetails>)
    ensures details == ReviewFetcher(fetchDetail)(url)
    ensures details.None? <==> fetchDetail(url).None?
    ensures details.Some? ==> details.value == DetailsOf(fetchDetail(url).value)
    ensures details.Some? ==> details.value.ratingScale == DefaultRatingScale
  {
    var page := fetchDetail(url);
    if page.None? {
      return None;
    }
    var p := page.value;
    var ratingValue := ExtractRating(p);
    var reviewDate := ExtractReviewDate(p);
    var critic := ExtractCritic(p);
    var movieTitle := ExtractMovieTitle(p);
    var movieYear := if movieTitle.Some? && movieTitle.value != "" then ExtractYear(movieTitle.value) else None;
    var summary := ExtractSummary(p);
    var genres := ExtractGenres(p.genreColumn);
    if genres == [] {
      genres := ExtractMetadataList(p.metadataItems, p.creditColumns, GenreLabels);
    }
    var directors := ExtractMetadataList(p.metadataItems, p.creditColumns, DirectorLabels);
    var cast := ExtractCreditList(p.creditColumns, CastLabels);
    var reviewText := ExtractReviewBody(p);
    details := Some(ReviewDetails(
      reviewText := if reviewText != "" then reviewText else summary,
      ratingValue := ratingValue,
      ratingScale := DefaultRatingScale,
      reviewDate := reviewDate,
      critic := critic,
      movieYear := movieYear,
      movieTitle := movieTitle,
      genres := genres,
      directors := directors,
      cast := cast));
  }

  // ---------------------------------------------------------------------
  // Document builder
  // ---------------------------------------------------------------------

  /** Python truthiness of an optional string / year. */
  predicate Truthy(s: Option<string>) { s.Some? && s.value != "" }
  predicate TruthyYear(y: Option<int>) { y.Some? && y.value != 0 }

  /** The rating `_build_document` stores: the rating value normalised
      from its scale, when there is one. */
  function DocumentRating(details: ReviewDetails): (r: Option<real>)
    ensures r.Some? <==> details.ratingValue.Some?
    ensures details.ratingValue.Some? ==> r.value == NormalizeRating(details.ratingValue.value, details.ratingScale)
    ensures details.ratingValue.Some? && 0.0 <= details.ratingValue.value <= details.ratingScale ==>
      0.0 <= r.value <= 10.0
  {
    match details.ratingValue
    case Some(v) => Some(NormalizeRating(v, details.ratingScale))
    case None => None
  }

  /** The id `create_movie_document` gives a review of this title and year. */
  function ReviewId(title: string, year: int, md5: string -> string): string
    requires IsMd5Hex(md5)
  {
    GenerateId(IdText(title, year, Site), Site, md5)
  }

  /** The movie fields of `_build_document`'s document. */
  function BaseDocument(entry: ListingEntry, details: ReviewDetails, md5: string -> string): (d: MovieDocument)
    requires IsMd5Hex(md5)
    ensures d.url == entry.url && d.site == Site && d.rating == DocumentRating(details)
    ensures d.title == (if Truthy(details.movieTitle) then details.movieTitle.value else entry.title)
    ensures d.year ==
      (if TruthyYear(details.movieYear) then details.movieYear.value
       else if TruthyYear(entry.year) then entry.year.value else 0)
    ensures d.plot == (if entry.summary != "" then entry.summary else details.reviewText)
    ensures d.reviews == details.reviewText && d.numReviews.None?
    ensures d.genres == details.genres && d.directors == details.directors && d.cast == details.cast
    ensures d.id == ReviewId(d.title, d.year, md5)
  {
    var title := if Truthy(details.movieTitle) then details.movieTitle.value else entry.title;
    var year := if TruthyYear(details.movieYear) then details.movieYear
                else entry.year;
    CreateMovieDocument(
      title, if TruthyYear(year) then year.value else 0, Site, entry.url, DocumentRating(details),
      Some(details.genres), Some(details.directors), Some(details.cast),
      if entry.summary != "" then entry.summary else details.reviewText,
      details.reviewText, None, md5)
  }

  /** `_build_document`: detail title and year win when truthy, the year
      defaults to 0, the rating is present exactly when a rating value was
      read and is then normalised from its scale, the plot is the teaser
      unless empty, and the URL is the entry's. */
  function BuildDocument(entry: ListingEntry, details: ReviewDetails, md5: string -> string): (doc: ReviewDocument)
    requires IsMd5Hex(md5)
    ensures doc.base.url == entry.url && doc.base.site == Site
    ensures doc.base.title == (if Truthy(details.movieTitle) then details.movieTitle.value else entry.title)
    ensures entry.title != "" ==> doc.base.title != ""
    ensures doc.base.year ==
      (if TruthyYear(details.movieYear) then details.movieYear.value
       else if TruthyYear(entry.year) then entry.year.value else 0)
    ensures doc.base.rating.Some? <==> details.ratingValue.Some?
    ensures details.ratingValue.Some? ==>
      doc.base.rating.value == NormalizeRating(details.ratingValue.value, details.ratingScale)
    ensures details.ratingValue.Some? && 0.0 <= details.ratingValue.value <= details.ratingScale ==>
      0.0 <= doc.base.rating.value <= 10.0
    ensures doc.base.plot == (if entry.summary != "" then entry.summary else details.reviewText)
    ensures doc.base.reviews == details.reviewText && doc.summary == entry.summary
    ensures doc.base.genres == details.genres && doc.base.directors == details.directors && doc.base.cast == details.cast
    ensures doc.critic == (if Truthy(details.critic) then details.critic else entry.critic)
    ensures StartsWith(doc.base.id, Site + "_") && |doc.base.id| == |Site| + 13
    ensures doc.base.id == ReviewId(doc.base.title, doc.base.year, md5)
    ensures doc.reviewDate == details.reviewDate && doc.base.numReviews.None?
    ensures doc.ratingValue == details.ratingValue && doc.ratingScale == details.ratingScale
  {
    ReviewDocument(
      BaseDocument(entry, details, md5),
      if Truthy(details.critic) then details.critic else entry.critic,
      details.reviewDate,
      details.ratingValue,
      details.ratingScale,
      entry.summary)
  }
}
