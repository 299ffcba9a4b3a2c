# Movie search engine: a verified model of its scrapers, merge and search helpers

This project is a Dafny model of the data pipeline and search front end of a
small movie search engine.

- Scrapers collect movies from IMDb, OMDb and RogerEbert.com.
- A merge step joins the sources into one list of movie dicts.
- A Flask page queries a Solr index built from that list.

The model covers the parts of the code that decide something:

- the RogerEbert.com crawler, with its listing parser and field cascades;
- the text and number helpers shared by the scrapers;
- the join that enriches IMDb movies with OMDb records and Roger Ebert reviews;
- OMDb batch selection and record formatting;
- Solr request building and response shaping;
- the search page's query, filter, pagination and snippet logic.

Each source file is one module:

| module | file | source |
|---|---|---|
| `ScraperUtils` | scraper_utils.dfy | scrapers/scraper_utils.py |
| `RogerEbert` | roger_ebert.dfy | scrapers/scrape_roger_ebert.py: parsing, cascades, document builder |
| `RogerEbertCrawler` | roger_ebert_crawler.dfy | scrapers/scrape_roger_ebert.py: the `crawl` session |
| `MergeData` | merge_data.dfy | scrapers/merge_data.py |
| `ProcessOmdb` | process_omdb.dfy | scrapers/process_omdb_data.py |
| `SolrClient` | solr_client.dfy | web/solr_client.py |
| `WebApp` | web_app.dfy | web/app.py |

Four modules model the Python builtins the code relies on:

- `Text` (text.dfy): `str.lower`, `strip`, `split`, `join`, `int()` and `str()` of integers.
- `Json` (json.dfy): JSON values, Python truthiness, `dict.get` and `a or b`.
- `Sequences` (sequences.dfy): order-preserving filters and first-occurrence deduplication.
- `Wrappers` (wrappers.dfy): `Option`.

Code that updates state in place becomes a class:

- the crawler: `RogerEbertCrawler.Crawler`;
- the merger: `MergeData.DataMerger`;
- the OMDb processor: `ProcessOmdb.OmdbProcessor`.

These classes have `modifies` clauses, and loops carry their invariants.
Methods are proved against functions that specify them, and lemmas state the properties of those functions.

The outside world is a set of parameters:

- A fetched page is an oracle `url -> Option<Page>`, where None means the fetch failed.
- An HTML page is a record of what each CSS probe found.
- MD5 is a function parameter that returns 32 lower-case hex characters.
- `float()` is a parameter that returns `Option<real>`.
- A Solr call is a function from request parameters to an outcome.
- A JSON file on disk is a field holding the saved sequence, or Missing, or Corrupt.

## Model

| member | source | states |
|---|---|---|
| ScraperUtils.CleanText | scrapers/scraper_utils.py:57-62 | `clean_text`'s result has no leading or trailing whitespace and its only whitespace is single spaces between words |
| ScraperUtils.CleanTextWords | scrapers/scraper_utils.py:57-62 | `clean_text` equals the text's words (its maximal runs of non-whitespace, as `str.split()` gives them) joined by single spaces |
| ScraperUtils.CollapseSingleSpaced | scrapers/scraper_utils.py:61 | collapsing `\s+` to ' ' leaves no whitespace other than single spaces |
| ScraperUtils.CleanTextIdempotent | scrapers/scraper_utils.py:57-62 | cleaning twice equals cleaning once |
| ScraperUtils.NonSpaceCollapse | scrapers/scraper_utils.py:61 | collapsing whitespace keeps every non-whitespace character, in order |
| ScraperUtils.NonSpaceStrip | scrapers/scraper_utils.py:62 | `strip` keeps every non-whitespace character, in order |
| ScraperUtils.CleanTextKeepsContent | scrapers/scraper_utils.py:57-62 | `clean_text` keeps every non-whitespace character, and returns "" exactly when the input is blank |
| ScraperUtils.FirstYearFrom | scrapers/scraper_utils.py:75 | finds the leftmost position at or after `from` matching `(19\|20)\d{2}`, or None when there is no match |
| ScraperUtils.YearValueInRange | scrapers/scraper_utils.py:75-77 | a match of `(19\|20)\d{2}` reads as a year in 1900..2099 |
| ScraperUtils.ExtractYear | scrapers/scraper_utils.py:75-78 | None exactly when no position matches; otherwise the value of the leftmost match, which lies in 1900..2099 |
| ScraperUtils.ExtractYearOfYear | scrapers/scraper_utils.py:75-78 | the decimal text of any year in 1900..2099 extracts to that year |
| ScraperUtils.NormalizeRating | scrapers/scraper_utils.py:92-94 | 0.0 for a zero scale; otherwise a whole number of tenths within half a tenth of rating/scale*10; a rating within [0, scale] lands within [0, 10] |
| ScraperUtils.NormalizeRatingScaleInvariant | scrapers/scraper_utils.py:92-94 | scaling rating and maximum by the same positive factor gives the same normalised rating |
| ScraperUtils.GenerateId | scrapers/scraper_utils.py:108-110 | the id is `prefix_` followed by the first 12 hex characters of the hash, or just those 12 when the prefix is empty |
| ScraperUtils.NumberRunLength | scrapers/scraper_utils.py:124 | the length of the longest run of digits and commas at the start of the text |
| ScraperUtils.FirstNumberRun | scrapers/scraper_utils.py:124 | the text `re.search(r'[\d,]+')` matches: it starts at the leftmost digit or comma, consists of digits and commas, cannot be extended to the right, and is empty exactly when the text has neither |
| Text.RemoveChar | scrapers/scraper_utils.py:126 | `replace(',', '')` keeps every other character and drops every comma, and is no longer than its input |
| ScraperUtils.ExtractNumber | scrapers/scraper_utils.py:124-131 | a number exactly when the first run of digits and commas still has a character once its commas are removed; the number is non-negative |
| ScraperUtils.ExtractNumberOfNumber | scrapers/scraper_utils.py:124-131 | a number written in decimal after text without digits or commas, and followed by a non-number character, extracts to itself ("Rated 1234 times" gives 1234) |
| ScraperUtils.RemoveCommasDigits | scrapers/scraper_utils.py:124-126 | a run of digits and commas becomes all digits once its commas are removed, so `int()` cannot raise on it |
| ScraperUtils.ParseDigitsGroup | scrapers/scraper_utils.py:126-128 | appending a three-digit group multiplies the value so far by 1000 and adds the group |
| ScraperUtils.ExtractNumberOfGrouped | scrapers/scraper_utils.py:115-128 | a number written with a thousands comma reads as its value ("1,234 reviews" gives 1234) |
| ScraperUtils.StripNonEmptyFilters | scrapers/scraper_utils.py:147 | the comprehension is the filter of the non-blank pieces mapped through `strip`, in order |
| ScraperUtils.StripNonEmptyShape | scrapers/scraper_utils.py:147 | every kept piece is non-empty, already stripped and free of the delimiter |
| ScraperUtils.SplitList | scrapers/scraper_utils.py:145-147 | [] for ""; every item is non-empty, stripped and free of the delimiter |
| ScraperUtils.StripNonEmptyOfClean | scrapers/scraper_utils.py:147 | pieces that are already clean are all kept unchanged |
| ScraperUtils.SplitListJoin | scrapers/scraper_utils.py:145-147 | splitting the delimiter-joined list of clean, separable items gives the items back |
| ScraperUtils.TruncateText | scrapers/scraper_utils.py:161-166 | text within the limit is returned unchanged; longer text becomes a prefix plus "..." that is at most limit+3 long and cut at the last space before the limit, or at the limit when there is no space |
| ScraperUtils.CreateMovieDocument | scrapers/scraper_utils.py:202-217 | the id is generated from "title_year_site" with the site as prefix; missing lists become []; every other argument is passed through |
| RogerEbert.SummaryNearLink | scrapers/scrape_roger_ebert.py:200-207 | `clean_text` of the teaser near a link, or "" when there is none; empty exactly when there is no teaser or it is blank |
| RogerEbert.MakeEntry | scrapers/scrape_roger_ebert.py:182-186 | the entry's URL is the link's; its title is the cleaned link text, or "Untitled Review" when that is empty; its summary is the cleaned teaser; the year comes from the title, else the summary; the critic is None |
| RogerEbert.ListingEntries | scrapers/scrape_roger_ebert.py:171-190 | a listing page yields at most 50 entries |
| RogerEbert.ParseListing | scrapers/scrape_roger_ebert.py:165-193 | the loop returns the entries of `ListingEntries` and the URLs of `NextListingUrls` |
| RogerEbert.ListingEntriesFromPrefix | scrapers/scrape_roger_ebert.py:172-190 | stopping at the 50th distinct entry, or at the end of the links, gives the entries |
| RogerEbert.ListingEntriesDistinct | scrapers/scrape_roger_ebert.py:179-190 | entry URLs are pairwise distinct and at most 50 |
| RogerEbert.ListingEntriesFromLinks | scrapers/scrape_roger_ebert.py:173-186 | every entry comes from a link with an href whose path starts with "/reviews/" and has at least two '-'; it is the first such link with that URL; its title is non-empty |
| RogerEbert.ListingEntriesComplete | scrapers/scrape_roger_ebert.py:171-190 | below the cap, every accepted link's URL appears among the entries |
| RogerEbert.LooksLikeReviewSlug | scrapers/scrape_roger_ebert.py:195-198 | a path looks like a review exactly when it starts with "/reviews/" and the slug after it has at least two hyphens |
| RogerEbert.MoreReviewsAnchor | scrapers/scrape_roger_ebert.py:222 | the first anchor whose string contains "More Reviews", or None when there is none |
| RogerEbert.NextListingUrls | scrapers/scrape_roger_ebert.py:209-226 | the union of the head `rel=next` link, the next control and the "More Reviews" anchor, filtered to URLs on the site |
| RogerEbert.FirstSuccess | scrapers/scrape_roger_ebert.py:342-352 | the first present probe in a cascade; None exactly when all probes are absent |
| RogerEbert.MapClean | scrapers/scrape_roger_ebert.py:352 | `clean_text` of a found element's text; None when there is no element |
| RogerEbert.StarClassRating | scrapers/scrape_roger_ebert.py:323-331 | the first class "starNN" with NN all digits gives NN/10; None when there is none |
| RogerEbert.StarClassOfTenths | scrapers/scrape_roger_ebert.py:327-329 | the class "star" + n reads as n tenths |
| RogerEbert.ExtractRating | scrapers/scrape_roger_ebert.py:314-340 | the meta rating wins when it parses; then the star class's tenths; then the `data-rating` value; None exactly when all three fail |
| RogerEbert.ExtractReviewDate | scrapers/scrape_roger_ebert.py:342-352 | `datePublished` wins; otherwise the `og:updated_time` text before the first 'T'; otherwise `clean_text` of the date span; None exactly when all are missing |
| RogerEbert.DatePartIsPrefix | scrapers/scrape_roger_ebert.py:349 | the part before the first 'T' is a prefix of the text |
| RogerEbert.ExtractCritic | scrapers/scrape_roger_ebert.py:354-364 | the author meta wins; then the cleaned contributor link; then the cleaned byline or author link |
| RogerEbert.ExtractMovieTitle | scrapers/scrape_roger_ebert.py:366-368 | `clean_text` of the title heading, else of the first heading; None exactly when there is no heading |
| RogerEbert.ExtractSummary | scrapers/scrape_roger_ebert.py:370-379 | `clean_text` of the deck when present; otherwise `clean_text` of the non-empty description meta; "" when both are missing |
| RogerEbert.NonEmptyTexts | scrapers/scrape_roger_ebert.py:451 | the non-empty paragraph texts, in document order, duplicates kept |
| RogerEbert.ExtractReviewBody | scrapers/scrape_roger_ebert.py:447-452 | the non-empty paragraphs of the first body container present, joined with ' '; "" when there is none |
| RogerEbert.CleanedTextsClean | scrapers/scrape_roger_ebert.py:413-423 | every value of a credit list is non-empty and has single spaces and no surrounding whitespace |
| RogerEbert.CleanedTexts | scrapers/scrape_roger_ebert.py:413-423 | `clean_text` of each text, in order, with the empty results dropped |
| RogerEbert.GenreListSound | scrapers/scrape_roger_ebert.py:390-400 | genres are distinct, cleaned link texts other than "movie reviews", and every such text is present |
| RogerEbert.ExtractGenres | scrapers/scrape_roger_ebert.py:390-400 | the loop returns `GenreList`, or [] without a credit column |
| RogerEbert.CreditListSound | scrapers/scrape_roger_ebert.py:402-424 | a value is in the credit list exactly when it is a cleaned non-empty text of a column whose heading matches a label; no matching heading gives [] |
| RogerEbert.AppendCleaned | scrapers/scrape_roger_ebert.py:414-423 | the inner loop appends the cleaned non-empty texts in order |
| RogerEbert.ExtractCreditList | scrapers/scrape_roger_ebert.py:402-424 | the loop over columns returns `CreditList` for the lower-cased labels |
| RogerEbert.ExtractMetadataList | scrapers/scrape_roger_ebert.py:426-445 | the loop returns the split metadata values, or the credit list when there are none |
| RogerEbert.FetchReview | scrapers/scrape_roger_ebert.py:228-255 | None exactly when the fetch fails; otherwise the details the cascades read, with rating scale 4.0; the result is `ReviewFetcher(fetchDetail)` at that URL |
| RogerEbert.BuildDocument | scrapers/scrape_roger_ebert.py:260-293 | detail title and year win when truthy and the year defaults to 0; a rating is present exactly when a rating value was read, and it is that value normalised; the review date, raw rating value and scale are the details'; the plot is the teaser unless empty; the URL is the entry's; no review count; the id is the MD5 id of the chosen title, year and site, starting with "rogerebert_" |
| RogerEbertCrawler.PageUrl | scrapers/scrape_roger_ebert.py:110 | the start page's URL is the listing prefix "https://www.rogerebert.com/reviews/page/" followed by the page number, which reads back |
| RogerEbertCrawler.AppendAbsent | scrapers/scrape_roger_ebert.py:111 | appending only URLs not yet queued keeps the queue free of duplicates, extends it and adds exactly the new URLs |
| RogerEbertCrawler.InitialQueue | scrapers/scrape_roger_ebert.py:105-111 | the start page (when above 1) followed by the default listing pages, with no duplicates |
| RogerEbertCrawler.EnqueueAll | scrapers/scrape_roger_ebert.py:121-123 | the queue stays duplicate-free, keeps its order and gains exactly the discovered URLs not yet queued |
| RogerEbertCrawler.HarvestOne | scrapers/scrape_roger_ebert.py:135-139 | a document exactly when `_fetch_review` returns details; it is `_build_document` of the entry and those details, carries the entry's URL and passes the provenance test |
| RogerEbertCrawler.Crawler.constructor | scrapers/scrape_roger_ebert.py:83 | no documents yet |
| RogerEbertCrawler.Crawler.Save | scrapers/scrape_roger_ebert.py:150-160 | writes every document, and does nothing when there are none |
| RogerEbertCrawler.Crawler.Crawl | scrapers/scrape_roger_ebert.py:88-148 | with `_fetch_review` as `ReviewFetcher(fetchDetail)`, the documents are the loaded ones followed by what each visited listing page harvests, in visit order; the new ones number `collected` <= `limit`, have pairwise distinct URLs, none already saved; the file holds the documents as of the last multiple of ten; the loop stops with an empty queue, `limit` reached or the fuel spent; every visited or pending page is the first queue's or linked from an earlier visit; the first queue is a prefix of the visited pages followed by the pending ones (first in, first out); every page reachable by links from the first queue through visited pages is visited or pending, so an empty queue means all were visited |
| RogerEbertCrawler.Crawler.VisitListing | scrapers/scrape_roger_ebert.py:114-127 | one turn: the documents gain exactly the page's harvest; the queue stays duplicate-free and gains exactly the page's next URLs not yet queued; a page that fails to load changes nothing; the crawl invariant and the seen set are kept |
| RogerEbertCrawler.Crawler.Record | scrapers/scrape_roger_ebert.py:140-146 | appending a document with a new URL adds its URL to the seen set, counts it and saves on every tenth |
| RogerEbertCrawler.StartState | scrapers/scrape_roger_ebert.py:91-105 | before the loop, the loaded documents, no new ones and a count of 0 satisfy the crawl invariant, and the seen set is the saved URLs |
| RogerEbertCrawler.Crawler.Walk | scrapers/scrape_roger_ebert.py:113-148 | the `while` loop: the documents become the loaded ones followed by the harvest of each visited page, in visit order; the crawl invariant holds; it stops with an empty queue, `limit` reached or the fuel spent; the first visit is the head of the first queue; every visited or pending page is reachable from it; the first queue is a prefix of the visited pages followed by the pending ones; every reachable page is visited or pending |
| RogerEbertCrawler.Crawler.Turn | scrapers/scrape_roger_ebert.py:114-148 | one iteration pops the queue's head and adds it to the visits; the new queue is the rest of the old one followed by the page's new links, so visits then queue only grows at the end; it keeps the loop invariant: documents, seen set, duplicate-free queue, reachability and coverage of every reachable page |
| RogerEbertCrawler.CoveredAfterVisit | scrapers/scrape_roger_ebert.py:114-127 | visiting the queue's head and queuing its links keeps every reachable page visited or queued |
| RogerEbertCrawler.Crawler.HarvestEntries | scrapers/scrape_roger_ebert.py:129-146 | the documents gain exactly `HarvestFrom` of the page's entries: one per unseen entry whose review page loads, in order, until `limit`; the crawl invariant and the seen set are kept |
| RogerEbertCrawler.Crawler.HarvestEntry | scrapers/scrape_roger_ebert.py:129-146 | one entry: an unseen URL whose review page loads appends its document, marks it seen and counts it; otherwise nothing changes |
| RogerEbertCrawler.Crawler.HarvestTurn | scrapers/scrape_roger_ebert.py:129-146 | one pass of the inner loop below `limit` is one step of `HarvestFrom`: the documents plus what remains to harvest stay the same; the crawl invariant and the seen set are kept |
| RogerEbertCrawler.EntriesVouched | scrapers/scrape_roger_ebert.py:129-139 | every document built from an entry of a fetched listing page and its loaded review page was harvested from fetched pages |
| RogerEbertCrawler.HarvestFromBound | scrapers/scrape_roger_ebert.py:129-131 | a page never takes the collected count past `limit` |
| RogerEbertCrawler.HarvestFromOrigin | scrapers/scrape_roger_ebert.py:129-139 | every harvested document is the document of an entry of the page (for the crawler, one whose review page loaded) |
| RogerEbertCrawler.HarvestFromFresh | scrapers/scrape_roger_ebert.py:132-141 | when each document carries its entry's URL (as the crawler's do), harvested URLs are pairwise distinct and none was seen before |
| RogerEbertCrawler.HarvestFromComplete | scrapers/scrape_roger_ebert.py:129-141 | when each document carries its entry's URL, then short of `limit` every entry that has a document (whose review page loads) ends up seen or harvested |
| RogerEbertCrawler.AppendKeepsState | scrapers/scrape_roger_ebert.py:140-146 | appending a fresh document and saving when the count reaches a multiple of ten preserves the crawl invariant |
| MergeData.KeySeparator | scrapers/merge_data.py:90-92 | in a key built from an integer year, the last '_' is the one after the title |
| MergeData.TitleYearKeyInjective | scrapers/merge_data.py:90-92 | two keys are equal exactly when the lower-cased titles and the years are |
| MergeData.TitleYearKey | scrapers/merge_data.py:90-92 | the key is the lower-cased title, '_' at the title's length, then the year text |
| MergeData.IndexFromKeys | scrapers/merge_data.py:37-67 | a key is in the index exactly when it was there already or some record has it |
| MergeData.IndexFromLast | scrapers/merge_data.py:37-67 | a key maps to the last record filed under it |
| MergeData.IndexFromUntouched | scrapers/merge_data.py:37-67 | a key no record has keeps its old value |
| MergeData.OrderFromSpec | scrapers/merge_data.py:37-39 | dict insertion order: the old keys first, then each new key once, at its first record |
| MergeData.OrderFromDedup | scrapers/merge_data.py:37-39 | the key order is the old order followed by the records' keys with each key kept at its first occurrence, so new keys appear in the order of their first records |
| MergeData.WithKey | scrapers/merge_data.py:69-71 | exactly the records filed under one title |
| MergeData.GroupFromSpec | scrapers/merge_data.py:69-71 | each title's group is its old group followed by every record with that title, in file order |
| MergeData.EbertKeyStep | scrapers/merge_data.py:62-67 | one Roger Ebert record is filed under title_year, with the year defaulting to 0, when it has a title |
| MergeData.EbertTitleStep | scrapers/merge_data.py:69-71 | one Roger Ebert record is appended under its lower-cased, stripped title |
| MergeData.FirstCandidate | scrapers/merge_data.py:146-151 | the first candidate whose year is 0 or within 1, reporting a raise where the comparison raises; not found exactly when every candidate compares false |
| MergeData.EbertLookup | scrapers/merge_data.py:136-151 | the exact title/year key wins; otherwise the first close title candidate; a match needs a title and a year |
| MergeData.MovieTitle | scrapers/merge_data.py:133 | `primaryTitle` when truthy, else `title`; truthy when either is |
| MergeData.MovieYear | scrapers/merge_data.py:133-138 | a year only when the title is truthy; a truthy integer `startYear` wins, else a truthy integer `year` |
| MergeData.ReviewsAfterMatch | scrapers/merge_data.py:159-164 | an absent `reviews` becomes the one-element list of the review text; a list or string gains the review text as its last element, a list keeping its old items before it; any other value stays |
| MergeData.ApplyEbert | scrapers/merge_data.py:153-164 | adds exactly the Roger Ebert fields and changes no other field; review and URL are the record's |
| MergeData.OmdbStepKeeps | scrapers/merge_data.py:115-122 | the OMDb step changes only metascore, tomatometer, poster and plot |
| MergeData.EbertStepKeeps | scrapers/merge_data.py:153-164 | the Roger Ebert step changes only the rogerebert_* fields and reviews |
| MergeData.FinalizeKeeps | scrapers/merge_data.py:170-180 | the final step changes only id, source and tconst |
| MergeData.MatchAfterOmdb | scrapers/merge_data.py:115-151 | the OMDb step does not change which Roger Ebert review matches |
| MergeData.LookupByTitleAndYear | scrapers/merge_data.py:133-151 | the match depends only on the movie's title and year |
| MergeData.MergeMovieFields | scrapers/merge_data.py:113-180 | a merged movie is the OMDb, Roger Ebert and final steps applied to its own record and match |
| MergeData.MergeFieldsIdentity | scrapers/merge_data.py:170-180 | `id` is the tconst, tconst is gone, and source is ['imdb'], then 'omdb' iff an OMDb record exists, then 'rogerebert' iff a review is attached |
| MergeData.MergeFieldsOmdb | scrapers/merge_data.py:115-122 | metascore, tomatometer and poster come from the OMDb record; the plot is replaced only by a non-empty OMDb plot |
| MergeData.MergeFieldsNoOmdb | scrapers/merge_data.py:115 | without an OMDb record the OMDb fields are untouched |
| MergeData.MergeFieldsEbert | scrapers/merge_data.py:153-164 | a match copies review, critic, rating and URL; `reviews` gains the review as a list element, or becomes [old, new] from a string |
| MergeData.MergeFieldsNoEbert | scrapers/merge_data.py:153 | without a match the Roger Ebert fields are untouched |
| MergeData.MergeFieldsUntouched | scrapers/merge_data.py:113-180 | every other field of the movie is unchanged |
| MergeData.ValuesInOrder | scrapers/merge_data.py:191 | `list(movies.values())`: one record per key, in key order |
| MergeData.DataMerger.constructor | scrapers/merge_data.py:21-29 | every table starts empty |
| MergeData.DataMerger.LoadData | scrapers/merge_data.py:31-71 | the four loops fill the IMDb, OMDb, Rotten Tomatoes and Roger Ebert tables as their specification functions say, stopping where `.lower()` of a non-string title raises |
| MergeData.DataMerger.LoadImdb | scrapers/merge_data.py:36-39 | movies keyed by tconst, in insertion order; nothing else changes |
| MergeData.DataMerger.LoadOmdb | scrapers/merge_data.py:42-45 | OMDb records keyed by imdb_id; nothing else changes |
| MergeData.DataMerger.LoadRt | scrapers/merge_data.py:54-58 | Rotten Tomatoes records keyed by title_year up to the first non-string title, where it raises; nothing else changes |
| MergeData.DataMerger.LoadEbert | scrapers/merge_data.py:61-71 | Roger Ebert records keyed by title_year and grouped by clean title; nothing else changes |
| MergeData.DataMerger.FileEbertKey | scrapers/merge_data.py:63-67 | one record is filed under its title_year key |
| MergeData.DataMerger.FileEbertTitle | scrapers/merge_data.py:69-71 | one record is appended to its title's group |
| MergeData.DataMerger.ProcessAndMerge | scrapers/merge_data.py:113-180 | no movie is added or removed, the order is kept, and every movie becomes `MergeMovie` of its old record; the lookup tables are unchanged |
| MergeData.DataMerger.MergeInOrder | scrapers/merge_data.py:113 | the loop applies the merge to every movie once, and to nothing else |
| MergeData.DataMerger.MergeOne | scrapers/merge_data.py:113-180 | one movie is replaced by its merged record |
| MergeData.DataMerger.SaveMergedData | scrapers/merge_data.py:185-196 | saves the movies in order, and does nothing when there are none |
| MergeData.SavedListIsMovies | scrapers/merge_data.py:191 | the saved list holds every movie, one entry per key |
| ProcessOmdb.ImdbIds | scrapers/process_omdb_data.py:35-47 | a missing IMDb file gives no ids |
| ProcessOmdb.ImdbIdsMembers | scrapers/process_omdb_data.py:45 | exactly the truthy tconst values of the records |
| ProcessOmdb.ExistingIds | scrapers/process_omdb_data.py:95 | exactly the truthy imdb_id values of the stored records |
| ProcessOmdb.IdsToProcessSpec | scrapers/process_omdb_data.py:101-105 | the ids not yet stored, in order, cut to the first `limit` when `limit` > 0 |
| Text.RemoveCharConcat | scrapers/process_omdb_data.py:131 | removing a character from a concatenation removes it from each part |
| Text.RemoveCharAbsent | scrapers/process_omdb_data.py:131 | `replace` of a character the text does not contain leaves it unchanged |
| ProcessOmdb.ParseRating | scrapers/process_omdb_data.py:125-133 | Internet Movie Database: `float()` of the text before '/'; Rotten Tomatoes: `int()` of the text without '%'; Metacritic: `int()` of the text before '/'; a value that is not a string raises |
| ProcessOmdb.RottenTomatoesPercent | scrapers/process_omdb_data.py:130-131 | "NN%" parses to NN |
| ProcessOmdb.MetacriticOutOf100 | scrapers/process_omdb_data.py:132-133 | "NN/100" parses to NN |
| ProcessOmdb.ExtractRatings | scrapers/process_omdb_data.py:124-133 | the ratings loop returns `RatingsFrom`, and None where it raises |
| ProcessOmdb.RaisedStaysRaised | scrapers/process_omdb_data.py:124-133 | once an entry raises, the whole loop raises |
| ProcessOmdb.AddRatingKeeps | scrapers/process_omdb_data.py:125-133 | an entry from another source leaves a rating untouched |
| ProcessOmdb.AddRatingSets | scrapers/process_omdb_data.py:125-133 | an entry sets its source's rating to its parsed value |
| ProcessOmdb.AbsentRatingKey | scrapers/process_omdb_data.py:147-150 | a source with no entry has no rating |
| ProcessOmdb.LastRatingWins | scrapers/process_omdb_data.py:125-133 | the last entry from a source gives its rating |
| ProcessOmdb.YearField | scrapers/process_omdb_data.py:139 | a Year string gives a year exactly when it is all digits; a Year that is not a string raises |
| ProcessOmdb.YearFieldSpec | scrapers/process_omdb_data.py:139 | a digit string gives its value; a missing or non-digit Year gives None |
| ProcessOmdb.ListField | scrapers/process_omdb_data.py:140-143 | a missing or empty field gives [] |
| ProcessOmdb.ListFieldRoundTrip | scrapers/process_omdb_data.py:140-143 | joining the pieces with ", " gives the field back, and no piece contains ", " |
| ProcessOmdb.FormattedSpec | scrapers/process_omdb_data.py:135-151 | the id is "omdb_" + imdbID; the URL is the IMDb title page of the same id; metascore and tomatometer are the parsed ratings |
| ProcessOmdb.RatingEntries | scrapers/process_omdb_data.py:125 | a missing Ratings field iterates nothing, a list iterates its items, and null, a boolean or a number raises |
| ProcessOmdb.ToDictFields | scrapers/process_omdb_data.py:135-151 | the written record carries the document id and source "omdb", and its year is null exactly when the document has none |
| ProcessOmdb.AcceptAnswer | scrapers/process_omdb_data.py:63-67 | an answer is kept exactly when its Response is "True" |
| ProcessOmdb.Enrich | scrapers/process_omdb_data.py:108-111 | a batch appends at most one record per id |
| ProcessOmdb.EnrichRaisedStable | scrapers/process_omdb_data.py:108-111 | the loop stops at the first record that raises |
| ProcessOmdb.EnrichCount | scrapers/process_omdb_data.py:108-111 | when nothing raises, one record per accepted answer |
| ProcessOmdb.OmdbProcessor.constructor | scrapers/process_omdb_data.py:30-33 | no records yet |
| ProcessOmdb.OmdbProcessor.SaveData | scrapers/process_omdb_data.py:153-163 | writes every record, and does nothing when there are none |
| ProcessOmdb.OmdbProcessor.ProcessMovies | scrapers/process_omdb_data.py:75-118 | without a key or ids nothing changes; otherwise the stored records (when the file loads) are followed by the batch's new records, and the file is the snapshot at the latest multiple of 100 the loop reached |
| ProcessOmdb.OmdbProcessor.RunBatch | scrapers/process_omdb_data.py:108-118 | the loop appends the batch's records, and the file is the snapshot at the latest multiple of 100 it reached, or as before when there was none |
| ProcessOmdb.OmdbProcessor.ProcessOne | scrapers/process_omdb_data.py:109-111 | one id appends its formatted record when the answer is accepted |
| ProcessOmdb.OmdbProcessor.SaveIfDue | scrapers/process_omdb_data.py:116-118 | saves exactly when the record count is a positive multiple of 100 |
| ProcessOmdb.LastSaveStep | scrapers/process_omdb_data.py:108-118 | one iteration, appending at most one record and saving at a multiple of 100, moves the file from the latest snapshot of the old list to that of the new one |
| ProcessOmdb.LastSave | scrapers/process_omdb_data.py:116-118 | the file after a loop is the prefix of the records at the latest positive multiple of 100 reached, or unchanged when none was reached |
| ProcessOmdb.FormatDocument | scrapers/process_omdb_data.py:120-151 | the formatting method returns `Formatted` |
| SolrClient.OrClauses | web/solr_client.py:64 | one `field:"v"` clause per value, in order |
| SolrClient.ManyFilterRoundTrip | web/solr_client.py:63-65 | a list filter is parenthesised, and splitting its inside on " OR " gives the clauses back |
| SolrClient.FilterQueryField | web/solr_client.py:59-71 | every filter query names its field first |
| SolrClient.FilterQueries | web/solr_client.py:59-71 | one filter query per filter, in order |
| SolrClient.BuildParams | web/solr_client.py:29-86 | match-all exactly for "" or '*:*'; otherwise edismax with the query verbatim; sort iff given; fq iff filters; facet and highlight settings iff requested |
| SolrClient.EveryOther | web/solr_client.py:98 | `values[0::2]` |
| SolrClient.ZipFacets | web/solr_client.py:98 | `zip` stops at the shorter list |
| SolrClient.FacetPairs | web/solr_client.py:96-99 | floor(n/2) value/count pairs of consecutive elements |
| SolrClient.ProcessFacets | web/solr_client.py:93-99 | one pair list per facet field |
| SolrClient.PairStepwise | web/solr_client.py:286-295 | the stepped loop of `_parse_facets` pairs like the comprehension |
| SolrClient.ParseFacets | web/solr_client.py:282-297 | {} without facet fields; otherwise the same pairs as `search` |
| SolrClient.Search | web/solr_client.py:88-113 | an exception gives no docs, 0 found and no facets; otherwise Solr's docs, hits and paired facets |
| SolrClient.GetFacetValues | web/solr_client.py:161-185 | the pairs of the field, or [] on an exception or when the field is missing |
| SolrClient.FacetValuesAgree | web/solr_client.py:93-99 | `get_facet_values` and `search` pair a field the same way |
| SolrClient.MoreLikeThisParams | web/solr_client.py:204-217 | the query is "id:" + the id, and the default fields are used when none are given |
| SolrClient.MltFieldsRoundTrip | web/solr_client.py:211 | splitting the joined field list on ',' gives the fields back |
| SolrClient.MoreLikeThis | web/solr_client.py:219-251 | `num_found` is always the number of docs; the raw response wins over the parsed one; an exception gives no docs and its message |
| WebApp.NormalizeQuery | web/app.py:48-50 | the query is stripped, and a blank query becomes '*:*' |
| WebApp.NormalizeQueryIdempotent | web/app.py:48-50 | normalising twice equals normalising once |
| WebApp.PageNumber | web/app.py:52 | a missing page is 1 |
| WebApp.PageNumberRoundTrip | web/app.py:52 | any integer's text reads back as itself |
| WebApp.Offset | web/app.py:53 | `(page-1)*10` |
| WebApp.PageWindow | web/app.py:53 | result k is on page k/10+1 |
| WebApp.TotalPages | web/app.py:94 | `ceil(total/10)` |
| WebApp.ResultsFitPages | web/app.py:94 | every result's page is within the page count, and the last result is on the last page |
| WebApp.YearBound | web/app.py:64-68 | a missing bound gives the default |
| WebApp.YearBoundRoundTrip | web/app.py:67-68 | an integer's text reads back as itself |
| WebApp.FilterFields | web/app.py:56-74 | the filter names in insertion order |
| WebApp.YearFilter | web/app.py:64-69 | raises exactly when a given bound does not parse |
| WebApp.RatingFilter | web/app.py:72-74 | raises exactly when a given minimum is not a float |
| WebApp.SearchFilters | web/app.py:56-74 | raises exactly when the year or rating filter raises |
| WebApp.SearchFiltersShape | web/app.py:56-74 | genres iff any are selected, year iff either bound is given (1900 and 2024 defaults), rating iff a minimum is given, in that order |
| WebApp.SortArg | web/app.py:77-79 | an empty sort becomes None |
| WebApp.FirstOrEmpty | web/app.py:102-108 | a list collapses to its first element, or '' when empty |
| WebApp.Index0 | web/app.py:113-114 | `x[0]`: the first element of a non-empty list, the first character of a non-empty string; raises otherwise |
| WebApp.HighlightEntry | web/app.py:110-111 | a document's highlighting entry, when there is one |
| WebApp.HighlightedText | web/app.py:113-114 | `hl.get(field, [fallback])[0]`: the fallback when the field is absent, else the first element of the field's list |
| WebApp.Snip | web/app.py:129-131 | text over 300 characters becomes its first 300 plus "..."; shorter text is unchanged |
| WebApp.SnipIdempotent | web/app.py:129 | snipping twice equals snipping once |
| WebApp.Snippet | web/app.py:128-133 | the highlighted plot, else the highlighted reviews, else '' |
| WebApp.Poster | web/app.py:121-125 | a non-empty poster list collapses to its first element |
| WebApp.Highlights | web/app.py:101-117 | without a highlighting entry, the plain plot and reviews; with one, the highlighted plot and reviews, raising where either `[0]` raises |
| WebApp.ShapeDoc | web/app.py:98-135 | adds the highlighted plot and reviews (from the highlighting entry when there is one), the poster and the snippet, and keeps every other field |
| WebApp.PlainPlotSnippet | web/app.py:102-133 | an unhighlighted string plot gives a snippet of at most 303 characters that begins with the plot |
| WebApp.HighlightedDocSnippets | web/app.py:110-131 | with a highlighting entry holding plot and reviews snippet lists, the highlighted plot and reviews are the first snippet of each, and the snippet is cut from a non-empty highlighted plot |
| WebApp.ShapeDocs | web/app.py:97-135 | the document loop shapes every document in order |
| WebApp.SearchView | web/app.py:47-151 | the Solr request (query with its edismax keys, offset, 10 rows, fields, sort, the fq text of each filter from the filter dict, genre/year facets, the plot/reviews highlighting settings) and every template argument (query, shaped documents, totals, page, results per page, facets, selected genres, the year and rating bounds as typed, sort) |
| WebApp.AutocompleteQuery | web/app.py:221-227 | no query below 2 characters; otherwise "title:" + prefix + "*" |
| WebApp.Suggestions | web/app.py:231-238 | title, year (or '') and id of each document, in order |
| WebApp.Autocomplete | web/app.py:221-240 | [] without a request below 2 characters; otherwise a 10-row edismax prefix query and its suggestions |
| WebApp.TruncateList | web/app.py:258-263 | the first `length` items, following Python slicing for negative lengths |
| WebApp.ItemTexts | web/app.py:271 | `str` of each item |
| WebApp.JoinWithComma | web/app.py:266-271 | '' for an empty list; a single item's `str()` |
| WebApp.JoinWithCommaRoundTrip | web/app.py:271 | splitting the joined text on ", " gives the items' texts back |
| Text.LowerChar | scrapers/merge_data.py:92 | lower-casing maps no character to an upper-case one and leaves non-upper-case characters unchanged |
| Text.Lower | scrapers/merge_data.py:92 | `str.lower` character by character |
| Text.CountChar | scrapers/scrape_roger_ebert.py:198 | the number of occurrences of a character |
| Text.Strip | scrapers/scraper_utils.py:62 | the middle of the text with every leading and trailing character of Python's whitespace set removed |
| Text.StripUnchanged | scrapers/scraper_utils.py:62 | text without outer whitespace is unchanged |
| Text.FirstIndexOf | scrapers/scrape_roger_ebert.py:349 | the leftmost occurrence, or None exactly when there is none |
| Text.SplitOn | scrapers/process_omdb_data.py:129 | `str.split(sep)`: at least one piece, none containing the separator |
| Text.JoinSplitOn | scrapers/process_omdb_data.py:140 | joining the pieces of a split gives the text back |
| Text.SplitOnJoin | web/app.py:271 | splitting a join of separable pieces gives the pieces back |
| Text.LastIndexOfChar | scrapers/merge_data.py:92 | the rightmost occurrence of a character |
| Text.NatToString | scrapers/merge_data.py:92 | the decimal text of a natural is a digit string |
| Text.IntToString | scrapers/merge_data.py:92 | the decimal text of an integer is non-empty |
| Text.ParseInt | web/app.py:52 | `int()` of a string succeeds only on non-blank text |
| Text.ParseIntDigits | web/app.py:52 | a digit string parses to its value |
| Text.ParseIntNegative | web/app.py:52 | a '-' sign negates |
| Text.ParseNatString | web/app.py:67 | a natural's text parses back |
| Text.ParseNegatedNatString | web/app.py:67 | a negative number's text parses back |
| Text.IntToStringRoundTrip | web/app.py:67-68 | `int(str(i)) == i` |
| Text.IntToStringInjective | scrapers/merge_data.py:92 | distinct integers have distinct texts |
| Text.ParseNatToString | scrapers/merge_data.py:92 | the digits of a natural read back as it |
| Json.PyOr | scrapers/merge_data.py:133-134 | `a or b` is truthy exactly when either is, and is `a` when `a` is truthy |
| Json.Truncate | scrapers/merge_data.py:137-138 | `int()` of a float rounds toward zero |
| Json.ToInt | scrapers/merge_data.py:137-138 | `int()` of an int is itself, of a bool 0 or 1, of a float its truncation toward zero, of a string its parse; of None, a list or a dict it raises |
| Json.ToIntOfStrOf | scrapers/merge_data.py:137-138 | `int(str(x)) == int(x)` for an int or a string |
| Json.StrOf | scrapers/merge_data.py:92 | `str()` of a string is itself, of an int its decimal text, of None "None", of a bool "True"/"False"; of a float, list or dict the `reprOf` text |
| Sequences.FilterMapPrefix | scrapers/process_omdb_data.py:101 | a filtered prefix is a prefix of the filtered whole |
| Sequences.FilterMapMembers | scrapers/process_omdb_data.py:45 | the filtered list holds exactly the images of the kept elements |
| Sequences.FilterMapIndex | scrapers/scrape_roger_ebert.py:171-186 | each filtered element has an origin, with earlier kept elements before it |
| Sequences.DedupPrefix | scrapers/scrape_roger_ebert.py:179-190 | deduplicating a prefix gives a prefix of the deduplicated whole |
| Sequences.DedupDistinct | scrapers/scrape_roger_ebert.py:179-187 | deduplicated keys are pairwise distinct |
| Sequences.DedupFirstOccurrence | scrapers/scrape_roger_ebert.py:179-187 | the same keys as the input, each kept at its first occurrence |
| Sequences.DedupOfDistinct | scrapers/merge_data.py:37-39 | deduplicating a sequence without duplicates leaves it unchanged |
| Sequences.DedupOfFilterMap | scrapers/scrape_roger_ebert.py:171-187 | deduplicating filtered elements keeps the first kept element per key, and every kept key |

## Left out

- HTTP fetching (`_get_soup`, `ScraperUtils.get_page`, `fetch_movie_data`) and the sleeps around it are oracles: a fetch returns a page or None. The 403/429 branch differs only in its log message.
- ProcessOmdb.OmdbProcessor.ProcessMovies: does not model the 401 branch of `fetch_movie_data`. That branch depends on the truthiness of a `requests` Response object, which is library behaviour.
- BeautifulSoup parsing, CSS selectors, `urljoin` and `urlparse` are not modelled. A page is a record of what each selector found, and each link carries its already-resolved URL and path.
- JSON decoding and encoding, `os.path.exists` and `os.makedirs` are not modelled. A file is Missing, Corrupt or a saved sequence, and an input file is a sequence of records.
- ScraperUtils.GenerateId: MD5 is a parameter that returns 32 lower-case hex characters. Collision resistance and determinism across runs are not modelled.
- ScraperUtils.NormalizeRating: computes over exact reals and rounds half up to one decimal. It does not model IEEE doubles or Python's round-half-even.
- RogerEbert.ExtractRating: `float()` of an attribute is given with the attribute (`asFloat`), and the star class's `/10.0` is exact.
- WebApp.RatingFilter: `float(rating_min)` and the float's text in the filter are the `floatText` parameter.
- ProcessOmdb.ParseRating: the IMDb `float()` is the `toFloat` parameter.
- Logging with `print` is left out.
- scrapers/process_imdb_data.py is not part of this model. It is pandas dataframe work plus downloads.
- index_movies.py is not part of this model. It is pysolr I/O.
- Flask routing and template rendering are not modelled, nor are the `random`, `movie_detail`, `similar`, `stats` and error routes. `SolrClient.get_movie`, `get_by_id` and `stats` are not modelled either, because they only forward a Solr call.
- The `title_year_map` loop and the NYT branches of the merge are dead code and are not modelled. `rt_data` is loaded (modelled by `LoadRt`) but never read.
- RogerEbertCrawler.Crawler.Crawl: the loop visits at most `fuel` listing pages. A page that was already popped can be queued again, so the source's loop need not terminate before `limit` is reached.
- RogerEbertCrawler.HarvestOne: applies `_fetch_review` as the function value `fetchReview` rather than calling the `FetchReview` method. `Crawl` passes `ReviewFetcher(fetchDetail)`, and `FetchReview` is proved to return exactly that function's value, so the two agree.
- RogerEbertCrawler.EnqueueAll: appends the discovered URLs in an arbitrary order, because the source iterates over a set.
- RogerEbertCrawler.Crawler.Crawl: every saved document has a URL, so saved records without a `url` key are not modelled.
- MergeData.DataMerger.ProcessAndMerge: requires each movie with a title to have a string title. Otherwise `title.lower()` raises AttributeError, which the source does not catch.
- MergeData.DataMerger.ProcessAndMerge: models mutating a movie dict in place as replacing the map entry. No movie dict is shared between entries.
- Python's cross-type key equality (1 == 1.0 == True) is not modelled: JSON keys compare structurally.
- Text.Lower: lower-cases ASCII letters only, not the full Unicode table.
- Text.IsDigit: ASCII digits only, so the members below do not model Python's Unicode `\d` and `str.isdigit` (in Python, "19٩٩" contains a year match giving 1999, and "²".isdigit() is True while `int("²")` raises).
- ScraperUtils.FirstYearFrom: matches `(19|20)\d{2}` with ASCII digits only.
- ScraperUtils.ExtractYear: reads ASCII-digit years only; a year written with other Unicode decimal digits gives None here.
- ScraperUtils.FirstNumberRun: the run `[\d,]+` is of ASCII digits and commas only.
- ScraperUtils.ExtractNumber: numbers written with non-ASCII decimal digits are not read.
- RogerEbert.StarClassRating: a class "star" followed by non-ASCII digits is not accepted here; Python's `isdigit` accepts it, and `float()` then reads it or raises a ValueError that the loop skips.
- ProcessOmdb.YearField: a Year of non-ASCII digits gives None here; Python's `isdigit` accepts it, and `int()` then reads it or raises.
- Text.ParseInt: accepts an optional sign and ASCII digits around whitespace. It rejects underscores and non-ASCII digits.
- Json.StrOf: the text Python gives a float, list or dict (shortest round-trip float formatting, `repr` of containers) is the `reprOf` parameter; `WebApp.JoinWithComma` and the merge keys use it.
- WebApp.TruncateList: takes a sequence, so `truncate_list` on strings or other sliceable values is not modelled.
- WebApp.HighlightEntry: highlighting that is not an object counts as having no entry, and a non-string document id is never found.
- SolrClient.ProcessFacets: facet fields are a map, so the order of the facets dict is not modelled.
- `main`'s arguments (for example `limit=800`) are not modelled.
