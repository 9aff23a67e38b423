# Google Maps review and restaurant scraper — a verified model

This project is a Dafny model of a Chrome extension's core. The extension scrapes two things from Google Maps:
- the result list of a restaurant search,
- the reviews of one restaurant.

For each it scrolls the page until it stops loading, deduplicates the records it then finds, and downloads them as CSV.

The heart of the model is the **scroll-harvest loop**. The page is an oracle: `Harvest.Page` holds one `Probe` per loop iteration. A probe records what the page shows at each point the code reads it:
- the count at the top of the iteration;
- the measurement after the scroll wait (the feed height, or the number of distinct review ids);
- the count after a growth;
- the end banner;
- whether a stop message arrived during either of the two waits.

JavaScript runs one task at a time, so the stop flag can change only across an `await`. After its probes the page is quiet.

Every loop method is proved against a closed form:
- `RecordAt`: the running maximum that `lastHeight`/`lastReviewCount` keep.
- `StreakAt`: the `noChangeCount` streak.
- `StopAtHead`: the stop flag at the top of an iteration.
- A per-iteration exit rule: the loop ends at the first iteration where it fires.

The four variants keep their own rules:

| variant | source | module |
|---|---|---|
| capped restaurant loop | js/scrapers/injection-functions.js 70-132 | `InjectedRestaurants` |
| streak-only restaurant loop | js/scrapers/restaurant-scraper.js 72-110 | `RestaurantScraping` |
| 100-step review loop | js/scrapers/injection-functions.js 640-688 | `InjectedReviews` |
| unbounded review loop | js/scrapers/review-scraper.js 353-393 | `ReviewScraping` |

The variants differ in two ways:
- **Thresholds.** The injected loops multiply the no-change limit (`max(3·MAX_NO_CHANGE, 15)` and `max(2·NO_CHANGE_LIMIT, 20)`). They also need more than 80% of the target before a streak may end them. The class loops use the limit as given.
- **Target check.** The injected loops check the target before scrolling. The class review loop checks it after.

popup.js carries the two injected scrapers again, line for line, at popup.js 280-555 and 559-1019. Each line there is the injection-functions.js line plus 272. Every row below that cites js/scrapers/injection-functions.js applies to that copy as well.

The other modules:
- **Extractors.**
  - `Listings` is the restaurant `Map` keyed by the href cut at its first `&`; the first occurrence wins.
  - `Listings` also holds the rating and review-count fallback chains.
  - `Reviews` is the review pass: the author / stars / text fallbacks, the `author|stars|text[0..100]` key and its filters.
- **Patterns**: the regular expressions those passes apply, as greedy scanners.
- **Utils** and **Text**: the string helpers of js/utils.js and the JavaScript string primitives they rest on.
- **PageValidation**: the URL checks of js/ui.js.
- **Settings**:
  - the `Config` store of js/config.js;
  - the popup's global `CONFIG`.

## Model

| member | source | states |
|---|---|---|
| Harvest.RecordIsMaximum | js/scrapers/restaurant-scraper.js:88-92 | the record is at least the start value and every measurement so far, and equals one of them |
| Harvest.RecordMonotone | js/scrapers/restaurant-scraper.js:88-92 | the record never decreases from one iteration to a later one |
| Harvest.StreakCountsQuietTicks | js/scrapers/restaurant-scraper.js:89-103 | the streak counts the iterations since the last growth: none of them grew, the one before did, and the record did not move |
| Harvest.GrowthStrictlyIncreases | js/scrapers/review-scraper.js:367-371 | measurements at two growth iterations are above the start value and strictly increase |
| Harvest.QuietPageStopsGrowing | js/scrapers/restaurant-scraper.js:88-103 | on a quiet page whose measurement the record has reached, no iteration grows |
| Harvest.QuietPageStreak | js/scrapers/restaurant-scraper.js:100-103 | past the probes every iteration adds one to the streak |
| Harvest.GrowthTicks | js/scrapers/review-scraper.js:367-374 | exactly the growth iterations before `n`, in increasing order |
| Harvest.GrowthValues | js/scrapers/review-scraper.js:374 | the measurements at the given iterations, one each |
| Harvest.GrowthValuesIncrease | js/scrapers/review-scraper.js:367-374 | the reported progress values exceed the start value and strictly increase |
| Harvest.GrowthReportsMeaning | js/scrapers/review-scraper.js:374 | one report per growth iteration, in iteration order |
| Harvest.SettingOr | js/scrapers/injection-functions.js:9-12 | `userConfig?.KEY \|\| default`: the given value unless it is absent or 0, then the default |
| InjectedRestaurants.CappedLimits | js/scrapers/injection-functions.js:8-14 | absent settings default to 500 restaurants, 10 attempts, 3 no-change |
| InjectedRestaurants.StreakThreshold | js/scrapers/injection-functions.js:121 | the streak limit is the larger of 15 and three times `MAX_NO_CHANGE` |
| InjectedRestaurants.CappedExitMeaning | js/scrapers/injection-functions.js:70-131 | each exit reason holds its condition: attempts used up, target at the top with no scroll, a stop, a long streak with more than 80% of the target, or the banner |
| InjectedRestaurants.TargetPrecedesScroll | js/scrapers/injection-functions.js:77-89 | an iteration that starts with the target count ends at once, without scrolling |
| InjectedRestaurants.BannerEnds | js/scrapers/injection-functions.js:128-131 | the end banner ends the loop whatever the streak |
| InjectedRestaurants.StreakNeedsMostOfTarget | js/scrapers/injection-functions.js:121 | a streak exit implies more than 80% of the target (as `5·count > 4·MAX`) and stays within the attempt bound |
| InjectedRestaurants.CappedScroll | js/scrapers/injection-functions.js:57-132 | the loop ends at the first iteration whose exit rule fires, with the record, streak and messages of the closed forms, within `MAX_SCROLL_ATTEMPTS` iterations |
| InjectedRestaurants.StarRatingSearch | js/scrapers/injection-functions.js:152-173 | the selector loop returns the number from the first rating element that yields one, else '' |
| InjectedRestaurants.ReviewCountSearch | js/scrapers/injection-functions.js:176-221 | the corrected search (Findings row 1, without the throw at line 181): the selector loop and text-node walk return the first count found, else '' |
| InjectedRestaurants.ListingRecord | js/scrapers/injection-functions.js:223-227 | with the corrected count search: the stored record is the comma-free name with 'N/A' for a rating or count not found |
| InjectedRestaurants.ExtractListings | js/scrapers/injection-functions.js:140-229 | with the corrected count search: the extracted map is the first-occurrence map of the listable anchors |
| InjectedRestaurants.AddListing | js/scrapers/injection-functions.js:143-228 | with the corrected count search: one turn of the loop extends the prefix map by one anchor and keeps the key set in step |
| InjectedRestaurants.ListingRows | js/scrapers/injection-functions.js:263-268 | one row per entry: name, rating, count, link |
| InjectedRestaurants.RowQuoteFree | js/scrapers/injection-functions.js:263-270 | a row of quote-free fields has no `"` in any cell |
| InjectedRestaurants.RowsQuoteFree | js/scrapers/injection-functions.js:263-270 | the same for every row |
| InjectedRestaurants.ListingsCsvAgrees | js/scrapers/injection-functions.js:269-270 | with no `"` in any field, the unescaped CSV is exactly what `generateCSV` writes |
| InjectedRestaurants.QuoteFreeCsv | js/scrapers/injection-functions.js:270 | the same agreement under any header |
| InjectedRestaurants.QuotedRowTotal | js/scrapers/injection-functions.js:224 | the row of a listing named `a"b` holds one `"` |
| InjectedRestaurants.QuotedRowShorter | js/scrapers/injection-functions.js:270 | its unescaped line is one character shorter than the escaped one |
| InjectedRestaurants.OneRowCsv | js/scrapers/injection-functions.js:270 | a header and one line join with a single newline |
| InjectedRestaurants.QuotedNameDiffers | js/scrapers/injection-functions.js:270 | for a name holding `"` the injected CSV differs from `generateCSV`'s |
| InjectedRestaurants.FieldQuoteFree | js/scrapers/injection-functions.js:225-226 | 'N/A' and numerals hold no `"` |
| InjectedRestaurants.RecordQuoteFree | js/scrapers/injection-functions.js:225-226 | a record's rating and count never hold `"` |
| InjectedRestaurants.CappedFinish | js/scrapers/injection-functions.js:238-283 | a stop sends SCRAPING_STOPPED with the map size and no download; an empty map gives RESTAURANT_ERROR and `undefined`; otherwise restaurants.csv and RESTAURANT_COMPLETE |
| InjectedRestaurants.Scrape | js/scrapers/injection-functions.js:44-283 | with the corrected count search: no feed gives an error, `undefined` and no scrolling; otherwise the capped loop, the extraction and `CappedFinish` |
| InjectedReviews.InjectedLimits | js/scrapers/injection-functions.js:290-295 | absent settings default to 2000 reviews and a no-change limit of 15 |
| InjectedReviews.StreakThreshold | js/scrapers/injection-functions.js:683 | the streak limit is the larger of 20 and twice `NO_CHANGE_LIMIT` |
| InjectedReviews.BoundedExitMeaning | js/scrapers/injection-functions.js:640-688 | each exit reason holds its condition: 100 iterations, target at the top with no scroll, a stop, or a long streak with more than 80% of the target |
| InjectedReviews.TargetPrecedesScroll | js/scrapers/injection-functions.js:646-649 | an iteration that starts with the target count ends at once, without scrolling |
| InjectedReviews.StreakNeedsMostOfTarget | js/scrapers/injection-functions.js:683 | a streak alone never ends the loop at 80% of the target or less |
| InjectedReviews.BoundedScroll | js/scrapers/injection-functions.js:628-688 | the loop ends at the first iteration whose exit rule fires, with the record, streak and messages of the closed forms, within 100 iterations |
| InjectedReviews.ReviewLines | js/scrapers/injection-functions.js:564-566 | one line per review |
| InjectedReviews.ReviewLineAgrees | js/scrapers/injection-functions.js:565 | a line with quote-free stars equals the `generateCSV` line of the row |
| InjectedReviews.ReviewCsvAgrees | js/scrapers/injection-functions.js:562-568 | with quote-free stars, `generateReviewCSV` writes exactly what `generateCSV` writes |
| InjectedReviews.ExtractedCsvAgrees | js/scrapers/injection-functions.js:562-568 | extracted rows have four cells and their CSV is `generateCSV`'s, since stars are '' or numerals |
| InjectedReviews.InjectedFinish | js/scrapers/injection-functions.js:690-746 | 'Processing reviews', then a stop returns `lastReviewCount` without extracting, no review completes with 0 and `undefined`, otherwise the download |
| InjectedReviews.Scrape | js/scrapers/injection-functions.js:584-747 | no pane gives the chosen error and `undefined`; otherwise the 100-step loop and `InjectedFinish` on the rows extracted with newline-collapsed texts |
| Listings.UrlOf | js/scrapers/restaurant-scraper.js:127 | the url is the href up to, not including, its first `&` |
| Listings.NameOf | js/scrapers/restaurant-scraper.js:128 | the trimmed aria-label, '' when it is missing |
| Listings.ListableMeaning | js/scrapers/restaurant-scraper.js:129 | an anchor is stored only when both its name and its url are non-empty |
| Listings.CleanName | js/scrapers/restaurant-scraper.js:130 | every comma becomes a space and nothing else changes |
| Listings.KeptBefore | js/scrapers/restaurant-scraper.js:126-132 | the kept occurrences below `n`, in document order |
| Listings.KeptComplete | js/scrapers/restaurant-scraper.js:126-132 | every kept occurrence below `n` is listed |
| Listings.EntriesAt | js/scrapers/restaurant-scraper.js:130 | one entry per kept anchor, keyed by its url |
| Listings.ListedUrlsDistinct | js/scrapers/restaurant-scraper.js:124-131 | the map's keys are pairwise distinct and the map has at most one entry per anchor |
| Listings.FirstListingExists | js/scrapers/restaurant-scraper.js:129 | every listable url has a first listable occurrence |
| Listings.ListedCovers | js/scrapers/restaurant-scraper.js:126-132 | the key set is exactly the set of listable anchors' urls |
| Listings.ListableUrlListed | js/scrapers/restaurant-scraper.js:129-130 | every listable anchor's url is a key |
| Listings.ListedUrlListable | js/scrapers/restaurant-scraper.js:129-130 | every key is a listable anchor's url |
| Listings.ListedFirstWins | js/scrapers/restaurant-scraper.js:129-130 | each entry holds the value of the first listable anchor with its url |
| Listings.KeptPrefix | js/scrapers/restaurant-scraper.js:126 | a later anchor does not change what was kept before it |
| Listings.EntriesPrefix | js/scrapers/restaurant-scraper.js:126 | entries of earlier anchors are unaffected by a later one |
| Listings.ListedExtend | js/scrapers/restaurant-scraper.js:129-130 | one more anchor adds its entry exactly when it is a first listing |
| Listings.ListedExtendKept | js/scrapers/restaurant-scraper.js:129-130 | a first listing is appended at the end, so map order is first-appearance order |
| Listings.ListedExtendSkipped | js/scrapers/restaurant-scraper.js:129 | any other anchor changes nothing |
| Listings.ListedIndexStep | js/scrapers/restaurant-scraper.js:126-131 | the same step over a prefix of the anchor list |
| Listings.ListedStep | js/scrapers/injection-functions.js:143-147 | the step as the injected loop takes it |
| Listings.FirstListingPrefix | js/scrapers/injection-functions.js:147 | an anchor is a first listing exactly when it is listable and its url is new |
| Listings.UrlsAppend | js/scrapers/restaurant-scraper.js:130 | appending an entry adds its url to the key set |
| Listings.RatingOf | js/scrapers/injection-functions.js:161-172 | one rating element yields a number from its aria-label first, else from its text; no element yields none |
| Listings.StarRatingOf | js/scrapers/injection-functions.js:152-173 | the rating is the number of the first rating selector that yields one, and none when no selector does |
| Listings.CountOf | js/scrapers/injection-functions.js:186-197 | one count element yields a non-empty digit string |
| Listings.NodeCountOf | js/scrapers/injection-functions.js:210-220 | a text node yields a digit string exactly when its trimmed text has a parenthesised number |
| Listings.ReviewCountOf | js/scrapers/injection-functions.js:176-221 | the corrected search (Findings row 1): the first selector's count, else the text-node fallback; always a non-empty digit string when found |
| Listings.RecordOf | js/scrapers/injection-functions.js:223-227 | comma-free name; rating 'N/A' exactly when none is found, else a number; count 'N/A' exactly when none is found, else digits |
| Listings.ReviewCountAsWritten | js/scrapers/injection-functions.js:181 | as written, a card with no count among the first three selectors throws |
| Listings.ReviewCountAsWrittenAgrees | js/scrapers/injection-functions.js:185-198 | where the code as written returns, it agrees with the corrected search |
| Listings.RecordAsWritten | js/scrapers/injection-functions.js:223-227 | the record as written fails exactly when its count search throws |
| Listings.ListingsAsWritten | js/scrapers/injection-functions.js:140-229 | the extraction as written fails exactly when a kept anchor's card throws, and otherwise is the corrected map |
| Listings.RejectedBeforeMeaning | js/scrapers/injection-functions.js:143-229 | rejection means some kept anchor's record fails |
| Listings.CardWithoutCountRejects | js/scrapers/injection-functions.js:181 | a single card without any review count rejects the whole scrape as written, while the corrected one records 'N/A' |
| Patterns.RunLength | js/scrapers/review-scraper.js:240 | the maximal run of matching characters from a position |
| Patterns.FirstIndex | js/scrapers/review-scraper.js:240 | the first index in a range that satisfies a test, none when no index does |
| Patterns.DecimalEnd | js/scrapers/review-scraper.js:240 | a greedy `\d+(\.\d+)?` match from a digit ends inside the string |
| Patterns.FirstDecimal | js/scrapers/review-scraper.js:240 | '' exactly when there is no digit; otherwise a decimal numeral at the first digit |
| Patterns.DecimalShape | js/scrapers/review-scraper.js:240 | the greedy match is a decimal numeral |
| Patterns.LooseEnd | js/scrapers/injection-functions.js:167 | a greedy `\d+\.?\d*` match from a digit ends inside the string |
| Patterns.LooseShape | js/scrapers/injection-functions.js:167 | the greedy match is a loose numeral |
| Patterns.RatingBeforeStar | js/scrapers/injection-functions.js:167 | group 1 of `(\d+\.?\d*)\s*star` is a loose numeral, and none exactly when no position matches |
| Patterns.LooseNumber | js/scrapers/injection-functions.js:167 | the first number of a text, none exactly when it has no digit |
| Patterns.GroupedEnd | js/scrapers/injection-functions.js:191 | a greedy `\d+(?:,\d+)*` match is digits and commas and ends on a digit |
| Patterns.CountAt | js/scrapers/injection-functions.js:191-194 | a count exactly when one alternative matches at the position, and it is digits only |
| Patterns.DigitsOf | js/scrapers/injection-functions.js:194 | a grouped number with its commas removed is a non-empty digit string |
| Patterns.ReviewCountIn | js/scrapers/injection-functions.js:191-194 | the first match of either alternative as digits only, none exactly when nothing matches |
| Patterns.ParenCount | js/scrapers/injection-functions.js:214-216 | the parenthesised count as digits only, none exactly when none occurs |
| Patterns.PlainParenGivesCount | js/scrapers/injection-functions.js:213-214 | text that passes the `\(\d+\)` test always yields a count |
| RestaurantScraping.StreakOnlyExitMeaning | js/scrapers/restaurant-scraper.js:72-110 | the streak exit holds exactly when the streak reaches the limit; the banner always ends the loop; a stop exit holds a stop; nothing else ends it |
| RestaurantScraping.NameLinkRows | js/scrapers/restaurant-scraper.js:140 | one `[name, url]` row per entry, in map order |
| RestaurantScraping.RestaurantsCsvLines | js/scrapers/restaurant-scraper.js:139-144 | with no newline in a name or url, the CSV is the header line and one line per restaurant |
| RestaurantScraping.Finish | js/scrapers/restaurant-scraper.js:163-184 | returns the map size; a stop sends SCRAPING_STOPPED with it and no download; an empty map gives the error; otherwise restaurants.csv and completion |
| RestaurantScraping.RestaurantScraper.constructor | js/scrapers/restaurant-scraper.js:5-9 | not stopped, with `MAX_NO_CHANGE \|\| 3` |
| RestaurantScraping.RestaurantScraper.ScrollToLoadAll | js/scrapers/restaurant-scraper.js:63-113 | the loop ends at the first iteration whose exit rule fires, with the closed-form record, streak and messages; it returns false exactly when stopped, within `probes + 1 + maxNoChange` iterations |
| RestaurantScraping.RestaurantScraper.ExtractRestaurants | js/scrapers/restaurant-scraper.js:122-136 | the map is the first-occurrence map of comma-free names by url |
| RestaurantScraping.RestaurantScraper.Scrape | js/scrapers/restaurant-scraper.js:147-193 | no feed gives the error and 0 without scrolling; otherwise the loop, the extraction and `Finish` |
| RestaurantScraping.ScrapeAsWritten | js/scrapers/restaurant-scraper.js:186-189 | as written, any feed ends in the catch with 'Scraping failed' and 0 |
| RestaurantScraping.ScrapeAsWrittenNeverDownloads | js/scrapers/restaurant-scraper.js:134 | as written nothing is ever downloaded, while the corrected scrape downloads every non-empty unstopped map |
| ReviewScraping.Setting | js/scrapers/review-scraper.js:351 | `this.config.KEY`: the value given, none when absent |
| ReviewScraping.OpenExitMeaning | js/scrapers/review-scraper.js:353-393 | the target is checked on the count after the scroll, and the streak for `NO_CHANGE_LIMIT` as given, each only when set; a stop exit holds a stop |
| ReviewScraping.LimitEnds | js/scrapers/review-scraper.js:389-392 | with a streak limit the loop has ended by a computed iteration |
| ReviewScraping.NoSettingsNeverEnds | js/scrapers/review-scraper.js:384-392 | with neither setting, a quiet page never ends the loop |
| ReviewScraping.ReviewScraper.constructor | js/scrapers/review-scraper.js:20-24 | not stopped, with the two settings as given |
| ReviewScraping.ReviewScraper.OpenScroll | js/scrapers/review-scraper.js:346-393 | within the fuel, the loop ends at the first iteration whose exit rule fires, with the closed-form record, streak and messages; with a limit and enough fuel it always ends |
| ReviewScraping.ReviewScraper.Scrape | js/scrapers/review-scraper.js:302-430 | no pane gives the chosen error and 0; otherwise the loop and `ClassFinish` on the rows extracted with `cleanText` |
| ReviewScraping.ClassFinish | js/scrapers/review-scraper.js:396-421 | 'Processing reviews', then a stop returns `lastReviewCount` without extracting, no review completes with 0, otherwise the `generateCSV` download |
| ReviewScraping.ScrapeAsWritten | js/scrapers/review-scraper.js:423-426 | as written, a found tab or pane ends in the catch with 'Scraping failed' and 0 |
| ReviewScraping.ScrapeAsWrittenNeverDownloads | js/scrapers/review-scraper.js:340 | as written nothing is ever downloaded, while the corrected scrape downloads every non-empty unstopped extraction |
| Reviews.CutNameShape | js/scrapers/review-scraper.js:60-62 | the cut name has no '·' and no '(' and is trimmed |
| Reviews.NameCandidate | js/scrapers/review-scraper.js:58-63 | a usable header gives a non-empty name other than 'Unknown', with no '·' or '(' |
| Reviews.RestaurantName | js/scrapers/review-scraper.js:48-67 | the first usable header's name, else 'Unknown Restaurant' |
| Reviews.GetRestaurantName | js/scrapers/review-scraper.js:57-66 | the selector loop returns that name |
| Reviews.IdsBeforeMeaning | js/scrapers/review-scraper.js:207-210 | the collected ids are exactly the non-empty ids of the elements |
| Reviews.IdsBeforeBound | js/scrapers/review-scraper.js:207-210 | there are at most as many ids as elements |
| Reviews.CountUniqueReviews | js/scrapers/review-scraper.js:203-213 | the number of distinct non-empty ids, at most the element count |
| Reviews.AuthorCandidate | js/scrapers/review-scraper.js:230-233 | a usable author element gives a non-empty trimmed text |
| Reviews.AuthorOf | js/scrapers/review-scraper.js:226-235 | the first non-empty author candidate, else 'Anonymous' |
| Reviews.StarsOf | js/scrapers/review-scraper.js:238-240 | '' or a decimal numeral |
| Reviews.CleanedCandidate | js/scrapers/review-scraper.js:247-250 | a text exactly when the element exists and its trimmed text is not blank; that text is the whitespace-free pieces of the trimmed text joined by single spaces, so trimmed with no two adjacent spaces |
| Reviews.CollapsedCandidate | js/scrapers/injection-functions.js:538-541 | a text exactly when the element exists and its trimmed text is not blank; that text is the newline-free pieces joined by single spaces and trimmed, so with no newline |
| Reviews.TextOf | js/scrapers/review-scraper.js:243-252 | the cleaned text of the first selector with usable text, '' when none has; trimmed, and newline-free in the injected copy |
| Reviews.ParseAll | js/scrapers/review-scraper.js:223-266 | each element read on its own; one that throws is skipped |
| Reviews.KeyCollision | js/scrapers/review-scraper.js:257 | the key format maps two different reviews to the same key |
| Reviews.KeptIndicesMeaning | js/scrapers/review-scraper.js:257-262 | the rows are the rows of the kept elements, in increasing element order |
| Reviews.KeptIndicesComplete | js/scrapers/review-scraper.js:259-261 | every kept element is among them |
| Reviews.SeenBeforeMeaning | js/scrapers/review-scraper.js:259-260 | the seen set holds exactly the keys of the eligible elements so far |
| Reviews.SeenMonotone | js/scrapers/review-scraper.js:260 | a key once seen stays seen |
| Reviews.RowsEligible | js/scrapers/review-scraper.js:255-261 | every row has the restaurant's name, an author other than 'Anonymous', and stars or text |
| Reviews.RowsFromElements | js/scrapers/review-scraper.js:223-266 | each row is the author, stars and text of an element, in element order, at most one per element |
| Reviews.IncreasingBound | js/scrapers/review-scraper.js:223-266 | strictly increasing indices below `n` are at most `n` |
| Reviews.RowKeysDistinct | js/scrapers/review-scraper.js:257-262 | no two rows share a key |
| Reviews.FirstWithKey | js/scrapers/review-scraper.js:259 | the earliest eligible element with a key is kept |
| Reviews.FirstKeyWins | js/scrapers/review-scraper.js:257-262 | every eligible element's key is the key of a row of an element at or before it |
| Reviews.ParseElement | js/scrapers/review-scraper.js:225-252 | the body reads the author, stars and text of one element |
| Reviews.AddReview | js/scrapers/review-scraper.js:254-262 | one filtering step extends the rows and the seen set |
| Reviews.ExtractReviews | js/scrapers/review-scraper.js:216-269 | the loop returns the deduplicated rows |
| Reviews.ParsedStarsQuoteFree | js/scrapers/injection-functions.js:531 | parsed stars hold no `"` |
| Reviews.RowStarsQuoteFree | js/scrapers/injection-functions.js:552 | no row's stars hold `"` |
| Reviews.PaneMissingMessage | js/scrapers/review-scraper.js:325-334 | no review elements, else no tab clicked, else the general hint, after the common prefix |
| Reviews.LoadingCountsIncrease | js/scrapers/review-scraper.js:365-381 | the 'Loading reviews' counts are positive and strictly increase |
| Reviews.ReviewsFilename | js/scrapers/review-scraper.js:294 | the sanitised name followed by `_reviews.csv` |
| Text.Lower | js/utils.js:157 | `toLowerCase` on ASCII letters, character by character |
| Text.Trim | js/utils.js:112 | the result has no leading or trailing whitespace |
| Text.TrimPadded | js/utils.js:112 | a trimmed string between whitespace padding trims to itself |
| Text.TrimAround | js/utils.js:112 | whitespace padding does not change the trim |
| Text.TrimKeepsNonSpace | js/utils.js:112 | `trim` keeps every non-whitespace character, in order |
| Text.TrimOfTrimmed | js/utils.js:112 | trim changes nothing on a trimmed string |
| Text.TrimSlice | js/utils.js:112 | trim drops only whitespace, only at the two ends |
| Text.TrimAvoids | js/utils.js:112 | trim adds no character |
| Text.TrimIdempotent | js/utils.js:112 | trim is idempotent |
| Text.BeforeFirst | js/scrapers/restaurant-scraper.js:127 | `split(c)[0]`: the prefix up to the first `c` |
| Text.ReplaceChar | js/scrapers/restaurant-scraper.js:130 | a global one-character replace |
| Text.Filter | js/utils.js:19 | no longer than the input, only kept characters, and every kept character of the input appears |
| Text.FilterConcat | js/utils.js:19 | filtering a concatenation filters each part, in order |
| Text.FilterSingleton | js/utils.js:19 | one character is kept exactly when it passes; with `FilterConcat` this fixes the order and multiplicity of what is kept |
| Text.FilterFilter | js/utils.js:19 | filtering twice is filtering by both tests |
| Text.FilterOfKept | js/utils.js:19 | filtering a string of kept characters changes nothing |
| Text.Split | js/utils.js:28 | a split has at least one part |
| Text.SplitJoin | js/utils.js:28 | splitting a join on a separator no part contains gives the parts back |
| Utils.CollapseRuns | js/utils.js:112 | empty exactly when the input is; only single spaces where runs were; the content is fixed by `CollapseRunsAsWords` |
| Utils.CollapseRunsAsWords | js/utils.js:112 | the result is the pieces between runs, in order, joined by one space, with one more space for a run at either end |
| Utils.WordsCoverOutside | js/utils.js:112 | put back together, those pieces are exactly the characters outside the class, in order |
| Utils.WordsArePieces | js/utils.js:112 | each piece is non-empty and holds no character of the class |
| Utils.CollapseRunsOfCollapsed | js/utils.js:112 | collapsing a collapsed string changes nothing |
| Utils.CleanText | js/utils.js:110-113 | the text's whitespace-free pieces joined by single spaces ('' for ''), so trimmed with whitespace only as single spaces |
| Utils.TrimKeepsSingleSpaces | js/utils.js:112 | trimming keeps whitespace as single spaces |
| Utils.CollapseNewlinesAfterSpaces | js/utils.js:112 | the `\n+` pass after the `\s+` pass is the identity |
| Utils.CleanTextIdempotent | js/utils.js:110-113 | `cleanText` is idempotent |
| Utils.CollapseNewlines | js/scrapers/injection-functions.js:540 | the text's newline-free pieces joined by single spaces, then trimmed; no newline is left |
| Utils.SanitizeFilename | js/utils.js:18-20 | only word characters, whitespace and '-', trimmed, and its non-whitespace characters are exactly the name's word characters and '-', in order |
| Utils.SanitizeKeepsMarks | js/utils.js:18-20 | dropping and trimming keep every word character and '-' of the name, in order |
| Utils.SanitizeFilenameIdempotent | js/utils.js:18-20 | `sanitizeFilename` is idempotent |
| Utils.UndoubleDoubleQuotes | js/utils.js:26 | un-doubling `""` recovers the original |
| Utils.DoubleQuotesCount | js/utils.js:34 | doubling doubles the number of `"` |
| Utils.DoubleQuotesAvoids | js/utils.js:34 | doubling adds no character other than `"` |
| Utils.DoubleQuotesIdentity | js/utils.js:34 | a string without `"` is unchanged |
| Utils.DoubleQuotesLength | js/utils.js:34 | doubling adds one character per `"` |
| Utils.EscapeCsvCell | js/utils.js:32-35 | '' for '', twice as many `"`, and un-doubling gives the input back |
| Utils.DataCell | js/utils.js:26 | wrapped in quotes, the inside un-doubles to the cell, and '' gives `""` |
| Utils.HeaderCells | js/utils.js:24 | each header wrapped in quotes |
| Utils.DataCells | js/utils.js:26 | each cell escaped and wrapped |
| Utils.DataLines | js/utils.js:25-27 | one line per row |
| Utils.QuoteFreeLine | js/utils.js:24-26 | with no `"` a row quoted as a header equals the row quoted as data |
| Utils.DataLineLength | js/utils.js:26 | a data line is longer than the unescaped one by its number of `"` |
| Utils.QuotedLines | js/utils.js:24 | unescaped lines, one per row |
| Utils.QuoteFreeLines | js/utils.js:25-27 | with no `"`, unescaped and escaped lines agree |
| Utils.QuotedCsvAgrees | js/utils.js:23-29 | with no `"`, an unescaped CSV is `generateCSV`'s |
| Utils.GenerateCsvLines | js/utils.js:23-29 | with no newline anywhere, the CSV splits into the header line and exactly one line per row |
| Utils.FoldedOccurrence | js/utils.js:157-158 | an occurrence after lower-casing is an occurrence ignoring case |
| Utils.ContainsKeywordMeaning | js/utils.js:155-159 | true exactly when the text is non-empty, keywords are given, and some keyword occurs ignoring case |
| Utils.FindElement | js/utils.js:91-97 | none exactly when no selector matches, else the match of a selector with no earlier match |
| Utils.FindFirst | js/utils.js:92-96 | the loop returns that first match |
| Utils.FindElementFirst | js/utils.js:92-95 | the first matching selector decides the result |
| Utils.FindElementPrefix | js/utils.js:92-95 | a match among the first selectors is the overall match |
| Utils.LogAsWritten | js/utils.js:126-130 | for the levels the code passes, `log` succeeds for log, info, warn, error and debug, and throws the TypeError for 'success' |
| Utils.SuccessLevelThrows | js/utils.js:129 | `log(…, 'success')` throws |
| PageValidation.ValidateGoogleMapsPage | js/ui.js:90-100 | valid exactly for an http(s) URL on a Maps host; the scheme error comes first, then the not-Maps error |
| PageValidation.ValidateRestaurantSearchPage | js/ui.js:102-115 | valid exactly for a Maps URL that is not a place page and looks like a search; basic failures pass through unchanged |
| PageValidation.ValidateRestaurantPage | js/ui.js:117-129 | valid exactly for a Maps place URL; basic failures pass through unchanged |
| PageValidation.SearchAndPlaceExclusive | js/ui.js:107-121 | no URL is valid for both checks |
| PageValidation.ValidationErrors | js/ui.js:90-129 | every failure names one of the four messages, and the scheme message exactly for a non-web URL |
| Settings.SpeedDelay | js/config.js:34-35 | fast→600, slow→1200, anything else→800 |
| Settings.SyncedEffects | js/config.js:23-55 | each non-empty control sets its keys, the restaurant speed sets both restaurant delays alike, empty controls change nothing, and the key set is kept |
| Settings.Config.constructor | js/config.js:3-20 | the settings are the defaults |
| Settings.Config.Get | js/config.js:58-60 | a copy equal to the settings |
| Settings.Config.Set | js/config.js:63-67 | writes only a key that exists; an unknown key changes nothing; other keys are kept |
| Settings.Config.Reset | js/config.js:70-87 | back to exactly the constructor's defaults |
| Settings.Config.SyncFromUI | js/config.js:23-55 | the settings become `Synced` of the old ones |
| Settings.SnapshotUnaffectedBySet | js/config.js:58-67 | a copy taken by `get` keeps its values when `set` later changes the store |
| Settings.PopupSyncedKeys | popup.js:30-51 | `syncConfig` keeps the popup's key set and never adds REVIEW_SORT |
| Settings.PopupConfig.constructor | popup.js:13-27 | the popup defaults |
| Settings.PopupConfig.SyncConfig | popup.js:30-51 | the settings become `PopupSynced` of the old ones |

## Left out

- DOM access is not modelled. It covers `querySelector(All)`, `closest`, the TreeWalker, scrolling, `scrollHeight`, clicks, and the traversals `clickReviewsTab`/`findReviewsPane`/`findScrollableElement`/`findScrollableParent`. The page is the `Probe` oracle, and the extractors read records of per-selector candidate strings.
- Timers are not modelled: `wait`, its delays and `debounce` do not affect the logic.
- Chrome messaging, `executeScript`, Blob downloads and `window.lastCsv` are outputs only. Messages are an output sequence and a download is a value.
- The stop listener's concurrency is a polled flag: the oracle says whether a stop arrived during each await.
- Floating point: `x > MAX * 0.8` is the integer test `5·x > 4·MAX`. Progress percentages and `extractNumber`'s `parseFloat` are not modelled.
- `parseInt` of form values is a function parameter; NaN is a `Setting` value carried as is.
- `toLowerCase` folds ASCII letters only. Strings are sequences of characters with no UTF-16 surrogate handling.
- `findElements`, `getTextContent`, `getAttribute`, `extractNumber`, `formatNumber`, `isSameElement`, `getUniqueElements`, `sendChromeMessage` and `log`'s timestamp are not modelled. They are DOM, host or formatting helpers the core's logic does not branch on. `isScrollable` is the predicate `Utils.IsScrollable` with no contract of its own.
- The DOM methods of js/ui.js (progress bar, buttons, collapsibles) are not modelled; only the three validators can fail a scrape.
- js/chrome-utils.js, popup-new.js, background.js and sort-fix.js are not part of this model. They hold listener wiring, UI and lifecycle logging, and a DOM sort workaround.
- ReviewScraping.ReviewScraper.OpenScroll: it runs for at most `fuel` iterations, because the loop in js/scrapers/review-scraper.js 353 has no bound. Without `NO_CHANGE_LIMIT` it need not end; `NoSettingsNeverEnds` states that case.
- ReviewScraping.ReviewScraper.Scrape: it returns None when the fuel runs out before the loop ends. With a streak limit and large enough fuel it always returns a value.
- The class scrapers are modelled with `log` as a no-op. Their behaviour as written is `ScrapeAsWritten`, under Findings.
- Neither class scraper has a caller in these files. With the raw `{}` config that `scrapeReviewsOptimized` would pass, the class review loop has no exit on a quiet page (`NoSettingsNeverEnds`).
- InjectedRestaurants.ReviewCountSearch: models the corrected count search of Findings row 1. As written, `querySelector('span:contains("(")')` throws at js/scrapers/injection-functions.js 181 once the first three selectors give no count; that version is `Listings.ReviewCountAsWritten`.
- InjectedRestaurants.ListingRecord: records 'N/A' for a card whose first three count selectors give nothing, where the code as written throws (`Listings.RecordAsWritten`).
- InjectedRestaurants.AddListing: its step uses the corrected record, so it never throws at line 181 as the code as written does.
- InjectedRestaurants.ExtractListings: yields the corrected first-occurrence map; as written the extraction fails once such a card is reached (`Listings.ListingsAsWritten`).
- InjectedRestaurants.Scrape: composes the corrected extraction, so a card without a count among the first three selectors completes here, while the code as written rejects the promise (`Listings.CardWithoutCountRejects`).
- Listings.ReviewCountOf: is the corrected count search; the code as written is `Listings.ReviewCountAsWritten`, which agrees with it wherever it returns (`Listings.ReviewCountAsWrittenAgrees`).
- Settings.SnapshotUnaffectedBySet: settings are map values here, so `get`'s `{...this.settings}` copy and returning the live object cannot be told apart; the lemma holds for every value copy and says nothing about aliasing.
- Reviews.ParseAll: whether an element throws is an input flag of the element, since the DOM reads that could throw are not modelled.
- The injected restaurant CSV wraps cells in quotes without doubling `"` (js/scrapers/injection-functions.js 270). A name holding `"` gives a malformed line (`QuotedNameDiffers`). The model keeps this as written, since quote-free names give exactly the `generateCSV` file (`ListingsCsvAgrees`).
- The 'Target reached' progress of the capped restaurant loop reads the head count of the final iteration. Counts are oracle values, not derived from the anchors.

## Findings

| source | as written | input that shows it | evidently intended | confidence | as-written member | corrected member |
|---|---|---|---|---|---|---|
| js/scrapers/injection-functions.js:181 | the review-count selector list holds `span:contains("(")`, which is not CSS, so `querySelector` throws a SyntaxError there outside the per-card code; the same line is popup.js 453 | a listing card none of whose first three count selectors yields a count | skip the invalid selector and go on to `[data-value="Review count"]` and the text-node walk, recording 'N/A' when nothing is found | not executed | Listings.CardWithoutCountRejects | Listings.RecordOf |
| js/scrapers/restaurant-scraper.js:134 | `log` (js/utils.js 129) calls `console[level]`, and `console.success` does not exist, so `log(…, 'success')` throws a TypeError; `extractRestaurants` always calls it, and lines 90 and 107 may call it earlier, so the `catch` ends every scrape that finds a feed | any results feed | log at the console's `log` level, so the scrape goes on to the download | not executed | RestaurantScraping.ScrapeAsWrittenNeverDownloads | RestaurantScraping.RestaurantScraper.Scrape |
| js/scrapers/review-scraper.js:340 | the same `log(…, 'success')` runs once the pane is found (and at lines 87, 107 and 160 when the tab or pane is found), so the `catch` ends every scrape that finds either | any page with a Reviews tab or a reviews pane | log at the console's `log` level, so the scrape goes on to the loop and the download | not executed | ReviewScraping.ScrapeAsWrittenNeverDownloads | ReviewScraping.ReviewScraper.Scrape |
