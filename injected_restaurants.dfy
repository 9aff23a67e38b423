/**
 * `scrapeAndDownloadOptimizedInjection` (js/scrapers/injection-functions.js), copied line for line
 * as `scrapeAndDownloadOptimized` in popup.js: the capped restaurant loop, which stops at a target
 * count, after a fixed number of attempts, at the end banner, on a stop, or after a long streak once
 * most of the target is loaded; then the per-card rating and review-count searches and the
 * four-column CSV.
 */
module InjectedRestaurants {
  import opened Wrappers
  import opened Text
  import opened Utils
  import opened Harvest
  import opened Listings
  import RestaurantScraping

  const TargetPhase := "Target reached"

  /** The limits of the injected `CONFIG`, each `userConfig?.KEY || default`. */
  datatype Limits = Limits(maxRestaurants: int, maxScrollAttempts: int, maxNoChange: int)

  function CappedLimits(config: map<string, int>): (l: Limits)
    ensures "MAX_SCROLL_ATTEMPTS" !in config ==> l.maxScrollAttempts == 10
    ensures "MAX_RESTAURANTS" !in config ==> l.maxRestaurants == 500
    ensures "MAX_NO_CHANGE" !in config ==> l.maxNoChange == 3
  {
    Limits(
      SettingOr(config, "MAX_RESTAURANTS", 500),
      SettingOr(config, "MAX_SCROLL_ATTEMPTS", 10),
      SettingOr(config, "MAX_NO_CHANGE", 3))
  }

  /** `Math.max(CONFIG.MAX_NO_CHANGE * 3, 15)`. */
  function StreakThreshold(l: Limits): (t: int)
    ensures t >= 15 && t >= 3 * l.maxNoChange
    ensures t == 15 || t == 3 * l.maxNoChange
  {
    if 3 * l.maxNoChange > 15 then 3 * l.maxNoChange else 15
  }

  /** `count > MAX_RESTAURANTS * 0.8`, in integers. */
  predicate MostlyLoaded(count: int, max: int) {
    5 * count > 4 * max
  }

  /**
   * Whether tick `k` ends the loop, for a loop that reached it, in the order the source tests: the
   * head test (attempts used up, or a stop), the target, a stop during the scroll wait, a long
   * streak once most of the target is there, the end banner.
   */
  function CappedExit(p: Page, l: Limits, k: nat): Option<Exit> {
    var init := p.initialMeasure;
    var probe := At(p, k);
    if k >= l.maxScrollAttempts then Some(Exit(AttemptLimit, false))
    else if StopAtHead(p, init, false, k) then Some(Exit(StoppedByUser, false))
    else if probe.headCount >= l.maxRestaurants then Some(Exit(TargetReached, false))
    else if probe.stopWhileScrolling then Some(Exit(StoppedByUser, true))
    else if !GrewAt(p, init, k) && StreakAt(p, init, k) + 1 >= StreakThreshold(l) && MostlyLoaded(probe.headCount, l.maxRestaurants) then
      Some(Exit(NoChangeLimit, true))
    else if probe.banner then Some(Exit(EndBanner, true))
    else None
  }

  /** `run` is how the capped loop ends on `p`: the first tick whose exit rule fires, and the state then. */
  predicate CappedRun(p: Page, l: Limits, run: Run) {
    var init := p.initialMeasure;
    var n := Measured(run.exit, run.exitTick);
    && (forall j | 0 <= j < run.exitTick :: CappedExit(p, l, j).None?)
    && CappedExit(p, l, run.exitTick) == Some(run.exit)
    && run.attempts == run.exitTick + (if AtHead(run.exit) then 0 else 1)
    && run.last == RecordAt(p, init, n)
    && run.noChange == StreakAt(p, init, n)
    && run.stopped == FinalStop(p, init, false, run.exitTick, run.exit)
  }

  /** The 'Loading restaurants' report after a growth: the count read at the top of that tick. */
  function HeadReport(probe: Probe): Message {
    RestaurantProgress(RestaurantScraping.LoadingPhase, probe.headCount)
  }

  /** The progress the capped loop sends: the start, one report per growth, and the target report. */
  function CappedMessages(p: Page, run: Run): seq<Message> {
    [RestaurantProgress(RestaurantScraping.ScrollingPhase, 0)]
      + GrowthReports(p, p.initialMeasure, Measured(run.exit, run.exitTick), HeadReport)
      + (if run.exit.reason == TargetReached then [RestaurantProgress(TargetPhase, At(p, run.exitTick).headCount)] else [])
  }

  /** What the exit rule promises about each way out. */
  lemma CappedExitMeaning(p: Page, l: Limits, k: nat)
    requires CappedExit(p, l, k).Some?
    ensures var e := CappedExit(p, l, k).value;
      && (e.reason == AttemptLimit <==> k >= l.maxScrollAttempts)
      && (e.reason == TargetReached ==> At(p, k).headCount >= l.maxRestaurants && !e.scrolled)
      && (e.reason == NoChangeLimit ==>
            StreakAt(p, p.initialMeasure, k + 1) >= StreakThreshold(l) && MostlyLoaded(At(p, k).headCount, l.maxRestaurants))
      && (e.reason == EndBanner ==> At(p, k).banner && e.scrolled)
      && (e.reason == StoppedByUser ==> StopAtHead(p, p.initialMeasure, false, k) || At(p, k).stopWhileScrolling)
  {
  }

  /** A loop that reaches the top of a tick with the target count there ends at once, without scrolling. */
  lemma TargetPrecedesScroll(p: Page, l: Limits, k: nat)
    requires k < l.maxScrollAttempts && !StopAtHead(p, p.initialMeasure, false, k)
    requires At(p, k).headCount >= l.maxRestaurants
    ensures CappedExit(p, l, k) == Some(Exit(TargetReached, false))
  {
  }

  /** The end banner ends the loop whatever the streak, unless the tick ended it earlier. */
  lemma BannerEnds(p: Page, l: Limits, k: nat)
    requires At(p, k).banner
    ensures CappedExit(p, l, k).Some?
  {
  }

  /**
   * `scrollAttempts` never passes `MAX_SCROLL_ATTEMPTS`, and a long streak alone does not end the
   * loop while too little is loaded.
   */
  lemma StreakNeedsMostOfTarget(p: Page, l: Limits, k: nat)
    requires CappedExit(p, l, k) == Some(Exit(NoChangeLimit, true))
    ensures 5 * At(p, k).headCount > 4 * l.maxRestaurants
    ensures k + 1 <= l.maxScrollAttempts
  {
  }

  /**
   * The scroll loop of the injected restaurant scraper: it ends at the first tick whose exit rule
   * fires, with the record and the streak after the measured ticks, and sends the start report, one
   * report per growth and, at the target, the target report; it runs at most `MAX_SCROLL_ATTEMPTS`
   * ticks.
   */
  method CappedScroll(page: Page, limits: Limits) returns (run: Run, messages: seq<Message>)
    ensures CappedRun(page, limits, run)
    ensures messages == CappedMessages(page, run)
    ensures run.exitTick <= (if limits.maxScrollAttempts > 0 then limits.maxScrollAttempts else 0)
  {
    var init := page.initialMeasure;
    var lastHeight := init;
    var noChangeCount: nat := 0;
    var scrollAttempts: nat := 0;
    var shouldStop := false;
    messages := [RestaurantProgress(RestaurantScraping.ScrollingPhase, 0)];
    var exit := Exit(AttemptLimit, false);
    var k: nat := 0;
    while true
      invariant scrollAttempts == k
      invariant lastHeight == RecordAt(page, init, k)
      invariant noChangeCount == StreakAt(page, init, k)
      invariant shouldStop == StopAtHead(page, init, false, k)
      invariant forall j | 0 <= j < k :: CappedExit(page, limits, j).None?
      invariant messages == [RestaurantProgress(RestaurantScraping.ScrollingPhase, 0)] + GrowthReports(page, init, k, HeadReport)
      invariant k <= (if limits.maxScrollAttempts > 0 then limits.maxScrollAttempts else 0)
      decreases limits.maxScrollAttempts - k
    {
      if !(scrollAttempts < limits.maxScrollAttempts && !shouldStop) {
        exit := if scrollAttempts >= limits.maxScrollAttempts then Exit(AttemptLimit, false) else Exit(StoppedByUser, false);
        break;
      }
      scrollAttempts := scrollAttempts + 1;
      var probe := At(page, k);
      var currentRestaurants := probe.headCount;
      if currentRestaurants >= limits.maxRestaurants {
        messages := messages + [RestaurantProgress(TargetPhase, currentRestaurants)];
        exit := Exit(TargetReached, false);
        break;
      }
      if probe.stopWhileScrolling {
        shouldStop := true;
        exit := Exit(StoppedByUser, true);
        break;
      }
      var newHeight := probe.measure;
      if newHeight > lastHeight {
        lastHeight := newHeight;
        noChangeCount := 0;
        messages := messages + [HeadReport(probe)];
        shouldStop := probe.stopWhileSettling;
      } else {
        noChangeCount := noChangeCount + 1;
        if noChangeCount >= StreakThreshold(limits) && MostlyLoaded(currentRestaurants, limits.maxRestaurants) {
          exit := Exit(NoChangeLimit, true);
          break;
        }
      }
      if probe.banner {
        exit := Exit(EndBanner, true);
        break;
      }
      k := k + 1;
    }
    run := Run(k, exit, scrollAttempts, lastHeight, noChangeCount, shouldStop);
  }

  /** The star-rating loop: the number from the first rating selector that yields one, else ''. */
  method StarRatingSearch(card: Option<Card>) returns (starRating: string)
    ensures starRating == StarRatingOf(card).GetOr("")
  {
    starRating := "";
    if card.Some? {
      var rating := FindFirst(card.value.starElements, RatingOf);
      starRating := rating.GetOr("");
    }
  }

  /**
   * The review-count loops: the count from the first review-count selector that yields one, else
   * the first trimmed text node of the card holding a parenthesised number, else ''.
   */
  method ReviewCountSearch(card: Option<Card>) returns (reviewCount: string)
    ensures reviewCount == ReviewCountOf(card).GetOr("")
  {
    reviewCount := "";
    if card.Some? {
      var count := FindFirst(card.value.countElements, CountOf);
      reviewCount := count.GetOr("");
      if reviewCount == "" {
        var nodeCount := FindFirst(card.value.textNodes, NodeCountOf);
        reviewCount := nodeCount.GetOr("");
      }
    }
  }

  /** The record the extraction stores for a new url: the name with commas replaced, and 'N/A' for what was not found. */
  method ListingRecord(anchor: Anchor) returns (record: Listing)
    ensures record == RecordOf(anchor)
  {
    var starRating := StarRatingSearch(anchor.card);
    var reviewCount := ReviewCountSearch(anchor.card);
    record := Listing(
      CleanName(NameOf(anchor)),
      if starRating == "" then "N/A" else starRating,
      if reviewCount == "" then "N/A" else reviewCount);
  }

  /**
   * The extraction loop: the anchors' map of records by url, first occurrence winning, each with
   * its comma-free name and 'N/A' for a rating or count not found.
   */
  method ExtractListings(anchors: seq<Anchor>) returns (restaurants: seq<Entry<Listing>>)
    ensures restaurants == Listed(anchors, RecordOf)
  {
    restaurants := [];
    var keys: set<string> := {};
    for i := 0 to |anchors|
      invariant restaurants == Listed(anchors[..i], RecordOf)
      invariant keys == Urls(restaurants)
    {
      restaurants, keys := AddListing(anchors, i, restaurants, keys);
    }
    assert anchors[..|anchors|] == anchors;
  }

  /** One turn of the extraction loop: a named anchor with a new url adds its record, any other anchor nothing. */
  method AddListing(anchors: seq<Anchor>, i: nat, restaurants: seq<Entry<Listing>>, keys: set<string>)
    returns (restaurants': seq<Entry<Listing>>, keys': set<string>)
    requires i < |anchors| && keys == Urls(restaurants)
    ensures restaurants == Listed(anchors[..i], RecordOf) ==> restaurants' == Listed(anchors[..i + 1], RecordOf)
    ensures keys' == Urls(restaurants')
  {
    var anchor := anchors[i];
    var url := UrlOf(anchor);
    var name := NameOf(anchor);
    ListedIndexStep(anchors, i, RecordOf);
    restaurants', keys' := restaurants, keys;
    if name != "" && url != "" && url !in keys {
      var record := ListingRecord(anchor);
      UrlsAppend(restaurants, Entry(url, record));
      restaurants' := restaurants + [Entry(url, record)];
      keys' := keys + {url};
    }
  }

  const CsvHeader := ["Name", "Star Rating", "Number of Reviews", "Link"]

  /** The row of one entry: name, rating, count and link. */
  function ListingRow(e: Entry<Listing>): seq<string> {
    [e.value.name, e.value.starRating, e.value.reviewCount, e.url]
  }

  function ListingRows(entries: seq<Entry<Listing>>): (rows: seq<seq<string>>)
    ensures |rows| == |entries|
    ensures forall i | 0 <= i < |entries| :: rows[i] == ListingRow(entries[i])
  {
    if entries == [] then [] else [ListingRow(entries[0])] + ListingRows(entries[1..])
  }

  /** The injected CSV: every cell wrapped in quotes as it is, with no quote doubling. */
  function ListingsCsv(entries: seq<Entry<Listing>>): string {
    QuotedCsv(CsvHeader, ListingRows(entries))
  }

  /** None of the entry's four fields holds a `"`. */
  predicate FieldsQuoteFree(e: Entry<Listing>) {
    '"' !in e.value.name && '"' !in e.value.starRating && '"' !in e.value.reviewCount && '"' !in e.url
  }

  /** A row is quote-free when the entry's four fields are. */
  lemma RowQuoteFree(e: Entry<Listing>)
    requires FieldsQuoteFree(e)
    ensures forall j | 0 <= j < |ListingRow(e)| :: '"' !in ListingRow(e)[j]
  {
    var row := ListingRow(e);
    assert forall j | 0 <= j < 4 :: row[j] == e.value.name || row[j] == e.value.starRating || row[j] == e.value.reviewCount || row[j] == e.url;
  }

  /** With no `"` in any field, the injected CSV is exactly what `generateCSV` would write. */
  lemma ListingsCsvAgrees(entries: seq<Entry<Listing>>)
    requires forall i | 0 <= i < |entries| :: FieldsQuoteFree(entries[i])
    ensures ListingsCsv(entries) == GenerateCsv(CsvHeader, ListingRows(entries))
  {
    QuoteFreeCsv(entries, CsvHeader);
  }

  /** The same under any header line. */
  lemma QuoteFreeCsv(entries: seq<Entry<Listing>>, headers: seq<string>)
    requires forall i | 0 <= i < |entries| :: FieldsQuoteFree(entries[i])
    ensures QuotedCsv(headers, ListingRows(entries)) == GenerateCsv(headers, ListingRows(entries))
  {
    RowsQuoteFree(entries);
    QuotedCsvAgrees(headers, ListingRows(entries));
  }

  /** Every cell of every row is quote-free when the entries' fields are. */
  lemma RowsQuoteFree(entries: seq<Entry<Listing>>)
    requires forall i | 0 <= i < |entries| :: FieldsQuoteFree(entries[i])
    ensures forall i, j | 0 <= i < |ListingRows(entries)| && 0 <= j < |ListingRows(entries)[i]| :: '"' !in ListingRows(entries)[i][j]
  {
    var rows := ListingRows(entries);
    forall i | 0 <= i < |rows|
      ensures forall j | 0 <= j < |rows[i]| :: '"' !in rows[i][j]
    {
      RowQuoteFree(entries[i]);
    }
  }

  /** The entry of a listing named `a"b`. */
  const QuotedEntry := Entry("u", Listing("a\"b", "N/A", "N/A"))

  /** Its row holds one `"`, so the unescaped line is one character shorter. */
  lemma QuotedRowShorter()
    ensures |HeaderLine(ListingRow(QuotedEntry))| + 1 == |DataLine(ListingRow(QuotedEntry))|
  {
    var row := ListingRow(QuotedEntry);
    DataLineLength(row);
    QuotedRowTotal();
  }

  /** The quotes in that row's cells: the one in its name. */
  lemma QuotedRowTotal()
    ensures QuoteTotal(ListingRow(QuotedEntry)) == 1
  {
    var row := ListingRow(QuotedEntry);
    assert row == ["a\"b", "N/A", "N/A", "u"];
    assert Count("a\"b", '"') == 1 by {
      assert "a\"b"[1..] == "\"b" && "\"b"[1..] == "b" && "b"[1..] == "";
    }
    assert Count("N/A", '"') == 0 by {
      assert "N/A"[1..] == "/A" && "/A"[1..] == "A" && "A"[1..] == "";
    }
    assert Count("u", '"') == 0 by {
      assert "u"[1..] == "";
    }
    assert row[1..] == ["N/A", "N/A", "u"] && row[1..][1..] == ["N/A", "u"] && row[1..][1..][1..] == ["u"];
    assert row[1..][1..][1..][1..] == [];
  }

  /** A CSV of a header line and one row line. */
  lemma OneRowCsv(h: string, line: string)
    ensures Join([h] + [line], "\n") == h + "\n" + line
  {
    assert ([h] + [line])[1..] == [line];
  }

  /**
   * A `"` in a name is written unescaped, so the injected CSV then differs from `generateCSV`'s:
   * `a"b` becomes the cell `"a"b"` instead of `"a""b"`.
   */
  lemma QuotedNameDiffers()
    ensures ListingsCsv([QuotedEntry]) != GenerateCsv(CsvHeader, ListingRows([QuotedEntry]))
  {
    var rows := ListingRows([QuotedEntry]);
    var row := ListingRow(QuotedEntry);
    assert rows == [row];
    assert QuotedLines(rows) == [HeaderLine(row)];
    assert DataLines(rows) == [DataLine(row)];
    OneRowCsv(HeaderLine(CsvHeader), HeaderLine(row));
    OneRowCsv(HeaderLine(CsvHeader), DataLine(row));
    QuotedRowShorter();
  }

  /** 'N/A' and numerals hold no `"`. */
  lemma FieldQuoteFree(field: string)
    requires field == "N/A" || (forall j | 0 <= j < |field| :: IsDigit(field[j]) || field[j] == '.')
    ensures '"' !in field
  {
    if field != "N/A" {
      assert forall j | 0 <= j < |field| :: field[j] != '"';
    }
  }

  /** A listing's rating and count never hold a `"`: they are 'N/A' or made of digits and '.'. */
  lemma RecordQuoteFree(a: Anchor)
    ensures '"' !in RecordOf(a).starRating && '"' !in RecordOf(a).reviewCount
  {
    var r := RecordOf(a);
    FieldQuoteFree(r.starRating);
    assert r.reviewCount != "N/A" ==> AllDigits(r.reviewCount);
    FieldQuoteFree(r.reviewCount);
  }

  /**
   * What the injected scrape does once the loop is over: a stop reports the map size and downloads
   * nothing, an empty map is an error with no return value, and otherwise the CSV is downloaded and
   * completion reported.
   */
  function CappedFinish(loopMessages: seq<Message>, stopped: bool, entries: seq<Entry<Listing>>): (o: Outcome)
    ensures o.download.Some? <==> !stopped && |entries| > 0
    ensures o.download.Some? ==> o.download.value == Download("restaurants.csv", ListingsCsv(entries))
    ensures o.result == (if !stopped && |entries| == 0 then None else Some(|entries|))
    ensures stopped ==> o.messages == loopMessages + [ScrapingStopped(|entries|)]
    ensures !stopped && |entries| == 0 ==> o.messages == loopMessages + [RestaurantError(RestaurantScraping.NoRestaurantsError)]
    ensures !stopped && |entries| > 0 ==> o.messages == loopMessages + [RestaurantComplete(|entries|)]
  {
    if stopped then Outcome(Some(|entries|), loopMessages + [ScrapingStopped(|entries|)], None)
    else if |entries| == 0 then Outcome(None, loopMessages + [RestaurantError(RestaurantScraping.NoRestaurantsError)], None)
    else Outcome(Some(|entries|), loopMessages + [RestaurantComplete(|entries|)], Some(Download("restaurants.csv", ListingsCsv(entries))))
  }

  /**
   * The injected restaurant scrape: no feed is an error with no return value; otherwise the loop,
   * the extraction (which runs after a stop too) and `CappedFinish`.
   */
  method Scrape(feed: Option<RestaurantScraping.Feed>, config: map<string, int>) returns (outcome: Outcome)
    ensures feed.None? ==> outcome == Outcome(None, [RestaurantError(RestaurantScraping.PaneMissingError)], None)
    ensures feed.Some? ==> exists run: Run ::
      && CappedRun(feed.value.page, CappedLimits(config), run)
      && outcome == CappedFinish(CappedMessages(feed.value.page, run), run.stopped, Listed(feed.value.anchors, RecordOf))
  {
    if feed.None? {
      return Outcome(None, [RestaurantError(RestaurantScraping.PaneMissingError)], None);
    }
    var run, messages := CappedScroll(feed.value.page, CappedLimits(config));
    var restaurants := ExtractListings(feed.value.anchors);
    outcome := CappedFinish(messages, run.stopped, restaurants);
  }

}
