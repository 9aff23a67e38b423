/**
 * `scrapeReviewsOptimizedInjection` (js/scrapers/injection-functions.js), copied as
 * `scrapeReviewsOptimized` in popup.js: the 100-step review loop, which checks the target before
 * scrolling and ends on a long streak only once most of the target is loaded; then the
 * extraction with newline-collapsed texts and `generateReviewCSV`, which leaves the stars cell
 * unescaped.
 */
module InjectedReviews {
  import opened Wrappers
  import opened Text
  import opened Utils
  import opened Harvest
  import opened Reviews

  /** `totalScrolls < 100`. */
  const MaxScrolls := 100

  /** The limits of the injected `CONFIG`, each `userConfig?.KEY || default`. */
  datatype ReviewLimits = ReviewLimits(maxReviews: int, noChangeLimit: int)

  function InjectedLimits(config: map<string, int>): (l: ReviewLimits)
    ensures "MAX_REVIEWS" !in config ==> l.maxReviews == 2000
    ensures "NO_CHANGE_LIMIT" !in config ==> l.noChangeLimit == 15
  {
    ReviewLimits(SettingOr(config, "MAX_REVIEWS", 2000), SettingOr(config, "NO_CHANGE_LIMIT", 15))
  }

  /** `Math.max(CONFIG.NO_CHANGE_LIMIT * 2, 20)`. */
  function StreakThreshold(l: ReviewLimits): (t: int)
    ensures t >= 20 && t >= 2 * l.noChangeLimit
    ensures t == 20 || t == 2 * l.noChangeLimit
  {
    if 2 * l.noChangeLimit > 20 then 2 * l.noChangeLimit else 20
  }

  /**
   * Whether tick `k` ends the loop, for a loop that reached it, in the order the source tests: the
   * head test (100 scrolls, or a stop), the target on the count at the top of the tick, a stop
   * during the scroll wait, and a long streak once the count after the scroll is above 80% of the
   * target. `lastReviewCount` starts at 0.
   */
  function BoundedExit(p: Page, l: ReviewLimits, stop0: bool, k: nat): Option<Exit> {
    var probe := At(p, k);
    if k >= MaxScrolls then Some(Exit(AttemptLimit, false))
    else if StopAtHead(p, 0, stop0, k) then Some(Exit(StoppedByUser, false))
    else if probe.headCount >= l.maxReviews then Some(Exit(TargetReached, false))
    else if probe.stopWhileScrolling then Some(Exit(StoppedByUser, true))
    else if !GrewAt(p, 0, k) && StreakAt(p, 0, k) + 1 >= StreakThreshold(l) && 5 * probe.measure > 4 * l.maxReviews then
      Some(Exit(NoChangeLimit, true))
    else None
  }

  /** `run` is how the 100-step loop ends on `p`: the first tick whose exit rule fires, and the state then. */
  predicate BoundedRun(p: Page, l: ReviewLimits, stop0: bool, run: Run) {
    var n := Measured(run.exit, run.exitTick);
    && (forall j | 0 <= j < run.exitTick :: BoundedExit(p, l, stop0, j).None?)
    && BoundedExit(p, l, stop0, run.exitTick) == Some(run.exit)
    && run.attempts == run.exitTick + (if AtHead(run.exit) then 0 else 1)
    && run.last == RecordAt(p, 0, n)
    && run.noChange == StreakAt(p, 0, n)
    && run.stopped == FinalStop(p, 0, stop0, run.exitTick, run.exit)
  }

  /** The progress the loop sends: the start, then one 'Loading reviews' report per growth. */
  function BoundedMessages(p: Page, l: ReviewLimits, run: Run): seq<Message> {
    [ScrapingProgress(0, Some(l.maxReviews), ScrollingPhase)]
      + GrowthReports(p, 0, Measured(run.exit, run.exitTick), LoadingReport(Some(l.maxReviews)))
  }

  /** What the exit rule promises about each way out. */
  lemma BoundedExitMeaning(p: Page, l: ReviewLimits, stop0: bool, k: nat)
    requires BoundedExit(p, l, stop0, k).Some?
    ensures var e := BoundedExit(p, l, stop0, k).value;
      && (e.reason == AttemptLimit <==> k >= MaxScrolls)
      && (e.reason == TargetReached ==> At(p, k).headCount >= l.maxReviews && !e.scrolled)
      && (e.reason == NoChangeLimit ==> StreakAt(p, 0, k + 1) >= StreakThreshold(l) && 5 * At(p, k).measure > 4 * l.maxReviews)
      && (e.reason == StoppedByUser ==> StopAtHead(p, 0, stop0, k) || At(p, k).stopWhileScrolling)
      && e.reason != EndBanner
  {
  }

  /** A loop that reaches the top of a tick with the target count there ends at once, without scrolling. */
  lemma TargetPrecedesScroll(p: Page, l: ReviewLimits, stop0: bool, k: nat)
    requires k < MaxScrolls && !StopAtHead(p, 0, stop0, k)
    requires At(p, k).headCount >= l.maxReviews
    ensures BoundedExit(p, l, stop0, k) == Some(Exit(TargetReached, false))
  {
  }

  /** A long streak alone does not end the loop while 80% of the target or less is loaded. */
  lemma StreakNeedsMostOfTarget(p: Page, l: ReviewLimits, stop0: bool, k: nat)
    requires 5 * At(p, k).measure <= 4 * l.maxReviews
    ensures BoundedExit(p, l, stop0, k) != Some(Exit(NoChangeLimit, true))
  {
  }

  /**
   * The scroll loop of the injected review scraper: it ends at the first tick whose exit rule
   * fires, with the record and the streak after the measured ticks, and sends the start report and
   * one report per growth; it runs at most 100 ticks.
   */
  method BoundedScroll(page: Page, limits: ReviewLimits, stop0: bool) returns (run: Run, messages: seq<Message>)
    ensures BoundedRun(page, limits, stop0, run)
    ensures messages == BoundedMessages(page, limits, run)
    ensures run.exitTick <= MaxScrolls
  {
    var lastReviewCount := 0;
    var noChangeCount: nat := 0;
    var totalScrolls: nat := 0;
    var shouldStop := stop0;
    messages := [ScrapingProgress(0, Some(limits.maxReviews), ScrollingPhase)];
    var exit := Exit(AttemptLimit, false);
    var k: nat := 0;
    while true
      invariant totalScrolls == k <= MaxScrolls
      invariant lastReviewCount == RecordAt(page, 0, k)
      invariant noChangeCount == StreakAt(page, 0, k)
      invariant shouldStop == StopAtHead(page, 0, stop0, k)
      invariant forall j | 0 <= j < k :: BoundedExit(page, limits, stop0, j).None?
      invariant messages == [ScrapingProgress(0, Some(limits.maxReviews), ScrollingPhase)] + GrowthReports(page, 0, k, LoadingReport(Some(limits.maxReviews)))
      decreases MaxScrolls - k
    {
      if !(totalScrolls < MaxScrolls && !shouldStop) {
        exit := if totalScrolls >= MaxScrolls then Exit(AttemptLimit, false) else Exit(StoppedByUser, false);
        break;
      }
      totalScrolls := totalScrolls + 1;
      var probe := At(page, k);
      var currentReviewCount := probe.headCount;
      if currentReviewCount >= limits.maxReviews {
        exit := Exit(TargetReached, false);
        break;
      }
      if probe.stopWhileScrolling {
        shouldStop := true;
        exit := Exit(StoppedByUser, true);
        break;
      }
      var newReviewCount := probe.measure;
      if newReviewCount > lastReviewCount {
        lastReviewCount := newReviewCount;
        noChangeCount := 0;
        messages := messages + [LoadingReport(Some(limits.maxReviews))(probe)];
        shouldStop := probe.stopWhileSettling;
      } else {
        noChangeCount := noChangeCount + 1;
        if noChangeCount >= StreakThreshold(limits) && 5 * newReviewCount > 4 * limits.maxReviews {
          exit := Exit(NoChangeLimit, true);
          break;
        }
      }
      k := k + 1;
    }
    run := Run(k, exit, totalScrolls, lastReviewCount, noChangeCount, shouldStop);
  }

  /** Cell `i` of a row; the extracted rows always have four cells. */
  function Cell(row: seq<string>, i: nat): string {
    if i < |row| then row[i] else ""
  }

  /** One `generateReviewCSV` line: restaurant, author and text with quotes doubled, stars as they are. */
  function ReviewLine(row: seq<string>): string {
    Join([DataCell(Cell(row, 0)), DataCell(Cell(row, 1)), HeaderCell(Cell(row, 2)), DataCell(Cell(row, 3))], ",")
  }

  function ReviewLines(rows: seq<seq<string>>): (lines: seq<string>)
    ensures |lines| == |rows|
    ensures forall i | 0 <= i < |rows| :: lines[i] == ReviewLine(rows[i])
  {
    if rows == [] then [] else [ReviewLine(rows[0])] + ReviewLines(rows[1..])
  }

  /** `generateReviewCSV`: the quoted header, then one line per review, joined by '\n'. */
  function ReviewCsv(rows: seq<seq<string>>): string {
    Join([HeaderLine(ReviewHeader)] + ReviewLines(rows), "\n")
  }

  /** With no `"` in the stars, a review line is the line `generateCSV` writes. */
  lemma ReviewLineAgrees(row: seq<string>)
    requires |row| == 4 && '"' !in row[2]
    ensures ReviewLine(row) == DataLine(row)
  {
    DoubleQuotesIdentity(row[2]);
    assert DataCells(row) == [DataCell(row[0]), DataCell(row[1]), DataCell(row[2]), DataCell(row[3])];
  }

  /** With no `"` in any stars cell, `generateReviewCSV` writes exactly what `generateCSV` would. */
  lemma ReviewCsvAgrees(rows: seq<seq<string>>)
    requires forall i | 0 <= i < |rows| :: |rows[i]| == 4 && '"' !in rows[i][2]
    ensures ReviewCsv(rows) == GenerateCsv(ReviewHeader, rows)
  {
    forall i | 0 <= i < |rows|
      ensures ReviewLines(rows)[i] == DataLines(rows)[i]
    {
      ReviewLineAgrees(rows[i]);
    }
    assert ReviewLines(rows) == DataLines(rows);
  }

  /** Extracted stars are '' or numerals, so the extracted reviews' CSV is `generateCSV`'s. */
  lemma ExtractedCsvAgrees(name: string, elements: seq<ReviewElement>)
    ensures forall i | 0 <= i < |ReviewRows(name, NewlinesCollapsed, elements)| :: |ReviewRows(name, NewlinesCollapsed, elements)[i]| == 4
    ensures ReviewCsv(ReviewRows(name, NewlinesCollapsed, elements)) == GenerateCsv(ReviewHeader, ReviewRows(name, NewlinesCollapsed, elements))
  {
    RowStarsQuoteFree(name, NewlinesCollapsed, elements);
    ReviewCsvAgrees(ReviewRows(name, NewlinesCollapsed, elements));
  }

  /**
   * What the injected scrape does once the loop is over: the 'Processing reviews' report, then a
   * stop reports `lastReviewCount` and returns it without extracting, no review completes with 0
   * and no return value, and otherwise the CSV is downloaded and completion reported.
   */
  function InjectedFinish(loopMessages: seq<Message>, l: ReviewLimits, stopped: bool, last: int, name: string, rows: seq<seq<string>>): (o: Outcome)
    ensures var processing := loopMessages + [ScrapingProgress(last, Some(l.maxReviews), ProcessingPhase)];
      && (stopped ==> o == Outcome(Some(last), processing + [ScrapingStopped(last)], None))
      && (!stopped && |rows| == 0 ==> o == Outcome(None, processing + [ScrapingComplete(0)], None))
      && (!stopped && |rows| > 0 ==>
            o == Outcome(Some(|rows|), processing + [ScrapingComplete(|rows|)], Some(Download(ReviewsFilename(name), ReviewCsv(rows)))))
  {
    var processing := loopMessages + [ScrapingProgress(last, Some(l.maxReviews), ProcessingPhase)];
    if stopped then Outcome(Some(last), processing + [ScrapingStopped(last)], None)
    else if |rows| == 0 then Outcome(None, processing + [ScrapingComplete(0)], None)
    else Outcome(Some(|rows|), processing + [ScrapingComplete(|rows|)], Some(Download(ReviewsFilename(name), ReviewCsv(rows))))
  }

  /**
   * The injected review scrape: no pane is an error with no return value and no scrolling;
   * otherwise the loop, then `InjectedFinish` with the rows extracted when no stop arrived.
   */
  method Scrape(site: ReviewSite, config: map<string, int>) returns (outcome: Outcome)
    ensures site.pane.None? ==> outcome == Outcome(None, [ReviewError(PaneMissingMessage(site.hasReviewElements, site.tabFound))], None)
    ensures site.pane.Some? ==>
      var pane := site.pane.value;
      var l := InjectedLimits(config);
      var name := RestaurantName(site.headers);
      exists run: Run ::
        && BoundedRun(pane.page, l, StopBeforeLoop(site), run)
        && outcome == InjectedFinish(BoundedMessages(pane.page, l, run), l, run.stopped, run.last, name, ReviewRows(name, NewlinesCollapsed, pane.elements))
  {
    var restaurantName := GetRestaurantName(site.headers);
    if site.pane.None? {
      return Outcome(None, [ReviewError(PaneMissingMessage(site.hasReviewElements, site.tabFound))], None);
    }
    var pane := site.pane.value;
    var limits := InjectedLimits(config);
    var run, messages := BoundedScroll(pane.page, limits, StopBeforeLoop(site));
    ghost var rows := ReviewRows(restaurantName, NewlinesCollapsed, pane.elements);
    if run.stopped {
      outcome := InjectedFinish(messages, limits, true, run.last, restaurantName, []);
      assert outcome == InjectedFinish(messages, limits, true, run.last, restaurantName, rows);
      return;
    }
    var reviews := ExtractReviews(restaurantName, NewlinesCollapsed, pane.elements);
    outcome := InjectedFinish(messages, limits, false, run.last, restaurantName, reviews);
  }
}
