/**
 * `ReviewScraper` (js/scrapers/review-scraper.js): the unbounded review loop, which scrolls first
 * and then ends on the target count or on `NO_CHANGE_LIMIT` quiet ticks in a row, both read from
 * the configuration as given, with no defaults; then the extraction with `cleanText`-ed texts and
 * the `generateCSV` download.
 */
module ReviewScraping {
  import opened Wrappers
  import opened Utils
  import opened Harvest
  import opened Reviews

  const ScrapingFailed := "Scraping failed: "

  /** `this.config.KEY`: the entry as given, None when the key is absent. */
  function Setting(config: map<string, int>, key: string): (v: Option<int>)
    ensures v.Some? <==> key in config
    ensures v.Some? ==> v.value == config[key]
  {
    if key in config then Some(config[key]) else None
  }

  /**
   * Whether tick `k` ends the loop, for a loop that reached it: the head test (a stop), a stop
   * during the scroll wait, then, after the count, the target and the streak, each only when its
   * setting is present (a comparison with `undefined` is false). `lastReviewCount` starts at 0.
   */
  function OpenExit(p: Page, stop0: bool, maxReviews: Option<int>, noChangeLimit: Option<int>, k: nat): Option<Exit> {
    if StopAtHead(p, 0, stop0, k) then Some(Exit(StoppedByUser, false))
    else if At(p, k).stopWhileScrolling then Some(Exit(StoppedByUser, true))
    else if maxReviews.Some? && At(p, k).measure >= maxReviews.value then Some(Exit(TargetReached, true))
    else if noChangeLimit.Some? && StreakAt(p, 0, k + 1) >= noChangeLimit.value then Some(Exit(NoChangeLimit, true))
    else None
  }

  /** `run` is how the loop ends on `p`: the first tick whose exit rule fires, and the state then. */
  predicate OpenRun(p: Page, stop0: bool, maxReviews: Option<int>, noChangeLimit: Option<int>, run: Run) {
    var n := Measured(run.exit, run.exitTick);
    && (forall j | 0 <= j < run.exitTick :: OpenExit(p, stop0, maxReviews, noChangeLimit, j).None?)
    && OpenExit(p, stop0, maxReviews, noChangeLimit, run.exitTick) == Some(run.exit)
    && run.attempts == run.exitTick + (if AtHead(run.exit) then 0 else 1)
    && run.last == RecordAt(p, 0, n)
    && run.noChange == StreakAt(p, 0, n)
    && run.stopped == FinalStop(p, 0, stop0, run.exitTick, run.exit)
  }

  /** The progress the loop sends: the start, then one 'Loading reviews' report per growth. */
  function OpenMessages(p: Page, maxReviews: Option<int>, n: nat): seq<Message> {
    [ScrapingProgress(0, maxReviews, ScrollingPhase)] + GrowthReports(p, 0, n, LoadingReport(maxReviews))
  }

  /** What the exit rule promises: the target is checked on the count after the scroll, and neither test runs without its setting. */
  lemma OpenExitMeaning(p: Page, stop0: bool, maxReviews: Option<int>, noChangeLimit: Option<int>, k: nat)
    requires OpenExit(p, stop0, maxReviews, noChangeLimit, k).Some?
    ensures var e := OpenExit(p, stop0, maxReviews, noChangeLimit, k).value;
      && (e.reason == TargetReached ==> maxReviews.Some? && At(p, k).measure >= maxReviews.value && e.scrolled)
      && (e.reason == NoChangeLimit ==> noChangeLimit.Some? && StreakAt(p, 0, k + 1) >= noChangeLimit.value && e.scrolled)
      && (e.reason == StoppedByUser ==> StopAtHead(p, 0, stop0, k) || At(p, k).stopWhileScrolling)
      && e.reason != EndBanner && e.reason != AttemptLimit
  {
  }

  /** The tick bound the streak forces: with a limit `L`, the loop has ended by tick `|probes| + max(L, 0)`. */
  function StreakBound(p: Page, limit: int): nat {
    |p.probes| + (if limit > 0 then limit else 0)
  }

  /** With a streak limit, the exit rule fires at the bound tick if not before. */
  lemma LimitEnds(p: Page, stop0: bool, maxReviews: Option<int>, limit: int)
    ensures OpenExit(p, stop0, maxReviews, Some(limit), StreakBound(p, limit)).Some?
  {
    if limit > 0 {
      QuietPageStreak(p, 0, limit);
    }
  }

  /** Without either setting, nothing ends the loop on the page once its probes are used up. */
  lemma NoSettingsNeverEnds(p: Page, stop0: bool, k: nat)
    requires k > |p.probes|
    ensures OpenExit(p, stop0, None, None, k).None?
  {
  }

  class ReviewScraper {
    /** Set by the stop listener; the model applies the stops the page oracle reports. */
    var shouldStop: bool
    /** `this.config.MAX_REVIEWS`. */
    const maxReviews: Option<int>
    /** `this.config.NO_CHANGE_LIMIT`. */
    const noChangeLimit: Option<int>

    constructor (config: map<string, int>)
      ensures !shouldStop
      ensures maxReviews == Setting(config, "MAX_REVIEWS") && noChangeLimit == Setting(config, "NO_CHANGE_LIMIT")
    {
      shouldStop := false;
      maxReviews := Setting(config, "MAX_REVIEWS");
      noChangeLimit := Setting(config, "NO_CHANGE_LIMIT");
    }

    /**
     * The scroll loop of `scrape`, run for at most `fuel` ticks: when it ends within them, it ends
     * at the first tick whose exit rule fires, with the record and the streak after the measured
     * ticks, and has sent the start report and one report per growth; with a streak limit, enough
     * fuel always lets it end.
     */
    method OpenScroll(page: Page, fuel: nat) returns (finished: bool, run: Run, messages: seq<Message>)
      modifies this
      ensures finished ==> OpenRun(page, old(shouldStop), maxReviews, noChangeLimit, run) && shouldStop == run.stopped
      ensures finished ==> messages == OpenMessages(page, maxReviews, Measured(run.exit, run.exitTick))
      ensures !finished ==> forall j | 0 <= j < fuel :: OpenExit(page, old(shouldStop), maxReviews, noChangeLimit, j).None?
      ensures noChangeLimit.Some? && fuel > StreakBound(page, noChangeLimit.value) ==> finished
    {
      ghost var stop0 := shouldStop;
      var lastReviewCount := 0;
      var noChangeCount: nat := 0;
      var totalScrolls: nat := 0;
      messages := [ScrapingProgress(0, maxReviews, ScrollingPhase)];
      var exit := Exit(StoppedByUser, false);
      var k: nat := 0;
      finished := false;
      while k < fuel
        invariant totalScrolls == k <= fuel
        invariant lastReviewCount == RecordAt(page, 0, k)
        invariant noChangeCount == StreakAt(page, 0, k)
        invariant shouldStop == StopAtHead(page, 0, stop0, k)
        invariant forall j | 0 <= j < k :: OpenExit(page, stop0, maxReviews, noChangeLimit, j).None?
        invariant messages == OpenMessages(page, maxReviews, k)
        decreases fuel - k
      {
        if shouldStop {
          exit := Exit(StoppedByUser, false);
          finished := true;
          assert OpenExit(page, stop0, maxReviews, noChangeLimit, k) == Some(exit);
          break;
        }
        totalScrolls := totalScrolls + 1;
        var probe := At(page, k);
        if probe.stopWhileScrolling {
          shouldStop := true;
          exit := Exit(StoppedByUser, true);
          finished := true;
          assert OpenExit(page, stop0, maxReviews, noChangeLimit, k) == Some(exit);
          break;
        }
        var currentReviewCount := probe.measure;
        if currentReviewCount > lastReviewCount {
          lastReviewCount := currentReviewCount;
          noChangeCount := 0;
          messages := messages + [LoadingReport(maxReviews)(probe)];
          shouldStop := probe.stopWhileSettling;
        } else {
          noChangeCount := noChangeCount + 1;
        }
        assert lastReviewCount == RecordAt(page, 0, k + 1) && noChangeCount == StreakAt(page, 0, k + 1);
        assert shouldStop == StopAtHead(page, 0, stop0, k + 1) && messages == OpenMessages(page, maxReviews, k + 1);
        if maxReviews.Some? && currentReviewCount >= maxReviews.value {
          exit := Exit(TargetReached, true);
          finished := true;
          assert OpenExit(page, stop0, maxReviews, noChangeLimit, k) == Some(exit);
          break;
        }
        if noChangeLimit.Some? && noChangeCount >= noChangeLimit.value {
          exit := Exit(NoChangeLimit, true);
          finished := true;
          assert OpenExit(page, stop0, maxReviews, noChangeLimit, k) == Some(exit);
          break;
        }
        k := k + 1;
      }
      if !finished && noChangeLimit.Some? && fuel > StreakBound(page, noChangeLimit.value) {
        LimitEnds(page, stop0, maxReviews, noChangeLimit.value);
        assert false;
      }
      run := Run(k, exit, totalScrolls, lastReviewCount, noChangeCount, shouldStop);
    }

    /**
     * `scrape` with `log` as a no-op, for at most `fuel` loop ticks (None when they run out): no
     * pane is an error and 0; otherwise the loop, 'Processing reviews', then a stop returns
     * `lastReviewCount` without extracting, no review completes with 0, and otherwise the
     * `generateCSV` download and completion.
     */
    method Scrape(site: ReviewSite, fuel: nat) returns (outcome: Option<Outcome>)
      modifies this
      ensures site.pane.None? ==>
        outcome == Some(Outcome(Some(0), [ReviewError(PaneMissingMessage(site.hasReviewElements, site.tabFound))], None))
      ensures site.pane.Some? && outcome.Some? ==>
        var pane := site.pane.value;
        var name := RestaurantName(site.headers);
        exists run: Run ::
          && OpenRun(pane.page, old(shouldStop) || StopBeforeLoop(site), maxReviews, noChangeLimit, run)
          && shouldStop == run.stopped
          && outcome.value == ClassFinish(OpenMessages(pane.page, maxReviews, Measured(run.exit, run.exitTick)), maxReviews,
               run.stopped, run.last, name, ReviewRows(name, Cleaned, pane.elements))
      ensures site.pane.Some? && noChangeLimit.Some? && fuel > StreakBound(site.pane.value.page, noChangeLimit.value) ==> outcome.Some?
    {
      var restaurantName := GetRestaurantName(site.headers);
      shouldStop := shouldStop || StopBeforeLoop(site);
      if site.pane.None? {
        return Some(Outcome(Some(0), [ReviewError(PaneMissingMessage(site.hasReviewElements, site.tabFound))], None));
      }
      var pane := site.pane.value;
      var finished, run, messages := OpenScroll(pane.page, fuel);
      if !finished {
        return None;
      }
      ghost var rows := ReviewRows(restaurantName, Cleaned, pane.elements);
      if shouldStop {
        outcome := Some(ClassFinish(messages, maxReviews, true, run.last, restaurantName, []));
        assert outcome.value == ClassFinish(messages, maxReviews, true, run.last, restaurantName, rows);
        return;
      }
      var reviews := ExtractReviews(restaurantName, Cleaned, pane.elements);
      outcome := Some(ClassFinish(messages, maxReviews, false, run.last, restaurantName, reviews));
    }
  }

  /**
   * What `scrape` does once its loop is over: the 'Processing reviews' report, then a stop reports
   * and returns `lastReviewCount`, no review completes with 0 and returns 0, and otherwise the
   * `generateCSV` file is downloaded and completion reported.
   */
  function ClassFinish(loopMessages: seq<Message>, maxReviews: Option<int>, stopped: bool, last: int, name: string, rows: seq<seq<string>>): (o: Outcome)
    ensures var processing := loopMessages + [ScrapingProgress(last, maxReviews, ProcessingPhase)];
      && (stopped ==> o == Outcome(Some(last), processing + [ScrapingStopped(last)], None))
      && (!stopped && |rows| == 0 ==> o == Outcome(Some(0), processing + [ScrapingComplete(0)], None))
      && (!stopped && |rows| > 0 ==>
            o == Outcome(Some(|rows|), processing + [ScrapingComplete(|rows|)], Some(Download(ReviewsFilename(name), GenerateCsv(ReviewHeader, rows)))))
  {
    var processing := loopMessages + [ScrapingProgress(last, maxReviews, ProcessingPhase)];
    if stopped then Outcome(Some(last), processing + [ScrapingStopped(last)], None)
    else if |rows| == 0 then Outcome(Some(0), processing + [ScrapingComplete(0)], None)
    else Outcome(Some(|rows|), processing + [ScrapingComplete(|rows|)], Some(Download(ReviewsFilename(name), GenerateCsv(ReviewHeader, rows))))
  }

  /**
   * `scrape` as written: a found tab logs 'success' in `clickReviewsTab`, and a found pane logs
   * 'success' in `findReviewsPane`; either `log` throws, and the `catch` reports the failure and
   * returns 0. Only a page with no tab and no pane gets as far as the pane-missing message.
   */
  function ScrapeAsWritten(site: ReviewSite): (o: Outcome)
    ensures !site.tabFound && site.pane.None? ==>
      o == Outcome(Some(0), [ReviewError(PaneMissingMessage(site.hasReviewElements, false))], None)
  {
    if !site.tabFound && site.pane.None? then
      Outcome(Some(0), [ReviewError(PaneMissingMessage(site.hasReviewElements, false))], None)
    else
      var thrown := LogAsWritten("success");
      SuccessLevelThrows();
      Outcome(Some(0), [ReviewError(ScrapingFailed + thrown.error)], None)
  }

  /**
   * As written, no page ever yields a CSV, a progress report or a completion, whereas the corrected
   * scrape downloads the rows whenever a pane is found, no stop arrives and a review is extracted.
   */
  lemma ScrapeAsWrittenNeverDownloads(site: ReviewSite, maxReviews: Option<int>, run: Run)
    ensures ScrapeAsWritten(site).download.None? && ScrapeAsWritten(site).result == Some(0)
    ensures site.tabFound || site.pane.Some? ==> ScrapeAsWritten(site).messages == [ReviewError(ScrapingFailed + ConsoleTypeError)]
    ensures site.pane.Some? && !run.stopped && |ReviewRows(RestaurantName(site.headers), Cleaned, site.pane.value.elements)| > 0 ==>
      ClassFinish(OpenMessages(site.pane.value.page, maxReviews, Measured(run.exit, run.exitTick)), maxReviews, run.stopped, run.last,
        RestaurantName(site.headers), ReviewRows(RestaurantName(site.headers), Cleaned, site.pane.value.elements)).download.Some?
  {
    SuccessLevelThrows();
  }
}
