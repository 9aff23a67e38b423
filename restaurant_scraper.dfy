/**
 * `RestaurantScraper` (js/scrapers/restaurant-scraper.js): the streak-only restaurant loop, which
 * scrolls the results feed until the feed height has not grown `maxNoChange` times in a row, a
 * stop arrives or the end banner shows, then the first-occurrence map of names by url and the
 * two-column CSV.
 */
module RestaurantScraping {
  import opened Wrappers
  import opened Utils
  import opened Harvest
  import opened Listings

  const PaneMissingError := "Results pane not found - make sure you're on a Google Maps search page"
  const NoRestaurantsError := "No restaurants found - make sure you're on a Google Maps search results page"
  const ScrollingPhase := "Scrolling to load restaurants"
  const LoadingPhase := "Loading restaurants"
  const ScrapingFailed := "Scraping failed: "

  /** The results feed `[role="feed"]`: its pages of growth while scrolling, and its anchors once the loop ends. */
  datatype Feed = Feed(page: Page, anchors: seq<Anchor>)

  /**
   * Whether tick `k` ends the loop, for a loop that reached it: the head test fails (streak at the
   * limit, or a stop), a stop arrives during the scroll wait, or the end banner shows.
   */
  function StreakOnlyExit(p: Page, stop0: bool, maxNoChange: int, k: nat): Option<Exit> {
    if StreakAt(p, p.initialMeasure, k) >= maxNoChange then Some(Exit(NoChangeLimit, false))
    else if StopAtHead(p, p.initialMeasure, stop0, k) then Some(Exit(StoppedByUser, false))
    else if At(p, k).stopWhileScrolling then Some(Exit(StoppedByUser, true))
    else if At(p, k).banner then Some(Exit(EndBanner, true))
    else None
  }

  /** The 'Loading restaurants' report after a growth: the anchor count read just after it. */
  function LoadingReport(probe: Probe): Message {
    RestaurantProgress(LoadingPhase, probe.growthCount)
  }

  /** The progress `scrollToLoadAll` sends by the time it has measured `n` ticks. */
  function StreakOnlyMessages(p: Page, n: nat): seq<Message> {
    [RestaurantProgress(ScrollingPhase, 0)] + GrowthReports(p, p.initialMeasure, n, LoadingReport)
  }

  /** `run` is how `scrollToLoadAll` ends on `p`: the first tick whose exit rule fires, and the state at that point. */
  predicate StreakOnlyRun(p: Page, stop0: bool, maxNoChange: int, run: Run) {
    var n := Measured(run.exit, run.exitTick);
    && (forall j | 0 <= j < run.exitTick :: StreakOnlyExit(p, stop0, maxNoChange, j).None?)
    && StreakOnlyExit(p, stop0, maxNoChange, run.exitTick) == Some(run.exit)
    && run.attempts == run.exitTick + (if run.exit.scrolled then 1 else 0)
    && run.last == RecordAt(p, p.initialMeasure, n)
    && run.noChange == StreakAt(p, p.initialMeasure, n)
    && run.stopped == FinalStop(p, p.initialMeasure, stop0, run.exitTick, run.exit)
  }

  /** The exit rule says what the source promises about each way out of the loop. */
  lemma StreakOnlyExitMeaning(p: Page, stop0: bool, maxNoChange: int, k: nat)
    ensures var e := StreakOnlyExit(p, stop0, maxNoChange, k);
      && (e == Some(Exit(NoChangeLimit, false)) <==> StreakAt(p, p.initialMeasure, k) >= maxNoChange)
      && (At(p, k).banner && e.None? ==> false)
      && (e.Some? && e.value.reason == StoppedByUser ==> StopAtHead(p, p.initialMeasure, stop0, k) || At(p, k).stopWhileScrolling)
      && (e.Some? && e.value.reason == EndBanner ==> At(p, k).banner)
      && (e.Some? ==> e.value.reason in {NoChangeLimit, StoppedByUser, EndBanner})
  {
  }

  /**
   * The CSV of `downloadRestaurantsCSV`: a quoted `Name,Link` header and one `name,url` line per entry.
   */
  function RestaurantsCsv(entries: seq<Entry<string>>): string {
    GenerateCsv(["Name", "Link"], NameLinkRows(entries))
  }

  function NameLinkRows(entries: seq<Entry<string>>): (rows: seq<seq<string>>)
    ensures |rows| == |entries|
    ensures forall i | 0 <= i < |entries| :: rows[i] == [entries[i].value, entries[i].url]
  {
    seq(|entries|, i requires 0 <= i < |entries| => [entries[i].value, entries[i].url])
  }

  /** With no newline in any name or url, the CSV is the header line and one line per entry. */
  lemma RestaurantsCsvLines(entries: seq<Entry<string>>)
    requires forall i | 0 <= i < |entries| :: '\n' !in entries[i].value && '\n' !in entries[i].url
    ensures |Text.Split(RestaurantsCsv(entries), '\n')| == 1 + |entries|
    ensures Text.Split(RestaurantsCsv(entries), '\n') == [HeaderLine(["Name", "Link"])] + DataLines(NameLinkRows(entries))
  {
    var rows := NameLinkRows(entries);
    forall r | r in rows
      ensures NoNewline(r)
    {
      var i :| 0 <= i < |rows| && rows[i] == r;
      assert r == [entries[i].value, entries[i].url];
    }
    assert '\n' !in "\"Name\"" && '\n' !in "\"Link\"";
    assert NoNewline(["Name", "Link"]);
    GenerateCsvLines(["Name", "Link"], rows);
  }

  /**
   * What `scrape` does once the loop is over: a stop reports the map size and downloads nothing, an
   * empty map is an error, and otherwise the CSV is downloaded and completion reported.
   */
  function Finish(loopMessages: seq<Message>, stopped: bool, entries: seq<Entry<string>>): (o: Outcome)
    ensures o.result == Some(|entries|)
    ensures o.download.Some? <==> !stopped && |entries| > 0
    ensures o.download.Some? ==> o.download.value == Download("restaurants.csv", RestaurantsCsv(entries))
    ensures stopped ==> o.messages == loopMessages + [ScrapingStopped(|entries|)]
    ensures !stopped && |entries| == 0 ==> o.messages == loopMessages + [RestaurantError(NoRestaurantsError)]
    ensures !stopped && |entries| > 0 ==> o.messages == loopMessages + [RestaurantComplete(|entries|)]
  {
    if stopped then Outcome(Some(|entries|), loopMessages + [ScrapingStopped(|entries|)], None)
    else if |entries| == 0 then Outcome(Some(0), loopMessages + [RestaurantError(NoRestaurantsError)], None)
    else Outcome(Some(|entries|), loopMessages + [RestaurantComplete(|entries|)], Some(Download("restaurants.csv", RestaurantsCsv(entries))))
  }

  class RestaurantScraper {
    /** Set by the stop listener; the model applies the stops the page oracle reports. */
    var shouldStop: bool
    /** `this.config.MAX_NO_CHANGE || 3`. */
    const maxNoChange: int

    constructor (config: map<string, int>)
      ensures !shouldStop
      ensures maxNoChange == SettingOr(config, "MAX_NO_CHANGE", 3)
    {
      shouldStop := false;
      maxNoChange := SettingOr(config, "MAX_NO_CHANGE", 3);
    }

    /**
     * `scrollToLoadAll`: the loop ends at the first tick whose exit rule fires, `lastHeight` is the
     * record and `noChangeCount` the streak after the measured ticks, one report goes out per growth,
     * the result is `!shouldStop`, and the loop ends at most `maxNoChange` quiet ticks after the page's
     * last probe.
     */
    method ScrollToLoadAll(page: Page) returns (completed: bool, run: Run, messages: seq<Message>)
      modifies this
      ensures StreakOnlyRun(page, old(shouldStop), maxNoChange, run)
      ensures shouldStop == run.stopped && completed == !shouldStop
      ensures messages == StreakOnlyMessages(page, Measured(run.exit, run.exitTick))
      ensures run.exitTick <= |page.probes| + 1 + (if maxNoChange > 0 then maxNoChange else 0)
    {
      ghost var stop0 := shouldStop;
      var init := page.initialMeasure;
      var lastHeight := init;
      var noChangeCount: nat := 0;
      var scrollAttempts := 0;
      messages := [RestaurantProgress(ScrollingPhase, 0)];
      var k: nat := 0;
      var exit := Exit(NoChangeLimit, false);
      while true
        invariant lastHeight == RecordAt(page, init, k)
        invariant noChangeCount == StreakAt(page, init, k)
        invariant shouldStop == StopAtHead(page, init, stop0, k)
        invariant scrollAttempts == k
        invariant forall j | 0 <= j < k :: StreakOnlyExit(page, stop0, maxNoChange, j).None?
        invariant messages == StreakOnlyMessages(page, k)
        invariant noChangeCount <= (if maxNoChange > 0 then maxNoChange else 0)
        invariant k > |page.probes| ==> lastHeight >= QuietMeasure(page) && k <= |page.probes| + 1 + noChangeCount
        decreases (if k <= |page.probes| then |page.probes| + 1 - k else 0), maxNoChange - noChangeCount
      {
        if noChangeCount >= maxNoChange {
          exit := Exit(NoChangeLimit, false);
          break;
        }
        if shouldStop {
          exit := Exit(StoppedByUser, false);
          break;
        }
        scrollAttempts := scrollAttempts + 1;
        var probe := At(page, k);
        if probe.stopWhileScrolling {
          shouldStop := true;
          exit := Exit(StoppedByUser, true);
          break;
        }
        if probe.measure > lastHeight {
          lastHeight := probe.measure;
          noChangeCount := 0;
          messages := messages + [LoadingReport(probe)];
          shouldStop := probe.stopWhileSettling;
        } else {
          noChangeCount := noChangeCount + 1;
        }
        assert lastHeight == RecordAt(page, init, k + 1) && noChangeCount == StreakAt(page, init, k + 1);
        assert shouldStop == StopAtHead(page, init, stop0, k + 1) && messages == StreakOnlyMessages(page, k + 1);
        if probe.banner {
          exit := Exit(EndBanner, true);
          break;
        }
        k := k + 1;
      }
      run := Run(k, exit, scrollAttempts, lastHeight, noChangeCount, shouldStop);
      completed := !shouldStop;
    }

    /**
     * `extractRestaurants`: the anchors' map of comma-free names by url, first occurrence winning;
     * what that map is, is proved of `Listed` (`ListedUrlsDistinct`, `ListedCovers`, `ListedFirstWins`).
     */
    method ExtractRestaurants(anchors: seq<Anchor>) returns (restaurants: seq<Entry<string>>)
      ensures restaurants == Listed(anchors, NameValue)
    {
      restaurants := [];
      var keys: set<string> := {};
      for i := 0 to |anchors|
        invariant restaurants == Listed(anchors[..i], NameValue)
        invariant keys == Urls(restaurants)
      {
        var anchor := anchors[i];
        var url := UrlOf(anchor);
        var name := NameOf(anchor);
        ListedIndexStep(anchors, i, NameValue);
        if name != "" && url != "" && url !in keys {
          UrlsAppend(restaurants, Entry(url, CleanName(name)));
          restaurants := restaurants + [Entry(url, CleanName(name))];
          keys := keys + {url};
        }
      }
      assert anchors[..|anchors|] == anchors;
    }

    /**
     * `scrape`: with no feed, an error and 0 without scrolling; otherwise the loop, the extraction
     * and `Finish`, with the 0 of an empty map and the map size otherwise.
     */
    method Scrape(feed: Option<Feed>) returns (outcome: Outcome)
      modifies this
      ensures feed.None? ==> outcome == Outcome(Some(0), [RestaurantError(PaneMissingError)], None) && shouldStop == old(shouldStop)
      ensures feed.Some? ==> exists run: Run ::
        && StreakOnlyRun(feed.value.page, old(shouldStop), maxNoChange, run)
        && shouldStop == run.stopped
        && outcome == Finish(StreakOnlyMessages(feed.value.page, Measured(run.exit, run.exitTick)), run.stopped, Listed(feed.value.anchors, NameValue))
    {
      if feed.None? {
        return Outcome(Some(0), [RestaurantError(PaneMissingError)], None);
      }
      var completed, run, messages := ScrollToLoadAll(feed.value.page);
      var restaurants := ExtractRestaurants(feed.value.anchors);
      outcome := Finish(messages, shouldStop, restaurants);
    }
  }

  /**
   * `scrape` as written: the `log(…, 'success')` that `extractRestaurants` always reaches (and the
   * ones at a growth and at the end banner, which come earlier) throws, and the `catch` reports the
   * failure and returns 0; nothing after the first progress report is sent before the throw.
   */
  function ScrapeAsWritten(feed: Option<Feed>): (o: Outcome)
    ensures feed.None? ==> o == Outcome(Some(0), [RestaurantError(PaneMissingError)], None)
  {
    if feed.None? then Outcome(Some(0), [RestaurantError(PaneMissingError)], None)
    else
      var thrown := LogAsWritten("success");
      SuccessLevelThrows();
      Outcome(Some(0), [RestaurantProgress(ScrollingPhase, 0), RestaurantError(ScrapingFailed + thrown.error)], None)
  }

  /**
   * As written, no feed ever yields a CSV or a completion, whereas the corrected scrape downloads
   * the map whenever it is non-empty and no stop arrived.
   */
  lemma ScrapeAsWrittenNeverDownloads(feed: Option<Feed>, run: Run)
    ensures ScrapeAsWritten(feed).download.None?
    ensures feed.Some? ==> ScrapeAsWritten(feed).messages == [RestaurantProgress(ScrollingPhase, 0), RestaurantError(ScrapingFailed + ConsoleTypeError)]
    ensures feed.Some? && !run.stopped && |Listed(feed.value.anchors, NameValue)| > 0 ==>
      Finish(StreakOnlyMessages(feed.value.page, Measured(run.exit, run.exitTick)), run.stopped, Listed(feed.value.anchors, NameValue)).download.Some?
  {
    SuccessLevelThrows();
  }
}
