/**
 * The vocabulary shared by the four scroll-harvest loops.
 *
 * The page is an oracle. Each iteration ("tick") of a loop reads the page at fixed points, and
 * a `Probe` records what those reads return: the item count at the top of the tick, the
 * measurement after the post-scroll wait (the feed's height for restaurants, the number of
 * distinct review ids for reviews), the item count right after a growth, the end-banner test
 * at the bottom of the tick, and whether a stop message arrived during each of the two waits.
 * JavaScript runs one task at a time, so the stop flag can only change during an `await`.
 * After its listed probes the page is quiet: the measurement stays at its last value, no banner
 * appears and no stop message arrives.
 *
 * Every loop keeps a record (`lastHeight`/`lastReviewCount`, replaced only by a strictly larger
 * measurement) and a no-growth streak (`noChangeCount`). `RecordAt` and `StreakAt` give their
 * values at the top of tick `k`, so the loops are specified by closed forms rather than by
 * re-running them.
 */
module Harvest {
  import opened Wrappers

  datatype Probe = Probe(
    headCount: int,
    stopWhileScrolling: bool,
    measure: int,
    growthCount: int,
    stopWhileSettling: bool,
    banner: bool)

  /** The page as the loop sees it: the measurement taken before the loop, then one probe per tick. */
  datatype Page = Page(initialMeasure: int, probes: seq<Probe>)

  /** The measurement a quiet page keeps showing once its probes are used up. */
  function QuietMeasure(p: Page): int {
    if p.probes == [] then p.initialMeasure else p.probes[|p.probes| - 1].measure
  }

  function At(p: Page, k: nat): Probe {
    if k < |p.probes| then p.probes[k]
    else Probe(0, false, QuietMeasure(p), 0, false, false)
  }

  /** The record at the top of tick `k`: the start value, replaced by each strictly larger measurement. */
  function RecordAt(p: Page, init: int, k: nat): int {
    if k == 0 then init
    else
      var r := RecordAt(p, init, k - 1);
      var m := At(p, k - 1).measure;
      if m > r then m else r
  }

  /** Tick `k`'s measurement beats the record. */
  predicate GrewAt(p: Page, init: int, k: nat) {
    At(p, k).measure > RecordAt(p, init, k)
  }

  /** The no-growth streak at the top of tick `k`: reset to 0 by a growth, otherwise one more. */
  function StreakAt(p: Page, init: int, k: nat): nat {
    if k == 0 then 0
    else if GrewAt(p, init, k - 1) then 0
    else StreakAt(p, init, k - 1) + 1
  }

  /**
   * The stop flag at the top of tick `k`, given that tick `k - 1` ran to its end: `stop0` before
   * the first tick, and afterwards only a stop that arrived during the settle wait a growth triggers.
   */
  predicate StopAtHead(p: Page, init: int, stop0: bool, k: nat) {
    if k == 0 then stop0 else GrewAt(p, init, k - 1) && At(p, k - 1).stopWhileSettling
  }

  /** The record is the largest of the start value and every measurement so far. */
  lemma {:induction false} RecordIsMaximum(p: Page, init: int, k: nat)
    ensures RecordAt(p, init, k) >= init
    ensures forall j | 0 <= j < k :: RecordAt(p, init, k) >= At(p, j).measure
    ensures RecordAt(p, init, k) == init || exists j | 0 <= j < k :: RecordAt(p, init, k) == At(p, j).measure
  {
    if k > 0 {
      RecordIsMaximum(p, init, k - 1);
    }
  }

  /** The record never decreases. */
  lemma {:induction false} RecordMonotone(p: Page, init: int, j: nat, k: nat)
    requires j <= k
    ensures RecordAt(p, init, j) <= RecordAt(p, init, k)
    decreases k - j
  {
    if j < k {
      RecordMonotone(p, init, j, k - 1);
    }
  }

  /** The streak counts the ticks since the last growth: none of them grew, and the one before did. */
  lemma {:induction false} StreakCountsQuietTicks(p: Page, init: int, k: nat)
    ensures StreakAt(p, init, k) <= k
    ensures forall j | k - StreakAt(p, init, k) <= j < k :: !GrewAt(p, init, j)
    ensures StreakAt(p, init, k) < k ==> GrewAt(p, init, k - 1 - StreakAt(p, init, k))
    ensures forall j | k - StreakAt(p, init, k) <= j <= k :: RecordAt(p, init, j) == RecordAt(p, init, k)
  {
    if k > 0 && !GrewAt(p, init, k - 1) {
      StreakCountsQuietTicks(p, init, k - 1);
    }
  }

  /** Growth measurements strictly increase from tick to tick. */
  lemma GrowthStrictlyIncreases(p: Page, init: int, i: nat, j: nat)
    requires i < j && GrewAt(p, init, i) && GrewAt(p, init, j)
    ensures init < At(p, i).measure < At(p, j).measure
  {
    RecordIsMaximum(p, init, i);
    RecordMonotone(p, init, i + 1, j);
  }

  /** On a quiet page, once the record reaches the quiet measurement no tick grows any more. */
  lemma QuietPageStopsGrowing(p: Page, init: int, k: nat)
    requires k >= |p.probes| && RecordAt(p, init, k) >= QuietMeasure(p)
    ensures !GrewAt(p, init, k) && RecordAt(p, init, k + 1) == RecordAt(p, init, k)
  {
  }

  /** Past the page's probes no tick grows, so the streak counts every tick from one after the last probe on. */
  lemma {:induction false} QuietPageStreak(p: Page, init: int, m: nat)
    ensures StreakAt(p, init, |p.probes| + 1 + m) >= m
    ensures forall j | |p.probes| + 1 <= j <= |p.probes| + 1 + m :: !GrewAt(p, init, j)
  {
    var n := |p.probes|;
    if m == 0 {
      RecordIsMaximum(p, init, n + 1);
    } else {
      QuietPageStreak(p, init, m - 1);
      RecordMonotone(p, init, n + 1, n + 1 + m);
      RecordIsMaximum(p, init, n + 1);
    }
  }

  /** The ticks before `n` whose measurement grew, in order. */
  function GrowthTicks(p: Page, init: int, n: nat): (ticks: seq<nat>)
    ensures forall i | 0 <= i < |ticks| :: ticks[i] < n && GrewAt(p, init, ticks[i])
    ensures forall j | 0 <= j < n && GrewAt(p, init, j) :: j in ticks
    ensures forall i, l | 0 <= i < l < |ticks| :: ticks[i] < ticks[l]
  {
    if n == 0 then []
    else GrowthTicks(p, init, n - 1) + (if GrewAt(p, init, n - 1) then [n - 1] else [])
  }

  /** The measurements at the growth ticks: the values the loops report as progress. */
  function GrowthValues(p: Page, ticks: seq<nat>): (values: seq<int>)
    ensures |values| == |ticks|
    ensures forall i | 0 <= i < |ticks| :: values[i] == At(p, ticks[i]).measure
  {
    if ticks == [] then [] else [At(p, ticks[0]).measure] + GrowthValues(p, ticks[1..])
  }

  /** The reported progress values strictly increase and all exceed the start value. */
  lemma GrowthValuesIncrease(p: Page, init: int, n: nat)
    ensures var values := GrowthValues(p, GrowthTicks(p, init, n));
      (forall i | 0 <= i < |values| :: values[i] > init) &&
      (forall i, l | 0 <= i < l < |values| :: values[i] < values[l])
  {
    var ticks := GrowthTicks(p, init, n);
    forall i | 0 <= i < |ticks|
      ensures At(p, ticks[i]).measure > init
    {
      RecordIsMaximum(p, init, ticks[i]);
    }
    forall i, l | 0 <= i < l < |ticks|
      ensures At(p, ticks[i]).measure < At(p, ticks[l]).measure
    {
      GrowthStrictlyIncreases(p, init, ticks[i], ticks[l]);
    }
  }

  /** `userConfig?.KEY || default`: a missing entry and a 0 both fall back to the default. */
  function SettingOr(config: map<string, int>, key: string, default: int): (v: int)
    ensures key in config && config[key] != 0 ==> v == config[key]
    ensures key !in config || config[key] == 0 ==> v == default
  {
    if key in config && config[key] != 0 then config[key] else default
  }

  /** The reports a loop has sent by the top of tick `n`: one per growth, added as the tick grows. */
  function GrowthReports(p: Page, init: int, n: nat, report: Probe -> Message): seq<Message> {
    if n == 0 then []
    else GrowthReports(p, init, n - 1, report) + (if GrewAt(p, init, n - 1) then [report(At(p, n - 1))] else [])
  }

  /** The reports are one per growth tick, in tick order: the `i`-th is the report of the `i`-th growth. */
  lemma {:induction false} GrowthReportsMeaning(p: Page, init: int, n: nat, report: Probe -> Message)
    ensures |GrowthReports(p, init, n, report)| == |GrowthTicks(p, init, n)|
    ensures forall i | 0 <= i < |GrowthTicks(p, init, n)| ::
      GrowthReports(p, init, n, report)[i] == report(At(p, GrowthTicks(p, init, n)[i]))
  {
    if n > 0 {
      GrowthReportsMeaning(p, init, n - 1, report);
    }
  }

  /** Why a loop ended. */
  datatype StopReason = TargetReached | NoChangeLimit | EndBanner | AttemptLimit | StoppedByUser

  /** How a loop ended: the reason, and whether the last tick scrolled before ending. */
  datatype Exit = Exit(reason: StopReason, scrolled: bool)

  /** An exit taken by the `while` test itself, before the tick's counter is incremented. */
  predicate AtHead(e: Exit) {
    e.reason == AttemptLimit || (e.reason == StoppedByUser && !e.scrolled)
  }

  /** Measurements taken by a loop that ends at tick `k`: one per finished tick, plus the last unless it stopped mid-way. */
  function Measured(e: Exit, k: nat): nat {
    if e.scrolled && e.reason != StoppedByUser then k + 1 else k
  }

  /** The stop flag once a loop that ended at tick `k` with `e` has left its loop. */
  predicate FinalStop(p: Page, init: int, stop0: bool, k: nat, e: Exit) {
    if !e.scrolled then StopAtHead(p, init, stop0, k)
    else if e.reason == StoppedByUser then true
    else GrewAt(p, init, k) && At(p, k).stopWhileSettling
  }

  /** The loop's state when it ends: where, why, the counters, and the progress values it sent. */
  datatype Run = Run(
    exitTick: nat,
    exit: Exit,
    attempts: nat,
    last: int,
    noChange: nat,
    stopped: bool)

  /** The messages the scrapers send to the popup. */
  datatype Message =
    | RestaurantProgress(phase: string, count: int)
    | RestaurantComplete(count: int)
    | RestaurantError(error: string)
    | ScrapingStopped(count: int)
    | ScrapingProgress(reviewCount: int, maxReviews: Option<int>, phase: string)
    | ScrapingComplete(reviewCount: int)
    | ReviewError(error: string)

  /** A CSV the scraper hands to the browser's download. */
  datatype Download = Download(filename: string, csv: string)

  /** What a scrape leaves behind: its return value (None for `undefined`), its messages and its download. */
  datatype Outcome = Outcome(result: Option<int>, messages: seq<Message>, download: Option<Download>)
}
