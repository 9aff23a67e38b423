/**
 * Restaurant listings: the result anchors of the search feed, the map both restaurant scrapers
 * fill from them (keyed by the href cut at its first '&', first occurrence wins, insertion order
 * kept), and the per-card rating and review-count fallbacks of the injected scraper.
 */
module Listings {
  import opened Wrappers
  import opened Text
  import opened Patterns
  import opened Utils

  /** An element as the extractors read it: its `aria-label` attribute and its `textContent`. */
  datatype Element = Element(ariaLabel: Option<string>, textContent: string)

  /**
   * A result card (`closest('[data-result-index]') || closest('.Nv2PK') || parentElement`): what
   * `querySelector` returns for each rating selector and each review-count selector, in selector
   * order, and the card's text nodes in document order.
   */
  datatype Card = Card(starElements: seq<Option<Element>>, countElements: seq<Option<Element>>, textNodes: seq<string>)

  /** A result anchor `a.hfpxzc[href*="/maps/place/"]`: its href, its aria-label and its card. */
  datatype Anchor = Anchor(href: string, ariaLabel: Option<string>, card: Option<Card>)

  /** `anchor.href.split("&")[0]`. */
  function UrlOf(a: Anchor): (url: string)
    ensures |url| <= |a.href| && url == a.href[..|url|] && '&' !in url
    ensures |url| < |a.href| ==> a.href[|url|] == '&'
  {
    BeforeFirst(a.href, '&')
  }

  /** `anchor.getAttribute("aria-label")?.trim()`, with a missing label read as "". */
  function NameOf(a: Anchor): (name: string)
    ensures IsTrimmed(name)
    ensures a.ariaLabel.None? ==> name == ""
  {
    if a.ariaLabel.Some? then Trim(a.ariaLabel.value) else ""
  }

  /**
   * The anchors the map takes: a label with a non-space character and an href that does not start
   * with '&', which is to say a non-empty name and a non-empty url (`ListableMeaning`).
   */
  predicate Listable(a: Anchor) {
    a.ariaLabel.Some? && TrimOffset(a.ariaLabel.value) < |a.ariaLabel.value| && a.href != [] && a.href[0] != '&'
  }

  lemma ListableMeaning(a: Anchor)
    ensures Listable(a) <==> NameOf(a) != "" && UrlOf(a) != ""
  {
    if a.ariaLabel.Some? {
      var s := a.ariaLabel.value;
      var rest := s[TrimOffset(s)..];
      if TrimOffset(s) < |s| {
        assert rest[0] == s[TrimOffset(s)] && !IsSpace(rest[0]);
        assert Trailing(rest, IsSpace) < |rest|;
        assert |Trim(s)| == |rest| - Trailing(rest, IsSpace);
      } else {
        assert rest == [];
      }
    }
  }

  /** `name.replace(/,/g, " ")`: every comma becomes a space and nothing else changes. */
  function CleanName(name: string): (r: string)
    ensures |r| == |name| && ',' !in r
    ensures forall i | 0 <= i < |name| :: r[i] == (if name[i] == ',' then ' ' else name[i])
  {
    ReplaceChar(name, ',', ' ')
  }

  /** One entry of a JavaScript `Map`, which iterates in insertion order. */
  datatype Entry<V> = Entry(url: string, value: V)

  function Urls<V>(entries: seq<Entry<V>>): set<string> {
    set i | 0 <= i < |entries| :: entries[i].url
  }

  /** The urls of the listable anchors. */
  function ListableUrls(anchors: seq<Anchor>): set<string> {
    set i | 0 <= i < |anchors| && Listable(anchors[i]) :: UrlOf(anchors[i])
  }

  /** Anchor `i` is listable and no earlier listable anchor has its url: the occurrence the map keeps. */
  predicate FirstListingAt(anchors: seq<Anchor>, i: nat)
    requires i < |anchors|
  {
    Listable(anchors[i]) &&
    forall j | 0 <= j < i :: !(Listable(anchors[j]) && UrlOf(anchors[j]) == UrlOf(anchors[i]))
  }

  /** The indices below `n` of the kept occurrences, in document order. */
  function KeptBefore(anchors: seq<Anchor>, n: nat): (ks: seq<nat>)
    requires n <= |anchors|
    ensures |ks| <= n
    ensures forall i | 0 <= i < |ks| :: ks[i] < n && FirstListingAt(anchors, ks[i])
    ensures forall i, j | 0 <= i < j < |ks| :: ks[i] < ks[j]
  {
    if n == 0 then []
    else
      var prev := KeptBefore(anchors, n - 1);
      if FirstListingAt(anchors, n - 1) then
        var ks := prev + [n - 1];
        assert forall i | 0 <= i < |prev| :: ks[i] == prev[i];
        ks
      else prev
  }

  /** Every kept occurrence below `n` is among `KeptBefore(anchors, n)`. */
  lemma {:induction false} KeptComplete(anchors: seq<Anchor>, n: nat, k: nat)
    requires k < n <= |anchors| && FirstListingAt(anchors, k)
    ensures k in KeptBefore(anchors, n)
  {
    if k < n - 1 {
      KeptComplete(anchors, n - 1, k);
    }
  }

  /** The entries of the kept anchors `ks`, each with the value computed from its anchor. */
  function EntriesAt<V>(anchors: seq<Anchor>, ks: seq<nat>, value: Anchor -> V): (r: seq<Entry<V>>)
    requires forall i | 0 <= i < |ks| :: ks[i] < |anchors|
    ensures |r| == |ks|
    ensures forall i | 0 <= i < |ks| :: r[i] == Entry(UrlOf(anchors[ks[i]]), value(anchors[ks[i]]))
  {
    if ks == [] then []
    else EntriesAt(anchors, ks[..|ks| - 1], value) + [Entry(UrlOf(anchors[ks[|ks| - 1]]), value(anchors[ks[|ks| - 1]]))]
  }

  /**
   * The map the extraction builds: one entry per url of a listable anchor, taken from the first
   * listable anchor with that url, in the order those first occurrences appear.
   */
  function Listed<V>(anchors: seq<Anchor>, value: Anchor -> V): seq<Entry<V>> {
    EntriesAt(anchors, KeptBefore(anchors, |anchors|), value)
  }

  /** The map's keys are pairwise distinct, and there are at most as many entries as anchors. */
  lemma ListedUrlsDistinct<V>(anchors: seq<Anchor>, value: Anchor -> V)
    ensures |Listed(anchors, value)| <= |anchors|
    ensures forall i, j | 0 <= i < j < |Listed(anchors, value)| :: Listed(anchors, value)[i].url != Listed(anchors, value)[j].url
  {
    var ks := KeptBefore(anchors, |anchors|);
    var r := Listed(anchors, value);
    forall i, j | 0 <= i < j < |r|
      ensures r[i].url != r[j].url
    {
      assert ks[i] < ks[j] && FirstListingAt(anchors, ks[j]);
    }
  }

  /** Every listable anchor's url has a first listable occurrence at or before it. */
  lemma {:induction false} FirstListingExists(anchors: seq<Anchor>, i: nat)
    requires i < |anchors| && Listable(anchors[i])
    ensures exists k | 0 <= k <= i :: FirstListingAt(anchors, k) && UrlOf(anchors[k]) == UrlOf(anchors[i])
  {
    if !FirstListingAt(anchors, i) {
      var j :| 0 <= j < i && Listable(anchors[j]) && UrlOf(anchors[j]) == UrlOf(anchors[i]);
      FirstListingExists(anchors, j);
    }
  }

  /** The map's keys are exactly the urls of the listable anchors: no anchor with an empty name or url gets in, and none without is lost. */
  lemma ListedCovers<V>(anchors: seq<Anchor>, value: Anchor -> V)
    ensures Urls(Listed(anchors, value)) == ListableUrls(anchors)
  {
    forall u | u in ListableUrls(anchors)
      ensures u in Urls(Listed(anchors, value))
    {
      var i :| 0 <= i < |anchors| && Listable(anchors[i]) && UrlOf(anchors[i]) == u;
      ListableUrlListed(anchors, value, i);
    }
    forall u | u in Urls(Listed(anchors, value))
      ensures u in ListableUrls(anchors)
    {
      var r := Listed(anchors, value);
      var m :| 0 <= m < |r| && r[m].url == u;
      ListedUrlListable(anchors, value, m);
    }
  }

  lemma ListableUrlListed<V>(anchors: seq<Anchor>, value: Anchor -> V, i: nat)
    requires i < |anchors| && Listable(anchors[i])
    ensures UrlOf(anchors[i]) in Urls(Listed(anchors, value))
  {
    var ks := KeptBefore(anchors, |anchors|);
    var r := Listed(anchors, value);
    FirstListingExists(anchors, i);
    var k :| 0 <= k <= i && FirstListingAt(anchors, k) && UrlOf(anchors[k]) == UrlOf(anchors[i]);
    KeptComplete(anchors, |anchors|, k);
    var m :| 0 <= m < |ks| && ks[m] == k;
    assert r[m].url == UrlOf(anchors[i]);
  }

  lemma ListedUrlListable<V>(anchors: seq<Anchor>, value: Anchor -> V, m: nat)
    requires m < |Listed(anchors, value)|
    ensures Listed(anchors, value)[m].url in ListableUrls(anchors)
  {
    var ks := KeptBefore(anchors, |anchors|);
    assert FirstListingAt(anchors, ks[m]);
  }

  /** Each entry holds the value of the first listable anchor with its url. */
  lemma ListedFirstWins<V>(anchors: seq<Anchor>, value: Anchor -> V, i: nat)
    requires i < |anchors| && Listable(anchors[i])
    ensures exists m | 0 <= m < |Listed(anchors, value)| ::
      Listed(anchors, value)[m].url == UrlOf(anchors[i]) &&
      exists k | 0 <= k <= i :: FirstListingAt(anchors, k) && Listed(anchors, value)[m].value == value(anchors[k])
  {
    var ks := KeptBefore(anchors, |anchors|);
    FirstListingExists(anchors, i);
    var k :| 0 <= k <= i && FirstListingAt(anchors, k) && UrlOf(anchors[k]) == UrlOf(anchors[i]);
    KeptComplete(anchors, |anchors|, k);
    var m :| 0 <= m < |ks| && ks[m] == k;
    assert Listed(anchors, value)[m] == Entry(UrlOf(anchors[k]), value(anchors[k]));
  }

  lemma {:induction false} KeptPrefix(anchors: seq<Anchor>, a: Anchor, n: nat)
    requires n <= |anchors|
    ensures KeptBefore(anchors + [a], n) == KeptBefore(anchors, n)
  {
    if n > 0 {
      KeptPrefix(anchors, a, n - 1);
      assert forall j | 0 <= j < n :: (anchors + [a])[j] == anchors[j];
      assert FirstListingAt(anchors + [a], n - 1) == FirstListingAt(anchors, n - 1);
    }
  }

  lemma EntriesPrefix<V>(anchors: seq<Anchor>, a: Anchor, ks: seq<nat>, value: Anchor -> V)
    requires forall i | 0 <= i < |ks| :: ks[i] < |anchors|
    ensures EntriesAt(anchors + [a], ks, value) == EntriesAt(anchors, ks, value)
  {
    var l := EntriesAt(anchors + [a], ks, value);
    var r := EntriesAt(anchors, ks, value);
    assert forall i | 0 <= i < |ks| :: (anchors + [a])[ks[i]] == anchors[ks[i]];
    assert forall i | 0 <= i < |ks| :: l[i] == r[i];
  }

  /**
   * One step of the extraction loop: appending an anchor adds its entry exactly when it is listable
   * and its url is not yet a key; a later anchor with a url already present changes nothing.
   */
  lemma ListedExtend<V>(anchors: seq<Anchor>, a: Anchor, value: Anchor -> V)
    ensures Listed(anchors + [a], value) ==
      if Listable(a) && UrlOf(a) !in Urls(Listed(anchors, value)) then Listed(anchors, value) + [Entry(UrlOf(a), value(a))]
      else Listed(anchors, value)
  {
    var s := anchors + [a];
    var n := |anchors|;
    assert s[..n] == anchors;
    FirstListingPrefix(s, n + 1);
    ListedCovers(anchors, value);
    if FirstListingAt(s, n) {
      ListedExtendKept(anchors, a, value);
    } else {
      ListedExtendSkipped(anchors, a, value);
    }
  }

  lemma ListedExtendKept<V>(anchors: seq<Anchor>, a: Anchor, value: Anchor -> V)
    requires FirstListingAt(anchors + [a], |anchors|)
    ensures Listed(anchors + [a], value) == Listed(anchors, value) + [Entry(UrlOf(a), value(a))]
  {
    var s := anchors + [a];
    var n := |anchors|;
    KeptPrefix(anchors, a, n);
    var ks := KeptBefore(anchors, n);
    EntriesPrefix(anchors, a, ks, value);
    var ks' := ks + [n];
    assert KeptBefore(s, n + 1) == ks';
    assert ks'[..|ks'| - 1] == ks;
    assert s[n] == a;
  }

  lemma ListedExtendSkipped<V>(anchors: seq<Anchor>, a: Anchor, value: Anchor -> V)
    requires !FirstListingAt(anchors + [a], |anchors|)
    ensures Listed(anchors + [a], value) == Listed(anchors, value)
  {
    var s := anchors + [a];
    var n := |anchors|;
    var ks := KeptBefore(anchors, n);
    KeptPrefix(anchors, a, n);
    EntriesPrefix(anchors, a, ks, value);
    calc {
      Listed(s, value);
      EntriesAt(s, KeptBefore(s, n + 1), value);
      { assert KeptBefore(s, n + 1) == KeptBefore(s, n); }
      EntriesAt(s, ks, value);
      EntriesAt(anchors, ks, value);
    }
  }

  /**
   * One anchor more, as the extraction loops test it: the map grows by that anchor's entry exactly
   * when it has a name, a url, and a url not yet in the map.
   */
  lemma ListedIndexStep<V>(anchors: seq<Anchor>, i: nat, value: Anchor -> V)
    requires i < |anchors|
    ensures var a := anchors[i]; var prev := Listed(anchors[..i], value);
      Listed(anchors[..i + 1], value) ==
        if NameOf(a) != "" && UrlOf(a) != "" && UrlOf(a) !in Urls(prev) then prev + [Entry(UrlOf(a), value(a))]
        else prev
  {
    var a := anchors[i];
    assert anchors[..i + 1] == anchors[..i] + [a];
    ListedExtend(anchors[..i], a, value);
    ListableMeaning(a);
  }

  /** Appending an entry adds its url to the key set. */
  lemma UrlsAppend<V>(entries: seq<Entry<V>>, e: Entry<V>)
    ensures Urls(entries + [e]) == Urls(entries) + {e.url}
  {
    var s := entries + [e];
    assert s[|entries|] == e;
    forall u | u in Urls(entries)
      ensures u in Urls(s)
    {
      var i :| 0 <= i < |entries| && entries[i].url == u;
      assert s[i] == entries[i];
    }
  }

  /** A card field read as `aria-label` first, else text; what one rating element yields. */
  function RatingOf(e: Option<Element>): (r: Option<string>)
    ensures r.Some? ==> IsLooseNumber(r.value)
    ensures e.None? ==> r.None?
  {
    if e.None? then None
    else
      var byLabel := RatingBeforeStar(e.value.ariaLabel.GetOr(""));
      if byLabel.Some? then byLabel else LooseNumber(e.value.textContent)
  }

  /** The rating of a card: the first rating selector whose element yields a number. */
  function StarRatingOf(card: Option<Card>): (r: Option<string>)
    ensures r.Some? ==> IsLooseNumber(r.value)
    ensures r.Some? ==> card.Some? && exists i | 0 <= i < |card.value.starElements| ::
      RatingOf(card.value.starElements[i]) == r && forall j | 0 <= j < i :: RatingOf(card.value.starElements[j]).None?
    ensures card.Some? && r.None? ==> forall i | 0 <= i < |card.value.starElements| :: RatingOf(card.value.starElements[i]).None?
    ensures card.None? ==> r.None?
  {
    if card.None? then None else FindElement(card.value.starElements, RatingOf)
  }

  /** `reviewElement.textContent || reviewElement.getAttribute('aria-label') || ''`. */
  function CountTextOf(e: Element): string {
    if e.textContent != "" then e.textContent else e.ariaLabel.GetOr("")
  }

  /** What one review-count element yields. */
  function CountOf(e: Option<Element>): (r: Option<string>)
    ensures r.Some? ==> |r.value| > 0 && AllDigits(r.value)
  {
    if e.None? then None else ReviewCountIn(CountTextOf(e.value))
  }

  /** `text && text.match(/\(\d+\)/)` on a trimmed text node. */
  predicate HasPlainParen(t: string) {
    exists i | 0 <= i < |t| :: PlainParenAt(t, i)
  }

  /** What one text node yields in the fallback walk. */
  function NodeCountOf(node: string): (r: Option<string>)
    ensures r.Some? ==> |r.value| > 0 && AllDigits(r.value)
    ensures r.Some? <==> HasPlainParen(Trim(node))
  {
    var t := Trim(node);
    if t != "" && HasPlainParen(t) then
      var i :| 0 <= i < |t| && PlainParenAt(t, i);
      PlainParenGivesCount(t, i);
      ParenCount(t)
    else None
  }

  /**
   * The review count of a card: the first review-count selector whose element yields a count, else
   * the first text node holding a parenthesised number; no card, no count.
   */
  function ReviewCountOf(card: Option<Card>): (r: Option<string>)
    ensures r.Some? ==> |r.value| > 0 && AllDigits(r.value)
    ensures card.None? ==> r.None?
    ensures card.Some? && (exists i | 0 <= i < |card.value.countElements| :: CountOf(card.value.countElements[i]).Some?) ==>
      r == FindElement(card.value.countElements, CountOf)
    ensures card.Some? && (forall i | 0 <= i < |card.value.countElements| :: CountOf(card.value.countElements[i]).None?) ==>
      r == FindElement(card.value.textNodes, NodeCountOf)
  {
    if card.None? then None
    else
      var bySelector := FindElement(card.value.countElements, CountOf);
      if bySelector.Some? then bySelector else FindElement(card.value.textNodes, NodeCountOf)
  }

  /** The value the injected scraper stores per url. */
  datatype Listing = Listing(name: string, starRating: string, reviewCount: string)

  /** The record for an anchor: its comma-free name, and 'N/A' for a rating or count not found. */
  function RecordOf(a: Anchor): (r: Listing)
    ensures r.name == CleanName(NameOf(a)) && ',' !in r.name
    ensures r.starRating == "N/A" || IsLooseNumber(r.starRating)
    ensures r.starRating == "N/A" <==> StarRatingOf(a.card).None?
    ensures r.reviewCount == "N/A" || (|r.reviewCount| > 0 && AllDigits(r.reviewCount))
    ensures r.reviewCount == "N/A" <==> ReviewCountOf(a.card).None?
  {
    var star := StarRatingOf(a.card);
    var count := ReviewCountOf(a.card);
    assert "N/A"[0] == 'N' && !IsDigit('N');
    Listing(CleanName(NameOf(a)), star.GetOr("N/A"), count.GetOr("N/A"))
  }

  /** The value the class scraper stores per url: the name with its commas replaced. */
  function NameValue(a: Anchor): string {
    CleanName(NameOf(a))
  }

  /** The fourth review-count selector, `span:contains("(")`, is not CSS, and `querySelector` throws on it. */
  const ContainsSelectorError := "SyntaxError: 'span:contains(\"(\")' is not a valid selector"

  /**
   * The review-count search as written: only the first three selectors can be tried, and reaching
   * the fourth throws, unless the card is missing (`restaurantContainer?.` skips the call).
   */
  function ReviewCountAsWritten(card: Option<Card>): (r: Result<Option<string>, string>)
    ensures card.None? ==> r == Ok(None)
    ensures card.Some? ==> (r.Err? <==> forall i | 0 <= i < |card.value.countElements| && i < 3 :: CountOf(card.value.countElements[i]).None?)
  {
    if card.None? then Ok(None)
    else
      var els := card.value.countElements;
      var firstThree := els[..if |els| < 3 then |els| else 3];
      assert forall i | 0 <= i < |firstThree| :: firstThree[i] == els[i];
      var bySelector := FindElement(firstThree, CountOf);
      if bySelector.Some? then Ok(bySelector) else Err(ContainsSelectorError)
  }

  /** Where the code as written returns at all, it agrees with the corrected search. */
  lemma ReviewCountAsWrittenAgrees(card: Option<Card>)
    ensures ReviewCountAsWritten(card).Ok? ==> ReviewCountAsWritten(card).value == ReviewCountOf(card)
  {
    if card.Some? {
      var els := card.value.countElements;
      var k := if |els| < 3 then |els| else 3;
      FindElementPrefix(els, k, CountOf);
    }
  }

  /** The record as written: the injected scrape rejects as soon as one kept card reaches the fourth selector. */
  function RecordAsWritten(a: Anchor): (r: Result<Listing, string>)
    ensures r.Ok? ==> r.value == RecordOf(a)
    ensures r.Err? <==> ReviewCountAsWritten(a.card).Err?
  {
    ReviewCountAsWrittenAgrees(a.card);
    match ReviewCountAsWritten(a.card)
    case Err(e) => Err(e)
    case Ok(_) => Ok(RecordOf(a))
  }

  /** The injected extraction as written, over the anchors below `n`: the first failing kept card rejects it. */
  function ListingsAsWritten(anchors: seq<Anchor>, n: nat): (r: Result<seq<Entry<Listing>>, string>)
    requires n <= |anchors|
    ensures r.Ok? ==> r.value == Listed(anchors[..n], RecordOf)
    ensures r.Err? <==> RejectedBefore(anchors, n)
  {
    if n == 0 then
      assert anchors[..0] == [];
      Ok([])
    else
      var prev := ListingsAsWritten(anchors, n - 1);
      var a := anchors[n - 1];
      if prev.Err? then prev
      else
        ListedStep(anchors, n, RecordOf);
        if FirstListingAt(anchors, n - 1) then
          match RecordAsWritten(a)
          case Err(e) => Err(e)
          case Ok(rec) => Ok(prev.value + [Entry(UrlOf(a), rec)])
        else prev
  }

  /** Some kept anchor below `n` has a card the as-written count search throws on. */
  predicate RejectedBefore(anchors: seq<Anchor>, n: nat)
    requires n <= |anchors|
  {
    n > 0 && (RejectedBefore(anchors, n - 1) || (FirstListingAt(anchors, n - 1) && RecordAsWritten(anchors[n - 1]).Err?))
  }

  /** The extraction as written rejects exactly when some kept anchor has a card it throws on. */
  lemma {:induction false} RejectedBeforeMeaning(anchors: seq<Anchor>, n: nat)
    requires n <= |anchors|
    ensures RejectedBefore(anchors, n) <==> exists k | 0 <= k < n :: FirstListingAt(anchors, k) && RecordAsWritten(anchors[k]).Err?
  {
    if n > 0 {
      RejectedBeforeMeaning(anchors, n - 1);
    }
  }

  /** Listing one anchor more: the prefix's map, plus that anchor exactly when it is a first listing. */
  lemma ListedStep<V>(anchors: seq<Anchor>, n: nat, value: Anchor -> V)
    requires 0 < n <= |anchors|
    ensures Listed(anchors[..n], value) ==
      if FirstListingAt(anchors, n - 1) then Listed(anchors[..n - 1], value) + [Entry(UrlOf(anchors[n - 1]), value(anchors[n - 1]))]
      else Listed(anchors[..n - 1], value)
  {
    var p := anchors[..n - 1];
    var a := anchors[n - 1];
    assert anchors[..n] == p + [a];
    assert forall j | 0 <= j < n :: (p + [a])[j] == anchors[j];
    assert FirstListingAt(p + [a], |p|) == FirstListingAt(anchors, n - 1);
    if FirstListingAt(anchors, n - 1) {
      ListedExtendKept(p, a, value);
    } else {
      ListedExtendSkipped(p, a, value);
    }
  }

  /** Anchor `n - 1` is a first listing exactly when its url is not among the listable urls before it. */
  lemma FirstListingPrefix(anchors: seq<Anchor>, n: nat)
    requires 0 < n <= |anchors|
    ensures FirstListingAt(anchors, n - 1) <==>
      Listable(anchors[n - 1]) && UrlOf(anchors[n - 1]) !in ListableUrls(anchors[..n - 1])
  {
    var p := anchors[..n - 1];
    if Listable(anchors[n - 1]) && UrlOf(anchors[n - 1]) in ListableUrls(p) {
      var b :| b in p && Listable(b) && UrlOf(b) == UrlOf(anchors[n - 1]);
      var j :| 0 <= j < |p| && p[j] == b;
      assert anchors[j] == b;
    }
    if !FirstListingAt(anchors, n - 1) && Listable(anchors[n - 1]) {
      var j :| 0 <= j < n - 1 && Listable(anchors[j]) && UrlOf(anchors[j]) == UrlOf(anchors[n - 1]);
      assert p[j] == anchors[j];
      assert p[j] in p;
    }
  }

  /**
   * The fourth selector's throw in practice: a listable anchor whose card shows no count in the
   * first three selectors (a restaurant without reviews, say) makes the whole extraction reject,
   * where the corrected search lists it with 'N/A'.
   */
  lemma CardWithoutCountRejects(a: Anchor)
    requires Listable(a) && a.card.Some?
    requires forall i | 0 <= i < |a.card.value.countElements| :: CountOf(a.card.value.countElements[i]).None?
    requires forall i | 0 <= i < |a.card.value.textNodes| :: NodeCountOf(a.card.value.textNodes[i]).None?
    ensures ListingsAsWritten([a], 1).Err?
    ensures Listed([a], RecordOf) == [Entry(UrlOf(a), RecordOf(a))]
    ensures RecordOf(a).reviewCount == "N/A"
  {
    assert FirstListingAt([a], 0);
    assert [a][..0] == [] && [a][..1] == [a];
    ListedStep([a], 1, RecordOf);
  }
}
