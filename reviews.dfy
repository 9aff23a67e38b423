/**
 * The review pass shared by the two review scrapers (the class in js/scrapers/review-scraper.js
 * and the injected function in js/scrapers/injection-functions.js, copied in popup.js):
 * the restaurant name from the page header, the count of distinct review ids, and the
 * extraction of one row per review with its author / stars / text fallbacks, the
 * `author|stars|text[0..100]` key and the filtering rules. The two copies differ only in how the
 * review text is cleaned, which `TextStyle` selects.
 */
module Reviews {
  import opened Wrappers
  import opened Text
  import opened Utils
  import opened Patterns
  import opened Harvest

  const Anonymous := "Anonymous"
  const UnknownRestaurant := "Unknown Restaurant"

  /** The header text cut at the first '·' and then at the first '(', trimmed after each step. */
  function CutName(raw: string): string {
    Trim(BeforeFirst(Trim(BeforeFirst(Trim(raw), '·')), '('))
  }

  lemma CutNameShape(raw: string)
    ensures '·' !in CutName(raw) && '(' !in CutName(raw) && IsTrimmed(CutName(raw))
  {
    var a := BeforeFirst(Trim(raw), '·');
    var b := BeforeFirst(Trim(a), '(');
    TrimAvoids(a, '·');
    assert forall i | 0 <= i < |b| :: b[i] == Trim(a)[i];
    TrimAvoids(b, '·');
    TrimAvoids(b, '(');
  }

  /** What one header selector yields: its cut text, unless the text is blank, empty once cut, or 'Unknown'. */
  function NameCandidate(text: Option<string>): (r: Option<string>)
    ensures r.Some? ==> r.value != "" && r.value != "Unknown" && '·' !in r.value && '(' !in r.value && IsTrimmed(r.value)
  {
    if text.Some? && Trim(text.value) != "" then
      var name := CutName(text.value);
      CutNameShape(text.value);
      if name != "" && name != "Unknown" then Some(name) else None
    else None
  }

  /**
   * `getRestaurantName`: the first header selector (text content per selector, None when nothing
   * matches) whose cut text is usable, else 'Unknown Restaurant'.
   */
  function RestaurantName(headers: seq<Option<string>>): (name: string)
    ensures name != "" && name != "Unknown" && '·' !in name && '(' !in name && IsTrimmed(name)
    ensures (forall i | 0 <= i < |headers| :: NameCandidate(headers[i]).None?) ==> name == UnknownRestaurant
    ensures name != UnknownRestaurant ==> exists i | 0 <= i < |headers| ::
      NameCandidate(headers[i]) == Some(name) && forall j | 0 <= j < i :: NameCandidate(headers[j]).None?
  {
    assert '·' !in UnknownRestaurant && '(' !in UnknownRestaurant;
    FirstOr(headers, NameCandidate, UnknownRestaurant)
  }

  /** The header loop of `getRestaurantName`, which goes on to the next selector when a text is unusable. */
  method GetRestaurantName(headers: seq<Option<string>>) returns (name: string)
    ensures name == RestaurantName(headers)
  {
    var found := FindFirst(headers, NameCandidate);
    name := found.GetOr(UnknownRestaurant);
  }

  /**
   * One `[data-review-id]` element: whether processing it throws, its id ('' when absent), the
   * raw text of each author selector and of each text selector in order (None when the selector
   * matches nothing), and the aria-label of its star image ('' when absent).
   */
  datatype ReviewElement = ReviewElement(
    fails: bool,
    id: string,
    authorTexts: seq<Option<string>>,
    starLabel: string,
    bodyTexts: seq<Option<string>>)

  /** The ids `countUniqueReviews` collects from the first `n` elements. */
  function IdsBefore(elements: seq<ReviewElement>, n: nat): set<string>
    requires n <= |elements|
  {
    if n == 0 then {}
    else IdsBefore(elements, n - 1) + (if elements[n - 1].id != "" then {elements[n - 1].id} else {})
  }

  /** The collected ids are exactly the non-empty ids among the first `n` elements. */
  lemma {:induction false} IdsBeforeMeaning(elements: seq<ReviewElement>, n: nat)
    requires n <= |elements|
    ensures forall x :: x in IdsBefore(elements, n) <==> x != "" && exists j | 0 <= j < n :: elements[j].id == x
  {
    if n > 0 {
      IdsBeforeMeaning(elements, n - 1);
    }
  }

  /** At most one id per element. */
  lemma {:induction false} IdsBeforeBound(elements: seq<ReviewElement>, n: nat)
    requires n <= |elements|
    ensures |IdsBefore(elements, n)| <= n
  {
    if n > 0 {
      IdsBeforeBound(elements, n - 1);
    }
  }

  /** `countUniqueReviews`: the number of distinct non-empty ids, never more than the number of elements. */
  method CountUniqueReviews(elements: seq<ReviewElement>) returns (count: nat)
    ensures count == |IdsBefore(elements, |elements|)|
    ensures count <= |elements|
  {
    var uniqueIds: set<string> := {};
    for i := 0 to |elements|
      invariant uniqueIds == IdsBefore(elements, i)
    {
      var id := elements[i].id;
      if id != "" {
        uniqueIds := uniqueIds + {id};
      }
    }
    IdsBeforeBound(elements, |elements|);
    count := |uniqueIds|;
  }

  /** What one author selector yields: its trimmed text, unless that is empty. */
  function AuthorCandidate(text: Option<string>): (r: Option<string>)
    ensures r.Some? ==> r.value != "" && IsTrimmed(r.value)
  {
    if text.Some? && Trim(text.value) != "" then Some(Trim(text.value)) else None
  }

  /** The author: the first author selector with non-blank text, else 'Anonymous'. */
  function AuthorOf(e: ReviewElement): (author: string)
    ensures author != "" && IsTrimmed(author)
    ensures (forall i | 0 <= i < |e.authorTexts| :: AuthorCandidate(e.authorTexts[i]).None?) ==> author == Anonymous
    ensures author != Anonymous ==> exists i | 0 <= i < |e.authorTexts| ::
      AuthorCandidate(e.authorTexts[i]) == Some(author) && forall j | 0 <= j < i :: AuthorCandidate(e.authorTexts[j]).None?
  {
    FindElement(e.authorTexts, AuthorCandidate).GetOr(Anonymous)
  }

  /** `(starLabel.match(/(\d+(\.\d+)?)/) || [''])[0]`. */
  function StarsOf(e: ReviewElement): (stars: string)
    ensures stars == "" || IsDecimal(stars)
  {
    FirstDecimal(e.starLabel)
  }

  /**
   * How a review text is cleaned: `cleanText(getTextContent(el))` in the class, and
   * `textContent.replace(/\n+/g, ' ').trim()` in the injected copy.
   */
  datatype TextStyle = Cleaned | NewlinesCollapsed

  /** The class's text selector: its trimmed text through `cleanText`, unless the trimmed text is empty. */
  function CleanedCandidate(text: Option<string>): (r: Option<string>)
    ensures r.Some? <==> text.Some? && Trim(text.value) != ""
    ensures r.Some? ==> r.value == Join(Words(Trim(text.value), IsSpace), " ")
    ensures r.Some? ==> IsTrimmed(r.value) && forall i | 0 <= i < |r.value| - 1 :: !(IsSpace(r.value[i]) && IsSpace(r.value[i + 1]))
  {
    if text.Some? && Trim(text.value) != "" then Some(CleanText(Trim(text.value))) else None
  }

  /** The injected copy's text selector: newline runs become one space, then trim, unless the trimmed text is empty. */
  function CollapsedCandidate(text: Option<string>): (r: Option<string>)
    ensures r.Some? <==> text.Some? && Trim(text.value) != ""
    ensures r.Some? ==> r.value == Trim(Join(Words(text.value, IsNewline), " "))
    ensures r.Some? ==> IsTrimmed(r.value) && forall i | 0 <= i < |r.value| :: r.value[i] != '\n'
  {
    if text.Some? && Trim(text.value) != "" then Some(CollapseNewlines(text.value)) else None
  }

  function TextQuery(style: TextStyle): Option<string> -> Option<string> {
    match style
    case Cleaned => CleanedCandidate
    case NewlinesCollapsed => CollapsedCandidate
  }

  /** The text: the first text selector with non-blank text, cleaned per `style`, else ''. */
  function TextOf(style: TextStyle, e: ReviewElement): (text: string)
    ensures IsTrimmed(text)
    ensures style == NewlinesCollapsed ==> '\n' !in text
    ensures (forall i | 0 <= i < |e.bodyTexts| :: TextQuery(style)(e.bodyTexts[i]).None?) ==> text == ""
    ensures (exists i | 0 <= i < |e.bodyTexts| :: TextQuery(style)(e.bodyTexts[i]).Some?) ==> exists i | 0 <= i < |e.bodyTexts| ::
      TextQuery(style)(e.bodyTexts[i]) == Some(text) && forall j | 0 <= j < i :: TextQuery(style)(e.bodyTexts[j]).None?
  {
    TextCandidatesShape(style);
    FirstOr(e.bodyTexts, TextQuery(style), "")
  }

  /** What a text selector yields is trimmed, and free of newlines in the injected copy. */
  lemma TextCandidatesShape(style: TextStyle)
    ensures forall t :: TextQuery(style)(t).Some? ==>
      IsTrimmed(TextQuery(style)(t).value) && (style == NewlinesCollapsed ==> '\n' !in TextQuery(style)(t).value)
  {
    forall t
      ensures TextQuery(style)(t).Some? ==>
        IsTrimmed(TextQuery(style)(t).value) && (style == NewlinesCollapsed ==> '\n' !in TextQuery(style)(t).value)
    {
      if style == NewlinesCollapsed && TextQuery(style)(t).Some? {
        var v := CollapsedCandidate(t).value;
        assert forall i | 0 <= i < |v| :: v[i] != '\n';
      }
    }
  }

  /** What the loop reads from one element that does not throw. */
  datatype Review = Review(author: string, stars: string, text: string)

  /** The element's author, stars and text, or None when processing it throws. */
  function Parse(style: TextStyle, e: ReviewElement): Option<Review> {
    if e.fails then None else Some(Review(AuthorOf(e), StarsOf(e), TextOf(style, e)))
  }

  /** `Parse` of every element, in order. */
  function ParseAll(style: TextStyle, elements: seq<ReviewElement>): (r: seq<Option<Review>>)
    ensures |r| == |elements|
    ensures forall i | 0 <= i < |elements| :: r[i] == Parse(style, elements[i])
  {
    seq(|elements|, i requires 0 <= i < |elements| => Parse(style, elements[i]))
  }

  /** The dedup key `${author}|${stars}|${text.slice(0, 100)}`. */
  function KeyOf(author: string, stars: string, text: string): string {
    author + "|" + stars + "|" + text[..if |text| < 100 then |text| else 100]
  }

  /** The two fields format the key cannot tell apart: an author holding `|` and a text starting with it. */
  lemma KeyCollision()
    ensures KeyOf("a|1", "", "x") == KeyOf("a", "1", "|x")
    ensures ["a|1", "", "x"] != ["a", "1", "|x"]
  {
  }

  function ReviewKey(r: Review): string {
    KeyOf(r.author, r.stars, r.text)
  }

  /** A parsed element the loop keeps unless its key was seen: it has stars or text, and a named author. */
  predicate Eligible(p: Option<Review>) {
    p.Some? && (p.value.stars != "" || p.value.text != "") && p.value.author != "" && p.value.author != Anonymous
  }

  /** The `seen` set after the first `n` elements: the key of every eligible element among them. */
  function SeenBefore(parsed: seq<Option<Review>>, n: nat): set<string>
    requires n <= |parsed|
  {
    if n == 0 then {}
    else SeenBefore(parsed, n - 1) + (if Eligible(parsed[n - 1]) then {ReviewKey(parsed[n - 1].value)} else {})
  }

  /** Element `i` is pushed: it is eligible and no earlier eligible element had its key. */
  predicate KeptAt(parsed: seq<Option<Review>>, i: nat)
    requires i < |parsed|
  {
    Eligible(parsed[i]) && ReviewKey(parsed[i].value) !in SeenBefore(parsed, i)
  }

  /** The row pushed for a kept element. */
  function ReviewRow(name: string, r: Review): seq<string> {
    [name, r.author, r.stars, r.text]
  }

  /** The rows pushed after the first `n` elements. */
  function RowsBefore(name: string, parsed: seq<Option<Review>>, n: nat): seq<seq<string>>
    requires n <= |parsed|
  {
    if n == 0 then []
    else RowsBefore(name, parsed, n - 1) + (if KeptAt(parsed, n - 1) then [ReviewRow(name, parsed[n - 1].value)] else [])
  }

  /** After `n` elements, the loop of `extractReviews` holds these rows and keys. */
  predicate Accumulated(name: string, parsed: seq<Option<Review>>, n: nat, reviews: seq<seq<string>>, seen: set<string>) {
    n <= |parsed| && reviews == RowsBefore(name, parsed, n) && seen == SeenBefore(parsed, n)
  }

  /** The rows `extractReviews` returns for `elements`. */
  function ReviewRows(name: string, style: TextStyle, elements: seq<ReviewElement>): seq<seq<string>> {
    RowsBefore(name, ParseAll(style, elements), |elements|)
  }

  /** The indices of the kept elements among the first `n`, in order. */
  function KeptIndices(parsed: seq<Option<Review>>, n: nat): seq<nat>
    requires n <= |parsed|
  {
    if n == 0 then []
    else KeptIndices(parsed, n - 1) + (if KeptAt(parsed, n - 1) then [n - 1] else [])
  }

  /** The key a row was deduplicated by. */
  function RowKey(row: seq<string>): string
    requires |row| == 4
  {
    KeyOf(row[1], row[2], row[3])
  }

  /** The `i`-th row is the row of the `i`-th kept element, and the kept indices increase. */
  lemma {:induction false} KeptIndicesMeaning(name: string, parsed: seq<Option<Review>>, n: nat)
    requires n <= |parsed|
    ensures |KeptIndices(parsed, n)| == |RowsBefore(name, parsed, n)|
    ensures forall i | 0 <= i < |KeptIndices(parsed, n)| ::
      && KeptIndices(parsed, n)[i] < n
      && KeptAt(parsed, KeptIndices(parsed, n)[i])
      && RowsBefore(name, parsed, n)[i] == ReviewRow(name, parsed[KeptIndices(parsed, n)[i]].value)
    ensures forall i, j | 0 <= i < j < |KeptIndices(parsed, n)| :: KeptIndices(parsed, n)[i] < KeptIndices(parsed, n)[j]
  {
    if n > 0 {
      KeptIndicesMeaning(name, parsed, n - 1);
    }
  }

  /** Every kept element among the first `n` is listed. */
  lemma {:induction false} KeptIndicesComplete(parsed: seq<Option<Review>>, n: nat, k: nat)
    requires k < n <= |parsed| && KeptAt(parsed, k)
    ensures k in KeptIndices(parsed, n)
  {
    if k < n - 1 {
      KeptIndicesComplete(parsed, n - 1, k);
    }
  }

  /** The seen set holds exactly the keys of the eligible elements so far. */
  lemma {:induction false} SeenBeforeMeaning(parsed: seq<Option<Review>>, n: nat)
    requires n <= |parsed|
    ensures forall x :: x in SeenBefore(parsed, n) <==>
      exists k | 0 <= k < n :: Eligible(parsed[k]) && ReviewKey(parsed[k].value) == x
  {
    if n > 0 {
      SeenBeforeMeaning(parsed, n - 1);
    }
  }

  /** An eligible element's key is in every later seen set. */
  lemma {:induction false} SeenMonotone(parsed: seq<Option<Review>>, k: nat, n: nat)
    requires k < n <= |parsed| && Eligible(parsed[k])
    ensures ReviewKey(parsed[k].value) in SeenBefore(parsed, n)
  {
    if k < n - 1 {
      SeenMonotone(parsed, k, n - 1);
    }
  }

  /** Every row has the restaurant's name, a named author other than 'Anonymous', and stars or text. */
  lemma RowsEligible(name: string, style: TextStyle, elements: seq<ReviewElement>)
    ensures forall i | 0 <= i < |ReviewRows(name, style, elements)| ::
      var row := ReviewRows(name, style, elements)[i];
      |row| == 4 && row[0] == name && row[1] != "" && row[1] != Anonymous && (row[2] != "" || row[3] != "")
  {
    RowsBeforeEligible(name, ParseAll(style, elements), |elements|);
  }

  /** `RowsEligible` for any parses: the fields the filters test. */
  lemma RowsBeforeEligible(name: string, parsed: seq<Option<Review>>, n: nat)
    requires n <= |parsed|
    ensures forall i | 0 <= i < |RowsBefore(name, parsed, n)| ::
      var row := RowsBefore(name, parsed, n)[i];
      |row| == 4 && row[0] == name && row[1] != "" && row[1] != Anonymous && (row[2] != "" || row[3] != "")
  {
    KeptIndicesMeaning(name, parsed, n);
  }

  /** `row` is the restaurant name with the author, stars and text of `e`, an element that does not throw. */
  predicate RowOfElement(name: string, style: TextStyle, e: ReviewElement, row: seq<string>) {
    !e.fails && row == [name, AuthorOf(e), StarsOf(e), TextOf(style, e)]
  }

  /** Each row is the author, stars and text of an element that does not throw, in element order. */
  lemma RowsFromElements(name: string, style: TextStyle, elements: seq<ReviewElement>)
    ensures |ReviewRows(name, style, elements)| <= |elements|
    ensures forall i | 0 <= i < |ReviewRows(name, style, elements)| ::
      exists k | 0 <= k < |elements| :: RowOfElement(name, style, elements[k], ReviewRows(name, style, elements)[i])
  {
    var parsed := ParseAll(style, elements);
    var ks := KeptIndices(parsed, |elements|);
    KeptIndicesMeaning(name, parsed, |elements|);
    IncreasingBound(ks, |elements|);
    forall i | 0 <= i < |ReviewRows(name, style, elements)|
      ensures exists k | 0 <= k < |elements| :: RowOfElement(name, style, elements[k], ReviewRows(name, style, elements)[i])
    {
      var k := ks[i];
      var e := elements[k];
      assert KeptAt(parsed, k);
      assert parsed[k] == Parse(style, e);
      assert !e.fails;
      assert parsed[k].value == Review(AuthorOf(e), StarsOf(e), TextOf(style, e));
      assert ReviewRows(name, style, elements)[i] == ReviewRow(name, parsed[k].value);
      assert RowOfElement(name, style, e, ReviewRows(name, style, elements)[i]);
    }
  }

  /** A strictly increasing sequence of indices below `n` has at most `n` entries. */
  lemma {:induction false} IncreasingBound(ks: seq<nat>, n: nat)
    requires forall i | 0 <= i < |ks| :: ks[i] < n
    requires forall i, j | 0 <= i < j < |ks| :: ks[i] < ks[j]
    ensures |ks| <= n
  {
    if ks != [] {
      var last := ks[|ks| - 1];
      IncreasingBound(ks[..|ks| - 1], last);
    }
  }

  /** No two rows share a key. */
  lemma RowKeysDistinct(name: string, style: TextStyle, elements: seq<ReviewElement>)
    ensures forall i | 0 <= i < |ReviewRows(name, style, elements)| :: |ReviewRows(name, style, elements)[i]| == 4
    ensures forall i, j | 0 <= i < j < |ReviewRows(name, style, elements)| ::
      RowKey(ReviewRows(name, style, elements)[i]) != RowKey(ReviewRows(name, style, elements)[j])
  {
    var parsed := ParseAll(style, elements);
    var rows := RowsBefore(name, parsed, |elements|);
    var ks := KeptIndices(parsed, |elements|);
    KeptIndicesMeaning(name, parsed, |elements|);
    forall i, j | 0 <= i < j < |rows|
      ensures RowKey(rows[i]) != RowKey(rows[j])
    {
      SeenMonotone(parsed, ks[i], ks[j]);
    }
  }

  /** The earliest eligible element with `key`, at or before `m`: it is kept. */
  lemma {:induction false} FirstWithKey(parsed: seq<Option<Review>>, m: nat, key: string) returns (first: nat)
    requires m < |parsed| && Eligible(parsed[m]) && ReviewKey(parsed[m].value) == key
    ensures first <= m && KeptAt(parsed, first) && ReviewKey(parsed[first].value) == key
    decreases m
  {
    if KeptAt(parsed, m) {
      first := m;
    } else {
      SeenBeforeMeaning(parsed, m);
      var m' :| 0 <= m' < m && Eligible(parsed[m']) && ReviewKey(parsed[m'].value) == key;
      first := FirstWithKey(parsed, m', key);
    }
  }

  /**
   * Nothing eligible is lost but duplicates: every eligible element's key is the key of a row
   * taken from that element or an earlier one.
   */
  lemma FirstKeyWins(name: string, parsed: seq<Option<Review>>, k: nat)
    requires k < |parsed| && Eligible(parsed[k])
    ensures exists i, j | 0 <= i < |RowsBefore(name, parsed, |parsed|)| && 0 <= j <= k ::
      && parsed[j].Some?
      && RowsBefore(name, parsed, |parsed|)[i] == ReviewRow(name, parsed[j].value)
      && ReviewKey(parsed[j].value) == ReviewKey(parsed[k].value)
  {
    var ks := KeptIndices(parsed, |parsed|);
    KeptIndicesMeaning(name, parsed, |parsed|);
    var first := FirstWithKey(parsed, k, ReviewKey(parsed[k].value));
    KeptIndicesComplete(parsed, |parsed|, first);
    var i :| 0 <= i < |ks| && ks[i] == first;
  }

  /** What the loop body reads from one element before filtering it: author, stars and text. */
  method ParseElement(style: TextStyle, element: ReviewElement) returns (p: Option<Review>)
    ensures p == Parse(style, element)
  {
    // A DOM call in the body throws: the catch logs it and the loop moves on.
    if element.fails {
      return None;
    }
    var authorHit := FindFirst(element.authorTexts, AuthorCandidate);
    var author := authorHit.GetOr(Anonymous);
    var stars := FirstDecimal(element.starLabel);
    var textHit := FindFirst(element.bodyTexts, TextQuery(style));
    var text := textHit.GetOr("");
    return Some(Review(author, stars, text));
  }

  /** The reading half of one pass of the loop body: element `i`, parsed. */
  method ParseAt(style: TextStyle, elements: seq<ReviewElement>, ghost parsed: seq<Option<Review>>, i: nat) returns (p: Option<Review>)
    requires parsed == ParseAll(style, elements) && i < |elements|
    ensures i < |parsed| && p == parsed[i]
  {
    p := ParseElement(style, elements[i]);
  }

  /** The filtering half of one pass of the loop body, on the element `p` read at index `i`. */
  method AddReview(name: string, ghost parsed: seq<Option<Review>>, i: nat, p: Option<Review>,
                   reviews: seq<seq<string>>, seen: set<string>)
    returns (reviews': seq<seq<string>>, seen': set<string>)
    requires i < |parsed| && p == parsed[i]
    requires Accumulated(name, parsed, i, reviews, seen)
    ensures Accumulated(name, parsed, i + 1, reviews', seen')
  {
    reviews', seen' := reviews, seen;
    if p.None? {
      return;
    }
    var Review(author, stars, text) := p.value;
    if stars == "" && text == "" {
      return;
    }
    var key := KeyOf(author, stars, text);
    if author != "" && author != Anonymous && key !in seen {
      seen' := seen + {key};
      reviews' := reviews + [[name, author, stars, text]];
    }
  }

  /**
   * `extractReviews`: one row `[name, author, stars, text]` per element that does not throw, has
   * stars or text, has a named author and a key not seen before, in element order.
   */
  method ExtractReviews(name: string, style: TextStyle, elements: seq<ReviewElement>) returns (reviews: seq<seq<string>>)
    ensures reviews == ReviewRows(name, style, elements)
  {
    ghost var parsed := ParseAll(style, elements);
    reviews := [];
    var seen: set<string> := {};
    for i := 0 to |elements|
      invariant Accumulated(name, parsed, i, reviews, seen)
    {
      var p := ParseAt(style, elements, parsed, i);
      reviews, seen := AddReview(name, parsed, i, p, reviews, seen);
    }
  }

  /** A parsed element's stars hold no `"`: they are '' or a decimal numeral. */
  lemma ParsedStarsQuoteFree(style: TextStyle, e: ReviewElement)
    ensures Parse(style, e).Some? ==> '"' !in Parse(style, e).value.stars
  {
    var stars := StarsOf(e);
    assert forall j | 0 <= j < |stars| :: stars[j] != '"';
  }

  /** No row's stars hold a `"`. */
  lemma RowStarsQuoteFree(name: string, style: TextStyle, elements: seq<ReviewElement>)
    ensures forall i | 0 <= i < |ReviewRows(name, style, elements)| ::
      |ReviewRows(name, style, elements)[i]| == 4 && '"' !in ReviewRows(name, style, elements)[i][2]
  {
    var parsed := ParseAll(style, elements);
    forall k | 0 <= k < |parsed|
      ensures parsed[k].Some? ==> '"' !in parsed[k].value.stars
    {
      ParsedStarsQuoteFree(style, elements[k]);
    }
    KeptIndicesMeaning(name, parsed, |elements|);
  }

  const ScrollingPhase := "Scrolling to load reviews"
  const LoadingPhase := "Loading reviews"
  const ProcessingPhase := "Processing reviews"
  const PaneMissingPrefix := "Reviews pane not found - "
  const ReviewHeader := ["Restaurant", "Reviewer", "Stars", "Review"]

  /**
   * The reviews pane: its pages of growth while scrolling, where a probe's counts are
   * `countUniqueReviews` of the pane at the top of the tick and after the scroll wait, and its
   * review elements once the loop ends.
   */
  datatype ReviewPane = ReviewPane(page: Page, elements: seq<ReviewElement>)

  /**
   * What a review scrape finds: the header selectors' texts, whether `clickReviewsTab` found and
   * clicked a tab, whether a stop arrived during the waits after the click, the pane
   * `findReviewsPane` returns, and whether any review-like element is on the page.
   */
  datatype ReviewSite = ReviewSite(
    headers: seq<Option<string>>,
    tabFound: bool,
    stopDuringTabWait: bool,
    pane: Option<ReviewPane>,
    hasReviewElements: bool)

  /** The stop flag as the loop starts: only the waits after a tab click let a stop message in. */
  predicate StopBeforeLoop(site: ReviewSite) {
    site.tabFound && site.stopDuringTabWait
  }

  /** The error for a missing pane: no review elements at all, else no tab clicked, else a general hint. */
  function PaneMissingMessage(hasReviewElements: bool, tabClicked: bool): (message: string)
    ensures |message| > |PaneMissingPrefix| && message[..|PaneMissingPrefix|] == PaneMissingPrefix
    ensures !hasReviewElements ==> message == PaneMissingPrefix + "this place might not have any reviews yet."
    ensures hasReviewElements && !tabClicked ==> message == PaneMissingPrefix + "could not find or click the Reviews tab."
    ensures hasReviewElements && tabClicked ==> message == PaneMissingPrefix + "make sure you're on a restaurant page with reviews."
  {
    PaneMissingPrefix +
      if !hasReviewElements then "this place might not have any reviews yet."
      else if !tabClicked then "could not find or click the Reviews tab."
      else "make sure you're on a restaurant page with reviews."
  }

  /** The 'Loading reviews' report after a growth: the count measured after the scroll. */
  function LoadingReport(maxReviews: Option<int>): Probe -> Message {
    (probe: Probe) => ScrapingProgress(probe.measure, maxReviews, LoadingPhase)
  }

  /** The 'Loading reviews' counts a loop sends strictly increase, and all exceed the start value 0. */
  lemma LoadingCountsIncrease(p: Page, maxReviews: Option<int>, n: nat)
    ensures var reports := GrowthReports(p, 0, n, LoadingReport(maxReviews));
      && (forall i | 0 <= i < |reports| :: reports[i].ScrapingProgress? && reports[i].phase == LoadingPhase && reports[i].reviewCount > 0)
      && (forall i, j | 0 <= i < j < |reports| :: reports[i].reviewCount < reports[j].reviewCount)
  {
    var ticks := GrowthTicks(p, 0, n);
    GrowthReportsMeaning(p, 0, n, LoadingReport(maxReviews));
    GrowthValuesIncrease(p, 0, n);
    assert forall i | 0 <= i < |ticks| :: GrowthValues(p, ticks)[i] == At(p, ticks[i]).measure;
  }

  /** The file `downloadReviewsCSV` names: the sanitised restaurant name with `_reviews.csv`. */
  function ReviewsFilename(name: string): (filename: string)
    ensures |filename| >= 12 && filename[|filename| - 12..] == "_reviews.csv"
    ensures forall i | 0 <= i < |filename| - 12 :: IsFilenameChar(filename[i])
  {
    SanitizeFilename(name) + "_reviews.csv"
  }
}
