/**
 * The regular expressions the extractors match, each written out as the leftmost match a
 * JavaScript `String.prototype.match` finds. Every pattern here is a run of digits followed by
 * optional pieces that cannot start with a digit, so the greedy reading at a start position is
 * the only one that can succeed there and no backtracking has to be modelled.
 */
module Patterns {
  import opened Wrappers
  import opened Text

  /** The length of the run of characters satisfying `p` that starts at `i`. */
  function RunLength(s: string, i: nat, p: char -> bool): (n: nat)
    requires i <= |s|
    ensures i + n <= |s|
    ensures forall j | i <= j < i + n :: p(s[j])
    ensures i + n == |s| || !p(s[i + n])
    decreases |s| - i
  {
    if i < |s| && p(s[i]) then 1 + RunLength(s, i + 1, p) else 0
  }

  /** The first index in `[from, to)` that satisfies `P`, if any. */
  function FirstIndex(from: nat, to: nat, P: nat -> bool): (r: Option<nat>)
    ensures r.Some? ==> from <= r.value < to && P(r.value) && forall j | from <= j < r.value :: !P(j)
    ensures r.None? ==> forall j | from <= j < to :: !P(j)
    decreases if from < to then to - from else 0
  {
    if from >= to then None
    else if P(from) then Some(from)
    else FirstIndex(from + 1, to, P)
  }

  predicate DigitAt(s: string, i: nat) { i < |s| && IsDigit(s[i]) }

  /** `\d+(\.\d+)?` matched greedily from a digit at `i`: where the match ends. */
  function DecimalEnd(s: string, i: nat): (e: nat)
    requires DigitAt(s, i)
    ensures i < e <= |s|
  {
    var e := i + RunLength(s, i, IsDigit);
    if e + 1 < |s| && s[e] == '.' && IsDigit(s[e + 1]) then e + 1 + RunLength(s, e + 1, IsDigit) else e
  }

  /** A decimal numeral: digits, then optionally one '.' with digits after it. */
  predicate IsDecimal(t: string) {
    |t| > 0 && IsDigit(t[0]) && IsDigit(t[|t| - 1]) &&
    (forall j | 0 <= j < |t| :: IsDigit(t[j]) || t[j] == '.') &&
    (forall j, l | 0 <= j < l < |t| && t[j] == '.' :: t[l] != '.')
  }

  predicate NoDigitBefore(s: string, i: nat) {
    forall j | 0 <= j < i && j < |s| :: !IsDigit(s[j])
  }

  /** `(s.match(/(\d+(\.\d+)?)/) || [''])[0]`: the first decimal numeral in `s`, or "". */
  function FirstDecimal(s: string): (r: string)
    ensures r == "" <==> forall j | 0 <= j < |s| :: !IsDigit(s[j])
    ensures r != "" ==> IsDecimal(r)
    ensures r != "" ==> exists i | 0 <= i < |s| :: OccursAt(s, r, i) && NoDigitBefore(s, i)
  {
    var P := (i: nat) => DigitAt(s, i);
    assert forall j | 0 <= j < |s| :: P(j) == IsDigit(s[j]);
    match FirstIndex(0, |s|, P)
    case None => ""
    case Some(i) =>
      var r := s[i..DecimalEnd(s, i)];
      DecimalShape(s, i);
      assert OccursAt(s, r, i) && NoDigitBefore(s, i);
      r
  }

  lemma DecimalShape(s: string, i: nat)
    requires DigitAt(s, i)
    ensures IsDecimal(s[i..DecimalEnd(s, i)])
  {
    var e := i + RunLength(s, i, IsDigit);
    var t := s[i..DecimalEnd(s, i)];
    if e + 1 < |s| && s[e] == '.' && IsDigit(s[e + 1]) {
      var f := e + 1 + RunLength(s, e + 1, IsDigit);
      assert forall j | 0 <= j < |t| :: t[j] == s[i + j];
      assert forall j | 0 <= j < |t| && t[j] == '.' :: i + j == e;
    } else {
      assert forall j | 0 <= j < |t| :: t[j] == s[i + j];
    }
  }

  /** `\d+\.?\d*` matched greedily from a digit at `i`: where the match ends. */
  function LooseEnd(s: string, i: nat): (e: nat)
    requires DigitAt(s, i)
    ensures i < e <= |s|
  {
    var e := i + RunLength(s, i, IsDigit);
    var f := if e < |s| && s[e] == '.' then e + 1 else e;
    f + RunLength(s, f, IsDigit)
  }

  /** A loose numeral: digits, then optionally a '.' and more digits (the '.' may end it). */
  predicate IsLooseNumber(t: string) {
    |t| > 0 && IsDigit(t[0]) &&
    (forall j | 0 <= j < |t| :: IsDigit(t[j]) || t[j] == '.') &&
    (forall j, l | 0 <= j < l < |t| && t[j] == '.' :: t[l] != '.')
  }

  lemma LooseShape(s: string, i: nat)
    requires DigitAt(s, i)
    ensures IsLooseNumber(s[i..LooseEnd(s, i)])
  {
    var e := i + RunLength(s, i, IsDigit);
    var t := s[i..LooseEnd(s, i)];
    assert forall j | 0 <= j < |t| :: t[j] == s[i + j];
    assert forall j | 0 <= j < |t| && t[j] == '.' :: i + j == e;
  }

  /** `needle` (lower case) follows at `k`, ignoring ASCII case. */
  predicate WordAt(s: string, k: nat, needle: string) {
    k + |needle| <= |s| && Lower(s[k..k + |needle|]) == needle
  }

  /** `(\d+\.?\d*)\s*star` matches at `i` under the `i` flag. */
  predicate StarMatchAt(s: string, i: nat) {
    DigitAt(s, i) &&
    var k := LooseEnd(s, i);
    WordAt(s, k + RunLength(s, k, IsSpace), "star")
  }

  /** `ariaLabel.match(/(\d+\.?\d*)\s*star/i)`, group 1: the number in front of the first "star". */
  function RatingBeforeStar(s: string): (r: Option<string>)
    ensures r.Some? ==> IsLooseNumber(r.value)
    ensures r.None? <==> forall i | 0 <= i < |s| :: !StarMatchAt(s, i)
  {
    var P := (i: nat) => StarMatchAt(s, i);
    assert forall j | 0 <= j < |s| :: P(j) == StarMatchAt(s, j);
    match FirstIndex(0, |s|, P)
    case None => None
    case Some(i) =>
      LooseShape(s, i);
      Some(s[i..LooseEnd(s, i)])
  }

  /** `textContent.match(/(\d+\.?\d*)/)`, group 1: the first number in the text. */
  function LooseNumber(s: string): (r: Option<string>)
    ensures r.Some? ==> IsLooseNumber(r.value)
    ensures r.None? <==> forall i | 0 <= i < |s| :: !IsDigit(s[i])
  {
    var P := (i: nat) => DigitAt(s, i);
    assert forall j | 0 <= j < |s| :: P(j) == IsDigit(s[j]);
    match FirstIndex(0, |s|, P)
    case None => None
    case Some(i) =>
      LooseShape(s, i);
      Some(s[i..LooseEnd(s, i)])
  }

  /** `\d+(?:,\d+)*` matched greedily from a digit at `i`: where the match ends. */
  function GroupedEnd(s: string, i: nat): (e: nat)
    requires DigitAt(s, i)
    ensures i < e <= |s|
    ensures forall j | i <= j < e :: IsDigit(s[j]) || s[j] == ','
    ensures IsDigit(s[e - 1])
    ensures e == |s| || !IsDigit(s[e])
    decreases |s| - i
  {
    var e := i + RunLength(s, i, IsDigit);
    if e + 1 < |s| && s[e] == ',' && IsDigit(s[e + 1]) then GroupedEnd(s, e + 1) else e
  }

  /** `\((\d+(?:,\d+)*)\)` matches at `i`. */
  predicate ParenMatchAt(s: string, i: nat) {
    i < |s| && s[i] == '(' && DigitAt(s, i + 1) && GroupedEnd(s, i + 1) < |s| && s[GroupedEnd(s, i + 1)] == ')'
  }

  /** `(\d+(?:,\d+)*)\s*review` matches at `i` under the `i` flag. */
  predicate ReviewWordMatchAt(s: string, i: nat) {
    DigitAt(s, i) &&
    var e := GroupedEnd(s, i);
    WordAt(s, e + RunLength(s, e, IsSpace), "review")
  }

  /** Group 1 or group 2 of the alternation at `i`, with its commas removed. */
  function CountAt(s: string, i: nat): (r: Option<string>)
    ensures r.Some? <==> ParenMatchAt(s, i) || ReviewWordMatchAt(s, i)
    ensures r.Some? ==> |r.value| > 0 && AllDigits(r.value)
  {
    if ParenMatchAt(s, i) then Some(DigitsOf(s, i + 1))
    else if ReviewWordMatchAt(s, i) then Some(DigitsOf(s, i))
    else None
  }

  /** The grouped number at a digit `i` with its commas removed (`replace(/,/g, '')`). */
  function DigitsOf(s: string, i: nat): (r: string)
    requires DigitAt(s, i)
    ensures |r| > 0 && AllDigits(r)
  {
    var t := s[i..GroupedEnd(s, i)];
    assert forall j | 0 <= j < |t| :: t[j] == s[i + j];
    var r := Filter(t, c => c != ',');
    assert t[0] in r;
    r
  }

  /**
   * `text.match(/\((\d+(?:,\d+)*)\)|(\d+(?:,\d+)*)\s*review/i)`, then `m[1] || m[2]` with the
   * commas removed: the review count written "(1,234)" or "1,234 reviews", whichever comes first.
   */
  function ReviewCountIn(s: string): (r: Option<string>)
    ensures r.Some? ==> |r.value| > 0 && AllDigits(r.value)
    ensures r.None? <==> forall i | 0 <= i < |s| :: !ParenMatchAt(s, i) && !ReviewWordMatchAt(s, i)
  {
    var P := (i: nat) => CountAt(s, i).Some?;
    assert forall j | 0 <= j < |s| :: P(j) == (ParenMatchAt(s, j) || ReviewWordMatchAt(s, j));
    match FirstIndex(0, |s|, P)
    case None => None
    case Some(i) => CountAt(s, i)
  }

  /** `text.match(/\((\d+(?:,\d+)*)\)/)`, group 1 with the commas removed. */
  function ParenCount(s: string): (r: Option<string>)
    ensures r.Some? ==> |r.value| > 0 && AllDigits(r.value)
    ensures r.None? <==> forall i | 0 <= i < |s| :: !ParenMatchAt(s, i)
  {
    var P := (i: nat) => ParenMatchAt(s, i);
    assert forall j | 0 <= j < |s| :: P(j) == ParenMatchAt(s, j);
    match FirstIndex(0, |s|, P)
    case None => None
    case Some(i) => Some(DigitsOf(s, i + 1))
  }

  /** `/\(\d+\)/` matches at `i`: a parenthesised run of plain digits. */
  predicate PlainParenAt(s: string, i: nat) {
    i < |s| && s[i] == '(' && DigitAt(s, i + 1) &&
    var e := i + 1 + RunLength(s, i + 1, IsDigit);
    e < |s| && s[e] == ')'
  }

  /** Text that passes the `/\(\d+\)/` test always yields a count from `/\((\d+(?:,\d+)*)\)/`. */
  lemma PlainParenGivesCount(s: string, i: nat)
    requires PlainParenAt(s, i)
    ensures ParenCount(s).Some?
  {
    assert GroupedEnd(s, i + 1) == i + 1 + RunLength(s, i + 1, IsDigit);
    assert ParenMatchAt(s, i);
  }
}
