/**
 * Character classes and string primitives with the meaning JavaScript gives them:
 * the `\s` and `\w` regular-expression classes, `String.prototype.trim`, `includes`,
 * `toLowerCase` (ASCII letters), `split(c)[0]`, `split(c)` and `Array.prototype.join`.
 */
module Text {

  /** JavaScript's `\s` class, which is also the set of characters `trim` removes. */
  predicate IsSpace(c: char) {
    c == '\t' || c == '\n' || c == '\U{B}' || c == '\U{C}' || c == '\r' || c == ' '
    || c == '\U{A0}' || c == '\U{1680}' || ('\U{2000}' <= c <= '\U{200A}')
    || c == '\U{2028}' || c == '\U{2029}' || c == '\U{202F}' || c == '\U{205F}'
    || c == '\U{3000}' || c == '\U{FEFF}'
  }

  predicate IsNewline(c: char) { c == '\n' }

  predicate NotSpace(c: char) { !IsSpace(c) }

  predicate IsDigit(c: char) { '0' <= c <= '9' }

  /** JavaScript's `\w` class (no `u` flag): ASCII letters, digits and `_`. */
  predicate IsWordChar(c: char) { 'a' <= c <= 'z' || 'A' <= c <= 'Z' || IsDigit(c) || c == '_' }

  predicate AllDigits(s: string) { forall i | 0 <= i < |s| :: IsDigit(s[i]) }

  function LowerChar(c: char): char {
    if 'A' <= c <= 'Z' then (c as int + 32) as char else c
  }

  /** `toLowerCase`, restricted to the ASCII letters. */
  function Lower(s: string): (r: string)
    ensures |r| == |s|
    ensures forall i | 0 <= i < |s| :: r[i] == LowerChar(s[i])
  {
    if s == [] then [] else [LowerChar(s[0])] + Lower(s[1..])
  }

  predicate StartsWith(s: string, prefix: string) {
    |prefix| <= |s| && s[..|prefix|] == prefix
  }

  predicate OccursAt(s: string, sub: string, i: int) {
    0 <= i && i + |sub| <= |s| && s[i..i + |sub|] == sub
  }

  /** `s.includes(sub)`. */
  predicate Contains(s: string, sub: string) {
    exists i | 0 <= i <= |s| :: OccursAt(s, sub, i)
  }

  /** The number of leading characters of `s` that satisfy `p`. */
  function Leading(s: string, p: char -> bool): (n: nat)
    ensures n <= |s|
    ensures forall i | 0 <= i < n :: p(s[i])
    ensures n == |s| || !p(s[n])
  {
    if s != [] && p(s[0]) then
      var n := 1 + Leading(s[1..], p);
      assert forall i | 1 <= i < n :: s[i] == s[1..][i - 1];
      n
    else 0
  }

  /** The number of trailing characters of `s` that satisfy `p`. */
  function Trailing(s: string, p: char -> bool): (n: nat)
    ensures n <= |s|
    ensures forall i | |s| - n <= i < |s| :: p(s[i])
    ensures n == |s| || !p(s[|s| - 1 - n])
  {
    if s != [] && p(s[|s| - 1]) then
      var n := 1 + Trailing(s[..|s| - 1], p);
      assert forall i | |s| - n <= i < |s| - 1 :: s[i] == s[..|s| - 1][i];
      n
    else 0
  }

  /** Removes the leading characters that satisfy `p`. */
  function DropWhile(s: string, p: char -> bool): (r: string)
    ensures |r| <= |s|
    ensures r == [] || !p(r[0])
  {
    s[Leading(s, p)..]
  }

  /** A string that does not start with a `p` character has nothing to drop. */
  lemma DropWhileStable(s: string, p: char -> bool)
    requires s == [] || !p(s[0])
    ensures DropWhile(s, p) == s
  {
  }

  /** Dropping from a string that starts with a `p` character is dropping from its tail. */
  lemma DropWhileSkips(s: string, p: char -> bool)
    requires s != [] && p(s[0])
    ensures DropWhile(s, p) == DropWhile(s[1..], p)
    ensures |DropWhile(s, p)| < |s|
  {
    assert s[1..][Leading(s[1..], p)..] == s[1 + Leading(s[1..], p)..];
  }

  /** What `DropWhile` leaves is a suffix: it drops only `p` characters from the front. */
  lemma DropWhileSuffix(s: string, p: char -> bool)
    ensures DropWhile(s, p) == s[|s| - |DropWhile(s, p)|..]
    ensures forall i | 0 <= i < |s| - |DropWhile(s, p)| :: p(s[i])
  {
  }

  /** Where `trim`'s result starts in its argument. */
  function TrimOffset(s: string): nat
    ensures TrimOffset(s) <= |s|
  {
    Leading(s, IsSpace)
  }

  /** `trim`: the slice of `s` between its leading and its trailing whitespace. */
  function Trim(s: string): (r: string)
    ensures |r| <= |s|
    ensures r == [] || (!IsSpace(r[0]) && !IsSpace(r[|r| - 1]))
  {
    var a := TrimOffset(s);
    var rest := s[a..];
    rest[..|rest| - Trailing(rest, IsSpace)]
  }

  predicate IsTrimmed(s: string) {
    s == [] || (!IsSpace(s[0]) && !IsSpace(s[|s| - 1]))
  }

  /** `trim` changes nothing on a string without leading or trailing whitespace. */
  lemma TrimOfTrimmed(s: string)
    requires IsTrimmed(s)
    ensures Trim(s) == s
  {
  }

  /** `trim` removes only whitespace, and only at the two ends. */
  lemma TrimSlice(s: string)
    ensures TrimOffset(s) + |Trim(s)| <= |s|
    ensures Trim(s) == s[TrimOffset(s)..TrimOffset(s) + |Trim(s)|]
    ensures forall i | 0 <= i < TrimOffset(s) :: IsSpace(s[i])
    ensures forall i | TrimOffset(s) + |Trim(s)| <= i < |s| :: IsSpace(s[i])
  {
    var a := TrimOffset(s);
    var rest := s[a..];
    var r := Trim(s);
    forall i | a + |r| <= i < |s|
      ensures IsSpace(s[i])
    {
      assert s[i] == rest[i - a];
    }
  }

  /** `trim` adds no character. */
  lemma TrimAvoids(s: string, c: char)
    requires c !in s
    ensures c !in Trim(s)
  {
    TrimSlice(s);
  }

  /** `trim` is idempotent. */
  lemma TrimIdempotent(s: string)
    ensures Trim(Trim(s)) == Trim(s)
  {
    TrimOfTrimmed(Trim(s));
  }

  /** `s.split(c)[0]`: the prefix of `s` up to, not including, the first `c`. */
  function BeforeFirst(s: string, c: char): (r: string)
    ensures |r| <= |s| && r == s[..|r|]
    ensures c !in r
    ensures |r| < |s| ==> s[|r|] == c
  {
    if s == [] || s[0] == c then [] else [s[0]] + BeforeFirst(s[1..], c)
  }

  /** `s.replace(/f/g, t)` for a single character `f`. */
  function ReplaceChar(s: string, f: char, t: char): (r: string)
    ensures |r| == |s|
    ensures forall i | 0 <= i < |s| :: r[i] == if s[i] == f then t else s[i]
  {
    if s == [] then [] else [if s[0] == f then t else s[0]] + ReplaceChar(s[1..], f, t)
  }

  /** Keeps the characters that satisfy `keep`, in order (`s.replace(/[^…]/g, '')`). */
  function Filter(s: string, keep: char -> bool): (r: string)
    ensures |r| <= |s|
    ensures forall i | 0 <= i < |r| :: keep(r[i])
    ensures forall c :: c in r <==> c in s && keep(c)
  {
    if s == [] then []
    else if keep(s[0]) then [s[0]] + Filter(s[1..], keep)
    else Filter(s[1..], keep)
  }

  /** Filtering a string whose characters are all kept changes nothing. */
  lemma {:induction false} FilterOfKept(s: string, keep: char -> bool)
    requires forall i | 0 <= i < |s| :: keep(s[i])
    ensures Filter(s, keep) == s
  {
    if s != [] {
      FilterOfKept(s[1..], keep);
    }
  }

  /** A prefix whose characters are all kept survives filtering whole. */
  lemma FilterKeptPrefix(t: string, n: nat, keep: char -> bool)
    requires n <= |t| && forall i | 0 <= i < n :: keep(t[i])
    ensures Filter(t, keep) == t[..n] + Filter(t[n..], keep)
  {
    assert t == t[..n] + t[n..];
    FilterConcat(t[..n], t[n..], keep);
    assert forall i | 0 <= i < |t[..n]| :: keep(t[..n][i]) by {
      assert forall i | 0 <= i < |t[..n]| :: t[..n][i] == t[i];
    }
    FilterOfKept(t[..n], keep);
  }

  /** Filtering distributes over concatenation: each part is filtered on its own, in order. */
  lemma {:induction false} FilterConcat(s: string, t: string, keep: char -> bool)
    ensures Filter(s + t, keep) == Filter(s, keep) + Filter(t, keep)
  {
    if s == [] {
      assert s + t == t;
    } else {
      assert (s + t)[0] == s[0];
      assert (s + t)[1..] == s[1..] + t;
      FilterConcat(s[1..], t, keep);
    }
  }

  /** With `FilterConcat`, the two base cases that determine `Filter` on every string. */
  lemma FilterSingleton(c: char, keep: char -> bool)
    ensures Filter([], keep) == []
    ensures Filter([c], keep) == if keep(c) then [c] else []
  {
  }

  /** Filtering by `p` and then by `q` is filtering by both at once. */
  lemma {:induction false} FilterFilter(s: string, p: char -> bool, q: char -> bool, both: char -> bool)
    requires forall c :: both(c) == (p(c) && q(c))
    ensures Filter(Filter(s, p), q) == Filter(s, both)
  {
    if s != [] {
      FilterFilter(s[1..], p, q, both);
      if p(s[0]) {
        var rest := Filter(s[1..], p);
        assert ([s[0]] + rest)[1..] == rest;
      }
    }
  }

  /** A string none of whose characters is kept filters to nothing. */
  lemma {:induction false} FilterNone(s: string, keep: char -> bool)
    requires forall i | 0 <= i < |s| :: !keep(s[i])
    ensures Filter(s, keep) == []
  {
    if s != [] {
      FilterNone(s[1..], keep);
    }
  }

  predicate AllSpace(s: string) { forall i | 0 <= i < |s| :: IsSpace(s[i]) }

  /** `Leading` is the one count with all characters before it satisfying `p` and the next one not. */
  lemma LeadingExact(s: string, p: char -> bool, n: nat)
    requires n <= |s| && (forall i | 0 <= i < n :: p(s[i])) && (n == |s| || !p(s[n]))
    ensures Leading(s, p) == n
  {
  }

  /** The same uniqueness for `Trailing`. */
  lemma TrailingExact(s: string, p: char -> bool, n: nat)
    requires n <= |s| && (forall i | |s| - n <= i < |s| :: p(s[i])) && (n == |s| || !p(s[|s| - 1 - n]))
    ensures Trailing(s, p) == n
  {
  }

  /** `trim` of a trimmed string between whitespace padding gives that string back. */
  lemma TrimPadded(a: string, x: string, b: string)
    requires AllSpace(a) && AllSpace(b) && IsTrimmed(x)
    ensures Trim(a + x + b) == x
  {
    var s := a + x + b;
    if x == [] {
      assert AllSpace(s) by {
        forall i | 0 <= i < |s|
          ensures IsSpace(s[i])
        {
          if i < |a| {
            assert s[i] == a[i];
          } else {
            assert s[i] == b[i - |a|];
          }
        }
      }
      LeadingExact(s, IsSpace, |s|);
    } else {
      assert forall i | 0 <= i < |a| :: s[i] == a[i];
      assert s[|a|] == x[0];
      LeadingExact(s, IsSpace, |a|);
      var rest := s[|a|..];
      assert rest == x + b;
      assert forall i | |x| <= i < |rest| :: rest[i] == b[i - |x|];
      assert rest[|x| - 1] == x[|x| - 1];
      TrailingExact(rest, IsSpace, |b|);
      assert rest[..|x|] == x;
    }
  }

  /** Padding none of whose characters is kept does not change what `Filter` keeps. */
  lemma FilterPadded(pre: string, t: string, post: string, keep: char -> bool)
    requires forall i | 0 <= i < |pre| :: !keep(pre[i])
    requires forall i | 0 <= i < |post| :: !keep(post[i])
    ensures Filter(pre + t + post, keep) == Filter(t, keep)
  {
    var ft := Filter(t, keep);
    FilterConcat(pre + t, post, keep);
    FilterConcat(pre, t, keep);
    FilterNone(pre, keep);
    FilterNone(post, keep);
    assert [] + ft + [] == ft;
  }

  /** `trim` drops only whitespace: the other characters stay, in order. */
  lemma TrimKeepsNonSpace(s: string)
    ensures Filter(Trim(s), NotSpace) == Filter(s, NotSpace)
  {
    TrimSlice(s);
    var off := TrimOffset(s);
    var t := Trim(s);
    var pre := s[..off];
    var post := s[off + |t|..];
    SliceThree(s, off, off + |t|);
    FilterPadded(pre, t, post, NotSpace);
  }

  /** Whitespace padding around a string does not change its `trim`. */
  lemma TrimAround(a: string, x: string, b: string)
    requires AllSpace(a) && AllSpace(b)
    ensures Trim(a + x + b) == Trim(x)
  {
    TrimSlice(x);
    var off := TrimOffset(x);
    var t := Trim(x);
    var pre := x[..off];
    var post := x[off + |t|..];
    SliceThree(x, off, off + |t|);
    Regroup(a, pre, t, post, b);
    assert AllSpace(a + pre) && AllSpace(post + b);
    TrimPadded(a + pre, t, post + b);
  }

  lemma SliceThree(x: string, i: nat, j: nat)
    requires i <= j <= |x|
    ensures x == x[..i] + x[i..j] + x[j..]
  {
  }

  lemma Regroup(a: string, p: string, t: string, q: string, b: string)
    ensures a + (p + t + q) + b == (a + p) + t + (q + b)
  {
  }

  /** `parts.join('')`. */
  function Concat(parts: seq<string>): string {
    if parts == [] then "" else parts[0] + Concat(parts[1..])
  }

  /** `parts.join(sep)`. */
  function Join(parts: seq<string>, sep: string): string {
    if |parts| == 0 then ""
    else if |parts| == 1 then parts[0]
    else parts[0] + sep + Join(parts[1..], sep)
  }

  /** `s.split(c)` for a single character `c`; there is always at least one part. */
  function Split(s: string, c: char): (r: seq<string>)
    ensures |r| >= 1
    decreases |s|
  {
    var head := BeforeFirst(s, c);
    if |head| == |s| then [s] else [head] + Split(s[|head| + 1..], c)
  }

  lemma BeforeFirstOfConcat(a: string, c: char, b: string)
    requires c !in a
    ensures BeforeFirst(a + [c] + b, c) == a
  {
    if a != [] {
      assert (a + [c] + b)[1..] == a[1..] + [c] + b;
      BeforeFirstOfConcat(a[1..], c, b);
    }
  }

  /** Splitting at a first separator gives the part before it, then the split of the rest. */
  lemma SplitCons(a: string, c: char, b: string)
    requires c !in a
    ensures Split(a + [c] + b, c) == [a] + Split(b, c)
  {
    var s := a + [c] + b;
    BeforeFirstOfConcat(a, c, b);
    assert s[|a| + 1..] == b;
  }

  /** A join followed by a split on a separator that no part contains gives the parts back. */
  lemma {:induction false} SplitJoin(parts: seq<string>, c: char)
    requires |parts| >= 1
    requires forall i | 0 <= i < |parts| :: c !in parts[i]
    ensures Split(Join(parts, [c]), c) == parts
  {
    if |parts| == 1 {
      assert BeforeFirst(parts[0], c) == parts[0];
    } else {
      var rest := Join(parts[1..], [c]);
      assert Join(parts, [c]) == parts[0] + [c] + rest;
      SplitCons(parts[0], c, rest);
      SplitJoin(parts[1..], c);
      assert parts == [parts[0]] + parts[1..];
    }
  }

  /** A join contains a character only if a part or the separator does. */
  lemma {:induction false} JoinAvoids(parts: seq<string>, sep: string, c: char)
    requires c !in sep
    requires forall i | 0 <= i < |parts| :: c !in parts[i]
    ensures c !in Join(parts, sep)
  {
    if |parts| > 1 {
      JoinAvoids(parts[1..], sep, c);
    }
  }

  /** Number of occurrences of `c` in `s`. */
  function Count(s: string, c: char): nat {
    if s == [] then 0 else (if s[0] == c then 1 else 0) + Count(s[1..], c)
  }

  lemma {:induction false} CountConcat(a: string, b: string, c: char)
    ensures Count(a + b, c) == Count(a, c) + Count(b, c)
  {
    if a != [] {
      assert (a + b)[0] == a[0];
      assert (a + b)[1..] == a[1..] + b;
      CountConcat(a[1..], b, c);
    } else {
      assert a + b == b;
    }
  }
}
