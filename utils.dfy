/**
 * The pure string helpers of js/utils.js: whitespace cleaning, file-name sanitising,
 * CSV generation and cell escaping, keyword search, first-match selector lookup and
 * the scrollability test.
 */
module Utils {
  import opened Wrappers
  import opened Text

  /** `s.replace(/X+/g, ' ')`, where `X` is the class `inRun`: every maximal run of `X` becomes one space. */
  function CollapseRuns(s: string, inRun: char -> bool): (r: string)
    ensures r == [] <==> s == []
    ensures r != [] ==> r[0] == (if inRun(s[0]) then ' ' else s[0])
    ensures forall i | 0 <= i < |r| :: r[i] == ' ' || !inRun(r[i])
    ensures inRun(' ') ==> forall i | 0 <= i < |r| - 1 :: !(inRun(r[i]) && inRun(r[i + 1]))
    decreases |s|
  {
    if s == [] then []
    else if inRun(s[0]) then [' '] + CollapseRuns(DropWhile(s[1..], inRun), inRun)
    else [s[0]] + CollapseRuns(s[1..], inRun)
  }

  /** No run character other than a lone `' '` followed by a non-run character. */
  predicate RunsCollapsed(s: string, inRun: char -> bool) {
    forall i | 0 <= i < |s| :: inRun(s[i]) ==> s[i] == ' ' && (i + 1 < |s| ==> !inRun(s[i + 1]))
  }

  /** Collapsing a string whose runs are already single spaces changes nothing. */
  lemma {:induction false} CollapseRunsOfCollapsed(s: string, inRun: char -> bool)
    requires RunsCollapsed(s, inRun)
    ensures CollapseRuns(s, inRun) == s
    decreases |s|
  {
    if s != [] {
      assert RunsCollapsed(s[1..], inRun) by {
        forall i | 0 <= i < |s[1..]| && inRun(s[1..][i])
          ensures s[1..][i] == ' ' && (i + 1 < |s[1..]| ==> !inRun(s[1..][i + 1]))
        {
          assert s[1..][i] == s[i + 1];
        }
      }
      if inRun(s[0]) {
        assert DropWhile(s[1..], inRun) == s[1..];
      }
      CollapseRunsOfCollapsed(s[1..], inRun);
      assert s == [s[0]] + s[1..];
    }
  }

  /** The characters outside the class `inRun`. */
  function Outside(inRun: char -> bool): char -> bool {
    c => !inRun(c)
  }

  /**
   * The maximal runs of characters outside `inRun`, in order: what `s.split(/X+/)` gives once
   * the empty pieces at the two ends are dropped. This is a reference reading of `CollapseRuns`,
   * built from the pieces rather than from the runs.
   */
  function Words(s: string, inRun: char -> bool): seq<string>
    decreases |s|
  {
    var t := DropWhile(s, inRun);
    if t == [] then []
    else
      var n := Leading(t, Outside(inRun));
      assert n > 0 by {
        assert Outside(inRun)(t[0]);
      }
      [t[..n]] + Words(t[n..], inRun)
  }

  /** A non-empty string wholly outside the class. */
  predicate IsPiece(w: string, inRun: char -> bool) {
    w != [] && forall i | 0 <= i < |w| :: !inRun(w[i])
  }

  /** Every piece is non-empty and lies wholly outside the class. */
  lemma {:induction false} WordsArePieces(s: string, inRun: char -> bool)
    ensures forall k | 0 <= k < |Words(s, inRun)| :: IsPiece(Words(s, inRun)[k], inRun)
    decreases |s|
  {
    var t := DropWhile(s, inRun);
    WordsOfDropped(s, inRun);
    if t != [] {
      WordsFromOutside(t, inRun);
      var n := Leading(t, Outside(inRun));
      var rest := Words(t[n..], inRun);
      WordsArePieces(t[n..], inRun);
      assert IsPiece(t[..n], inRun);
      PiecesCons(t[..n], rest, inRun);
    }
  }

  lemma PiecesCons(w: string, ws: seq<string>, inRun: char -> bool)
    requires IsPiece(w, inRun) && forall k | 0 <= k < |ws| :: IsPiece(ws[k], inRun)
    ensures forall k | 0 <= k < |[w] + ws| :: IsPiece(([w] + ws)[k], inRun)
  {
    forall k | 0 <= k < |[w] + ws|
      ensures IsPiece(([w] + ws)[k], inRun)
    {
      if k > 0 {
        assert ([w] + ws)[k] == ws[k - 1];
      }
    }
  }

  /** Put back together, the pieces are exactly the characters of `s` outside the class, in order. */
  lemma {:induction false} WordsCoverOutside(s: string, inRun: char -> bool)
    ensures Concat(Words(s, inRun)) == Filter(s, Outside(inRun))
    decreases |s|
  {
    var t := DropWhile(s, inRun);
    WordsOfDropped(s, inRun);
    FilterAfterDrop(s, inRun);
    if t != [] {
      WordsFromOutside(t, inRun);
      var n := Leading(t, Outside(inRun));
      WordsCoverOutside(t[n..], inRun);
      FilterFirstPiece(t, n, inRun);
      assert ([t[..n]] + Words(t[n..], inRun))[1..] == Words(t[n..], inRun);
    }
  }

  /** The run at the front holds nothing outside the class. */
  lemma FilterAfterDrop(s: string, inRun: char -> bool)
    ensures Filter(s, Outside(inRun)) == Filter(DropWhile(s, inRun), Outside(inRun))
  {
    var t := DropWhile(s, inRun);
    var d := |s| - |t|;
    DropWhileSuffix(s, inRun);
    assert s == s[..d] + t;
    FilterConcat(s[..d], t, Outside(inRun));
    assert forall i | 0 <= i < |s[..d]| :: !Outside(inRun)(s[..d][i]) by {
      assert forall i | 0 <= i < |s[..d]| :: s[..d][i] == s[i];
    }
    FilterNone(s[..d], Outside(inRun));
  }

  /** A first piece outside the class is kept whole. */
  lemma FilterFirstPiece(t: string, n: nat, inRun: char -> bool)
    requires n <= |t| && forall i | 0 <= i < n :: !inRun(t[i])
    ensures Filter(t, Outside(inRun)) == t[..n] + Filter(t[n..], Outside(inRun))
  {
    assert forall i | 0 <= i < n :: Outside(inRun)(t[i]);
    FilterKeptPrefix(t, n, Outside(inRun));
  }

  /** The single space `CollapseRuns` writes for a run at the start of `s`. */
  function LeadSpace(s: string, inRun: char -> bool): string {
    if s != [] && inRun(s[0]) then " " else ""
  }

  /** The single space `CollapseRuns` writes for a run at the end of `s`, after its last piece. */
  function TailSpace(s: string, inRun: char -> bool): string {
    if s != [] && Words(s, inRun) != [] && inRun(s[|s| - 1]) then " " else ""
  }

  lemma JoinCons(w: string, ws: seq<string>, sep: string)
    requires ws != []
    ensures Join([w] + ws, sep) == w + sep + Join(ws, sep)
  {
    assert ([w] + ws)[1..] == ws;
  }

  lemma ConcatRegroup(a: string, b: string, c: string, d: string)
    ensures a + b + (c + d) == (a + b + c) + d
  {
  }

  /** Characters outside the class pass through `CollapseRuns` unchanged. */
  lemma {:induction false} CollapseRunsKeepsOutside(w: string, rest: string, inRun: char -> bool)
    requires forall i | 0 <= i < |w| :: !inRun(w[i])
    ensures CollapseRuns(w + rest, inRun) == w + CollapseRuns(rest, inRun)
    decreases |w|
  {
    if w == [] {
      assert w + rest == rest;
    } else {
      assert (w + rest)[0] == w[0];
      assert (w + rest)[1..] == w[1..] + rest;
      CollapseRunsKeepsOutside(w[1..], rest, inRun);
      assert w == [w[0]] + w[1..];
    }
  }

  /** Leading run characters do not change the pieces. */
  lemma WordsOfDropped(s: string, inRun: char -> bool)
    ensures Words(s, inRun) == Words(DropWhile(s, inRun), inRun)
  {
    DropWhileStable(DropWhile(s, inRun), inRun);
  }

  /** A string that starts outside the class: its first piece, then the pieces of the rest. */
  lemma WordsFromOutside(s: string, inRun: char -> bool)
    requires s != [] && !inRun(s[0])
    ensures 0 < Leading(s, Outside(inRun))
    ensures Words(s, inRun) == [s[..Leading(s, Outside(inRun))]] + Words(s[Leading(s, Outside(inRun))..], inRun)
    ensures forall i | 0 <= i < Leading(s, Outside(inRun)) :: !inRun(s[i])
  {
    DropWhileStable(s, inRun);
    assert Outside(inRun)(s[0]);
    assert forall i | 0 <= i < Leading(s, Outside(inRun)) :: Outside(inRun)(s[i]);
  }

  /** A run at the front becomes one space. */
  lemma CollapseAtRun(s: string, inRun: char -> bool)
    requires s != [] && inRun(s[0])
    ensures CollapseRuns(s, inRun) == " " + CollapseRuns(DropWhile(s, inRun), inRun)
  {
    DropWhileSkips(s, inRun);
  }

  /** A first piece `s[..n]` followed by a run: the piece, one space, then what follows the run. */
  lemma PieceThenRun(s: string, inRun: char -> bool, n: nat)
    requires 0 < n < |s| && (forall i | 0 <= i < n :: !inRun(s[i])) && inRun(s[n])
    ensures CollapseRuns(s, inRun) == s[..n] + " " + CollapseRuns(DropWhile(s[n..], inRun), inRun)
  {
    var w := s[..n];
    var rest := s[n..];
    assert s == w + rest;
    CollapseRunsKeepsOutside(w, rest, inRun);
    CollapseAtRun(rest, inRun);
    ConcatRegroup(w, [], " ", CollapseRuns(DropWhile(rest, inRun), inRun));
    assert w + [] == w;
  }

  /** What follows the run after the first piece: shorter, starting outside the class, with the rest of the pieces and the same last character. */
  lemma AfterPieceAndRun(s: string, inRun: char -> bool, n: nat)
    requires 0 < n < |s| && inRun(s[n])
    requires Words(s, inRun) == [s[..n]] + Words(s[n..], inRun)
    ensures |DropWhile(s[n..], inRun)| < |s|
    ensures DropWhile(s[n..], inRun) == [] || !inRun(DropWhile(s[n..], inRun)[0])
    ensures Words(s, inRun) == [s[..n]] + Words(DropWhile(s[n..], inRun), inRun)
    ensures DropWhile(s[n..], inRun) == [] ==> inRun(s[|s| - 1])
    ensures DropWhile(s[n..], inRun) != [] ==> s[|s| - 1] == DropWhile(s[n..], inRun)[|DropWhile(s[n..], inRun)| - 1]
  {
    var rest := s[n..];
    DropWhileSuffix(rest, inRun);
    WordsOfDropped(rest, inRun);
    assert s[|s| - 1] == rest[|rest| - 1];
  }

  /** Two non-empty strings with pieces that end on the same character get the same trailing space. */
  lemma TailSpaceSameEnd(s: string, r: string, inRun: char -> bool)
    requires s != [] && r != [] && Words(s, inRun) != [] && Words(r, inRun) != []
    requires s[|s| - 1] == r[|r| - 1]
    ensures TailSpace(s, inRun) == TailSpace(r, inRun)
  {
  }

  /** The case of `CollapseFromOutside` where the first piece is followed by a run. */
  lemma {:induction false} CollapseFromOutsideRun(s: string, inRun: char -> bool, n: nat)
    requires 0 < n < |s| && (forall i | 0 <= i < n :: !inRun(s[i])) && inRun(s[n])
    requires Words(s, inRun) == [s[..n]] + Words(s[n..], inRun)
    ensures CollapseRuns(s, inRun) == Join(Words(s, inRun), " ") + TailSpace(s, inRun)
    decreases |s|, 0
  {
    var w := s[..n];
    var r := DropWhile(s[n..], inRun);
    assert CollapseRuns(s, inRun) == w + " " + CollapseRuns(r, inRun) by {
      PieceThenRun(s, inRun, n);
    }
    AfterPieceAndRun(s, inRun, n);
    if r == [] {
      assert Words(s, inRun) == [w];
      assert TailSpace(s, inRun) == " ";
      assert CollapseRuns(r, inRun) == [];
    } else {
      assert CollapseRuns(r, inRun) == Join(Words(r, inRun), " ") + TailSpace(r, inRun) by {
        CollapseFromOutside(r, inRun);
      }
      assert Words(r, inRun) != [] by {
        WordsFromOutside(r, inRun);
      }
      TailSpaceSameEnd(s, r, inRun);
      Assemble(CollapseRuns(s, inRun), w, CollapseRuns(r, inRun), Words(r, inRun), Words(s, inRun), TailSpace(r, inRun));
    }
  }

  /** The string algebra that closes `CollapseFromOutsideRun`. */
  lemma Assemble(cs: string, w: string, cr: string, ws: seq<string>, all: seq<string>, tail: string)
    requires cs == w + " " + cr && all == [w] + ws && ws != [] && cr == Join(ws, " ") + tail
    ensures cs == Join(all, " ") + tail
  {
    JoinCons(w, ws, " ");
    ConcatRegroup(w, " ", Join(ws, " "), tail);
  }

  /** `CollapseRuns` of a string that does not start inside a run: its pieces joined by single spaces, plus the trailing one. */
  lemma {:induction false} CollapseFromOutside(s: string, inRun: char -> bool)
    requires s == [] || !inRun(s[0])
    ensures CollapseRuns(s, inRun) == Join(Words(s, inRun), " ") + TailSpace(s, inRun)
    decreases |s|, 1
  {
    if s != [] {
      WordsFromOutside(s, inRun);
      var n := Leading(s, Outside(inRun));
      if n == |s| {
        assert s[..n] == s;
        assert s == s + [];
        CollapseRunsKeepsOutside(s, [], inRun);
        assert Words(s[n..], inRun) == [];
      } else {
        assert !Outside(inRun)(s[n]);
        CollapseFromOutsideRun(s, inRun, n);
      }
    }
  }

  /**
   * `CollapseRuns` against its reference: the pieces outside the class, in order, joined by one
   * space each, with one more space for a run at either end.
   */
  lemma CollapseRunsAsWords(s: string, inRun: char -> bool)
    ensures CollapseRuns(s, inRun) == LeadSpace(s, inRun) + Join(Words(s, inRun), " ") + TailSpace(s, inRun)
  {
    if s != [] && inRun(s[0]) {
      CollapseAsWordsAtRun(s, inRun);
    } else {
      CollapseAsWordsOutside(s, inRun);
    }
  }

  lemma CollapseAsWordsAtRun(s: string, inRun: char -> bool)
    requires s != [] && inRun(s[0])
    ensures CollapseRuns(s, inRun) == LeadSpace(s, inRun) + Join(Words(s, inRun), " ") + TailSpace(s, inRun)
  {
    CollapseFromRun(s, inRun);
    PrefixLead(CollapseRuns(s, inRun), LeadSpace(s, inRun), " ", Join(Words(s, inRun), " "), TailSpace(s, inRun));
  }

  lemma CollapseAsWordsOutside(s: string, inRun: char -> bool)
    requires s == [] || !inRun(s[0])
    ensures CollapseRuns(s, inRun) == LeadSpace(s, inRun) + Join(Words(s, inRun), " ") + TailSpace(s, inRun)
  {
    CollapseFromOutside(s, inRun);
    assert "" + Join(Words(s, inRun), " ") == Join(Words(s, inRun), " ");
    PrefixLead(CollapseRuns(s, inRun), LeadSpace(s, inRun), "", Join(Words(s, inRun), " "), TailSpace(s, inRun));
  }

  lemma PrefixLead(c: string, lead: string, l: string, j: string, t: string)
    requires lead == l && c == l + j + t
    ensures c == lead + j + t
  {
  }

  /** The case of `CollapseRunsAsWords` where `s` starts with a run. */
  lemma CollapseFromRun(s: string, inRun: char -> bool)
    requires s != [] && inRun(s[0])
    ensures CollapseRuns(s, inRun) == " " + Join(Words(s, inRun), " ") + TailSpace(s, inRun)
  {
    var t := DropWhile(s, inRun);
    CollapseAtRun(s, inRun);
    DropWhileSuffix(s, inRun);
    DropWhileSkips(s, inRun);
    CollapseFromOutside(t, inRun);
    WordsOfDropped(s, inRun);
    if t != [] {
      assert s[|s| - 1] == t[|t| - 1];
    }
    assert TailSpace(s, inRun) == TailSpace(t, inRun);
    var j := Join(Words(t, inRun), " ");
    assert CollapseRuns(s, inRun) == " " + (j + TailSpace(t, inRun));
    ConcatRegroup([], " ", j, TailSpace(t, inRun));
    assert [] + " " == " ";
  }

  lemma PaddingIsSpace(s: string, inRun: char -> bool)
    ensures AllSpace(LeadSpace(s, inRun)) && AllSpace(TailSpace(s, inRun))
  {
  }

  /** Pieces without whitespace, joined by single spaces, give a trimmed string that is empty only without pieces. */
  lemma {:induction false} JoinWordsTrimmed(ws: seq<string>)
    requires forall k | 0 <= k < |ws| :: IsPiece(ws[k], IsSpace)
    ensures IsTrimmed(Join(ws, " "))
    ensures Join(ws, " ") == [] <==> ws == []
  {
    if |ws| > 1 {
      JoinWordsTrimmed(ws[1..]);
      var rest := Join(ws[1..], " ");
      assert Join(ws, " ") == ws[0] + " " + rest;
      assert (ws[0] + " " + rest)[0] == ws[0][0];
      assert (ws[0] + " " + rest)[|ws[0] + " " + rest| - 1] == rest[|rest| - 1];
    }
  }

  /** The `\s+` pass and `trim`: the whitespace-free pieces joined by single spaces. */
  lemma TrimCollapsedSpaces(text: string)
    ensures Trim(CollapseRuns(text, IsSpace)) == Join(Words(text, IsSpace), " ")
  {
    var ws := Words(text, IsSpace);
    var lead, tail := LeadSpace(text, IsSpace), TailSpace(text, IsSpace);
    CollapseRunsAsWords(text, IsSpace);
    WordsArePieces(text, IsSpace);
    JoinWordsTrimmed(ws);
    PaddingIsSpace(text, IsSpace);
    TrimPadded(lead, Join(ws, " "), tail);
  }

  /** The `\n+` pass and `trim`: the newline-free pieces joined by single spaces, then trimmed. */
  lemma TrimCollapsedNewlines(text: string)
    ensures Trim(CollapseRuns(text, IsNewline)) == Trim(Join(Words(text, IsNewline), " "))
  {
    var lead, tail := LeadSpace(text, IsNewline), TailSpace(text, IsNewline);
    CollapseRunsAsWords(text, IsNewline);
    PaddingIsSpace(text, IsNewline);
    TrimAround(lead, Join(Words(text, IsNewline), " "), tail);
  }

  /** `cleanText`: whitespace runs become one space, newline runs one space, then `trim`; '' stays ''. */
  function CleanText(text: string): (r: string)
    ensures r == Join(Words(text, IsSpace), " ")
    ensures text == "" ==> r == ""
    ensures IsTrimmed(r)
    ensures forall i | 0 <= i < |r| :: IsSpace(r[i]) ==> r[i] == ' '
    ensures forall i | 0 <= i < |r| - 1 :: !(IsSpace(r[i]) && IsSpace(r[i + 1]))
  {
    if text == "" then ""
    else
      var collapsed := CollapseRuns(text, IsSpace);
      CollapseNewlinesAfterSpaces(text);
      TrimKeepsSingleSpaces(collapsed);
      TrimCollapsedSpaces(text);
      Trim(CollapseRuns(collapsed, IsNewline))
  }

  /** Trimming a string whose whitespace is single spaces keeps it so. */
  lemma TrimKeepsSingleSpaces(s: string)
    requires forall i | 0 <= i < |s| :: IsSpace(s[i]) ==> s[i] == ' '
    requires forall i | 0 <= i < |s| - 1 :: !(IsSpace(s[i]) && IsSpace(s[i + 1]))
    ensures forall i | 0 <= i < |Trim(s)| :: IsSpace(Trim(s)[i]) ==> Trim(s)[i] == ' '
    ensures forall i | 0 <= i < |Trim(s)| - 1 :: !(IsSpace(Trim(s)[i]) && IsSpace(Trim(s)[i + 1]))
  {
    TrimSlice(s);
    var r := Trim(s);
    assert forall i | 0 <= i < |r| :: r[i] == s[TrimOffset(s) + i];
  }

  /** After the `\s+` pass no newline is left, so the `\n+` pass is the identity. */
  lemma CollapseNewlinesAfterSpaces(text: string)
    ensures CollapseRuns(CollapseRuns(text, IsSpace), IsNewline) == CollapseRuns(text, IsSpace)
  {
    var collapsed := CollapseRuns(text, IsSpace);
    assert RunsCollapsed(collapsed, IsNewline) by {
      forall i | 0 <= i < |collapsed|
        ensures !IsNewline(collapsed[i])
      {
        assert collapsed[i] == ' ' || !IsSpace(collapsed[i]);
      }
    }
    CollapseRunsOfCollapsed(collapsed, IsNewline);
  }

  /** `cleanText` is idempotent. */
  lemma CleanTextIdempotent(text: string)
    ensures CleanText(CleanText(text)) == CleanText(text)
  {
    var r := CleanText(text);
    if r != "" {
      assert RunsCollapsed(r, IsSpace);
      CollapseRunsOfCollapsed(r, IsSpace);
      CollapseNewlinesAfterSpaces(r);
      TrimOfTrimmed(r);
    }
  }

  /** The newline-only cleaning of the injected review extractor: `replace(/\n+/g, ' ').trim()`. */
  function CollapseNewlines(text: string): (r: string)
    ensures r == Trim(Join(Words(text, IsNewline), " "))
    ensures IsTrimmed(r)
    ensures forall i | 0 <= i < |r| :: r[i] != '\n'
  {
    TrimCollapsedNewlines(text);
    TrimmedCollapseNewlineFree(text);
    Trim(CollapseRuns(text, IsNewline))
  }

  /** After the `\n+` pass and `trim` no newline is left. */
  lemma TrimmedCollapseNewlineFree(text: string)
    ensures forall i | 0 <= i < |Trim(CollapseRuns(text, IsNewline))| :: Trim(CollapseRuns(text, IsNewline))[i] != '\n'
  {
    var collapsed := CollapseRuns(text, IsNewline);
    var r := Trim(collapsed);
    TrimSlice(collapsed);
    assert forall i | 0 <= i < |r| :: r[i] == collapsed[TrimOffset(collapsed) + i];
  }

  /** The characters `sanitizeFilename` keeps: `\w`, `\s` and `-`. */
  predicate IsFilenameChar(c: char) { IsWordChar(c) || IsSpace(c) || c == '-' }

  /** The characters `sanitizeFilename` keeps other than whitespace: `\w` and `-`. */
  predicate IsFilenameMark(c: char) { IsWordChar(c) || c == '-' }

  /** The marks are exactly the kept characters that are not whitespace. */
  lemma MarksAreKeptNonSpace()
    ensures forall c :: IsFilenameMark(c) == (IsFilenameChar(c) && NotSpace(c))
  {
  }

  /** Filtering and trimming keep every mark of the name, in order, and no other non-whitespace character. */
  lemma SanitizeKeepsMarks(filename: string)
    ensures Filter(Trim(Filter(filename, IsFilenameChar)), NotSpace) == Filter(filename, IsFilenameMark)
  {
    TrimKeepsNonSpace(Filter(filename, IsFilenameChar));
    MarksAreKeptNonSpace();
    FilterFilter(filename, IsFilenameChar, NotSpace, IsFilenameMark);
  }

  /** `sanitizeFilename`: drop every other character, then `trim`. */
  function SanitizeFilename(filename: string): (r: string)
    ensures forall i | 0 <= i < |r| :: IsFilenameChar(r[i])
    ensures IsTrimmed(r)
    ensures Filter(r, NotSpace) == Filter(filename, IsFilenameMark)
  {
    var kept := Filter(filename, IsFilenameChar);
    var r := Trim(kept);
    TrimSlice(kept);
    SanitizeKeepsMarks(filename);
    assert forall i | 0 <= i < |r| :: r[i] == kept[TrimOffset(kept) + i];
    r
  }

  /** `sanitizeFilename` is idempotent. */
  lemma SanitizeFilenameIdempotent(filename: string)
    ensures SanitizeFilename(SanitizeFilename(filename)) == SanitizeFilename(filename)
  {
    var r := SanitizeFilename(filename);
    FilterOfKept(r, IsFilenameChar);
    TrimOfTrimmed(r);
  }

  /** `s.replace(/"/g, '""')`. */
  function DoubleQuotes(s: string): string {
    if s == [] then [] else (if s[0] == '"' then "\"\"" else [s[0]]) + DoubleQuotes(s[1..])
  }

  /** The inverse reading: every `""` pair back to one `"`. */
  function UndoubleQuotes(s: string): string
    decreases |s|
  {
    if |s| >= 2 && s[0] == '"' && s[1] == '"' then "\"" + UndoubleQuotes(s[2..])
    else if s == [] then []
    else [s[0]] + UndoubleQuotes(s[1..])
  }

  lemma {:induction false} UndoubleDoubleQuotes(s: string)
    ensures UndoubleQuotes(DoubleQuotes(s)) == s
  {
    if s != [] {
      UndoubleDoubleQuotes(s[1..]);
      var rest := DoubleQuotes(s[1..]);
      if s[0] == '"' {
        assert DoubleQuotes(s) == "\"\"" + rest;
        assert (("\"\"" + rest)[2..]) == rest;
      } else {
        assert DoubleQuotes(s) == [s[0]] + rest;
        assert ([s[0]] + rest)[1..] == rest;
      }
      assert s == [s[0]] + s[1..];
    }
  }

  lemma {:induction false} DoubleQuotesCount(s: string)
    ensures Count(DoubleQuotes(s), '"') == 2 * Count(s, '"')
  {
    if s != [] {
      DoubleQuotesCount(s[1..]);
      var head := if s[0] == '"' then "\"\"" else [s[0]];
      CountConcat(head, DoubleQuotes(s[1..]), '"');
    }
  }

  /** Doubling quotes introduces no character other than `"`. */
  lemma {:induction false} DoubleQuotesAvoids(s: string, c: char)
    requires c != '"' && c !in s
    ensures c !in DoubleQuotes(s)
  {
    if s != [] {
      DoubleQuotesAvoids(s[1..], c);
    }
  }

  /** A string without `"` is its own quote-doubling. */
  lemma {:induction false} DoubleQuotesIdentity(s: string)
    requires '"' !in s
    ensures DoubleQuotes(s) == s
  {
    if s != [] {
      assert s == [s[0]] + s[1..];
      DoubleQuotesIdentity(s[1..]);
    }
  }

  /** `escapeCsvCell`. */
  function EscapeCsvCell(content: string): (r: string)
    ensures content == "" ==> r == ""
    ensures Count(r, '"') == 2 * Count(content, '"')
    ensures UndoubleQuotes(r) == content
  {
    DoubleQuotesCount(content);
    UndoubleDoubleQuotes(content);
    if content == "" then "" else DoubleQuotes(content)
  }

  /** A header cell of `generateCSV`: wrapped in quotes, not escaped. */
  function HeaderCell(header: string): string { "\"" + header + "\"" }

  /** A data cell of `generateCSV`: quotes doubled and the result wrapped in quotes ('' for a falsy cell). */
  function DataCell(cell: string): (r: string)
    ensures |r| >= 2 && r[0] == '"' && r[|r| - 1] == '"'
    ensures UndoubleQuotes(r[1..|r| - 1]) == cell
    ensures cell == "" ==> r == "\"\""
  {
    var r := "\"" + DoubleQuotes(cell) + "\"";
    assert r[1..|r| - 1] == DoubleQuotes(cell);
    UndoubleDoubleQuotes(cell);
    r
  }

  function HeaderCells(headers: seq<string>): (r: seq<string>)
    ensures |r| == |headers|
    ensures forall i | 0 <= i < |headers| :: r[i] == HeaderCell(headers[i])
  {
    if headers == [] then [] else [HeaderCell(headers[0])] + HeaderCells(headers[1..])
  }

  function DataCells(row: seq<string>): (r: seq<string>)
    ensures |r| == |row|
    ensures forall i | 0 <= i < |row| :: r[i] == DataCell(row[i])
  {
    if row == [] then [] else [DataCell(row[0])] + DataCells(row[1..])
  }

  function DataLine(row: seq<string>): string { Join(DataCells(row), ",") }

  function DataLines(rows: seq<seq<string>>): (r: seq<string>)
    ensures |r| == |rows|
    ensures forall i | 0 <= i < |rows| :: r[i] == DataLine(rows[i])
  {
    if rows == [] then [] else [DataLine(rows[0])] + DataLines(rows[1..])
  }

  function HeaderLine(headers: seq<string>): string { Join(HeaderCells(headers), ",") }

  /** With no `"` in its cells, a row quoted as a header is the row quoted as data. */
  lemma QuoteFreeLine(row: seq<string>)
    requires forall i | 0 <= i < |row| :: '"' !in row[i]
    ensures HeaderLine(row) == DataLine(row)
  {
    forall i | 0 <= i < |row|
      ensures HeaderCells(row)[i] == DataCells(row)[i]
    {
      DoubleQuotesIdentity(row[i]);
    }
    assert HeaderCells(row) == DataCells(row);
  }

  /** Doubling adds one character per `"`. */
  lemma {:induction false} DoubleQuotesLength(s: string)
    ensures |DoubleQuotes(s)| == |s| + Count(s, '"')
  {
    if s != [] {
      DoubleQuotesLength(s[1..]);
    }
  }

  /** The number of `"` in the cells of a row. */
  function QuoteTotal(row: seq<string>): nat {
    if row == [] then 0 else Count(row[0], '"') + QuoteTotal(row[1..])
  }

  /** A `generateCSV` line is longer than the unescaped one by exactly the number of `"` in its cells. */
  lemma {:induction false} DataLineLength(row: seq<string>)
    ensures |DataLine(row)| == |HeaderLine(row)| + QuoteTotal(row)
  {
    if row != [] {
      DoubleQuotesLength(row[0]);
      if |row| > 1 {
        DataLineLength(row[1..]);
        assert HeaderCells(row)[1..] == HeaderCells(row[1..]);
        assert DataCells(row)[1..] == DataCells(row[1..]);
      } else {
        assert QuoteTotal(row[1..]) == 0;
      }
    }
  }

  /** Lines whose cells are wrapped in quotes with nothing escaped, one per row. */
  function QuotedLines(rows: seq<seq<string>>): (r: seq<string>)
    ensures |r| == |rows|
    ensures forall i | 0 <= i < |rows| :: r[i] == HeaderLine(rows[i])
  {
    if rows == [] then [] else [HeaderLine(rows[0])] + QuotedLines(rows[1..])
  }

  /** With no `"` in any cell, quoting without escaping writes the same lines as `generateCSV`. */
  lemma QuoteFreeLines(rows: seq<seq<string>>)
    requires forall i, j | 0 <= i < |rows| && 0 <= j < |rows[i]| :: '"' !in rows[i][j]
    ensures QuotedLines(rows) == DataLines(rows)
  {
    forall i | 0 <= i < |rows|
      ensures QuotedLines(rows)[i] == DataLines(rows)[i]
    {
      QuoteFreeLine(rows[i]);
    }
  }


  /** `generateCSV`: the header line, then one line per row, joined by '\n'. */
  function GenerateCsv(headers: seq<string>, rows: seq<seq<string>>): string {
    Join([HeaderLine(headers)] + DataLines(rows), "\n")
  }

  /** A CSV whose header and rows are all quoted without escaping. */
  function QuotedCsv(headers: seq<string>, rows: seq<seq<string>>): string {
    Join([HeaderLine(headers)] + QuotedLines(rows), "\n")
  }

  /** With no `"` in any cell, a CSV whose rows are quoted without escaping is the one `generateCSV` writes. */
  lemma QuotedCsvAgrees(headers: seq<string>, rows: seq<seq<string>>)
    requires forall i, j | 0 <= i < |rows| && 0 <= j < |rows[i]| :: '"' !in rows[i][j]
    ensures QuotedCsv(headers, rows) == GenerateCsv(headers, rows)
  {
    QuoteFreeLines(rows);
  }

  predicate NoNewline(cells: seq<string>) {
    forall i | 0 <= i < |cells| :: '\n' !in cells[i]
  }

  /** When no header and no cell holds a newline, the CSV splits into exactly the header line and one line per row. */
  lemma GenerateCsvLines(headers: seq<string>, rows: seq<seq<string>>)
    requires NoNewline(headers)
    requires forall k | 0 <= k < |rows| :: NoNewline(rows[k])
    ensures Split(GenerateCsv(headers, rows), '\n') == [HeaderLine(headers)] + DataLines(rows)
    ensures |Split(GenerateCsv(headers, rows), '\n')| == 1 + |rows|
  {
    var lines := [HeaderLine(headers)] + DataLines(rows);
    JoinAvoids(HeaderCells(headers), ",", '\n');
    forall k | 0 <= k < |rows|
      ensures '\n' !in DataLine(rows[k])
    {
      forall i | 0 <= i < |rows[k]|
        ensures '\n' !in DataCells(rows[k])[i]
      {
        DoubleQuotesAvoids(rows[k][i], '\n');
      }
      JoinAvoids(DataCells(rows[k]), ",", '\n');
    }
    assert forall i | 0 <= i < |lines| :: '\n' !in lines[i] by {
      forall i | 0 <= i < |lines|
        ensures '\n' !in lines[i]
      {
        if i > 0 {
          assert lines[i] == DataLine(rows[i - 1]);
        }
      }
    }
    SplitJoin(lines, '\n');
  }

  /** `containsKeyword` (ASCII case folding). */
  predicate ContainsKeyword(text: string, keywords: Option<seq<string>>) {
    text != "" && keywords.Some? &&
    exists k | k in keywords.value :: Contains(Lower(text), Lower(k))
  }

  /** `keyword` occurs in `text` at position `i`, comparing letters without regard to case. */
  predicate OccursFoldedAt(text: string, keyword: string, i: int) {
    0 <= i && i + |keyword| <= |text| &&
    forall j | 0 <= j < |keyword| :: LowerChar(text[i + j]) == LowerChar(keyword[j])
  }

  lemma FoldedOccurrence(text: string, keyword: string, i: int)
    ensures OccursAt(Lower(text), Lower(keyword), i) <==> OccursFoldedAt(text, keyword, i)
  {
    if OccursFoldedAt(text, keyword, i) {
      assert Lower(text)[i..i + |keyword|] == Lower(keyword);
    }
    if OccursAt(Lower(text), Lower(keyword), i) {
      forall j | 0 <= j < |keyword|
        ensures LowerChar(text[i + j]) == LowerChar(keyword[j])
      {
        assert Lower(text)[i..i + |keyword|][j] == Lower(keyword)[j];
      }
    }
  }

  /** `containsKeyword` is true exactly when the text is non-empty and some keyword occurs in it, ignoring case. */
  lemma ContainsKeywordMeaning(text: string, keywords: Option<seq<string>>)
    ensures ContainsKeyword(text, keywords) <==>
      text != "" && keywords.Some? &&
      exists k, i | k in keywords.value && 0 <= i <= |text| :: OccursFoldedAt(text, k, i)
  {
    if keywords.Some? {
      forall k, i | k in keywords.value && 0 <= i <= |text|
        ensures OccursAt(Lower(text), Lower(k), i) <==> OccursFoldedAt(text, k, i)
      {
        FoldedOccurrence(text, k, i);
      }
    }
  }

  /**
   * `findElement`: the element of the earliest selector in list order that matches, if any. The
   * selectors are left generic so that the extractors' fallback chains, which stop at the first
   * candidate that yields a value, are the same first-match search.
   */
  function FindElement<S, E>(selectors: seq<S>, query: S -> Option<E>): (r: Option<E>)
    ensures r.None? <==> forall i | 0 <= i < |selectors| :: query(selectors[i]).None?
    ensures r.Some? ==> exists i | 0 <= i < |selectors| ::
      query(selectors[i]) == r && forall j | 0 <= j < i :: query(selectors[j]).None?
  {
    if selectors == [] then None
    else if query(selectors[0]).Some? then query(selectors[0])
    else
      var r := FindElement(selectors[1..], query);
      assert forall i | 1 <= i < |selectors| :: selectors[i] == selectors[1..][i - 1];
      r
  }

  /** The first selector's hit, or `default` when no selector hits: a `for … break` search over selectors. */
  function FirstOr<S, E>(selectors: seq<S>, query: S -> Option<E>, default: E): (r: E)
    ensures (forall i | 0 <= i < |selectors| :: query(selectors[i]).None?) ==> r == default
    ensures (exists i | 0 <= i < |selectors| :: query(selectors[i]).Some?) ==> exists i | 0 <= i < |selectors| ::
      query(selectors[i]) == Some(r) && forall j | 0 <= j < i :: query(selectors[j]).None?
  {
    FindElement(selectors, query).GetOr(default)
  }

  /** `findElement`'s loop: try the selectors in order and return the first hit. */
  method FindFirst<S, E>(selectors: seq<S>, query: S -> Option<E>) returns (r: Option<E>)
    ensures r == FindElement(selectors, query)
  {
    for i := 0 to |selectors|
      invariant forall j | 0 <= j < i :: query(selectors[j]).None?
    {
      var hit := query(selectors[i]);
      if hit.Some? {
        FindElementFirst(selectors, i, query);
        return hit;
      }
    }
    return None;
  }

  /** The first selector that matches decides the result. */
  lemma {:induction false} FindElementFirst<S, E>(selectors: seq<S>, i: nat, query: S -> Option<E>)
    requires i < |selectors| && query(selectors[i]).Some?
    requires forall j | 0 <= j < i :: query(selectors[j]).None?
    ensures FindElement(selectors, query) == query(selectors[i])
  {
    if i > 0 {
      assert forall j | 0 <= j < i - 1 :: selectors[1..][j] == selectors[j + 1];
      FindElementFirst(selectors[1..], i - 1, query);
    }
  }

  /** A match among the first `k` selectors is the match over all of them. */
  lemma {:induction false} FindElementPrefix<S, E>(selectors: seq<S>, k: nat, query: S -> Option<E>)
    requires k <= |selectors|
    ensures FindElement(selectors[..k], query).Some? ==> FindElement(selectors, query) == FindElement(selectors[..k], query)
  {
    if k > 0 && query(selectors[0]).None? {
      assert selectors[..k][1..] == selectors[1..][..k - 1];
      FindElementPrefix(selectors[1..], k - 1, query);
    }
  }

  /** The two measures `isScrollable` reads from an element. */
  datatype Extent = Extent(scrollHeight: int, clientHeight: int)

  /** `isScrollable`: an element whose content is more than 10 px taller than its box. */
  predicate IsScrollable(element: Option<Extent>) {
    element.Some? && element.value.scrollHeight > element.value.clientHeight + 10
  }

  /** The levels the browser's `console` has a method for, among those the code passes to `log`. */
  predicate IsConsoleMethod(level: string) {
    level in {"log", "info", "warn", "error", "debug"}
  }

  const ConsoleTypeError := "console[level] is not a function"

  /**
   * `log(message, level)` as written: it calls `console[level]`, which throws a TypeError for a
   * level the console has no method for, such as 'success'.
   */
  function LogAsWritten(level: string): (r: Result<(), string>)
    ensures r.Ok? <==> IsConsoleMethod(level)
    ensures r.Err? ==> r.error == ConsoleTypeError
  {
    if IsConsoleMethod(level) then Ok(()) else Err(ConsoleTypeError)
  }

  /** Every call `log(…, 'success')` throws. */
  lemma SuccessLevelThrows()
    ensures LogAsWritten("success") == Err(ConsoleTypeError)
  {
    assert "success"[0] == 's';
    assert "success" != "log" && "success" != "info" && "success" != "warn";
    assert "success" != "error" && "success" != "debug";
  }
}
