/** How a wrapped text falls into paragraphs, and each paragraph into lines. */
module TextParagraphs {
  import opened Text
  import opened TextLayout
  import opened Collections

  // ---------------------------------------------------------------- Line ends

  predicate EndsInReturn(s: string) {
    s != "" && s[|s| - 1] == '\r'
  }

  lemma UnifyStep(s: string)
    requires s != ""
    ensures Unify(s) == if |s| >= 2 && s[0] == '\r' && s[1] == '\n' then ['\n'] + Unify(s[2..])
                        else [s[0]] + Unify(s[1..])
  {
  }

  /** A line end, plain or as Windows writes it, becomes one newline between what stands around it. */
  lemma {:induction false} UnifySeam(a: string, end: string, b: string)
    requires (end == "\n" && !EndsInReturn(a)) || end == "\r\n"
    ensures Unify(a + end + b) == Unify(a) + (['\n'] + Unify(b))
    decreases |a|
  {
    hide Unify;
    var s := a + end + b;
    UnifyStep(s);
    if a == "" {
      UnifyNothing();
      assert s == end + b && s[|end|..] == b;
    } else {
      UnifyStep(a);
      var n := if |a| >= 2 && a[0] == '\r' && a[1] == '\n' then 2 else 1;
      SeamPast(a, end, b, n);
      UnifySeam(a[n..], end, b);
      Associate(if n == 2 then ['\n'] else [a[0]], Unify(a[n..]), ['\n'] + Unify(b));
    }
  }

  lemma SeamPast(a: string, end: string, b: string, n: nat)
    requires end != "" && 1 <= n <= |a|
    ensures var s := a + end + b;
            s[0] == a[0] && (|a| >= 2 ==> s[1] == a[1]) && (|a| == 1 ==> s[1] == end[0])
            && s[n..] == a[n..] + end + b
  {
  }

  lemma UnifyNothing()
    ensures Unify("") == ""
  {
  }

  lemma {:induction false} UnifyOneLine(s: string)
    requires NewlineFree(s)
    ensures Unify(s) == s
  {
    if s != "" {
      assert forall k :: 0 <= k < |s[1..]| ==> s[1..][k] == s[k + 1];
      UnifyOneLine(s[1..]);
    }
  }

  lemma {:induction false} WrapAllConcat(m: Metric, a: seq<string>, b: seq<string>)
    ensures WrapAll(m, a + b) == WrapAll(m, a) + WrapAll(m, b)
    decreases |b|
  {
    hide WrapAll, WrapParagraph;
    if b == [] {
      assert a + b == a;
      NoParagraphs(m);
    } else {
      var n := |b| - 1;
      WrapAllConcat(m, a, b[..n]);
      assert b[..n + 1] == b && (a + b)[..|a| + n] == a + b[..n] && (a + b)[..|a| + n + 1] == a + b;
      WrapAllStep(m, b, n);
      WrapAllStep(m, a + b, |a| + n);
    }
  }

  /** A line end separates: the texts around it are wrapped each on its own. */
  lemma LineEndsSeparate(m: Metric, a: string, end: string, b: string)
    requires (end == "\n" && !EndsInReturn(a)) || end == "\r\n"
    ensures Wrapped(m, a + end + b) == Wrapped(m, a) + Wrapped(m, b)
  {
    hide Unify, WrapAll, Split;
    UnifySeam(a, end, b);
    Associate(Unify(a), ['\n'], Unify(b));
    SplitConcat(Unify(a), '\n', Unify(b));
    WrapAllConcat(m, Split(Unify(a), '\n'), Split(Unify(b), '\n'));
  }

  lemma OneParagraphAlone(m: Metric, s: string)
    requires NewlineFree(s)
    ensures Wrapped(m, s) == WrapParagraph(m, s)
  {
    hide Unify, Split, WrapParagraph, WrapAll;
    UnifyOneLine(s);
    OneLineAlone(s);
    assert [s][..1] == [s] && [s][..0] == [];
    WrapAllStep(m, [s], 0);
    NoParagraphs(m);
  }

  /** A line of white space alone stays as one empty line. */
  lemma BlankLineStays(m: Metric, s: string)
    requires NewlineFree(s) && forall i :: 0 <= i < |s| ==> IsSpace(s[i])
    ensures Wrapped(m, s) == [""]
  {
    OneParagraphAlone(m, s);
    BlankHasNoWords(s);
  }

  lemma {:induction false} BlankHasNoWords(s: string)
    requires forall i :: 0 <= i < |s| ==> IsSpace(s[i])
    ensures Fields(s) == []
  {
    if s != "" {
      assert forall i :: 0 <= i < |s[1..]| ==> s[1..][i] == s[i + 1];
      BlankHasNoWords(s[1..]);
    }
  }

  // ---------------------------------------------------------------- Lines of a paragraph

  /** Each line holds what fits: its last piece leaves no room for the next line's first. */
  predicate Greedy(m: Metric, groups: seq<seq<Piece>>) {
    && (forall k :: 0 <= k < |groups| ==> groups[k] != [])
    && forall k :: 0 <= k < |groups| - 1 ==> GroupWidth(m, groups[k]) + 1 + Width(m, groups[k + 1][0].text) > m.width
  }

  lemma {:induction false} FillIsGreedy(m: Metric, line: seq<Piece>, rest: seq<Piece>)
    requires line + rest != []
    ensures var groups := Fill(m, line, rest);
            Greedy(m, groups) && groups != [] && groups[0][0] == (line + rest)[0]
    decreases |rest|
  {
    hide GroupWidth, Width;
    if rest == [] {
      assert line + rest == line;
    } else if line == [] {
      FillIsGreedy(m, [rest[0]], rest[1..]);
    } else if GroupWidth(m, line) + 1 + Width(m, rest[0].text) <= m.width {
      FillIsGreedy(m, line + [rest[0]], rest[1..]);
    } else {
      FillIsGreedy(m, [rest[0]], rest[1..]);
      GreedyCons(m, line, Fill(m, [rest[0]], rest[1..]));
    }
  }

  lemma GreedyCons(m: Metric, line: seq<Piece>, later: seq<seq<Piece>>)
    requires line != [] && later != [] && Greedy(m, later)
    requires GroupWidth(m, line) + 1 + Width(m, later[0][0].text) > m.width
    ensures Greedy(m, [line] + later)
  {
    hide GroupWidth, Width;
    var groups := [line] + later;
    forall k | 0 <= k < |groups| - 1
      ensures GroupWidth(m, groups[k]) + 1 + Width(m, groups[k + 1][0].text) > m.width
    {
      assert k > 0 ==> groups[k] == later[k - 1] && groups[k + 1] == later[k];
    }
  }

  /** Lines that lay pieces out: each is its pieces' texts with single spaces between them, fits the
      width, and leaves no room for the first piece of the next.
   */
  predicate LaidOut(m: Metric, lines: seq<string>, groups: seq<seq<Piece>>) {
    && |lines| == |groups|
    && (forall k :: 0 <= k < |groups| ==>
          groups[k] != [] && lines[k] == Join(Texts(groups[k]), " ") && Width(m, lines[k]) <= m.width)
    && (forall k :: 0 <= k < |groups| - 1 ==> Width(m, lines[k]) + 1 + Width(m, groups[k + 1][0].text) > m.width)
  }

  /** A text without line ends but with words is one paragraph: the pieces of its words, in order. */
  lemma OneParagraphLaidOut(m: Metric, s: string)
    requires m.Valid() && NewlineFree(s) && Fields(s) != []
    ensures exists groups :: LaidOut(m, Wrapped(m, s), groups) && Flatten(groups) == AllPieces(m, Fields(s))
  {
    hide Unify, Split, WrapParagraph, Wrapped, Fields, Fill, Greedy, AllPieces, Join, NonSpace, Concat;
    OneParagraphAlone(m, s);
    ParagraphGuarantee(m, s);
    var pieces := AllPieces(m, Fields(s));
    var groups := Fill(m, [], pieces);
    FieldsConserve(s);
    AllPiecesFillable(m, Fields(s));
    assert [] + pieces == pieces;
    FillIsGreedy(m, [], pieces);
    GreedyLines(m, groups, pieces);
  }

  lemma GreedyLines(m: Metric, groups: seq<seq<Piece>>, pieces: seq<Piece>)
    requires m.Valid() && Greedy(m, groups) && Fillable(m, pieces) && Flatten(groups) == pieces
    requires forall k :: 0 <= k < |groups| ==> Width(m, Line(groups[k])) <= m.width
    ensures LaidOut(m, Lines(groups), groups)
  {
    hide Flatten, Width, GroupWidth, Join;
    FlattenTexts(groups);
    forall k | 0 <= k < |groups| ensures Width(m, Line(groups[k])) == GroupWidth(m, groups[k]) {
      forall i | 0 <= i < |groups[k]| ensures groups[k][i].text != [] {
        assert groups[k][i] in Flatten(groups);
      }
      LineWidth(m, groups[k]);
    }
  }

  /** When every word fits, the lines are the words themselves, in order. */
  lemma WordsLaidOut(m: Metric, s: string)
    requires m.Valid() && NewlineFree(s) && Fields(s) != []
    requires forall i :: 0 <= i < |Fields(s)| ==> Width(m, Fields(s)[i]) <= m.width
    ensures exists groups :: LaidOut(m, Wrapped(m, s), groups) && Texts(Flatten(groups)) == Fields(s)
  {
    hide Wrapped, Fields, AllPieces, LaidOut;
    OneParagraphLaidOut(m, s);
    var groups :| LaidOut(m, Wrapped(m, s), groups) && Flatten(groups) == AllPieces(m, Fields(s));
    WordsThatFit(m, Fields(s));
  }

  /** A word that does not fit is cut into parts that fill a line each, but for the last. */
  lemma LongWordsAreCut(m: Metric, word: string)
    requires m.Valid() && Width(m, word) > m.width
    ensures var parts := SplitWord(m, word);
            && AllPieces(m, [word]) == seq(|parts|, i requires 0 <= i < |parts| => Piece(parts[i], i > 0))
            && Concat(parts) == word
            && (forall i :: 0 <= i < |parts| ==> parts[i] != "" && Width(m, parts[i]) <= m.width)
            && (forall i :: 0 <= i < |parts| - 1 ==> Width(m, parts[i]) == m.width)
  {
    assert word != [];
    hide Width, SplitWord;
    SplitWordIs(m, word);
    assert [word][1..] == [];
    NoPieces(m);
  }

  /** Marks take no room and everything else one column. */
  lemma WidthSpelledOut(m: Metric, s: string, c: char)
    ensures Width(m, "") == 0 && Width(m, s + [c]) == Width(m, s) + if m.mark(c) then 0 else 1
  {
    assert (s + [c])[..|s|] == s;
  }
}
