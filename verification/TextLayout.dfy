/** Greedy wrapping of human-facing text.

    Words that do not fit a line are hard-split; the others fill lines in order while they fit.
 */
module TextLayout {
  import opened Text
  import opened Collections

  /** The line width, and which characters are nonspacing or enclosing marks and take no room. */
  datatype Metric = Metric(width: int, mark: char -> bool) {
    predicate Valid() {
      width >= 1 && !mark(' ')
    }
  }

  function CharWidth(m: Metric, c: char): nat {
    if m.mark(c) then 0 else 1
  }

  function Width(m: Metric, s: string): nat {
    if s == [] then 0 else Width(m, s[..|s| - 1]) + CharWidth(m, s[|s| - 1])
  }

  lemma {:induction false} WidthConcat(m: Metric, a: string, b: string)
    ensures Width(m, a + b) == Width(m, a) + Width(m, b)
  {
    if b == [] {
      assert a + b == a;
    } else {
      assert (a + b)[..|a + b| - 1] == a + b[..|b| - 1];
      WidthConcat(m, a, b[..|b| - 1]);
    }
  }

  method TextWidth(m: Metric, text: string) returns (width: nat)
    ensures width == Width(m, text)
  {
    width := 0;
    for i := 0 to |text|
      invariant width == Width(m, text[..i])
    {
      assert text[..i + 1][..i] == text[..i];
      if !m.mark(text[i]) {
        width := width + 1;
      }
    }
    assert text[..|text|] == text;
  }

  // ---------------------------------------------------------------- hard splitting

  /** Cuts what is left of a word, given the part being grown. */
  function Chunks(m: Metric, part: string, rest: string): seq<string>
    decreases |rest|
  {
    if rest == [] then if part == [] then [] else [part]
    else if Width(m, part) > 0 && Width(m, part) + CharWidth(m, rest[0]) > m.width
    then [part] + Chunks(m, [rest[0]], rest[1..])
    else Chunks(m, part + [rest[0]], rest[1..])
  }

  function SplitWord(m: Metric, word: string): seq<string> {
    if Width(m, word) <= m.width then [word] else Chunks(m, [], word)
  }

  /** Every part but the last fills the line exactly. */
  predicate FullButLast(m: Metric, parts: seq<string>) {
    && (forall i :: 0 <= i < |parts| ==> parts[i] != [] && Width(m, parts[i]) <= m.width)
    && (forall i :: 0 <= i < |parts| - 1 ==> Width(m, parts[i]) == m.width)
  }

  lemma ChunksStep(m: Metric, part: string, text: string, i: nat)
    requires i < |text|
    ensures var c := [text[i]];
            && Width(m, []) == 0 && Width(m, c) == CharWidth(m, text[i])
            && Width(m, part + c) == Width(m, part) + Width(m, c)
            && Chunks(m, part, text[i..])
               == if Width(m, part) > 0 && Width(m, part) + Width(m, c) > m.width
                  then [part] + Chunks(m, c, text[i + 1..]) else Chunks(m, part + c, text[i + 1..])
  {
    var c := [text[i]];
    assert text[i..][1..] == text[i + 1..] && c[..0] == [];
    WidthConcat(m, part, c);
  }

  lemma {:induction false} ChunksAreFull(m: Metric, part: string, rest: string)
    requires m.Valid() && Width(m, part) <= m.width
    ensures FullButLast(m, Chunks(m, part, rest))
    ensures Concat(Chunks(m, part, rest)) == part + rest
    decreases |rest|
  {
    hide Width, Chunks;
    if rest == [] {
      ChunksEnd(m, part);
      assert [part][1..] == [] && part + rest == part && part + [] == part;
    } else {
      var c := [rest[0]];
      assert rest == c + rest[1..];
      ChunksStep(m, part, rest, 0);
      assert rest[0..] == rest;
      if Width(m, part) > 0 && Width(m, part) + Width(m, c) > m.width {
        var later := Chunks(m, c, rest[1..]);
        ChunksAreFull(m, c, rest[1..]);
        assert ([part] + later)[1..] == later;
      } else {
        ChunksAreFull(m, part + c, rest[1..]);
        Associate(part, c, rest[1..]);
      }
    }
  }

  lemma SplitWordIs(m: Metric, word: string)
    requires m.Valid() && word != []
    ensures SplitWord(m, word) != [] && FullButLast(m, SplitWord(m, word)) && Concat(SplitWord(m, word)) == word
  {
    if Width(m, word) <= m.width {
      assert [word][1..] == [] && word + [] == word;
    } else {
      ChunksAreFull(m, [], word);
      assert [] + word == word;
    }
  }

  lemma ChunksEnd(m: Metric, part: string)
    ensures Chunks(m, part, []) == if part == [] then [] else [part]
  {
  }

  method SplitWidth(m: Metric, text: string) returns (parts: seq<string>)
    requires m.Valid()
    ensures parts == SplitWord(m, text)
  {
    hide Width, Chunks;
    var total := TextWidth(m, text);
    if total <= m.width {
      return [text];
    }
    parts := [];
    var part, partWidth := [], 0;
    assert text[0..] == text && Width(m, []) == 0 by {
      ChunksStepNone(m);
    }
    for i := 0 to |text|
      invariant partWidth == Width(m, part)
      invariant parts + Chunks(m, part, text[i..]) == Chunks(m, [], text)
    {
      var value := text[i];
      var valueWidth := if m.mark(value) then 0 else 1;
      ChunksStep(m, part, text, i);
      if partWidth > 0 && partWidth + valueWidth > m.width {
        parts := parts + [part];
        part, partWidth := [value], valueWidth;
      } else {
        part, partWidth := part + [value], partWidth + valueWidth;
      }
    }
    assert text[|text|..] == [];
    ChunksEnd(m, part);
    if part != [] {
      parts := parts + [part];
    }
  }

  lemma ChunksStepNone(m: Metric)
    ensures Width(m, []) == 0
  {
  }

  // ------------------------------------------------------------------ greedy filling

  /** A piece of a word; `continues` when an earlier piece of the same word precedes it. */
  datatype Piece = Piece(text: string, continues: bool)

  function Pieces(parts: seq<string>): (pieces: seq<Piece>)
    ensures |pieces| == |parts|
  {
    seq(|parts|, i requires 0 <= i < |parts| => Piece(parts[i], i > 0))
  }

  function AllPieces(m: Metric, words: seq<string>): seq<Piece> {
    if words == [] then [] else Pieces(SplitWord(m, words[0])) + AllPieces(m, words[1..])
  }

  function Texts(pieces: seq<Piece>): (texts: seq<string>)
    ensures |texts| == |pieces|
  {
    seq(|pieces|, i requires 0 <= i < |pieces| => pieces[i].text)
  }

  function Line(group: seq<Piece>): string {
    Join(Texts(group), " ")
  }

  /** The room a line takes: its pieces and the single spaces between them. */
  function GroupWidth(m: Metric, group: seq<Piece>): nat {
    if group == [] then 0
    else if |group| == 1 then Width(m, group[0].text)
    else GroupWidth(m, group[..|group| - 1]) + 1 + Width(m, group[|group| - 1].text)
  }

  /** Fills lines in order, given the line being grown; a piece that does not fit opens a new line. */
  function Fill(m: Metric, line: seq<Piece>, rest: seq<Piece>): seq<seq<Piece>>
    decreases |rest|
  {
    if rest == [] then [line]
    else if line == [] then Fill(m, [rest[0]], rest[1..])
    else if GroupWidth(m, line) + 1 + Width(m, rest[0].text) <= m.width then Fill(m, line + [rest[0]], rest[1..])
    else [line] + Fill(m, [rest[0]], rest[1..])
  }

  function Flatten(groups: seq<seq<Piece>>): seq<Piece> {
    if groups == [] then [] else groups[0] + Flatten(groups[1..])
  }

  /** Pieces that fit, each continuing one right behind a piece that fills its line. */
  predicate Fillable(m: Metric, pieces: seq<Piece>) {
    && (forall i :: 0 <= i < |pieces| ==> pieces[i].text != [] && Width(m, pieces[i].text) <= m.width)
    && (forall i :: 1 <= i < |pieces| && pieces[i].continues ==> Width(m, pieces[i - 1].text) == m.width)
  }

  /** A line within the width that never puts a space in front of a continuing piece. */
  predicate GoodLine(m: Metric, group: seq<Piece>) {
    && group != []
    && GroupWidth(m, group) <= m.width
    && forall i :: 1 <= i < |group| ==> !group[i].continues
  }

  lemma {:induction false} GroupHoldsLast(m: Metric, group: seq<Piece>)
    requires group != []
    ensures Width(m, group[|group| - 1].text) <= GroupWidth(m, group)
  {
  }

  lemma GroupSnoc(m: Metric, line: seq<Piece>, p: Piece)
    requires line != []
    ensures GroupWidth(m, line + [p]) == GroupWidth(m, line) + 1 + Width(m, p.text)
  {
    assert (line + [p])[..|line|] == line;
  }

  /** Filling keeps every piece in order, keeps every line good, and never splits a piece. */
  lemma {:induction false} FillIsGood(m: Metric, line: seq<Piece>, rest: seq<Piece>)
    requires m.Valid() && Fillable(m, line + rest) && line + rest != []
    requires line != [] ==> GoodLine(m, line)
    ensures Flatten(Fill(m, line, rest)) == line + rest
    ensures forall k :: 0 <= k < |Fill(m, line, rest)| ==> GoodLine(m, Fill(m, line, rest)[k])
    decreases |rest|
  {
    if rest == [] {
      assert [line][1..] == [] && line + rest == line;
    } else {
      var p := rest[0];
      assert (line + rest)[|line|] == p;
      assert line + rest == (line + [p]) + rest[1..];
      if line == [] {
        assert line + [p] == [p];
        FillIsGood(m, [p], rest[1..]);
      } else if GroupWidth(m, line) + 1 + Width(m, p.text) <= m.width {
        GroupHoldsLast(m, line);
        assert (line + rest)[|line| - 1] == line[|line| - 1];
        assert (line + [p])[..|line|] == line;
        FillIsGood(m, line + [p], rest[1..]);
      } else {
        DropPieces(m, line, rest);
        var later := Fill(m, [p], rest[1..]);
        assert [p] + rest[1..] == rest;
        FillIsGood(m, [p], rest[1..]);
        assert ([line] + later)[1..] == later;
      }
    }
  }

  lemma DropPieces(m: Metric, line: seq<Piece>, rest: seq<Piece>)
    requires Fillable(m, line + rest)
    ensures Fillable(m, rest)
  {
    var all := line + rest;
    assert forall i :: 0 <= i < |rest| ==> rest[i] == all[|line| + i];
    forall i | 1 <= i < |rest| && rest[i].continues ensures Width(m, rest[i - 1].text) == m.width {
      assert all[|line| + i] == rest[i] && all[|line| + i - 1] == rest[i - 1];
    }
  }

  // ------------------------------------------------------------------ fewest lines

  /** Some way of laying the same pieces out in order, every line within the width. */
  ghost predicate Layout(m: Metric, groups: seq<seq<Piece>>, pieces: seq<Piece>) {
    && Flatten(groups) == pieces
    && forall k :: 0 <= k < |groups| ==> GroupWidth(m, groups[k]) <= m.width
  }

  /** Takes the first n pieces off a layout. */
  function Drop(groups: seq<seq<Piece>>, n: nat): seq<seq<Piece>>
    requires n <= |Flatten(groups)|
    decreases |groups|
  {
    if groups == [] || n == 0 then groups
    else if n >= |groups[0]| then Drop(groups[1..], n - |groups[0]|)
    else [groups[0][n..]] + groups[1..]
  }

  lemma {:induction false} SuffixFits(m: Metric, group: seq<Piece>, n: nat)
    requires n <= |group|
    ensures GroupWidth(m, group[n..]) <= GroupWidth(m, group)
    decreases |group|
  {
    if n == 0 {
      assert group[n..] == group;
    } else if n == |group| - 1 {
      GroupHoldsLast(m, group);
    } else if n < |group| {
      var front := group[..|group| - 1];
      SuffixFits(m, front, n);
      assert group[n..][..|group| - n - 1] == front[n..];
    }
  }

  lemma {:induction false} PrefixFits(m: Metric, group: seq<Piece>, n: nat)
    requires n <= |group|
    ensures GroupWidth(m, group[..n]) <= GroupWidth(m, group)
    decreases |group|
  {
    if n < |group| {
      PrefixFits(m, group[..|group| - 1], n);
      assert group[..|group| - 1][..n] == group[..n];
    } else {
      assert group[..n] == group;
    }
  }

  lemma {:induction false} DropLayout(m: Metric, groups: seq<seq<Piece>>, pieces: seq<Piece>, n: nat)
    requires Layout(m, groups, pieces) && n <= |pieces|
    ensures Layout(m, Drop(groups, n), pieces[n..]) && |Drop(groups, n)| <= |groups|
    decreases |groups|
  {
    if groups != [] && n > 0 {
      var first, later := groups[0], groups[1..];
      assert pieces == first + Flatten(later);
      if n >= |first| {
        assert pieces[n..] == Flatten(later)[n - |first|..];
        DropLayout(m, later, Flatten(later), n - |first|);
      } else {
        SuffixFits(m, first, n);
        assert ([first[n..]] + later)[1..] == later;
        assert pieces[n..] == first[n..] + Flatten(later);
      }
    } else {
      assert pieces[n..] == pieces;
    }
  }

  lemma ShiftOne(line: seq<Piece>, rest: seq<Piece>, j: nat)
    requires j < |rest|
    ensures line + [rest[0]] + rest[1..][..j] == line + rest[..j + 1]
    ensures rest[1..][j..] == rest[j + 1..]
  {
    assert rest[..j + 1] == [rest[0]] + rest[1..][..j];
  }

  /** The first line greedy filling produces, and why it stops there. */
  lemma {:induction false} FirstLine(m: Metric, line: seq<Piece>, rest: seq<Piece>) returns (k: nat)
    requires line != []
    ensures k <= |rest|
    ensures k == |rest| ==> Fill(m, line, rest) == [line + rest]
    ensures k < |rest| ==> Fill(m, line, rest) == [line + rest[..k]] + Fill(m, [], rest[k..])
    ensures k < |rest| ==> GroupWidth(m, line + rest[..k + 1]) > m.width
    decreases |rest|
  {
    hide GroupWidth, Width;
    if rest == [] {
      k := 0;
      assert line + rest == line;
    } else {
      var p := rest[0];
      GroupSnoc(m, line, p);
      if GroupWidth(m, line) + 1 + Width(m, p.text) <= m.width {
        var j := FirstLine(m, line + [p], rest[1..]);
        k := j + 1;
        ShiftOne(line, rest, |rest| - 1);
        assert rest[1..][..|rest| - 1] == rest[1..] && rest[..|rest|] == rest;
        ShiftOne(line, rest, j);
        if k < |rest| {
          ShiftOne(line, rest, j + 1);
        }
      } else {
        k := 0;
        assert line + rest[..0] == line && rest[0..] == rest;
        assert line + rest[..1] == line + [p];
      }
    }
  }

  /** No layout of the same pieces in order uses fewer lines than greedy filling. */
  lemma {:induction false} GreedyIsFewest(m: Metric, pieces: seq<Piece>, groups: seq<seq<Piece>>)
    requires pieces != [] && Layout(m, groups, pieces)
    ensures |Fill(m, [], pieces)| <= |groups|
    decreases |groups|, |pieces|
  {
    hide GroupWidth, Width;
    if groups[0] == [] {
      assert Flatten(groups) == Flatten(groups[1..]);
      GreedyIsFewest(m, pieces, groups[1..]);
    } else {
      var line, rest := [pieces[0]], pieces[1..];
      assert pieces == line + rest;
      var k := FirstLine(m, line, rest);
      var a := |groups[0]|;
      assert groups[0] == pieces[..a];
      if k < |rest| {
        if a > k + 1 {
          assert line + rest[..k + 1] == groups[0][..k + 2];
          PrefixFits(m, groups[0], k + 2);
        }
        assert rest[k..] == pieces[k + 1..];
        var later := groups[1..];
        assert pieces == pieces[..a] + Flatten(later);
        DropLayout(m, later, pieces[a..], k + 1 - a);
        assert pieces[a..][k + 1 - a..] == pieces[k + 1..];
        GreedyIsFewest(m, pieces[k + 1..], Drop(later, k + 1 - a));
      }
    }
  }

  // ------------------------------------------------------------- paragraphs and text

  lemma {:induction false} AllPiecesFillable(m: Metric, words: seq<string>)
    requires m.Valid() && forall i :: 0 <= i < |words| ==> words[i] != []
    ensures Fillable(m, AllPieces(m, words))
    ensures Concat(Texts(AllPieces(m, words))) == Concat(words)
    ensures words != [] ==> AllPieces(m, words) != [] && !AllPieces(m, words)[0].continues
  {
    if words != [] {
      AllPiecesFillable(m, words[1..]);
      WordFirst(m, words[0], AllPieces(m, words[1..]), words);
    }
  }

  /** One more word in front keeps the pieces fillable and the text the same. */
  lemma WordFirst(m: Metric, word: string, rest: seq<Piece>, words: seq<string>)
    requires m.Valid() && word != [] && words != [] && words[0] == word
    requires Fillable(m, rest) && (rest != [] ==> !rest[0].continues) && Concat(Texts(rest)) == Concat(words[1..])
    ensures var all := Pieces(SplitWord(m, word)) + rest;
            Fillable(m, all) && Concat(Texts(all)) == Concat(words) && all != [] && !all[0].continues
  {
    hide Width, SplitWord, Fillable, FullButLast, Concat;
    var parts := SplitWord(m, word);
    SplitWordIs(m, word);
    PiecesFillable(m, parts);
    FillableConcat(m, Pieces(parts), rest);
    assert Texts(Pieces(parts) + rest) == parts + Texts(rest);
    ConcatConcat(parts, Texts(rest));
    ConcatCons(words);
  }

  lemma PiecesFillable(m: Metric, parts: seq<string>)
    requires FullButLast(m, parts)
    ensures Fillable(m, Pieces(parts))
  {
    hide Width;
  }

  lemma FillableConcat(m: Metric, a: seq<Piece>, b: seq<Piece>)
    requires Fillable(m, a) && Fillable(m, b) && (b != [] ==> !b[0].continues)
    ensures Fillable(m, a + b)
  {
    forall i | 1 <= i < |a + b| && (a + b)[i].continues ensures Width(m, (a + b)[i - 1].text) == m.width {
      if i < |a| {
        assert (a + b)[i] == a[i] && (a + b)[i - 1] == a[i - 1];
      } else {
        assert i > |a|;
        assert (a + b)[i] == b[i - |a|] && (a + b)[i - 1] == b[i - |a| - 1];
      }
    }
  }

  lemma {:induction false} JoinSnoc(parts: seq<string>, last: string)
    requires parts != []
    ensures Join(parts + [last], " ") == Join(parts, " ") + " " + last
  {
    assert (parts + [last])[0] == parts[0];
    if |parts| == 1 {
      assert (parts + [last])[1..] == [last];
    } else {
      assert (parts + [last])[1..] == parts[1..] + [last];
      JoinSnoc(parts[1..], last);
    }
  }

  lemma LineSnoc(line: seq<Piece>, p: Piece)
    ensures line == [] ==> Line(line + [p]) == p.text
    ensures line != [] ==> Line(line + [p]) == Line(line) + " " + p.text
  {
    if line == [] {
      assert Texts(line + [p]) == [p.text];
    } else {
      assert Texts(line + [p]) == Texts(line) + [p.text];
      JoinSnoc(Texts(line), p.text);
    }
  }

  /** A line takes exactly the room of its pieces and separators, and is empty only without pieces. */
  lemma {:induction false} LineWidth(m: Metric, group: seq<Piece>)
    requires m.Valid() && forall i :: 0 <= i < |group| ==> group[i].text != []
    ensures Width(m, Line(group)) == GroupWidth(m, group)
    ensures Line(group) == [] <==> group == []
  {
    if group != [] {
      var front, last := group[..|group| - 1], group[|group| - 1];
      assert group == front + [last];
      LineWidth(m, front);
      LineSnoc(front, last);
      if front != [] {
        WidthConcat(m, Line(front) + " ", last.text);
        WidthConcat(m, Line(front), " ");
        assert Width(m, " ") == 1 by {
          assert " "[..0] == [];
        }
      }
    }
  }

  function Lines(groups: seq<seq<Piece>>): (lines: seq<string>)
    ensures |lines| == |groups|
  {
    seq(|groups|, k requires 0 <= k < |groups| => Line(groups[k]))
  }

  function WrapParagraph(m: Metric, paragraph: string): seq<string> {
    var words := Fields(paragraph);
    if words == [] then [""] else Lines(Fill(m, [], AllPieces(m, words)))
  }

  /** Windows line ends become plain ones. */
  function Unify(s: string): string
    decreases |s|
  {
    if s == [] then []
    else if |s| >= 2 && s[0] == '\r' && s[1] == '\n' then ['\n'] + Unify(s[2..])
    else [s[0]] + Unify(s[1..])
  }

  function WrapAll(m: Metric, paragraphs: seq<string>): seq<string> {
    if paragraphs == [] then []
    else WrapAll(m, paragraphs[..|paragraphs| - 1]) + WrapParagraph(m, paragraphs[|paragraphs| - 1])
  }

  function Wrapped(m: Metric, text: string): seq<string> {
    WrapAll(m, Split(Unify(text), '\n'))
  }

  // ------------------------------------------------------------------ what it promises

  lemma {:induction false} ConserveGroups(groups: seq<seq<Piece>>)
    ensures NonSpace(Concat(Lines(groups))) == NonSpace(Concat(Texts(Flatten(groups))))
  {
    if groups != [] {
      var g, rest := groups[0], groups[1..];
      ConserveGroups(rest);
      assert Lines(groups) == [Line(g)] + Lines(rest);
      assert Concat(Lines(groups)) == Line(g) + Concat(Lines(rest)) by {
        assert ([Line(g)] + Lines(rest))[1..] == Lines(rest);
      }
      NonSpaceConcat(Line(g), Concat(Lines(rest)));
      JoinConserves(Texts(g));
      assert Texts(g + Flatten(rest)) == Texts(g) + Texts(Flatten(rest));
      ConcatConcat(Texts(g), Texts(Flatten(rest)));
      NonSpaceConcat(Concat(Texts(g)), Concat(Texts(Flatten(rest))));
    }
  }

  /** One paragraph: its words survive in order, every line fits, no line has a space inside a
      word, and when every word fits no other layout in order has fewer lines.
   */
  lemma ParagraphGuarantee(m: Metric, paragraph: string)
    requires m.Valid() && Fields(paragraph) != []
    ensures var pieces := AllPieces(m, Fields(paragraph));
            var groups := Fill(m, [], pieces);
            && WrapParagraph(m, paragraph) == Lines(groups)
            && Flatten(groups) == pieces
            && (forall k :: 0 <= k < |groups| ==> GoodLine(m, groups[k]) && Width(m, Line(groups[k])) <= m.width)
            && NonSpace(Concat(Lines(groups))) == NonSpace(paragraph)
            && (forall other :: Layout(m, other, pieces) ==> |groups| <= |other|)
  {
    hide Fill, Width, GroupWidth, AllPieces, Fields, NonSpace, Concat;
    var words := Fields(paragraph);
    FieldsConserve(paragraph);
    AllPiecesFillable(m, words);
    var pieces := AllPieces(m, words);
    assert [] + pieces == pieces;
    FillIsGood(m, [], pieces);
    var groups := Fill(m, [], pieces);
    FlattenTexts(groups);
    forall k | 0 <= k < |groups| ensures Width(m, Line(groups[k])) <= m.width {
      forall i | 0 <= i < |groups[k]| ensures groups[k][i].text != [] {
        assert groups[k][i] in pieces;
      }
      LineWidth(m, groups[k]);
    }
    ConserveGroups(groups);
    WordsAreNonSpace(words, paragraph);
    forall other | Layout(m, other, pieces) ensures |groups| <= |other| {
      GreedyIsFewest(m, pieces, other);
    }
  }

  lemma WordsAreNonSpace(words: seq<string>, paragraph: string)
    requires Concat(words) == NonSpace(paragraph)
    ensures NonSpace(Concat(words)) == NonSpace(paragraph)
  {
    NonSpaceIdempotent(paragraph);
  }

  lemma {:induction false} NonSpaceIdempotent(s: string)
    ensures SpaceFree(NonSpace(s)) && NonSpace(NonSpace(s)) == NonSpace(s)
  {
    if s != [] {
      NonSpaceIdempotent(s[1..]);
      SpaceFreeIsNonSpace(NonSpace(s));
    }
  }

  lemma {:induction false} FlattenTexts(groups: seq<seq<Piece>>)
    ensures forall k, i :: 0 <= k < |groups| && 0 <= i < |groups[k]| ==> groups[k][i] in Flatten(groups)
  {
    if groups != [] {
      FlattenTexts(groups[1..]);
      forall k, i | 0 <= k < |groups| && 0 <= i < |groups[k]| ensures groups[k][i] in Flatten(groups) {
        if k > 0 {
          assert groups[k] == groups[1..][k - 1];
        }
      }
    }
  }

  /** When every word fits, the pieces are the words themselves. */
  lemma {:induction false} WordsThatFit(m: Metric, words: seq<string>)
    requires forall i :: 0 <= i < |words| ==> Width(m, words[i]) <= m.width
    ensures Texts(AllPieces(m, words)) == words
  {
    if words != [] {
      WordsThatFit(m, words[1..]);
      var first, rest := Pieces([words[0]]), AllPieces(m, words[1..]);
      assert Texts(first + rest) == [words[0]] + Texts(rest);
    }
  }

  lemma {:induction false} UnifyConserves(s: string)
    ensures NonSpace(Unify(s)) == NonSpace(s)
    decreases |s|
  {
    if |s| >= 2 && s[0] == '\r' && s[1] == '\n' {
      UnifyConserves(s[2..]);
      assert s[1..][1..] == s[2..];
      assert (['\n'] + Unify(s[2..]))[1..] == Unify(s[2..]);
    } else if s != [] {
      UnifyConserves(s[1..]);
      assert ([s[0]] + Unify(s[1..]))[1..] == Unify(s[1..]);
    }
  }

  lemma {:induction false} SplitConserves(s: string)
    ensures NonSpace(Concat(Split(s, '\n'))) == NonSpace(s)
  {
    var parts := Split(s, '\n');
    SplitStep(s, '\n');
    ConcatFirst(parts);
    if s == [] {
      assert parts[1..] == [] && Concat([]) == [];
    } else {
      hide Split, NonSpace, Concat, IsSpace;
      var rest := Split(s[1..], '\n');
      SplitConserves(s[1..]);
      ConcatFirst(rest);
      NonSpaceConcat([s[0]], s[1..]);
      assert s == [s[0]] + s[1..];
      if s[0] == '\n' {
        assert "" + Concat(rest) == Concat(rest);
        NewlineIsSpace();
      } else {
        assert Concat(parts) == [s[0]] + Concat(rest);
        NonSpaceConcat([s[0]], Concat(rest));
      }
    }
  }

  lemma NewlineIsSpace()
    ensures NonSpace("\n") == []
  {
    assert "\n"[1..] == [];
  }

  lemma ConserveBoth(a: string, b: string, x: string, y: string)
    requires NonSpace(a) == NonSpace(x) && NonSpace(b) == NonSpace(y)
    ensures NonSpace(a + b) == NonSpace(x + y)
  {
    NonSpaceConcat(a, b);
    NonSpaceConcat(x, y);
  }

  lemma {:induction false} WrapAllConserves(m: Metric, paragraphs: seq<string>)
    requires m.Valid()
    ensures NonSpace(Concat(WrapAll(m, paragraphs))) == NonSpace(Concat(paragraphs))
  {
    hide *;
    if paragraphs == [] {
      NoParagraphs(m);
    } else {
      var front, last := paragraphs[..|paragraphs| - 1], paragraphs[|paragraphs| - 1];
      WrapAllConserves(m, front);
      OneParagraph(m, last);
      WrapAllStep(m, paragraphs, |paragraphs| - 1);
      assert paragraphs[..|paragraphs|] == paragraphs;
      ConcatConcat(WrapAll(m, front), WrapParagraph(m, last));
      assert paragraphs == front + [last];
      ConcatConcat(front, [last]);
      ConcatOne(last);
      ConserveBoth(Concat(WrapAll(m, front)), Concat(WrapParagraph(m, last)), Concat(front), last);
    }
  }

  lemma ConcatCons(parts: seq<string>)
    requires parts != []
    ensures Concat(parts) == parts[0] + Concat(parts[1..])
  {
  }

  lemma ConcatOne(s: string)
    ensures Concat([s]) == s
  {
    assert [s][1..] == [] && s + [] == s;
  }

  lemma {:induction false} WrapAllFits(m: Metric, paragraphs: seq<string>)
    requires m.Valid()
    ensures forall k :: 0 <= k < |WrapAll(m, paragraphs)| ==> Width(m, WrapAll(m, paragraphs)[k]) <= m.width
  {
    if paragraphs != [] {
      hide Width, Fill, Fields, WrapParagraph, NonSpace, Concat;
      WrapAllFits(m, paragraphs[..|paragraphs| - 1]);
      OneParagraph(m, paragraphs[|paragraphs| - 1]);
    }
  }

  lemma OneParagraph(m: Metric, paragraph: string)
    requires m.Valid()
    ensures NonSpace(Concat(WrapParagraph(m, paragraph))) == NonSpace(paragraph)
    ensures forall k :: 0 <= k < |WrapParagraph(m, paragraph)| ==> Width(m, WrapParagraph(m, paragraph)[k]) <= m.width
  {
    FieldsConserve(paragraph);
    if Fields(paragraph) != [] {
      ParagraphGuarantee(m, paragraph);
    } else {
      assert [""][1..] == [];
      assert Concat([""]) == "";
    }
  }

  /** The whole text: nothing but whitespace is lost or moved, and every line fits. */
  lemma WrapGuarantee(m: Metric, text: string)
    requires m.Valid()
    ensures NonSpace(Concat(Wrapped(m, text))) == NonSpace(text)
    ensures forall k :: 0 <= k < |Wrapped(m, text)| ==> Width(m, Wrapped(m, text)[k]) <= m.width
    ensures Wrapped(m, text) != []
  {
    hide Width, NonSpace, Concat, Unify, WrapParagraph;
    UnifyConserves(text);
    SplitConserves(Unify(text));
    WrapAllConserves(m, Split(Unify(text), '\n'));
    WrapAllFits(m, Split(Unify(text), '\n'));
    ParagraphHasLine(m, Split(Unify(text), '\n')[|Split(Unify(text), '\n')| - 1]);
  }

  lemma ParagraphHasLine(m: Metric, paragraph: string)
    ensures WrapParagraph(m, paragraph) != []
  {
    if Fields(paragraph) != [] {
      FillHasLine(m, [], AllPieces(m, Fields(paragraph)));
    }
  }

  lemma {:induction false} FillHasLine(m: Metric, line: seq<Piece>, rest: seq<Piece>)
    ensures Fill(m, line, rest) != []
    decreases |rest|
  {
    if rest != [] {
      FillHasLine(m, [rest[0]], rest[1..]);
      FillHasLine(m, line + [rest[0]], rest[1..]);
    }
  }

  // ------------------------------------------------------------------ as it runs

  lemma FillStep(m: Metric, group: seq<Piece>, rest: seq<Piece>)
    requires m.Valid() && rest != [] && forall i :: 0 <= i < |group| ==> group[i].text != []
    ensures var line, p := Line(group), rest[0];
            && (group == [] <==> line == "")
            && (group == [] ==> Fill(m, group, rest) == Fill(m, [p], rest[1..]) && Line([p]) == p.text)
            && (group != [] ==>
                  if Width(m, line) + 1 + Width(m, p.text) <= m.width
                  then && Fill(m, group, rest) == Fill(m, group + [p], rest[1..])
                       && Line(group + [p]) == line + " " + p.text
                  else Fill(m, group, rest) == [group] + Fill(m, [p], rest[1..]) && Line([p]) == p.text)
  {
    LineWidth(m, group);
    LineSnoc(group, rest[0]);
    LineSnoc([], rest[0]);
    assert [] + [rest[0]] == [rest[0]];
  }

  lemma FillEnd(m: Metric, group: seq<Piece>)
    ensures Fill(m, group, []) == [group] && Lines([group]) == [Line(group)]
  {
  }

  lemma LinesCons(group: seq<Piece>, groups: seq<seq<Piece>>)
    ensures Lines([group] + groups) == [Line(group)] + Lines(groups)
  {
  }

  /** Places one word's parts, closing lines as they fill. */
  method PlaceParts(m: Metric, closed: seq<string>, line: string, parts: seq<string>, ghost group: seq<Piece>,
                    ghost after: seq<Piece>)
    returns (closed': seq<string>, line': string, ghost group': seq<Piece>)
    requires m.Valid() && line == Line(group)
    requires forall i :: 0 <= i < |group| ==> group[i].text != []
    requires forall i :: 0 <= i < |parts| ==> parts[i] != []
    ensures line' == Line(group') && forall i :: 0 <= i < |group'| ==> group'[i].text != []
    ensures closed' + Lines(Fill(m, group', after)) == closed + Lines(Fill(m, group, Pieces(parts) + after))
  {
    hide Fill, Width, Line, Lines;
    closed', line', group' := closed, line, group;
    ghost var all := Pieces(parts) + after;
    assert all[0..] == all;
    for i := 0 to |parts|
      invariant line' == Line(group') && forall k :: 0 <= k < |group'| ==> group'[k].text != []
      invariant closed' + Lines(Fill(m, group', all[i..])) == closed + Lines(Fill(m, group, all))
    {
      var part := parts[i];
      ghost var p := all[i];
      assert p.text == part && all[i..][0] == p && all[i..][1..] == all[i + 1..];
      FillStep(m, group', all[i..]);
      if line' == "" {
        line', group' := part, [p];
      } else {
        var w := TextWidth(m, line');
        var v := TextWidth(m, part);
        if w + 1 + v <= m.width {
          line', group' := line' + " " + part, group' + [p];
        } else {
          LinesCons(group', Fill(m, [p], all[i + 1..]));
          closed' := closed' + [line'];
          line', group' := part, [p];
        }
      }
    }
    assert all[|parts|..] == after;
  }

  method WrapWords(m: Metric, words: seq<string>) returns (lines: seq<string>)
    requires m.Valid() && words != [] && forall i :: 0 <= i < |words| ==> words[i] != []
    ensures lines == Lines(Fill(m, [], AllPieces(m, words)))
  {
    hide Fill, Width, Line, Lines, AllPieces;
    var line := "";
    ghost var group: seq<Piece> := [];
    lines := [];
    EmptyLine();
    assert words[0..] == words;
    for i := 0 to |words|
      invariant line == Line(group) && forall k :: 0 <= k < |group| ==> group[k].text != []
      invariant lines + Lines(Fill(m, group, AllPieces(m, words[i..]))) == Lines(Fill(m, [], AllPieces(m, words)))
    {
      var parts := SplitWidth(m, words[i]);
      SplitWordIs(m, words[i]);
      PiecesStep(m, words, i);
      lines, line, group := PlaceParts(m, lines, line, parts, group, AllPieces(m, words[i + 1..]));
    }
    assert words[|words|..] == [];
    NoPieces(m);
    FillEnd(m, group);
    lines := lines + [line];
  }

  lemma EmptyLine()
    ensures Line([]) == ""
  {
  }

  lemma NoPieces(m: Metric)
    ensures AllPieces(m, []) == []
  {
  }

  lemma PiecesStep(m: Metric, words: seq<string>, i: nat)
    requires i < |words|
    ensures AllPieces(m, words[i..]) == Pieces(SplitWord(m, words[i])) + AllPieces(m, words[i + 1..])
  {
    assert words[i..][1..] == words[i + 1..];
  }

  /** Folds text to at most `width` columns per line; a width below one counts as one. */
  method Wrap(text: string, width: int, mark: char -> bool) returns (lines: seq<string>)
    requires !mark(' ')
    ensures lines == Wrapped(Metric(if width < 1 then 1 else width, mark), text)
  {
    hide WrapParagraph, Fields, Unify, Split, WrapAll, Fill, Lines, AllPieces, NonSpace, Concat;
    NoParagraphs(Metric(if width < 1 then 1 else width, mark));
    var m := Metric(if width < 1 then 1 else width, mark);
    lines := [];
    var paragraphs := Split(Unify(text), '\n');
    for i := 0 to |paragraphs|
      invariant lines == WrapAll(m, paragraphs[..i])
    {
      WrapAllStep(m, paragraphs, i);
      var words := Fields(paragraphs[i]);
      FieldsConserve(paragraphs[i]);
      WrapParagraphIs(m, paragraphs[i]);
      if words == [] {
        lines := lines + [""];
      } else {
        var wrapped := WrapWords(m, words);
        lines := lines + wrapped;
      }
    }
    assert paragraphs[..|paragraphs|] == paragraphs;
  }

  lemma NoParagraphs(m: Metric)
    ensures WrapAll(m, []) == []
  {
  }

  lemma WrapAllStep(m: Metric, paragraphs: seq<string>, i: nat)
    requires i < |paragraphs|
    ensures WrapAll(m, paragraphs[..i + 1]) == WrapAll(m, paragraphs[..i]) + WrapParagraph(m, paragraphs[i])
  {
    assert paragraphs[..i + 1][..i] == paragraphs[..i];
  }

  lemma WrapParagraphIs(m: Metric, paragraph: string)
    ensures WrapParagraph(m, paragraph)
         == if Fields(paragraph) == [] then [""] else Lines(Fill(m, [], AllPieces(m, Fields(paragraph))))
  {
  }
}
