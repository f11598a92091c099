/** Searching and counting marker lines.

    Two marker lines delimit the managed block of a config file. Each ends in its only newline, so
    no occurrence can straddle the end of a line.
 */
module MarkedText {
  import opened Text

  const BEGIN := "# BEGIN OVERGENT MANAGED MCP\n"
  const END := "# END OVERGENT MANAGED MCP\n"

  predicate OccursAt(text: string, m: string, i: int) {
    0 <= i <= i + |m| <= |text| && text[i..i + |m|] == m
  }

  /** The first place where m occurs, or -1. */
  function Index(text: string, m: string): (r: int)
    ensures r == -1 || 0 <= r <= r + |m| <= |text|
  {
    if m <= text then 0
    else if text == "" then -1
    else
      var r := Index(text[1..], m);
      if r < 0 then -1 else r + 1
  }

  /** Occurrences found left to right without overlap. */
  function Count(text: string, m: string): nat
    decreases |text|
  {
    if m == "" || Index(text, m) < 0 then 0 else 1 + Count(text[Index(text, m) + |m|..], m)
  }

  predicate Ended(text: string) {
    text == "" || text[|text| - 1] == '\n'
  }

  predicate Marker(m: string) {
    m == BEGIN || m == END
  }

  /** Text without a complete marker line. */
  predicate Clean(text: string) {
    Index(text, BEGIN) == -1 && Index(text, END) == -1
  }

  lemma {:induction false} IndexIs(text: string, m: string)
    ensures Index(text, m) >= 0 ==> OccursAt(text, m, Index(text, m))
    ensures forall i :: OccursAt(text, m, i) ==> 0 <= Index(text, m) <= i
  {
    if m <= text {
      assert OccursAt(text, m, 0);
    } else if text != "" {
      IndexIs(text[1..], m);
      forall i | OccursAt(text, m, i) ensures 0 <= Index(text, m) <= i {
        if i > 0 {
          assert text[1..][i - 1..i - 1 + |m|] == text[i..i + |m|];
          assert OccursAt(text[1..], m, i - 1);
        }
      }
      var r := Index(text[1..], m);
      if r >= 0 {
        assert text[1..][r..r + |m|] == text[r + 1..r + 1 + |m|];
      }
    }
  }

  lemma IndexAt(text: string, m: string, r: int)
    requires OccursAt(text, m, r) && forall i :: 0 <= i < r ==> !OccursAt(text, m, i)
    ensures Index(text, m) == r
  {
    IndexIs(text, m);
  }

  lemma IndexNone(text: string, m: string)
    requires forall i :: 0 <= i <= |text| ==> !OccursAt(text, m, i)
    ensures Index(text, m) == -1
  {
    IndexIs(text, m);
  }

  lemma MarkerEnds(m: string)
    requires Marker(m)
    ensures 27 <= |m| <= 29 && m[|m| - 1] == '\n' && m[|m| - 2] == 'P'
    ensures NewlineFree(m[..|m| - 1])
    ensures |BEGIN| == 29 && |END| == 27 && BEGIN[28] == '\n'
    ensures NewlineFree(BEGIN[..28])
  {
    assert BEGIN[..28] == "# BEGIN OVERGENT MANAGED MCP";
    assert END[..26] == "# END OVERGENT MANAGED MCP";
  }

  /** No marker can straddle the seam of a and b: a ends its line, or b opens a block. */
  predicate Seam(a: string, b: string) {
    Ended(a) || BEGIN <= b
  }

  lemma OccursInside(text: string, m: string, i: int, k: int)
    requires OccursAt(text, m, i) && 0 <= k < |m|
    ensures text[i + k] == m[k]
  {
    assert text[i..i + |m|][k] == text[i + k];
  }

  lemma NoStraddle(a: string, b: string, m: string, i: int)
    requires Marker(m) && Seam(a, b) && OccursAt(a + b, m, i)
    ensures i + |m| <= |a| || |a| <= i
  {
    hide Marker;
    MarkerEnds(m);
    if i < |a| < i + |m| {
      if Ended(a) {
        OccursInside(a + b, m, i, |a| - 1 - i);
      } else {
        OccursInside(a + b, m, i, |m| - 1);
      }
    }
  }

  lemma OccursSplit(a: string, b: string, m: string, i: int)
    ensures OccursAt(a, m, i) ==> OccursAt(a + b, m, i)
    ensures i >= |a| ==> (OccursAt(a + b, m, i) <==> OccursAt(b, m, i - |a|))
    ensures i + |m| <= |a| ==> (OccursAt(a + b, m, i) <==> OccursAt(a, m, i))
  {
    if 0 <= i && i + |m| <= |a| {
      assert (a + b)[i..i + |m|] == a[i..i + |m|];
    }
    if |a| <= i && i + |m| <= |a| + |b| {
      assert (a + b)[i..i + |m|] == b[i - |a|..i - |a| + |m|];
    }
  }

  /** At a seam, searching the whole is searching the parts in turn. */
  lemma IndexSeam(a: string, b: string, m: string)
    requires Marker(m) && Seam(a, b)
    ensures Index(a + b, m) ==
            if Index(a, m) >= 0 then Index(a, m) else if Index(b, m) >= 0 then |a| + Index(b, m) else -1
  {
    hide Marker, Seam, OccursAt, Index;
    IndexIs(a, m);
    IndexIs(b, m);
    var t := a + b;
    forall i | OccursAt(t, m, i) ensures OccursAt(a, m, i) || (|a| <= i && OccursAt(b, m, i - |a|)) {
      NoStraddle(a, b, m, i);
      OccursSplit(a, b, m, i);
    }
    if Index(a, m) >= 0 {
      OccursSplit(a, b, m, Index(a, m));
      OccursNonnegative(b, m);
      IndexAt(t, m, Index(a, m));
    } else if Index(b, m) >= 0 {
      OccursSplit(a, b, m, |a| + Index(b, m));
      IndexAt(t, m, |a| + Index(b, m));
    } else {
      IndexNone(t, m);
    }
  }

  lemma OccursNonnegative(text: string, m: string)
    ensures forall i :: OccursAt(text, m, i) ==> 0 <= i <= |text| - |m|
  {
  }

  lemma {:induction false} CountSeam(a: string, b: string, m: string)
    requires Marker(m) && Seam(a, b)
    ensures Count(a + b, m) == Count(a, m) + Count(b, m)
    decreases |a|
  {
    hide Marker, Index;
    IndexSeam(a, b, m);
    MarkerEnds(m);
    if Index(a, m) >= 0 {
      var rest := a[Index(a, m) + |m|..];
      assert (a + b)[Index(a, m) + |m|..] == rest + b;
      CountSeam(rest, b, m);
    } else if Index(b, m) >= 0 {
      assert (a + b)[|a| + Index(b, m) + |m|..] == b[Index(b, m) + |m|..];
    }
  }

  lemma CleanSeam(a: string, b: string)
    requires Seam(a, b)
    ensures Clean(a + b) <==> Clean(a) && Clean(b)
  {
    hide Index, Seam;
    IndexSeam(a, b, BEGIN);
    IndexSeam(a, b, END);
  }

  lemma CleanCounts(text: string)
    ensures Clean(text) <==> Count(text, BEGIN) == 0 && Count(text, END) == 0
  {
    hide Index;
  }

  /** A line that does not end like a marker holds none. */
  lemma LineClean(s: string)
    requires NewlineFree(s) && (s == "" || s[|s| - 1] != 'P')
    ensures Clean(s + "\n") && Ended(s + "\n")
  {
    hide Index;
    LineCleanOf(s, BEGIN);
    LineCleanOf(s, END);
  }

  lemma LineCleanOf(s: string, m: string)
    requires Marker(m) && NewlineFree(s) && (s == "" || s[|s| - 1] != 'P')
    ensures Index(s + "\n", m) == -1
  {
    hide Index, Marker;
    MarkerEnds(m);
    forall i | 0 <= i <= |s + "\n"| ensures !OccursAt(s + "\n", m, i) {
      if OccursAt(s + "\n", m, i) {
        OccursInside(s + "\n", m, i, |m| - 1);
        OccursInside(s + "\n", m, i, |m| - 2);
      }
    }
    IndexNone(s + "\n", m);
  }

  // ---------------------------------------------------------------- Blocks

  /** A block: the begin marker, lines without markers, the end marker. */
  predicate Framed(block: string, inner: string) {
    block == BEGIN + inner + END && Clean(inner) && Ended(inner)
  }

  lemma MarkersApart()
    ensures Index(BEGIN, END) == -1 && Index(END, BEGIN) == -1 && Index(BEGIN, BEGIN) == 0 && Index(END, END) == 0
    ensures Count(BEGIN, BEGIN) == 1 && Count(BEGIN, END) == 0 && Count(END, END) == 1 && Count(END, BEGIN) == 0
    ensures Ended(BEGIN) && Ended(END)
  {
    hide Index, Count;
    BothMarkers();
    MarkerEnds(BEGIN);
    MarkerEnds(END);
    MarkerItself(BEGIN);
    MarkerItself(END);
    forall i ensures !OccursAt(BEGIN, END, i) {
      if OccursAt(BEGIN, END, i) {
        OccursInside(BEGIN, END, i, 26);
        OccursInside(BEGIN, END, i, 2);
      }
    }
    NoneCounted(BEGIN, END);
    NoneCounted(END, BEGIN);
  }

  lemma MarkerItself(m: string)
    requires m != ""
    ensures Index(m, m) == 0 && Count(m, m) == 1
  {
    hide BEGIN, END;
    assert m <= m;
    assert m[0 + |m|..] == "";
    EmptyCount(m);
  }

  lemma NoneCounted(text: string, m: string)
    requires forall i :: !OccursAt(text, m, i)
    ensures Index(text, m) == -1 && Count(text, m) == 0
  {
    hide Index;
    IndexNone(text, m);
  }

  lemma EmptyCount(m: string)
    requires m != ""
    ensures Count("", m) == 0 && Index("", m) == -1
  {
  }

  /** A block between marker-free texts is found exactly where it stands. */
  lemma BlockLocated(pre: string, block: string, inner: string, post: string)
    requires Framed(block, inner) && Clean(pre) && Clean(post)
    ensures var text := pre + block + post;
            && Count(text, BEGIN) == 1 && Count(text, END) == 1
            && Index(text, BEGIN) == |pre| && Index(text, END) == |pre| + |block| - |END|
  {
    hide Index, Count, Marker;
    BlockCounts(block, inner);
    MarkersApart();
    assert Seam(pre, block + post) && Seam(block, post) by {
      assert BEGIN <= block + post;
      assert block[|block| - 1] == '\n';
    }
    assert pre + block + post == pre + (block + post);
    CleanCounts(pre);
    CleanCounts(post);
    BothMarkers();
    LocatedOf(pre, block, post, BEGIN);
    LocatedOf(pre, block, post, END);
  }

  lemma LocatedOf(pre: string, block: string, post: string, m: string)
    requires Marker(m) && Seam(pre, block + post) && Seam(block, post)
    ensures Count(pre + (block + post), m) == Count(pre, m) + Count(block, m) + Count(post, m)
    ensures Index(pre, m) == -1 && Index(block, m) >= 0 ==> Index(pre + (block + post), m) == |pre| + Index(block, m)
  {
    hide Index, Count, Marker, Seam;
    CountSeam(pre, block + post, m);
    CountSeam(block, post, m);
    IndexSeam(pre, block + post, m);
    IndexSeam(block, post, m);
  }

  lemma BlockCounts(block: string, inner: string)
    requires Framed(block, inner)
    ensures Count(block, BEGIN) == 1 && Count(block, END) == 1
    ensures Index(block, BEGIN) == 0 && Index(block, END) == |block| - |END|
    ensures Ended(block) && BEGIN <= block
  {
    MarkersApart();
    BothMarkers();
    hide Index, Count, Marker, BEGIN, END;
    assert block == BEGIN + (inner + END);
    CleanCounts(inner);
    FrameCount(inner, BEGIN);
    FrameCount(inner, END);
    FrameIndex(inner);
    FrameEnds(inner);
  }

  lemma FrameIndex(inner: string)
    requires Clean(inner) && Ended(inner)
    ensures Index(BEGIN + (inner + END), BEGIN) == 0 && Index(BEGIN + (inner + END), END) == |BEGIN| + |inner|
  {
    MarkersApart();
    BothMarkers();
    hide Index, Marker, BEGIN, END;
    IndexSeam(BEGIN, inner + END, BEGIN);
    IndexSeam(BEGIN, inner + END, END);
    IndexSeam(inner, END, END);
  }

  lemma FrameEnds(inner: string)
    ensures Ended(BEGIN + (inner + END)) && BEGIN <= BEGIN + (inner + END)
  {
    MarkersApart();
    EndIsSome();
    hide BEGIN, END;
    var block := BEGIN + (inner + END);
    assert block[|block| - 1] == END[|END| - 1];
  }

  lemma EndIsSome()
    ensures END != ""
  {
  }

  lemma FrameCount(inner: string, m: string)
    requires Marker(m) && Ended(inner)
    ensures Count(BEGIN + (inner + END), m) == Count(BEGIN, m) + Count(inner, m) + Count(END, m)
  {
    MarkersApart();
    hide Index, Count, Marker, BEGIN, END;
    CountSeam(BEGIN, inner + END, m);
    CountSeam(inner, END, m);
  }

  lemma BothMarkers()
    ensures Marker(BEGIN) && Marker(END)
  {
  }

  /** In a text with one marker of each kind that delimit a block, nothing outside holds one. */
  lemma OutsideIsClean(pre: string, block: string, inner: string, post: string)
    requires Framed(block, inner)
    requires Count(pre + block + post, BEGIN) == 1 && Count(pre + block + post, END) == 1
    ensures Clean(pre) && Clean(post)
  {
    hide Index, Count, Marker;
    BlockCounts(block, inner);
    BothMarkers();
    assert pre + block + post == pre + (block + post);
    assert Seam(pre, block + post) && Seam(block, post) by {
      assert BEGIN <= block + post;
    }
    LocatedOf(pre, block, post, BEGIN);
    LocatedOf(pre, block, post, END);
    CleanCounts(pre);
    CleanCounts(post);
  }
}
