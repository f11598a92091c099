/** The suggestion for a mistyped command: a two-row edit distance and the best candidate under it. */
module EditDistance {
  import opened Utf8
  import opened Collections

  function Min(a: int, b: int): int {
    if a < b then a else b
  }

  function Cost(a: char, b: char): nat {
    if a == b then 0 else 1
  }

  /** The Levenshtein distance, recursively on the last characters. */
  function Distance(s: string, t: string): nat
    decreases |s| + |t|
  {
    if s == [] then |t|
    else if t == [] then |s|
    else
      var s', t' := s[..|s| - 1], t[..|t| - 1];
      Min(Min(Distance(s, t') + 1, Distance(s', t) + 1), Distance(s', t') + Cost(s[|s| - 1], t[|t| - 1]))
  }

  // ----------------------------------------------------------------- it is a metric

  lemma {:induction false} Symmetric(s: string, t: string)
    ensures Distance(s, t) == Distance(t, s)
    decreases |s| + |t|
  {
    if s != [] && t != [] {
      var s', t' := s[..|s| - 1], t[..|t| - 1];
      Symmetric(s, t');
      Symmetric(s', t);
      Symmetric(s', t');
    }
  }

  lemma {:induction false} ZeroExactlyWhenEqual(s: string, t: string)
    ensures Distance(s, t) == 0 <==> s == t
    decreases |s| + |t|
  {
    if s != [] && t != [] {
      var s', t' := s[..|s| - 1], t[..|t| - 1];
      ZeroExactlyWhenEqual(s', t');
      assert s == s' + [s[|s| - 1]] && t == t' + [t[|t| - 1]];
    }
  }

  /** Dropping the last character of either side changes the distance by at most one. */
  lemma OneStep(s: string, t: string)
    ensures s != [] ==> Distance(s, t) <= Distance(s[..|s| - 1], t) + 1
    ensures t != [] ==> Distance(s, t) <= Distance(s, t[..|t| - 1]) + 1
    ensures s != [] && t != [] ==>
              Distance(s, t) <= Distance(s[..|s| - 1], t[..|t| - 1]) + Cost(s[|s| - 1], t[|t| - 1])
  {
  }

  lemma {:induction false} Triangle(r: string, s: string, t: string)
    ensures Distance(r, t) <= Distance(r, s) + Distance(s, t)
    decreases |r| + |s| + |t|
  {
    if s == [] {
      LengthBound(r, t);
    } else if r == [] {
      LengthGap(s, t);
    } else if t == [] {
      LengthGap(s, r);
      Symmetric(s, r);
    } else {
      var r', s', t' := r[..|r| - 1], s[..|s| - 1], t[..|t| - 1];
      OneStep(r, t);
      if Distance(r, s) == Distance(r', s) + 1 {
        Triangle(r', s, t);
      } else if Distance(s, t) == Distance(s, t') + 1 {
        Triangle(r, s, t');
      } else if Distance(r, s) == Distance(r, s') + 1 {
        if Distance(s, t) == Distance(s', t) + 1 {
          Triangle(r, s', t);
        } else {
          Triangle(r, s', t');
        }
      } else if Distance(s, t) == Distance(s', t) + 1 {
        Triangle(r', s', t);
      } else {
        Triangle(r', s', t');
      }
    }
  }

  lemma {:induction false} LengthBound(s: string, t: string)
    ensures Distance(s, t) <= |s| + |t|
    decreases |s| + |t|
  {
    if s != [] && t != [] {
      LengthBound(s[..|s| - 1], t);
    }
  }

  lemma {:induction false} LengthGap(s: string, t: string)
    ensures |t| <= |s| + Distance(s, t)
    decreases |s| + |t|
  {
    if s != [] && t != [] {
      var s', t' := s[..|s| - 1], t[..|t| - 1];
      LengthGap(s, t');
      LengthGap(s', t);
      LengthGap(s', t');
    }
  }

  // ------------------------------------------- it is the fewest single-character edits

  /** v is u with at most one character removed, and at most one put in its place. */
  ghost predicate OneEdit(u: string, v: string) {
    exists p, x, y, q :: EditAt(u, v, p, x, y, q)
  }

  predicate EditAt(u: string, v: string, p: string, x: string, y: string, q: string) {
    u == p + x + q && v == p + y + q && |x| <= 1 && |y| <= 1
  }

  ghost predicate Edits(us: seq<string>, s: string, t: string) {
    && us != [] && us[0] == s && us[|us| - 1] == t
    && forall i :: 1 <= i < |us| ==> OneEdit(us[i - 1], us[i])
  }

  lemma {:induction false} CommonSuffix(s: string, t: string, q: string)
    ensures Distance(s + q, t + q) <= Distance(s, t)
  {
    hide Distance;
    if q == [] {
      assert s + q == s && t + q == t;
    } else {
      var n := |q| - 1;
      CommonSuffix(s, t, q[..n]);
      SuffixFront(s, q);
      SuffixFront(t, q);
      OneStep(s + q, t + q);
    }
  }

  lemma SuffixFront(s: string, q: string)
    requires q != []
    ensures var t := s + q; t[..|t| - 1] == s + q[..|q| - 1] && t[|t| - 1] == q[|q| - 1]
  {
  }

  lemma SmallEdit(p: string, x: string, y: string)
    requires |x| <= 1 && |y| <= 1
    ensures Distance(p + x, p + y) <= 1
  {
    ZeroExactlyWhenEqual(p, p);
    OneStep(p + x, p + y);
    if |x| == 1 {
      assert (p + x)[..|p|] == p;
    } else {
      assert p + x == p;
    }
    if |y| == 1 {
      assert (p + y)[..|p|] == p;
    } else {
      assert p + y == p;
    }
  }

  lemma OneEditIsNear(u: string, v: string)
    requires OneEdit(u, v)
    ensures Distance(u, v) <= 1
  {
    var p, x, y, q :| EditAt(u, v, p, x, y, q);
    SmallEdit(p, x, y);
    CommonSuffix(p + x, p + y, q);
  }

  /** No sequence of edits is shorter than the distance. */
  lemma {:induction false} NoShorterEdits(us: seq<string>, s: string, t: string)
    requires Edits(us, s, t)
    ensures Distance(s, t) <= |us| - 1
  {
    if |us| == 1 {
      ZeroExactlyWhenEqual(s, t);
    } else {
      var before := us[|us| - 2];
      NoShorterEdits(us[..|us| - 1], s, before);
      OneEditIsNear(before, t);
      Triangle(s, before, t);
    }
  }

  /** Some sequence of edits is exactly as long as the distance. */
  lemma {:induction false} EditsExist(s: string, t: string) returns (us: seq<string>)
    ensures Edits(us, s, t) && |us| - 1 == Distance(s, t)
    decreases |s| + |t|
  {
    hide OneEdit;
    if s == [] && t == [] {
      us := [s];
    } else if t != [] && (s == [] || Distance(s, t) == Distance(s, t[..|t| - 1]) + 1) {
      var rest := EditsExist(s, t[..|t| - 1]);
      us := EditLast(rest, s, t[..|t| - 1], t);
    } else if s != [] && (t == [] || Distance(s, t) == Distance(s[..|s| - 1], t) + 1) {
      var rest := EditsExist(s[..|s| - 1], t);
      us := EditFirst(rest, s, s[..|s| - 1], t);
    } else {
      var rest := EditsExist(s[..|s| - 1], t[..|t| - 1]);
      us := ReplaceLast(rest, s, t);
    }
  }

  /** Editing everything but the last character, then replacing that one if it differs. */
  lemma ReplaceLast(rest: seq<string>, s: string, t: string) returns (us: seq<string>)
    requires s != [] && t != [] && Edits(rest, s[..|s| - 1], t[..|t| - 1])
    ensures Edits(us, s, t) && |us| == |rest| + Cost(s[|s| - 1], t[|t| - 1])
  {
    var s', t', c, d := s[..|s| - 1], t[..|t| - 1], s[|s| - 1], t[|t| - 1];
    us := KeepLast(rest, s', t', c);
    assert s' + [c] == s && t' + [d] == t;
    if c != d {
      assert EditAt(t' + [c], t, t', [c], [d], []);
      us := us + [t];
    }
  }

  /** Typing one more character at the end. */
  lemma EditLast(rest: seq<string>, s: string, t': string, t: string) returns (us: seq<string>)
    requires Edits(rest, s, t') && t != [] && t' == t[..|t| - 1]
    ensures Edits(us, s, t) && |us| == |rest| + 1
  {
    assert EditAt(t', t, t', [], [t[|t| - 1]], []);
    us := rest + [t];
  }

  /** Deleting the last character first. */
  lemma EditFirst(rest: seq<string>, s: string, s': string, t: string) returns (us: seq<string>)
    requires Edits(rest, s', t) && s != [] && s' == s[..|s| - 1]
    ensures Edits(us, s, t) && |us| == |rest| + 1
  {
    assert EditAt(s, s', s', [s[|s| - 1]], [], []);
    us := [s] + rest;
    forall i | 1 <= i < |us| ensures OneEdit(us[i - 1], us[i]) {
      if i > 1 {
        assert us[i - 1] == rest[i - 2] && us[i] == rest[i - 1];
      }
    }
  }

  /** The same edits in front of a character that stays. */
  lemma KeepLast(rest: seq<string>, s: string, t: string, c: char) returns (us: seq<string>)
    requires Edits(rest, s, t)
    ensures Edits(us, s + [c], t + [c]) && |us| == |rest|
  {
    us := seq(|rest|, i requires 0 <= i < |rest| => rest[i] + [c]);
    forall i | 1 <= i < |us| ensures OneEdit(us[i - 1], us[i]) {
      var p, x, y, q :| EditAt(rest[i - 1], rest[i], p, x, y, q);
      assert p + x + q + [c] == p + x + (q + [c]) && p + y + q + [c] == p + y + (q + [c]);
      assert EditAt(us[i - 1], us[i], p, x, y, q + [c]);
    }
  }

  // --------------------------------------------------------------- the two-row program

  /** The row for a prefix of the left side: distances to every prefix of the right side. */
  ghost predicate RowFor(row: seq<int>, left: string, right: string) {
    |row| == |right| + 1 && forall j :: 0 <= j <= |right| ==> row[j] == Distance(left, right[..j])
  }

  lemma CellIs(left: string, right: string, i: nat, j: nat)
    requires i < |left| && j < |right|
    ensures Distance(left[..i + 1], right[..j + 1])
         == Min(Min(Distance(left[..i + 1], right[..j]) + 1, Distance(left[..i], right[..j + 1]) + 1),
                Distance(left[..i], right[..j]) + Cost(left[i], right[j]))
  {
    assert left[..i + 1][..i] == left[..i] && right[..j + 1][..j] == right[..j];
  }

  /** One row from the row above; the row above may be longer than needed. */
  method NextRow(left: string, right: string, leftIndex: nat, previous: seq<int>) returns (current: seq<int>)
    requires leftIndex < |left| && |previous| > |right|
    requires RowFor(previous[..|right| + 1], left[..leftIndex], right)
    ensures RowFor(current, left[..leftIndex + 1], right)
  {
    hide Distance;
    RowStart(left, leftIndex);
    current := [leftIndex + 1];
    for rightIndex := 0 to |right|
      invariant |current| == rightIndex + 1
      invariant forall j :: 0 <= j <= rightIndex ==> current[j] == Distance(left[..leftIndex + 1], right[..j])
    {
      CellIs(left, right, leftIndex, rightIndex);
      var cost := if left[leftIndex] == right[rightIndex] then 0 else 1;
      var insert := current[rightIndex] + 1;
      var remove := previous[rightIndex + 1] + 1;
      var replace := previous[rightIndex] + cost;
      assert previous[..|right| + 1][rightIndex] == previous[rightIndex];
      assert previous[..|right| + 1][rightIndex + 1] == previous[rightIndex + 1];
      current := current + [Min(Min(insert, remove), replace)];
    }
  }

  lemma RowStart(left: string, i: nat)
    requires i < |left|
    ensures Distance(left[..i + 1], "") == i + 1
    ensures forall right: string :: right[..0] == ""
  {
  }

  lemma TopRow(right: string, j: nat)
    requires j <= |right|
    ensures Distance("", right[..j]) == j
  {
  }

  /** The program: its first row is sized by the bytes of the right side, not its characters. */
  method Compute(left: string, right: string) returns (distance: int)
    ensures left != "" ==> distance == Distance(left, right)
    ensures left == "" ==> distance == ByteLen(right)
  {
    hide Distance;
    LengthBounds(right);
    var previous := seq(ByteLen(right) + 1, index requires 0 <= index => index);
    forall j | 0 <= j <= |right| ensures previous[..|right| + 1][j] == Distance("", right[..j]) {
      TopRow(right, j);
    }
    assert left[..0] == "";
    for leftIndex := 0 to |left|
      invariant |previous| > |right| && RowFor(previous[..|right| + 1], left[..leftIndex], right)
      invariant leftIndex == 0 ==> |previous| == ByteLen(right) + 1 && previous[|previous| - 1] == ByteLen(right)
      invariant leftIndex > 0 ==> |previous| == |right| + 1
    {
      previous := NextRow(left, right, leftIndex, previous);
      assert previous[..|right| + 1] == previous;
    }
    assert left[..|left|] == left && right[..|right|] == right;
    assert left != "" ==> previous[..|right| + 1] == previous;
    distance := previous[|previous| - 1];
  }

  /** It computes the distance exactly when the left side is nonempty or the right side is all
      single-byte characters.
   */
  lemma CorrectExactlyWhen(left: string, right: string, computed: int)
    requires left != "" ==> computed == Distance(left, right)
    requires left == "" ==> computed == ByteLen(right)
    ensures computed == Distance(left, right) <==>
            left != "" || forall i :: 0 <= i < |right| ==> (right[i] as int) < 0x80
  {
    LengthBounds(right);
  }

  /** One accented letter against nothing counts as two. */
  lemma EmptyLeftMiscounts()
    ensures Distance("", "\U{00e9}") == 1 && ByteLen("\U{00e9}") == 2
  {
    assert "\U{00e9}"[1..] == "";
  }

  // ---------------------------------------------------------------- the suggestion

  const UNBEATEN := 0x4000_0000

  /** Twice the distance, with a bonus for completing what was typed. */
  function Score(name: string, candidate: string): int {
    2 * (if name == "" then ByteLen(candidate) else Distance(name, candidate)) - if name <= candidate then 3 else 0
  }

  /** Typing the rest of a command is as far as the rest is long. */
  lemma {:induction false} CompletionDistance(name: string, candidate: string)
    requires name <= candidate
    ensures Distance(name, candidate) == |candidate| - |name|
    decreases |candidate|
  {
    LengthGap(name, candidate);
    if |name| < |candidate| {
      var front := candidate[..|candidate| - 1];
      assert name <= front;
      CompletionDistance(name, front);
      OneStep(name, candidate);
    } else {
      ZeroExactlyWhenEqual(name, candidate);
    }
  }

  /** What a score means, for a name of more than nothing. Near enough is three edits, or four for a
      completion; of two candidates alike in whether they complete the name the nearer one is better, and
      otherwise the one that completes it, unless it is two edits further or more.
   */
  lemma ScoreTold(name: string, a: string, b: string)
    requires name != ""
    ensures Score(name, a) <= 6 <==> Distance(name, a) <= 3 || (name <= a && |a| == |name| + 4)
    ensures Score(name, a) <= Score(name, b) <==>
              var d, e := Distance(name, a), Distance(name, b);
              if name <= a && !(name <= b) then d <= e + 1
              else if name <= b && !(name <= a) then d + 2 <= e
              else d <= e
  {
    hide Distance;
    if name <= a {
      CompletionDistance(name, a);
    }
  }

  /** Nothing else in the catalogue scores better, and nothing before it as well. */
  predicate Best(name: string, catalogue: seq<string>, i: nat) {
    && i < |catalogue| && catalogue[i] != name
    && (forall k :: 0 <= k < |catalogue| && catalogue[k] != name ==>
         Score(name, catalogue[i]) <= Score(name, catalogue[k]))
    && (forall k :: 0 <= k < i && catalogue[k] != name ==> Score(name, catalogue[i]) < Score(name, catalogue[k]))
  }

  /** Suggests the first best candidate, if anything near enough exists. */
  method Suggest(name: string, catalogue: seq<string>) returns (suggestion: Option<string>)
    requires "" !in catalogue
    ensures suggestion.Some? <==>
              && ByteLen(name) > 1
              && exists k :: 0 <= k < |catalogue| && catalogue[k] != name && Score(name, catalogue[k]) <= 6
    ensures suggestion.Some? ==> exists i: nat :: Best(name, catalogue, i) && suggestion.value == catalogue[i]
  {
    hide Distance, Encode;
    var best, bestScore := "", UNBEATEN;
    ghost var at: nat := |catalogue|;
    for i := 0 to |catalogue|
      invariant best == "" ==> bestScore == UNBEATEN
      invariant best == "" ==> forall k :: 0 <= k < i && catalogue[k] != name ==> Score(name, catalogue[k]) >= UNBEATEN
      invariant best != "" ==>
        (&& at < i && catalogue[at] == best && best != name && bestScore == Score(name, best) && bestScore < UNBEATEN
         && (forall k :: 0 <= k < i && catalogue[k] != name ==> bestScore <= Score(name, catalogue[k]))
         && (forall k :: 0 <= k < at && catalogue[k] != name ==> bestScore < Score(name, catalogue[k])))
    {
      var candidate := catalogue[i];
      assert candidate in catalogue;
      if candidate != name {
        var score := Compute(name, candidate);
        score := score * 2;
        if name <= candidate {
          score := score - 3;
        }
        if score < bestScore {
          best, bestScore := candidate, score;
          at := i;
        }
      }
    }
    if best != "" && ByteLen(name) > 1 && bestScore <= 6 {
      assert Best(name, catalogue, at);
      return Some(best);
    }
    return None;
  }
}
