/** What several modules need.

    An optional value, and filtering a sequence: what is kept, that it stays in order, and how the
    result grows with the sequence.
 */
module Collections {

  datatype Option<+T> = None | Some(value: T)

  function Filter<T>(s: seq<T>, keep: T -> bool): seq<T> {
    if s == [] then [] else (if keep(s[0]) then [s[0]] else []) + Filter(s[1..], keep)
  }

  lemma FilterNone<T>(keep: T -> bool)
    ensures Filter([], keep) == []
  {
  }

  lemma {:induction false} FilterIs<T>(s: seq<T>, keep: T -> bool, x: T)
    ensures x in Filter(s, keep) <==> x in s && keep(x)
  {
    if s != [] {
      FilterIs(s[1..], keep, x);
      assert s == [s[0]] + s[1..];
    }
  }

  lemma {:induction false} FilterSnoc<T>(s: seq<T>, i: nat, keep: T -> bool)
    requires i < |s|
    ensures Filter(s[..i + 1], keep) == Filter(s[..i], keep) + (if keep(s[i]) then [s[i]] else [])
  {
    if i == 0 {
      assert s[..1] == [s[0]] && s[..1][1..] == [] && s[..0] == [];
    } else {
      assert s[..i + 1][1..] == s[1..][..i] && s[..i][1..] == s[1..][..i - 1];
      FilterSnoc(s[1..], i - 1, keep);
    }
  }

  lemma {:induction false} FilterCongruent<T>(s: seq<T>, keep: T -> bool, other: T -> bool)
    requires forall x :: x in s ==> keep(x) == other(x)
    ensures Filter(s, keep) == Filter(s, other)
  {
    if s != [] {
      FilterCongruent(s[1..], keep, other);
    }
  }

  lemma {:induction false} FilterShorter<T(!new)>(s: seq<T>, keep: T -> bool, fewer: T -> bool)
    requires forall x :: fewer(x) ==> keep(x)
    ensures |Filter(s, fewer)| <= |Filter(s, keep)| <= |s|
    ensures (exists x :: x in s && keep(x) && !fewer(x)) ==> |Filter(s, fewer)| < |Filter(s, keep)|
  {
    if s != [] {
      FilterShorter(s[1..], keep, fewer);
      assert s == [s[0]] + s[1..];
    }
  }

  /** Where each kept element came from: what is kept stays in order. */
  lemma {:induction false} FilterInOrder<T>(s: seq<T>, keep: T -> bool) returns (from: seq<nat>)
    ensures |from| == |Filter(s, keep)|
    ensures forall i :: 0 <= i < |from| ==> from[i] < |s| && Filter(s, keep)[i] == s[from[i]] && keep(s[from[i]])
    ensures forall i, j :: 0 <= i < j < |from| ==> from[i] < from[j]
  {
    hide Filter;
    if s == [] {
      FilterNone(keep);
      from := [];
    } else {
      var n := |s| - 1;
      from := FilterInOrder(s[..n], keep);
      FilterSnoc(s, n, keep);
      assert s[..n + 1] == s;
      if keep(s[n]) {
        from := from + [n];
      }
    }
  }

  lemma {:induction false} FilterConcat<T>(s: seq<T>, t: seq<T>, keep: T -> bool)
    ensures Filter(s + t, keep) == Filter(s, keep) + Filter(t, keep)
  {
    if s == [] {
      assert s + t == t;
    } else {
      var head, rest := if keep(s[0]) then [s[0]] else [], Filter(s[1..], keep);
      assert (s + t)[1..] == s[1..] + t && (s + t)[0] == s[0];
      FilterConcat(s[1..], t, keep);
      hide Filter;
      assert head + (rest + Filter(t, keep)) == (head + rest) + Filter(t, keep);
    }
  }

  lemma FilterOne<T>(x: T, keep: T -> bool)
    ensures Filter([x], keep) == if keep(x) then [x] else []
  {
    assert [x][1..] == [];
  }

  lemma FilterLast<T>(s: seq<T>, x: T, keep: T -> bool)
    ensures Filter(s + [x], keep) == Filter(s, keep) + if keep(x) then [x] else []
  {
    FilterConcat(s, [x], keep);
    FilterOne(x, keep);
  }

  lemma {:induction false} FilterCommutes<T>(s: seq<T>, keep: T -> bool, also: T -> bool)
    ensures Filter(Filter(s, keep), also) == Filter(Filter(s, also), keep)
  {
    if s != [] {
      var head, rest := [s[0]], s[1..];
      FilterCommutes(rest, keep, also);
      FilterConcat(if keep(s[0]) then head else [], Filter(rest, keep), also);
      FilterConcat(if also(s[0]) then head else [], Filter(rest, also), keep);
      FilterOne(s[0], keep);
      FilterOne(s[0], also);
    }
  }

  lemma {:induction false} FilterAll<T>(s: seq<T>, keep: T -> bool)
    ensures (forall x :: x in s ==> keep(x)) ==> Filter(s, keep) == s
    ensures (forall x :: x in s ==> !keep(x)) ==> Filter(s, keep) == []
  {
    if s != [] {
      FilterAll(s[1..], keep);
      assert s == [s[0]] + s[1..];
    }
  }

  lemma SubsetSize<T>(a: set<T>, b: set<T>)
    requires a <= b
    ensures |a| <= |b|
  {
    assert b == a + (b - a);
  }

  lemma CountFirst<T>(x: T, s: seq<T>, y: T)
    ensures multiset([x] + s)[y] == multiset(s)[y] + if x == y then 1 else 0
  {
  }

  /** What is kept is kept as often as it was there. */
  lemma {:induction false} FilterCount<T>(s: seq<T>, keep: T -> bool, x: T)
    ensures multiset(Filter(s, keep))[x] == if keep(x) then multiset(s)[x] else 0
  {
    if s != [] {
      FilterStep(s, keep);
      hide Filter;
      var head, rest := s[0], s[1..];
      FilterCount(rest, keep, x);
      CountFirst(head, rest, x);
      CountFirst(head, Filter(rest, keep), x);
      assert s == [head] + rest;
    } else {
      FilterNone(keep);
    }
  }

  lemma FilterStep<T>(s: seq<T>, keep: T -> bool)
    requires s != []
    ensures Filter(s, keep) == if keep(s[0]) then [s[0]] + Filter(s[1..], keep) else Filter(s[1..], keep)
  {
  }

  lemma Associate<T>(a: seq<T>, b: seq<T>, c: seq<T>)
    ensures a + (b + c) == a + b + c
  {
  }

  lemma CountLast<T>(s: seq<T>, x: T, y: T)
    ensures multiset(s + [x])[y] == multiset(s)[y] + if x == y then 1 else 0
  {
  }
}
