/** The contract fingerprint of a file: the symbols it keeps, their order, and the text hashed. */
module Contracts {
  import opened Text
  import opened Utf8
  import opened Collections

  datatype Symbol = Symbol(name: string, kind: string, signature: string, signatureHash: string)

  /** What symbols are compared by. */
  datatype Key = Key(name: string, kind: string, hash: string)

  const MAX_SYMBOLS := 200
  const MAX_RUNES := 500

  function KeyOf(s: Symbol): Key {
    Key(s.name, s.kind, s.signatureHash)
  }

  predicate KeyLess(a: Key, b: Key) {
    if a.name != b.name then TextLess(a.name, b.name)
    else if a.kind != b.kind then TextLess(a.kind, b.kind)
    else TextLess(a.hash, b.hash)
  }

  // ---------------------------------------------------------------- The order

  lemma TextOrder(s: string, t: string, u: string)
    ensures !(TextLess(s, t) && TextLess(t, s)) && !TextLess(s, s)
    ensures TextLess(s, t) || s == t || TextLess(t, s)
    ensures TextLess(s, t) && TextLess(t, u) ==> TextLess(s, u)
  {
    hide Less, TextLess, Encode;
    OrderPreserved(s, t);
    EncodeIsInjective(s, t);
    EncodeIsInjective(t, s);
    EncodeIsInjective(t, u);
    EncodeIsInjective(s, u);
    EncodeIsInjective(s, s);
    LessIrreflexive(Encode(s));
    if Less(Encode(s), Encode(t)) && Less(Encode(t), Encode(u)) {
      LessTransitive(Encode(s), Encode(t), Encode(u));
    }
    if Less(Encode(s), Encode(t)) && Less(Encode(t), Encode(s)) {
      LessTransitive(Encode(s), Encode(t), Encode(s));
    }
  }

  lemma KeyOrder(a: Key, b: Key, c: Key)
    ensures !(KeyLess(a, b) && KeyLess(b, a)) && !KeyLess(a, a)
    ensures KeyLess(a, b) || a == b || KeyLess(b, a)
    ensures KeyLess(a, b) && KeyLess(b, c) ==> KeyLess(a, c)
  {
    hide TextLess;
    TextOrder(a.name, b.name, c.name);
    TextOrder(a.kind, b.kind, c.kind);
    TextOrder(a.hash, b.hash, c.hash);
  }

  predicate Sorted(keys: seq<Key>) {
    forall i, j :: 0 <= i < j < |keys| ==> !KeyLess(keys[j], keys[i])
  }

  function Keys(symbols: seq<Symbol>): (keys: seq<Key>)
    ensures |keys| == |symbols| && forall i :: 0 <= i < |keys| ==> keys[i] == KeyOf(symbols[i])
  {
    if symbols == [] then [] else [KeyOf(symbols[0])] + Keys(symbols[1..])
  }

  /** What any sort by the comparison may return: equal symbols may come in any order. */
  predicate Sorting(symbols: seq<Symbol>, result: seq<Symbol>) {
    multiset(symbols) == multiset(result) && Sorted(Keys(result))
  }

  lemma RemoveFirst<T>(s: seq<T>)
    requires s != []
    ensures multiset(s) == multiset(s[1..]) + multiset{s[0]}
  {
    assert s == [s[0]] + s[1..];
  }

  lemma HeadsAgree(a: seq<Key>, b: seq<Key>)
    requires Sorted(a) && Sorted(b) && multiset(a) == multiset(b) && a != [] && b != []
    ensures a[0] == b[0]
  {
    hide KeyLess;
    assert a[0] in multiset(b) && b[0] in multiset(a);
    var i :| 0 <= i < |b| && b[i] == a[0];
    var j :| 0 <= j < |a| && a[j] == b[0];
    KeyOrder(a[0], b[0], a[0]);
  }

  lemma {:induction false} SortedKeysAgree(a: seq<Key>, b: seq<Key>)
    requires Sorted(a) && Sorted(b) && multiset(a) == multiset(b)
    ensures a == b
  {
    hide KeyLess;
    assert |multiset(a)| == |a| && |multiset(b)| == |b|;
    if a != [] {
      HeadsAgree(a, b);
      RemoveFirst(a);
      RemoveFirst(b);
      CancelOne(multiset(a[1..]), multiset(b[1..]), a[0]);
      SortedKeysAgree(a[1..], b[1..]);
      assert a == [a[0]] + a[1..] && b == [b[0]] + b[1..];
    }
  }

  lemma CancelOne<T>(a: multiset<T>, b: multiset<T>, x: T)
    requires a + multiset{x} == b + multiset{x}
    ensures a == b
  {
    assert a == a + multiset{x} - multiset{x};
    assert b == b + multiset{x} - multiset{x};
  }

  lemma {:induction false} KeysConcat(a: seq<Symbol>, b: seq<Symbol>)
    ensures Keys(a + b) == Keys(a) + Keys(b)
  {
    hide KeyOf;
    if a == [] {
      assert a + b == b;
    } else {
      assert (a + b)[1..] == a[1..] + b;
      KeysConcat(a[1..], b);
    }
  }

  lemma KeysRemove(x: seq<Symbol>, c: Symbol, y: seq<Symbol>)
    ensures multiset(Keys(x + ([c] + y))) == multiset(Keys(x + y)) + multiset{KeyOf(c)}
  {
    KeysConcat(x, y);
    KeysConcat(x, [c] + y);
    KeysConcat([c], y);
    assert Keys([c]) == [KeyOf(c)];
    hide Keys, KeyOf;
    AddMiddle(Keys(x), KeyOf(c), Keys(y));
  }

  lemma AddMiddle<T>(x: seq<T>, c: T, y: seq<T>)
    ensures multiset(x + ([c] + y)) == multiset(x + y) + multiset{c}
  {
  }

  function Without<T>(s: seq<T>, i: nat): seq<T>
    requires i < |s|
  {
    s[..i] + s[i + 1..]
  }

  lemma OneRemoved<T>(s: seq<T>, i: nat)
    requires i < |s|
    ensures s == s[..i] + ([s[i]] + s[i + 1..])
    ensures multiset(s) == multiset(Without(s, i)) + multiset{s[i]}
    ensures |Without(s, i)| == |s| - 1
  {
    AddMiddle(s[..i], s[i], s[i + 1..]);
  }

  lemma KeyRemoved(s: seq<Symbol>, i: nat)
    requires i < |s|
    ensures multiset(Keys(s)) == multiset(Keys(Without(s, i))) + multiset{KeyOf(s[i])}
  {
    OneRemoved(s, i);
    KeysRemove(s[..i], s[i], s[i + 1..]);
  }

  lemma {:induction false} SameSymbolsSameKeys(a: seq<Symbol>, b: seq<Symbol>)
    requires multiset(a) == multiset(b)
    ensures multiset(Keys(a)) == multiset(Keys(b))
    decreases |a|
  {
    hide KeyOf, Keys, Without;
    assert |multiset(a)| == |a| && |multiset(b)| == |b|;
    if a == [] {
      assert b == [];
    } else {
      assert a[0] in multiset(b);
      var i :| 0 <= i < |b| && b[i] == a[0];
      OneRemoved(a, 0);
      OneRemoved(b, i);
      CancelOne(multiset(Without(a, 0)), multiset(Without(b, i)), a[0]);
      SameSymbolsSameKeys(Without(a, 0), Without(b, i));
      KeyRemoved(a, 0);
      KeyRemoved(b, i);
    }
  }

  // ---------------------------------------------------------------- The gate

  function Kept(symbols: seq<Symbol>, deny: string -> bool): seq<Symbol> {
    Filter(symbols, (s: Symbol) => !deny(s.signature))
  }

  /** The gate keeps every undenied symbol, as often as it was there, and no denied one. */
  lemma KeptExactly(symbols: seq<Symbol>, deny: string -> bool, s: Symbol)
    ensures multiset(Kept(symbols, deny))[s] == if deny(s.signature) then 0 else multiset(symbols)[s]
  {
    FilterCount(symbols, (t: Symbol) => !deny(t.signature), s);
  }

  lemma KeptSnoc(symbols: seq<Symbol>, i: nat, deny: string -> bool)
    requires i < |symbols|
    ensures Kept(symbols[..i + 1], deny)
         == if deny(symbols[i].signature) then Kept(symbols[..i], deny) else Kept(symbols[..i], deny) + [symbols[i]]
  {
    FilterSnoc(symbols, i, (s: Symbol) => !deny(s.signature));
    assert Kept(symbols[..i], deny) + [] == Kept(symbols[..i], deny);
  }

  lemma KeptNone(deny: string -> bool)
    ensures Kept([], deny) == []
  {
  }

  lemma KeptReordered(a: seq<Symbol>, b: seq<Symbol>, deny: string -> bool)
    requires multiset(a) == multiset(b)
    ensures multiset(Kept(a, deny)) == multiset(Kept(b, deny))
  {
    forall s ensures multiset(Kept(a, deny))[s] == multiset(Kept(b, deny))[s] {
      KeptExactly(a, deny, s);
      KeptExactly(b, deny, s);
    }
  }

  // ---------------------------------------------------------------- The hash pre-image

  function Line(k: Key): string {
    k.name + ":" + k.hash
  }

  /** The text the contract hash is taken over. */
  function Preimage(keys: seq<Key>): string {
    if keys == [] then "" else Line(keys[0]) + "\n" + Preimage(keys[1..])
  }

  function Bounded<T>(s: seq<T>): seq<T> {
    if |s| > MAX_SYMBOLS then s[..MAX_SYMBOLS] else s
  }

  /** Reordering a file's declarations changes neither the published keys nor the text hashed,
      whichever sort is used and even where the bound cuts the list.
   */
  lemma OrderIsIrrelevant(a: seq<Symbol>, b: seq<Symbol>, deny: string -> bool, sortedA: seq<Symbol>,
                          sortedB: seq<Symbol>)
    requires multiset(a) == multiset(b)
    requires Sorting(Kept(a, deny), sortedA) && Sorting(Kept(b, deny), sortedB)
    ensures Keys(Bounded(sortedA)) == Keys(Bounded(sortedB))
    ensures Preimage(Keys(Bounded(sortedA))) == Preimage(Keys(Bounded(sortedB)))
  {
    hide Kept, Sorted, Preimage, KeyOf, Keys, Bounded;
    KeptReordered(a, b, deny);
    SameSymbolsSameKeys(sortedA, sortedB);
    SortedKeysAgree(Keys(sortedA), Keys(sortedB));
    KeysBounded(sortedA);
    KeysBounded(sortedB);
  }

  lemma KeysBounded(symbols: seq<Symbol>)
    ensures Keys(Bounded(symbols)) == Bounded(Keys(symbols))
  {
    hide Keys, KeyOf;
  }

  predicate WellFormed(keys: seq<Key>) {
    forall i :: 0 <= i < |keys| ==> NewlineFree(keys[i].name) && NewlineFree(keys[i].hash) && |keys[i].hash| == 64
  }

  lemma FirstLine(a: string, b: string, x: string, y: string)
    requires NewlineFree(a) && NewlineFree(b) && a + "\n" + x == b + "\n" + y
    ensures a == b && x == y
  {
    var s, t := a + "\n" + x, b + "\n" + y;
    assert s[|a|] == '\n' && t[|b|] == '\n';
    if |a| == |b| {
      assert a == s[..|a|] && b == t[..|b|];
      assert x == s[|a| + 1..] && y == t[|b| + 1..];
    }
  }

  lemma LineSplits(a: Key, b: Key)
    requires |a.hash| == |b.hash| && Line(a) == Line(b)
    ensures a.name == b.name && a.hash == b.hash
  {
    var n := |Line(a)| - |a.hash|;
    assert Line(a)[n..] == a.hash && Line(b)[n..] == b.hash;
    assert Line(a)[..n - 1] == a.name && Line(b)[..n - 1] == b.name;
  }

  lemma LineNewlineFree(k: Key)
    requires NewlineFree(k.name) && NewlineFree(k.hash)
    ensures NewlineFree(Line(k))
  {
  }

  /** With newline-free names and full-length hashes the text determines names and hashes, even
      where a name holds a colon.
   */
  lemma {:induction false} PreimageDetermines(a: seq<Key>, b: seq<Key>)
    requires WellFormed(a) && WellFormed(b) && Preimage(a) == Preimage(b)
    ensures |a| == |b| && forall i :: 0 <= i < |a| ==> a[i].name == b[i].name && a[i].hash == b[i].hash
  {
    hide Line, NewlineFree;
    if a != [] && b != [] {
      LineNewlineFree(a[0]);
      LineNewlineFree(b[0]);
      FirstLine(Line(a[0]), Line(b[0]), Preimage(a[1..]), Preimage(b[1..]));
      LineSplits(a[0], b[0]);
      PreimageDetermines(a[1..], b[1..]);
      forall i | 0 <= i < |a| ensures a[i].name == b[i].name && a[i].hash == b[i].hash {
        if i > 0 {
          assert a[i] == a[1..][i - 1] && b[i] == b[1..][i - 1];
        }
      }
    }
  }

  /** A name that holds a newline can imitate two symbols. */
  lemma NewlineCollision(a: Key, b: Key)
    ensures Preimage([a, b]) == Preimage([Imitation(a, b)])
  {
    var both := Imitation(a, b);
    assert [a, b][1..] == [b] && [b][1..] == [] && [both][1..] == [];
    assert Preimage([b]) == Line(b) + "\n" + "";
    assert Preimage([both]) == Line(both) + "\n" + "";
    assert Line(both) == Line(a) + "\n" + Line(b);
  }

  function Imitation(a: Key, b: Key): Key {
    Key(Line(a) + "\n" + b.name, b.kind, b.hash)
  }

  /** What a file can publish: sorted, within the bound, with hashes of full length. */
  predicate Publishable(keys: seq<Key>) {
    Sorted(keys) && |keys| <= MAX_SYMBOLS && forall i :: 0 <= i < |keys| ==> |keys[i].hash| == 64
  }

  /** The same names and hashes in the same order: all that the text could determine. */
  predicate SameSurface(a: seq<Key>, b: seq<Key>) {
    |a| == |b| && forall i :: 0 <= i < |a| ==> a[i].name == b[i].name && a[i].hash == b[i].hash
  }

  function Newlines(s: string): nat {
    if s == "" then 0 else (if s[0] == '\n' then 1 else 0) + Newlines(s[1..])
  }

  lemma {:induction false} NewlinesConcat(s: string, t: string)
    ensures Newlines(s + t) == Newlines(s) + Newlines(t)
  {
    if s == "" {
      assert s + t == t;
    } else {
      assert (s + t)[1..] == s[1..] + t;
      NewlinesConcat(s[1..], t);
    }
  }

  lemma {:induction false} NewlineFreeCount(s: string)
    requires NewlineFree(s)
    ensures Newlines(s) == 0
  {
    if s != "" {
      NewlineFreeCount(s[1..]);
    }
  }

  lemma {:induction false} NewlinesOfText(keys: seq<Key>)
    ensures Newlines(Preimage(keys)) >= |keys|
  {
    hide Line;
    if keys != [] {
      NewlinesOfText(keys[1..]);
      NewlinesConcat(Line(keys[0]) + "\n", Preimage(keys[1..]));
      NewlinesConcat(Line(keys[0]), "\n");
      assert Newlines("\n") == 1 + Newlines("\n"[1..]);
    }
  }

  lemma OneLineText(k: Key)
    ensures Preimage([k]) == Line(k) + "\n"
  {
    hide Line;
    assert [k][1..] == [];
    assert Preimage([]) == "";
  }

  /** A surface of at most one symbol shares its text with no other. */
  lemma ShortIsAlone(a: seq<Key>, b: seq<Key>)
    requires WellFormed(a) && |a| <= 1 && Publishable(b) && Preimage(a) == Preimage(b)
    ensures SameSurface(a, b)
  {
    hide Line, Preimage, Sorted, Newlines;
    NewlinesOfText(b);
    NoText();
    if |a| == 1 {
      var k := a[0];
      assert a == [k];
      OneLineText(k);
      LineNewlineFree(k);
      NewlineFreeCount(Line(k));
      NewlinesConcat(Line(k), "\n");
      assert |b| <= 1;
      if |b| == 1 {
        assert b == [b[0]];
        OneLineText(b[0]);
        assert Line(k) == (Line(k) + "\n")[..|Line(k)|] && Line(b[0]) == (Line(b[0]) + "\n")[..|Line(b[0])|];
        LineSplits(k, b[0]);
      }
    }
  }

  lemma NoText()
    ensures Preimage([]) == "" && Newlines("") == 0 && Newlines("\n") == 1
  {
    assert "\n"[1..] == "";
  }

  function Merged(keys: seq<Key>): seq<Key>
    requires |keys| >= 2
  {
    keys[..|keys| - 2] + [Imitation(keys[|keys| - 2], keys[|keys| - 1])]
  }

  lemma {:induction false} PreimageConcat(a: seq<Key>, b: seq<Key>)
    ensures Preimage(a + b) == Preimage(a) + Preimage(b)
  {
    hide Line;
    if a == [] {
      assert a + b == b;
    } else {
      assert (a + b)[1..] == a[1..] + b;
      PreimageConcat(a[1..], b);
    }
  }

  lemma {:induction false} ExtensionIsGreater(s: string, more: string)
    requires more != ""
    ensures TextLess(s, s + more)
  {
    if s != "" {
      assert (s + more)[1..] == s[1..] + more;
      ExtensionIsGreater(s[1..], more);
    }
  }

  lemma ImitationIsGreater(a: Key, b: Key)
    ensures KeyLess(a, Imitation(a, b))
  {
    var more := ":" + a.hash + "\n" + b.name;
    assert Imitation(a, b).name == a.name + more;
    ExtensionIsGreater(a.name, more);
  }

  lemma MergedSorted(a: seq<Key>)
    requires Sorted(a) && |a| >= 2
    ensures Sorted(Merged(a))
  {
    hide KeyLess, Imitation;
    var n := |a|;
    var first, one, b := a[n - 2], Imitation(a[n - 2], a[n - 1]), Merged(a);
    ImitationIsGreater(first, a[n - 1]);
    forall i, j | 0 <= i < j < |b| ensures !KeyLess(b[j], b[i]) {
      assert b[i] == a[i];
      if j == n - 2 {
        assert !KeyLess(first, a[i]);
        NotBelow(a[i], first, one);
      } else {
        assert b[j] == a[j];
      }
    }
  }

  lemma NotBelow(a: Key, b: Key, c: Key)
    requires !KeyLess(b, a) && KeyLess(b, c)
    ensures !KeyLess(c, a)
  {
    hide KeyLess;
    KeyOrder(b, c, a);
  }

  /** Merging the last two symbols gives another publishable surface with the same text. */
  lemma MergedShares(a: seq<Key>)
    requires Publishable(a) && |a| >= 2
    ensures Publishable(Merged(a)) && !SameSurface(a, Merged(a)) && Preimage(Merged(a)) == Preimage(a)
  {
    hide Preimage, Sorted, Line;
    var n := |a|;
    var first, second := a[n - 2], a[n - 1];
    var one := Imitation(first, second);
    MergedSorted(a);
    NewlineCollision(first, second);
    assert a == a[..n - 2] + [first, second];
    PreimageConcat(a[..n - 2], [first, second]);
    PreimageConcat(a[..n - 2], [one]);
  }

  /** The text of a newline-free surface is also that of another publishable one exactly when it has
      at least two symbols, because names in general may hold newlines.
   */
  lemma SharedTextExactlyWhen(a: seq<Key>)
    requires WellFormed(a) && Publishable(a)
    ensures (exists b :: Publishable(b) && !SameSurface(a, b) && Preimage(b) == Preimage(a)) <==> |a| >= 2
  {
    hide Publishable, Preimage, SameSurface;
    if |a| >= 2 {
      MergedShares(a);
    } else {
      forall b | Publishable(b) && Preimage(b) == Preimage(a) ensures SameSurface(a, b) {
        ShortIsAlone(a, b);
      }
    }
  }

  // ---------------------------------------------------------------- Extraction

  /** Drops the denied symbols in place, reusing the front of the buffer. */
  method FilterInPlace(symbols: array<Symbol>, deny: string -> bool) returns (n: nat)
    modifies symbols
    ensures n <= symbols.Length
    ensures symbols[..n] == Kept(old(symbols[..]), deny)
  {
    hide Kept;
    n := 0;
    ghost var was := symbols[..];
    KeptNone(deny);
    assert was[..0] == [];
    for i := 0 to symbols.Length
      invariant n <= i
      invariant symbols[..n] == Kept(was[..i], deny)
      invariant symbols[i..] == was[i..]
    {
      assert symbols[i] == symbols[i..][0] == was[i];
      KeptSnoc(was, i, deny);
      assert was[i..][1..] == was[i + 1..] && symbols[i..][1..] == symbols[i + 1..];
      if deny(symbols[i].signature) {
        continue;
      }
      symbols[n] := symbols[i];
      n := n + 1;
      assert symbols[..n] == symbols[..n - 1] + [was[i]];
    }
    assert was[..symbols.Length] == was;
  }

  function Insert(s: Symbol, sorted: seq<Symbol>): seq<Symbol> {
    if sorted == [] || !KeyLess(KeyOf(sorted[0]), KeyOf(s)) then [s] + sorted
    else [sorted[0]] + Insert(s, sorted[1..])
  }

  function SortSymbols(symbols: seq<Symbol>): seq<Symbol> {
    if symbols == [] then [] else Insert(symbols[0], SortSymbols(symbols[1..]))
  }

  lemma SortedCons(k: Key, keys: seq<Key>)
    requires Sorted(keys) && (keys != [] ==> !KeyLess(keys[0], k))
    ensures Sorted([k] + keys)
  {
    hide KeyLess;
    var all := [k] + keys;
    forall i, j | 0 <= i < j < |all| ensures !KeyLess(all[j], all[i]) {
      if i == 0 && j > 1 {
        KeyOrder(all[j], k, keys[0]);
        KeyOrder(keys[0], all[j], k);
        KeyOrder(k, keys[0], all[j]);
        assert all[j] == keys[j - 1];
      }
    }
  }

  lemma {:induction false} InsertAdds(s: Symbol, sorted: seq<Symbol>)
    ensures multiset(Insert(s, sorted)) == multiset{s} + multiset(sorted)
  {
    hide KeyLess, KeyOf;
    if sorted != [] && KeyLess(KeyOf(sorted[0]), KeyOf(s)) {
      InsertAdds(s, sorted[1..]);
      RemoveFirst(sorted);
    }
  }

  lemma {:induction false} InsertSorts(s: Symbol, sorted: seq<Symbol>)
    requires Sorted(Keys(sorted))
    ensures Sorted(Keys(Insert(s, sorted)))
  {
    hide KeyLess, KeyOf, Sorted;
    if sorted == [] || !KeyLess(KeyOf(sorted[0]), KeyOf(s)) {
      SortedCons(KeyOf(s), Keys(sorted));
      KeysCons(s, sorted);
    } else {
      var rest := Insert(s, sorted[1..]);
      SortedTail(sorted);
      InsertSorts(s, sorted[1..]);
      InsertHead(s, sorted[1..]);
      HeadIsLeast(sorted);
      KeyOrder(KeyOf(s), KeyOf(sorted[0]), KeyOf(s));
      SortedCons(KeyOf(sorted[0]), Keys(rest));
      KeysCons(sorted[0], rest);
    }
  }

  lemma KeysCons(s: Symbol, rest: seq<Symbol>)
    ensures Keys([s] + rest) == [KeyOf(s)] + Keys(rest)
  {
    hide KeyOf;
  }

  lemma SortedTail(sorted: seq<Symbol>)
    requires sorted != [] && Sorted(Keys(sorted))
    ensures Sorted(Keys(sorted[1..]))
  {
    hide KeyLess, KeyOf, Keys;
    assert Keys(sorted[1..]) == Keys(sorted)[1..];
  }

  lemma HeadIsLeast(sorted: seq<Symbol>)
    requires sorted != [] && Sorted(Keys(sorted))
    ensures |sorted| > 1 ==> !KeyLess(KeyOf(sorted[1..][0]), KeyOf(sorted[0]))
  {
    hide KeyLess, KeyOf;
    if |sorted| > 1 {
      assert Keys(sorted)[1] == KeyOf(sorted[1]) && Keys(sorted)[0] == KeyOf(sorted[0]);
    }
  }

  lemma InsertHead(s: Symbol, sorted: seq<Symbol>)
    ensures var r := Insert(s, sorted); r != [] && (r[0] == s || (sorted != [] && r[0] == sorted[0]))
  {
    hide KeyLess, KeyOf;
  }

  lemma {:induction false} SortSorts(symbols: seq<Symbol>)
    ensures Sorting(symbols, SortSymbols(symbols))
  {
    hide KeyLess, KeyOf;
    if symbols != [] {
      SortSorts(symbols[1..]);
      InsertSorts(symbols[0], SortSymbols(symbols[1..]));
      InsertAdds(symbols[0], SortSymbols(symbols[1..]));
      assert symbols == [symbols[0]] + symbols[1..];
    }
  }

  /** The tail of extraction: gate, sort, bound, and the text to hash. */
  method Extract(symbols: array<Symbol>, deny: string -> bool) returns (published: seq<Symbol>, text: string)
    modifies symbols
    ensures exists sorted :: Sorting(Kept(old(symbols[..]), deny), sorted) && published == Bounded(sorted)
    ensures |published| <= MAX_SYMBOLS
    ensures text == Preimage(Keys(published))
  {
    hide Kept, Sorting, Preimage;
    var n := FilterInPlace(symbols, deny);
    var sorted := SortSymbols(symbols[..n]);
    SortSorts(symbols[..n]);
    published := sorted;
    if |published| > MAX_SYMBOLS {
      published := published[..MAX_SYMBOLS];
    }
    assert published == Bounded(sorted);
    text := FileContractText(published);
  }

  method FileContractText(symbols: seq<Symbol>) returns (text: string)
    ensures text == Preimage(Keys(symbols))
  {
    hide Preimage, KeyOf;
    text := "";
    ghost var keys := Keys(symbols);
    assert keys[0..] == keys;
    for i := 0 to |symbols|
      invariant text + Preimage(keys[i..]) == Preimage(keys)
    {
      PreimageStep(keys, i);
      var more := symbols[i].name + ":" + symbols[i].signatureHash + "\n";
      KeyLine(symbols[i]);
      assert keys[i] == KeyOf(symbols[i]);
      text := text + more;
    }
    PreimageStep(keys, |symbols|);
  }

  lemma KeyLine(s: Symbol)
    ensures s.name + ":" + s.signatureHash + "\n" == Line(KeyOf(s)) + "\n"
  {
  }

  lemma PreimageStep(keys: seq<Key>, i: nat)
    requires i <= |keys|
    ensures i < |keys| ==> Preimage(keys[i..]) == Line(keys[i]) + "\n" + Preimage(keys[i + 1..])
    ensures i == |keys| ==> Preimage(keys[i..]) == ""
  {
    hide Line;
    if i < |keys| {
      assert keys[i..][1..] == keys[i + 1..];
    }
  }

  // ---------------------------------------------------------------- Signatures

  /** Words separated by single spaces, none at either end. */
  predicate Tidy(s: string) {
    s != "" ==>
      && !IsSpace(s[0]) && !IsSpace(s[|s| - 1])
      && forall i :: 0 <= i < |s| - 1 && IsSpace(s[i]) ==> s[i] == ' ' && !IsSpace(s[i + 1])
  }

  const MARKER := "…"

  function NormalizeSignature(raw: string): string {
    var signature := Join(Fields(raw), " ");
    if |signature| <= MAX_RUNES then signature else signature[..MAX_RUNES - 1] + MARKER
  }

  lemma TidyTail(s: string, n: nat)
    requires Tidy(s) && n < |s| && IsSpace(s[n])
    ensures s[n] == ' ' && n + 1 < |s| && Tidy(s[n + 1..])
  {
    hide IsSpace;
    var t := s[n + 1..];
    assert n < |s| - 1;
    forall i | 0 <= i < |t| - 1 && IsSpace(t[i]) ensures t[i] == ' ' && !IsSpace(t[i + 1]) {
      assert t[i] == s[n + 1 + i] && t[i + 1] == s[n + 1 + i + 1];
    }
  }

  /** Tidy text is what its own words spell. */
  lemma {:induction false} TidyIsFixed(s: string)
    requires Tidy(s)
    ensures Join(Fields(s), " ") == s
    decreases |s|
  {
    hide IsSpace, Fields;
    if s == "" {
      NoFields();
    } else {
      var n := WordLength(s);
      assert n > 0;
      FieldsOfWord(s, n);
      if n == |s| {
        assert s[n..] == "" && s[..n] == s;
        NoFields();
      } else {
        TidyTail(s, n);
        var rest := s[n + 1..];
        FieldsPastSpace(s[n..]);
        assert s[n..][1..] == rest;
        TidyIsFixed(rest);
        SomeField(rest);
        assert Fields(s)[1..] == Fields(rest);
        assert s == s[..n] + " " + rest;
      }
    }
  }

  lemma {:induction false} JoinIsTidy(words: seq<string>)
    requires forall i :: 0 <= i < |words| ==> words[i] != "" && SpaceFree(words[i])
    ensures Tidy(Join(words, " ")) && (words != [] ==> Join(words, " ") != "")
  {
    hide IsSpace;
    if |words| > 1 {
      var rest := Join(words[1..], " ");
      JoinIsTidy(words[1..]);
      TidyCons(words[0], rest);
    }
  }

  lemma TidyCons(word: string, rest: string)
    requires word != "" && SpaceFree(word) && Tidy(rest) && rest != ""
    ensures Tidy(word + " " + rest)
  {
    hide IsSpace;
    var s := word + " " + rest;
    var n := |word|;
    forall i | 0 <= i < |s| - 1 && IsSpace(s[i]) ensures s[i] == ' ' && !IsSpace(s[i + 1]) {
      if i > n {
        assert s[i] == rest[i - n - 1] && s[i + 1] == rest[i - n];
      }
    }
  }

  lemma TruncationIsTidy(s: string)
    requires Tidy(s) && |s| > MAX_RUNES
    ensures Tidy(s[..MAX_RUNES - 1] + MARKER) && |s[..MAX_RUNES - 1] + MARKER| == MAX_RUNES
  {
    var t := s[..MAX_RUNES - 1] + MARKER;
    assert !IsSpace(MARKER[0]);
    hide IsSpace;
    forall i | 0 <= i < |t| - 1 && IsSpace(t[i]) ensures t[i] == ' ' && !IsSpace(t[i + 1]) {
      assert t[i] == s[i];
    }
  }

  /** A normalised signature is tidy, within the bound, and normalising it again changes nothing. */
  lemma NormalizeIsStable(raw: string)
    ensures var s := NormalizeSignature(raw);
            Tidy(s) && |s| <= MAX_RUNES && NormalizeSignature(s) == s
  {
    hide Tidy, Fields, Join, IsSpace;
    FieldsConserve(raw);
    JoinIsTidy(Fields(raw));
    var signature := Join(Fields(raw), " ");
    if |signature| > MAX_RUNES {
      TruncationIsTidy(signature);
    }
    TidyIsFixed(NormalizeSignature(raw));
  }

  /** Unless the bound cuts one of them, two declarations have the same signature exactly when
      they consist of the same words.
   */
  lemma SameSignatureExactlyWhen(a: string, b: string)
    requires |Join(Fields(a), " ")| <= MAX_RUNES && |Join(Fields(b), " ")| <= MAX_RUNES
    ensures NormalizeSignature(a) == NormalizeSignature(b) <==> Fields(a) == Fields(b)
  {
    hide Fields, Join, IsSpace;
    FieldsConserve(a);
    FieldsConserve(b);
    FieldsOfJoin(Fields(a));
    FieldsOfJoin(Fields(b));
  }

  // ---------------------------------------------------------------- Names

  /** What a TypeScript name may be made of. */
  predicate IdentifierRune(c: char) {
    c == '_' || c == '$' || 'a' <= c <= 'z' || 'A' <= c <= 'Z' || '0' <= c <= '9'
  }

  predicate Identifier(word: string) {
    word != "" && !('0' <= word[0] <= '9') && forall i :: 0 <= i < |word| ==> IdentifierRune(word[i])
  }

  /** A Go name, given which characters are letters; no white space is. */
  predicate GoIdentifier(letter: char -> bool, word: string) {
    word != "" && forall i :: 0 <= i < |word| ==>
      (letter(word[i]) && !IsSpace(word[i])) || word[i] == '_' || '0' <= word[i] <= '9'
  }

  /** Where a name comes from: a TypeScript declaration, or in Go a declaration, a method or field of a
      type, or a type embedded in another, which goes by its printed form.
   */
  datatype Declared =
    | Script(word: string)
    | Plain(name: string)
    | Member(owner: string, name: string)
    | Embedded(owner: string, printed: string)

  predicate Extracted(letter: char -> bool, d: Declared) {
    match d
    case Script(word) => Identifier(word)
    case Plain(name) => GoIdentifier(letter, name)
    case Member(owner, name) => GoIdentifier(letter, owner) && GoIdentifier(letter, name)
    case Embedded(owner, _) => GoIdentifier(letter, owner)
  }

  function NameOf(d: Declared): string {
    match d
    case Script(word) => word
    case Plain(name) => name
    case Member(owner, name) => owner + "." + name
    case Embedded(owner, printed) => owner + "." + NormalizeSignature(printed)
  }

  lemma TidyIsNewlineFree(s: string)
    requires Tidy(s)
    ensures NewlineFree(s)
  {
    forall i | 0 <= i < |s| ensures s[i] != '\n' {
      if IsSpace(s[i]) && i < |s| - 1 {
        assert s[i] == ' ';
      }
    }
  }

  /** Every extracted name is a single line. */
  lemma NamesAreNewlineFree(letter: char -> bool, d: Declared)
    requires Extracted(letter, d)
    ensures NewlineFree(NameOf(d))
  {
    if d.Embedded? {
      NormalizeIsStable(d.printed);
      TidyIsNewlineFree(NormalizeSignature(d.printed));
    }
  }

  /** What extraction makes of declarations: their names, and hashes of sixty-four digits. */
  ghost predicate Surface(letter: char -> bool, declared: seq<Declared>, keys: seq<Key>) {
    |declared| == |keys| && forall i :: 0 <= i < |keys| ==>
      && Extracted(letter, declared[i]) && keys[i].name == NameOf(declared[i])
      && |keys[i].hash| == 64 && forall j :: 0 <= j < 64 ==> HexRune(keys[i].hash[j])
  }

  predicate HexRune(c: char) {
    '0' <= c <= '9' || 'a' <= c <= 'f'
  }

  /** So the text hashed determines the names and hashes of whatever was extracted. */
  lemma ExtractedDetermines(letter: char -> bool, x: seq<Declared>, a: seq<Key>, y: seq<Declared>, b: seq<Key>)
    requires Surface(letter, x, a) && Surface(letter, y, b) && Preimage(a) == Preimage(b)
    ensures SameSurface(a, b)
  {
    hide Preimage, Extracted, NameOf;
    SurfaceIsWellFormed(letter, x, a);
    SurfaceIsWellFormed(letter, y, b);
    PreimageDetermines(a, b);
  }

  lemma SurfaceIsWellFormed(letter: char -> bool, declared: seq<Declared>, keys: seq<Key>)
    requires Surface(letter, declared, keys)
    ensures WellFormed(keys)
  {
    hide Extracted, NameOf;
    forall i | 0 <= i < |keys| ensures NewlineFree(keys[i].name) && NewlineFree(keys[i].hash) {
      NamesAreNewlineFree(letter, declared[i]);
    }
  }
}
