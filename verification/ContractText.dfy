/** What a file's contract publishes, told from the declarations found in the file. */
module ContractText {
  import opened Text
  import opened Utf8
  import opened Contracts
  import opened Collections

  /** By name, then kind, then hash, each by its bytes. */
  predicate Precedes(a: Symbol, b: Symbol) {
    || Less(Encode(a.name), Encode(b.name))
    || (a.name == b.name && Less(Encode(a.kind), Encode(b.kind)))
    || (a.name == b.name && a.kind == b.kind && Less(Encode(a.signatureHash), Encode(b.signatureHash)))
  }

  lemma PrecedesIs(a: Symbol, b: Symbol)
    ensures Precedes(a, b) <==> KeyLess(KeyOf(a), KeyOf(b))
  {
    hide Encode, Less, TextLess;
    EncodeIsInjective(a.name, b.name);
    EncodeIsInjective(a.kind, b.kind);
    EncodeIsInjective(a.signatureHash, b.signatureHash);
    LessIrreflexive(Encode(a.name));
    LessIrreflexive(Encode(a.kind));
  }

  /** The published symbols are the first two hundred, in that order, of those the gate lets through, or
      all of them if they are fewer: each as often as it was found, and what is left out precedes none.
   */
  lemma PublishedExactly(symbols: seq<Symbol>, deny: string -> bool, sorted: seq<Symbol>)
    requires Sorting(Kept(symbols, deny), sorted)
    ensures var published := Bounded(sorted);
            var kept := |Filter(symbols, (s: Symbol) => !deny(s.signature))|;
            && |published| == (if kept <= 200 then kept else 200)
            && (forall i, j :: 0 <= i < j < |published| ==> !Precedes(published[j], published[i]))
            && (forall s: Symbol :: multiset(published)[s] <= if deny(s.signature) then 0 else multiset(symbols)[s])
            && (forall s: Symbol, p
                  | !deny(s.signature) && multiset(published)[s] < multiset(symbols)[s] && p in published
                  :: |published| == 200 && !Precedes(s, p))
  {
    hide Kept, KeyLess, Precedes;
    assert |multiset(Kept(symbols, deny))| == |Kept(symbols, deny)| && |multiset(sorted)| == |sorted|;
    KeptIs(symbols, deny);
    forall i, j | 0 <= i < j < |sorted| ensures !Precedes(sorted[j], sorted[i]) {
      PrecedesIs(sorted[j], sorted[i]);
      assert Keys(sorted)[j] == KeyOf(sorted[j]) && Keys(sorted)[i] == KeyOf(sorted[i]);
    }
    forall s: Symbol ensures multiset(sorted)[s] == if deny(s.signature) then 0 else multiset(symbols)[s] {
      KeptExactly(symbols, deny, s);
    }
    if |sorted| > 200 {
      Cut(sorted, 200);
    }
  }

  lemma KeptIs(symbols: seq<Symbol>, deny: string -> bool)
    ensures Kept(symbols, deny) == Filter(symbols, (s: Symbol) => !deny(s.signature))
  {
  }

  lemma Cut(sorted: seq<Symbol>, n: nat)
    requires n <= |sorted| && forall i, j :: 0 <= i < j < |sorted| ==> !Precedes(sorted[j], sorted[i])
    ensures forall s :: multiset(sorted[..n])[s] <= multiset(sorted)[s]
    ensures forall s, p :: multiset(sorted[..n])[s] < multiset(sorted)[s] && p in sorted[..n] ==> !Precedes(s, p)
  {
    hide Precedes;
    assert sorted == sorted[..n] + sorted[n..];
    forall s, p | multiset(sorted[..n])[s] < multiset(sorted)[s] && p in sorted[..n] ensures !Precedes(s, p) {
      assert s in multiset(sorted[n..]);
      var j :| 0 <= j < |sorted[n..]| && sorted[n..][j] == s;
      var i :| 0 <= i < |sorted[..n]| && sorted[..n][i] == p;
      assert sorted[n + j] == s && sorted[i] == p;
    }
  }

  /** The hashed text: a line for each symbol, its name, a colon and its signature's hash. */
  lemma TextSpelledOut(symbols: seq<Symbol>, s: Symbol)
    ensures Preimage(Keys([])) == ""
    ensures Preimage(Keys(symbols + [s])) == Preimage(Keys(symbols)) + (s.name + ":" + s.signatureHash + "\n")
  {
    hide Preimage, Keys;
    KeysConcat(symbols, [s]);
    OneKey(s);
    PreimageSnoc(Keys(symbols), KeyOf(s));
    PreimageStep([], 0);
  }

  lemma OneKey(s: Symbol)
    ensures Keys([s]) == [KeyOf(s)] && Keys([]) == []
  {
    assert [s][1..] == [];
  }

  lemma {:induction false} PreimageSnoc(keys: seq<Key>, k: Key)
    ensures Preimage(keys + [k]) == Preimage(keys) + (k.name + ":" + k.hash + "\n")
  {
    if keys == [] {
      assert keys + [k] == [k] && [k][1..] == [];
      assert Preimage([k]) == Line(k) + "\n" + "";
    } else {
      hide Line;
      assert (keys + [k])[1..] == keys[1..] + [k];
      PreimageSnoc(keys[1..], k);
      var head := Line(keys[0]) + "\n";
      assert head + (Preimage(keys[1..]) + (k.name + ":" + k.hash + "\n"))
          == (head + Preimage(keys[1..])) + (k.name + ":" + k.hash + "\n");
    }
  }

  /** A signature keeps its words in order, single spaces between them; beyond five hundred characters
      it keeps the first four hundred and ninety-nine and ends in an ellipsis.
   */
  lemma SignatureTold(raw: string)
    ensures var words := Fields(raw);
            var s := NormalizeSignature(raw);
            if |Join(words, " ")| <= 500 then Fields(s) == words && s == Join(words, " ")
            else |s| == 500 && s[..499] == Join(words, " ")[..499] && s[499] == '\U{2026}'
  {
    hide Fields, Join;
    FieldsConserve(raw);
    FieldsOfJoin(Fields(raw));
  }
}
