/** Words, lines and whitespace.

    These follow the Go standard library: which characters are white space, how a text falls into
    fields, and how it splits at a separator.
 */
module Text {

  predicate IsSpace(c: char) {
    var n := c as int;
    || (0x09 <= n <= 0x0d) || n == 0x20 || n == 0x85 || n == 0xa0 || n == 0x1680
    || (0x2000 <= n <= 0x200a) || n == 0x2028 || n == 0x2029 || n == 0x202f || n == 0x205f || n == 0x3000
  }

  predicate SpaceFree(s: string) {
    forall i :: 0 <= i < |s| ==> !IsSpace(s[i])
  }

  predicate NewlineFree(s: string) {
    forall k :: 0 <= k < |s| ==> s[k] != '\n'
  }

  /** The parts between separators: one more than there are separators. */
  function Split(s: string, sep: char): (parts: seq<string>)
    ensures parts != []
  {
    if s == "" then [""]
    else
      var rest := Split(s[1..], sep);
      if s[0] == sep then [""] + rest else [[s[0]] + rest[0]] + rest[1..]
  }

  /** How many characters the leading word has. */
  function WordLength(s: string): (n: nat)
    ensures n <= |s| && SpaceFree(s[..n]) && (n < |s| ==> IsSpace(s[n]))
  {
    if s == [] || IsSpace(s[0]) then 0
    else
      var n := 1 + WordLength(s[1..]);
      assert forall i :: 0 < i < n ==> s[i] == s[1..][i - 1];
      n
  }

  /** The maximal runs without whitespace, in order. */
  function Fields(s: string): seq<string>
    decreases |s|
  {
    if s == [] then []
    else if IsSpace(s[0]) then Fields(s[1..])
    else [s[..WordLength(s)]] + Fields(s[WordLength(s)..])
  }

  function NonSpace(s: string): string {
    if s == [] then [] else (if IsSpace(s[0]) then [] else [s[0]]) + NonSpace(s[1..])
  }

  function Concat(parts: seq<string>): string {
    if parts == [] then [] else parts[0] + Concat(parts[1..])
  }

  /** The parts with a separator between neighbours. */
  function Join(parts: seq<string>, separator: string): string {
    if parts == [] then []
    else if |parts| == 1 then parts[0]
    else parts[0] + separator + Join(parts[1..], separator)
  }

  lemma {:induction false} NonSpaceConcat(a: string, b: string)
    ensures NonSpace(a + b) == NonSpace(a) + NonSpace(b)
  {
    if a == [] {
      assert a + b == b;
    } else {
      assert (a + b)[1..] == a[1..] + b;
      NonSpaceConcat(a[1..], b);
      var head := if IsSpace(a[0]) then [] else [a[0]];
      assert head + (NonSpace(a[1..]) + NonSpace(b)) == (head + NonSpace(a[1..])) + NonSpace(b);
    }
  }

  lemma {:induction false} SpaceFreeIsNonSpace(s: string)
    requires SpaceFree(s)
    ensures NonSpace(s) == s
  {
    if s != [] {
      SpaceFreeIsNonSpace(s[1..]);
    }
  }

  lemma {:induction false} ConcatConcat(a: seq<string>, b: seq<string>)
    ensures Concat(a + b) == Concat(a) + Concat(b)
  {
    if a == [] {
      assert a + b == b;
    } else {
      assert (a + b)[1..] == a[1..] + b;
      ConcatConcat(a[1..], b);
      assert a[0] + (Concat(a[1..]) + Concat(b)) == (a[0] + Concat(a[1..])) + Concat(b);
    }
  }

  /** Splitting into words loses whitespace only. */
  lemma {:induction false} FieldsConserve(s: string)
    ensures Concat(Fields(s)) == NonSpace(s)
    ensures forall i :: 0 <= i < |Fields(s)| ==> Fields(s)[i] != [] && SpaceFree(Fields(s)[i])
    decreases |s|
  {
    if s != [] {
      if IsSpace(s[0]) {
        FieldsConserve(s[1..]);
      } else {
        var n := WordLength(s);
        FieldsConserve(s[n..]);
        SpaceFreeIsNonSpace(s[..n]);
        NonSpaceConcat(s[..n], s[n..]);
        assert s == s[..n] + s[n..];
      }
    }
  }

  /** Joining with spaces adds whitespace only. */
  lemma {:induction false} JoinConserves(parts: seq<string>)
    ensures NonSpace(Join(parts, " ")) == NonSpace(Concat(parts))
  {
    if |parts| == 1 {
      assert parts[1..] == [];
      assert parts[0] + [] == parts[0];
    } else if |parts| > 1 {
      JoinConserves(parts[1..]);
      NonSpaceConcat(parts[0] + " ", Join(parts[1..], " "));
      NonSpaceConcat(parts[0], " ");
      NonSpaceConcat(parts[0], Concat(parts[1..]));
      assert NonSpace(" ") == [];
    }
  }

  /** How splitting treats the first character. */
  lemma SplitStep(s: string, sep: char)
    ensures s == "" ==> Split(s, sep) == [""]
    ensures s != "" && s[0] == sep ==> Split(s, sep)[0] == "" && Split(s, sep)[1..] == Split(s[1..], sep)
    ensures s != "" && s[0] != sep ==>
              && Split(s, sep)[0] == [s[0]] + Split(s[1..], sep)[0]
              && Split(s, sep)[1..] == Split(s[1..], sep)[1..]
  {
  }

  lemma ConcatFirst(parts: seq<string>)
    requires parts != []
    ensures Concat(parts) == parts[0] + Concat(parts[1..])
  {
  }

  lemma {:induction false} JoinIsLonger(parts: seq<string>, separator: string)
    ensures |Join(parts, separator)| >= |Concat(parts)|
  {
    if |parts| == 1 {
      assert parts[1..] == [] && Concat([]) == [];
    } else if |parts| > 1 {
      JoinIsLonger(parts[1..], separator);
    }
  }

  lemma FieldsPastSpace(s: string)
    requires s != "" && IsSpace(s[0])
    ensures Fields(s) == Fields(s[1..])
  {
  }

  lemma FieldsOfWord(s: string, n: nat)
    requires 0 < n <= |s| && n == WordLength(s)
    ensures Fields(s) == [s[..n]] + Fields(s[n..])
  {
  }

  lemma NoFields()
    ensures Fields("") == []
  {
  }

  lemma SomeField(s: string)
    requires s != "" && !IsSpace(s[0])
    ensures Fields(s) != []
  {
  }

  lemma {:induction false} FieldsOfJoin(words: seq<string>)
    requires forall i :: 0 <= i < |words| ==> words[i] != "" && SpaceFree(words[i])
    ensures Fields(Join(words, " ")) == words
  {
    if words == [] {
    } else {
      var s := Join(words, " ");
      var n := |words[0]|;
      if |words| == 1 {
        assert s == words[0];
        WordEnds(words[0], "");
        assert words[0] + "" == words[0] && s[n..] == "" && s[..n] == words[0];
        assert words == [words[0]];
      } else {
        hide IsSpace, Fields;
        var rest := Join(words[1..], " ");
        FieldsOfJoin(words[1..]);
        WordEnds(words[0], " " + rest);
        assert s == words[0] + (" " + rest);
        FieldsOfWord(s, n);
        SpaceIsSpace();
        FieldsPastSpace(" " + rest);
        assert s[n..] == " " + rest && (" " + rest)[1..] == rest && s[..n] == words[0];
        assert words == [words[0]] + words[1..];
      }
    }
  }

  lemma SpaceIsSpace()
    ensures IsSpace(' ')
  {
  }

  lemma {:induction false} WordEnds(word: string, rest: string)
    requires SpaceFree(word) && (rest == "" || rest[0] == ' ')
    ensures WordLength(word + rest) == |word|
  {
    if word == "" {
      assert word + rest == rest;
    } else {
      assert (word + rest)[1..] == word[1..] + rest;
      WordEnds(word[1..], rest);
    }
  }

  lemma {:induction false} WordLengthIs(s: string, n: nat)
    requires n <= |s| && SpaceFree(s[..n]) && (n < |s| ==> IsSpace(s[n]))
    ensures WordLength(s) == n
  {
    if n > 0 {
      assert !IsSpace(s[..n][0]);
      hide IsSpace;
      assert s[1..][..n - 1] == s[..n][1..];
      WordLengthIs(s[1..], n - 1);
    }
  }

  /** White space between two texts keeps their words apart. */
  lemma {:induction false} FieldsConcat(a: string, b: string)
    requires b == "" || IsSpace(b[0])
    ensures Fields(a + b) == Fields(a) + Fields(b)
    decreases |a|
  {
    if a == "" {
      assert a + b == b && Fields(a) == [];
    } else if IsSpace(a[0]) {
      assert (a + b)[1..] == a[1..] + b;
      FieldsConcat(a[1..], b);
    } else {
      hide IsSpace;
      var n := WordLength(a);
      assert (a + b)[..n] == a[..n] && (a + b)[n..] == a[n..] + b;
      assert n < |a| ==> (a + b)[n] == a[n];
      assert n == |a| && b != "" ==> (a + b)[n] == b[0];
      WordLengthIs(a + b, n);
      FieldsConcat(a[n..], b);
      assert [a[..n]] + (Fields(a[n..]) + Fields(b)) == ([a[..n]] + Fields(a[n..])) + Fields(b);
    }
  }

  /** A separator between two texts keeps their parts apart. */
  lemma {:induction false} SplitConcat(a: string, sep: char, b: string)
    ensures Split(a + [sep] + b, sep) == Split(a, sep) + Split(b, sep)
  {
    hide Split;
    var s := a + [sep] + b;
    SplitStep(s, sep);
    SplitStep(a, sep);
    if a == "" {
      assert s[1..] == b;
      SplitFromFirst(s, sep, "", Split(b, sep));
    } else {
      assert s[0] == a[0] && s[1..] == a[1..] + [sep] + b;
      SplitConcat(a[1..], sep, b);
      var x, y := Split(a[1..], sep), Split(b, sep);
      assert Split(s[1..], sep) == x + y;
      assert (x + y)[0] == x[0] && (x + y)[1..] == x[1..] + y;
      SplitFromFirst(s, sep, Split(a, sep)[0], Split(a, sep)[1..] + y);
      SplitFromFirst(a, sep, Split(a, sep)[0], Split(a, sep)[1..]);
    }
  }

  lemma SplitFromFirst(s: string, sep: char, first: string, rest: seq<string>)
    requires Split(s, sep)[0] == first && Split(s, sep)[1..] == rest
    ensures Split(s, sep) == [first] + rest
  {
    var parts := Split(s, sep);
    assert parts == [parts[0]] + parts[1..];
  }

  lemma {:induction false} OneLineAlone(s: string)
    requires NewlineFree(s)
    ensures Split(s, '\n') == [s]
  {
    if s != "" {
      assert forall k :: 0 <= k < |s[1..]| ==> s[1..][k] == s[k + 1];
      OneLineAlone(s[1..]);
      SplitStep(s, '\n');
      assert s == [s[0]] + s[1..];
      assert Split(s[1..], '\n')[1..] == [] && s[0] != '\n';
      SplitFromFirst(s, '\n', s, []);
    }
  }

  /** Words joined by spaces hold no line end. */
  lemma {:induction false} JoinedIsOneLine(words: seq<string>)
    requires forall i :: 0 <= i < |words| ==> SpaceFree(words[i])
    ensures NewlineFree(Join(words, " "))
  {
    if words != [] {
      assert IsSpace('\n') && SpaceFree(words[0]);
      hide IsSpace;
      assert NewlineFree(words[0]);
      JoinedIsOneLine(words[1..]);
      NewlineFreeConcat(words[0] + " ", Join(words[1..], " "));
    }
  }

  lemma NewlineFreeConcat(a: string, b: string)
    requires NewlineFree(a) && NewlineFree(b)
    ensures NewlineFree(a + b)
  {
  }

  lemma {:induction false} JoinConcat(a: seq<string>, b: seq<string>)
    requires a != [] && b != []
    ensures Join(a + b, " ") == Join(a, " ") + " " + Join(b, " ")
  {
    assert (a + b)[1..] == a[1..] + b;
    if |a| > 1 {
      JoinConcat(a[1..], b);
    } else {
      assert a[1..] + b == b;
    }
  }
}
