/** The canonical manifest: its order, and the text its content hash is taken over. */
module Manifests {
  import opened Utf8
  import opened Collections

  datatype Change = Change(status: string, oldPath: Option<string>)

  /** The part of a manifest entry that is hashed: its path and the change in each layer. */
  datatype Entry = Entry(path: string, baseline: Option<Change>, index: Option<Change>, worktree: Option<Change>)

  const STATUSES := ["added", "modified", "deleted", "renamed", "copied", "untracked"]

  // ------------------------------------------------------------------ validation

  predicate ValidChange(change: Change) {
    && change.status in STATUSES
    && (change.oldPath.Some? ==>
         |change.oldPath.value| >= 1 && (change.status == "renamed" || change.status == "copied"))
  }

  predicate ValidEntry(entry: Entry) {
    && |entry.path| >= 1
    && (entry.baseline.Some? || entry.index.Some? || entry.worktree.Some?)
    && (entry.baseline.Some? ==> ValidChange(entry.baseline.value))
    && (entry.index.Some? ==> ValidChange(entry.index.value))
    && (entry.worktree.Some? ==> ValidChange(entry.worktree.value))
  }

  predicate NulFree(s: string) {
    '\0' !in s
  }

  predicate NulFreeChange(change: Option<Change>) {
    change.Some? && change.value.oldPath.Some? ==> NulFree(change.value.oldPath.value)
  }

  predicate NulFreeEntry(entry: Entry) {
    NulFree(entry.path) && NulFreeChange(entry.baseline) && NulFreeChange(entry.index) && NulFreeChange(entry.worktree)
  }

  // ---------------------------------------------------------------- the pre-image

  function StatusOf(change: Option<Change>): string {
    if change.Some? then change.value.status else ""
  }

  function OldPathOf(change: Option<Change>): string {
    if change.Some? && change.value.oldPath.Some? then change.value.oldPath.value else ""
  }

  function Fields(e: Entry): (fields: seq<string>)
    ensures |fields| == 10
  {
    [e.path,
     "baseline", StatusOf(e.baseline), OldPathOf(e.baseline),
     "index", StatusOf(e.index), OldPathOf(e.index),
     "worktree", StatusOf(e.worktree), OldPathOf(e.worktree)]
  }

  /** Each field followed by a NUL. */
  function Terminated(fields: seq<string>): string {
    if fields == [] then "" else fields[0] + ['\0'] + Terminated(fields[1..])
  }

  function AllFields(entries: seq<Entry>): seq<string> {
    if entries == [] then [] else Fields(entries[0]) + AllFields(entries[1..])
  }

  function Preimage(entries: seq<Entry>): string {
    Terminated(AllFields(entries))
  }

  lemma {:induction false} TerminatedConcat(a: seq<string>, b: seq<string>)
    ensures Terminated(a + b) == Terminated(a) + Terminated(b)
  {
    if a == [] {
      assert a + b == b;
    } else {
      assert (a + b)[1..] == a[1..] + b;
      TerminatedConcat(a[1..], b);
      assert a[0] + ['\0'] + (Terminated(a[1..]) + Terminated(b))
        == (a[0] + ['\0'] + Terminated(a[1..])) + Terminated(b);
    }
  }

  lemma {:induction false} AllFieldsConcat(a: seq<Entry>, b: seq<Entry>)
    ensures AllFields(a + b) == AllFields(a) + AllFields(b)
  {
    if a == [] {
      assert a + b == b;
    } else {
      assert (a + b)[1..] == a[1..] + b;
      AllFieldsConcat(a[1..], b);
    }
  }

  lemma NoNulBefore(f: string, x: string, k: nat)
    requires NulFree(f) && k < |f|
    ensures (f + ['\0'] + x)[k] != '\0'
  {
    assert (f + ['\0'] + x)[k] == f[k];
  }

  lemma SameFieldLength(f: string, g: string, x: string, y: string)
    requires NulFree(f) && f + ['\0'] + x == g + ['\0'] + y
    ensures |f| <= |g|
  {
    if |g| < |f| {
      NoNulBefore(f, x, |g|);
    }
  }

  /** The first NUL ends the first field. */
  lemma FirstField(f: string, g: string, x: string, y: string)
    requires NulFree(f) && NulFree(g)
    requires f + ['\0'] + x == g + ['\0'] + y
    ensures f == g && x == y
  {
    var l, r := f + ['\0'] + x, g + ['\0'] + y;
    SameFieldLength(f, g, x, y);
    SameFieldLength(g, f, y, x);
    assert f == l[..|f|] && g == r[..|g|];
    assert x == l[|f| + 1..] && y == r[|g| + 1..];
  }

  lemma {:induction false} TerminatedInjective(a: seq<string>, b: seq<string>)
    requires forall i :: 0 <= i < |a| ==> NulFree(a[i])
    requires forall i :: 0 <= i < |b| ==> NulFree(b[i])
    requires Terminated(a) == Terminated(b)
    ensures a == b
  {
    if a != [] && b != [] {
      FirstField(a[0], b[0], Terminated(a[1..]), Terminated(b[1..]));
      TerminatedInjective(a[1..], b[1..]);
      assert a == [a[0]] + a[1..] && b == [b[0]] + b[1..];
    }
  }

  lemma ChangeFromFields(c: Option<Change>, d: Option<Change>)
    requires (c.Some? ==> ValidChange(c.value)) && (d.Some? ==> ValidChange(d.value))
    requires StatusOf(c) == StatusOf(d) && OldPathOf(c) == OldPathOf(d)
    ensures c == d
  {
  }

  lemma FieldsInjective(d: Entry, e: Entry)
    requires ValidEntry(d) && ValidEntry(e) && Fields(d) == Fields(e)
    ensures d == e
  {
    var f, g := Fields(d), Fields(e);
    assert f[0] == g[0] && f[2] == g[2] && f[3] == g[3] && f[5] == g[5] && f[6] == g[6] && f[8] == g[8] && f[9] == g[9];
    ChangeFromFields(d.baseline, e.baseline);
    ChangeFromFields(d.index, e.index);
    ChangeFromFields(d.worktree, e.worktree);
  }

  lemma {:induction false} AllFieldsInjective(a: seq<Entry>, b: seq<Entry>)
    requires forall i :: 0 <= i < |a| ==> ValidEntry(a[i])
    requires forall i :: 0 <= i < |b| ==> ValidEntry(b[i])
    requires AllFields(a) == AllFields(b)
    ensures a == b
  {
    if a != [] && b != [] {
      assert Fields(a[0]) == AllFields(a)[..10] && Fields(b[0]) == AllFields(b)[..10];
      assert AllFields(a[1..]) == AllFields(a)[10..] && AllFields(b[1..]) == AllFields(b)[10..];
      FieldsInjective(a[0], b[0]);
      AllFieldsInjective(a[1..], b[1..]);
      assert a == [a[0]] + a[1..] && b == [b[0]] + b[1..];
    }
  }

  lemma {:induction false} FieldsNulFree(entries: seq<Entry>, i: nat)
    requires forall j :: 0 <= j < |entries| ==> ValidEntry(entries[j]) && NulFreeEntry(entries[j])
    requires i < |AllFields(entries)|
    ensures NulFree(AllFields(entries)[i])
  {
    if i < 10 {
      OneEntryNulFree(entries[0], i);
      assert AllFields(entries)[i] == Fields(entries[0])[i];
    } else {
      FieldsNulFree(entries[1..], i - 10);
      assert AllFields(entries)[i] == AllFields(entries[1..])[i - 10];
    }
  }

  lemma StatusNulFree(change: Option<Change>)
    requires change.Some? ==> ValidChange(change.value)
    ensures NulFree(StatusOf(change))
  {
    assert NulFree("added") && NulFree("modified") && NulFree("deleted");
    assert NulFree("renamed") && NulFree("copied") && NulFree("untracked");
  }

  lemma OneEntryNulFree(e: Entry, i: nat)
    requires ValidEntry(e) && NulFreeEntry(e) && i < 10
    ensures NulFree(Fields(e)[i])
  {
    StatusNulFree(e.baseline);
    StatusNulFree(e.index);
    StatusNulFree(e.worktree);
    assert NulFree("baseline") && NulFree("index") && NulFree("worktree");
  }

  /** The pre-image determines the manifest, entry by entry, when no field holds a NUL. */
  lemma PreimageInjective(a: seq<Entry>, b: seq<Entry>)
    requires forall i :: 0 <= i < |a| ==> ValidEntry(a[i]) && NulFreeEntry(a[i])
    requires forall i :: 0 <= i < |b| ==> ValidEntry(b[i]) && NulFreeEntry(b[i])
    ensures Preimage(a) == Preimage(b) <==> a == b
  {
    if Preimage(a) == Preimage(b) {
      forall i | 0 <= i < |AllFields(a)| ensures NulFree(AllFields(a)[i]) { FieldsNulFree(a, i); }
      forall i | 0 <= i < |AllFields(b)| ensures NulFree(AllFields(b)[i]) { FieldsNulFree(b, i); }
      TerminatedInjective(AllFields(a), AllFields(b));
      AllFieldsInjective(a, b);
    }
  }

  /** A path that swallows a whole earlier entry reads as two entries. */
  lemma Swallows(first: Entry, second: Entry, one: Entry)
    requires one == second.(path := Terminated(Fields(first)) + second.path)
    ensures Preimage([first, second]) == Preimage([one])
  {
    var rest := Terminated(Fields(second)[1..]);
    assert Fields(second)[1..] == Fields(one)[1..];
    SingleFields(second);
    SingleFields(one);
    assert [first, second][1..] == [second];
    TerminatedConcat(Fields(first), Fields(second));
    assert Terminated(Fields(one)) == one.path + ['\0'] + rest;
    assert Terminated(Fields(first)) + (second.path + ['\0'] + rest)
      == (Terminated(Fields(first)) + second.path) + ['\0'] + rest;
  }

  lemma SingleFields(e: Entry)
    ensures AllFields([e]) == Fields(e)
  {
    assert [e][1..] == [];
  }

  // ---------------------------------------------------------------- canonical order

  /** Adjacent paths strictly increase in byte order. */
  predicate Canonical(entries: seq<Entry>) {
    forall i :: 1 <= i < |entries| ==> Less(Encode(entries[i - 1].path), Encode(entries[i].path))
  }

  /** The adjacent check orders every pair, so paths are also unique. */
  lemma {:induction false} CanonicalPairwise(entries: seq<Entry>, i: nat, j: nat)
    requires Canonical(entries) && i < j < |entries|
    ensures Less(Encode(entries[i].path), Encode(entries[j].path))
    decreases j - i
  {
    if i + 1 < j {
      CanonicalPairwise(entries, i, j - 1);
      LessTransitive(Encode(entries[i].path), Encode(entries[j - 1].path), Encode(entries[j].path));
    }
  }

  lemma DecideAt(a: seq<Byte>, b: seq<Byte>, i: nat)
    requires i < |a| && i < |b| && a[..i] == b[..i] && a[i] != b[i]
    ensures Less(a, b) <==> a[i] < b[i]
    ensures Less(b, a) <==> b[i] < a[i]
  {
    LessPastPrefix(a, b, i);
    LessPastPrefix(b, a, i);
  }

  lemma DecideByLength(a: seq<Byte>, b: seq<Byte>, n: nat)
    requires n <= |a| && n <= |b| && a[..n] == b[..n] && (n == |a| || n == |b|)
    ensures Less(a, b) <==> |a| < |b|
    ensures Less(b, a) <==> |b| < |a|
  {
    LessPastPrefix(a, b, n);
    LessPastPrefix(b, a, n);
  }

  /** Compares encoded text by bytes: the sign of the result is the order. */
  method CompareUtf8(left: string, right: string) returns (r: int)
    ensures r < 0 <==> Less(Encode(left), Encode(right))
    ensures r == 0 <==> left == right
    ensures r > 0 <==> Less(Encode(right), Encode(left))
  {
    hide Encode, Less;
    var a, b := Encode(left), Encode(right);
    EncodeIsInjective(left, right);
    LessTotal(a, b);
    LessIrreflexive(a);
    var n := if |a| < |b| then |a| else |b|;
    for index := 0 to n
      invariant a[..index] == b[..index]
    {
      var x: int, y: int := a[index], b[index];
      if x != y {
        DecideAt(a, b, index);
        return x - y;
      }
      assert a[..index + 1] == a[..index] + [x] && b[..index + 1] == b[..index] + [y];
    }
    DecideByLength(a, b, n);
    return |a| - |b|;
  }

  /** The service's order check accepts exactly the canonical manifests. */
  method AssertCanonicalOrder(entries: seq<Entry>) returns (ok: bool)
    ensures ok <==> Canonical(entries)
  {
    hide Encode, Less;
    var index := 1;
    while index < |entries|
      invariant 1 <= index
      invariant forall i :: 1 <= i < index && i < |entries| ==>
          Less(Encode(entries[i - 1].path), Encode(entries[i].path))
    {
      var order := CompareUtf8(entries[index - 1].path, entries[index].path);
      if order >= 0 {
        return false;
      }
      index := index + 1;
    }
    return true;
  }

  lemma PreimageStep(entries: seq<Entry>, i: nat)
    requires i < |entries|
    ensures Preimage(entries[..i + 1]) == Preimage(entries[..i]) + Terminated(Fields(entries[i]))
  {
    assert entries[..i + 1] == entries[..i] + [entries[i]];
    AllFieldsConcat(entries[..i], [entries[i]]);
    SingleFields(entries[i]);
    TerminatedConcat(AllFields(entries[..i]), Fields(entries[i]));
  }

  lemma TerminatedStep(fields: seq<string>, j: nat)
    requires j < |fields|
    ensures Terminated(fields[..j + 1]) == Terminated(fields[..j]) + fields[j] + ['\0']
  {
    assert fields[..j + 1] == fields[..j] + [fields[j]];
    TerminatedConcat(fields[..j], [fields[j]]);
    assert [fields[j]][1..] == [];
  }

  /** The service joins each entry's fields with NULs and closes them with one. */
  method ServicePreimage(entries: seq<Entry>) returns (text: string)
    ensures text == Preimage(entries)
  {
    hide Terminated, AllFields, Preimage;
    NoEntries();
    text := "";
    for i := 0 to |entries|
      invariant text == Preimage(entries[..i])
    {
      var joined := JoinFields(Fields(entries[i]));
      PreimageStep(entries, i);
      text := text + (joined + ['\0']);
    }
    assert entries[..|entries|] == entries;
  }

  lemma NoEntries()
    ensures Preimage([]) == ""
  {
  }

  method JoinFields(fields: seq<string>) returns (joined: string)
    requires fields != []
    ensures joined + ['\0'] == Terminated(fields)
  {
    joined := fields[0];
    TerminatedStep(fields, 0);
    for j := 1 to |fields|
      invariant joined + ['\0'] == Terminated(fields[..j])
    {
      TerminatedStep(fields, j);
      joined := joined + ['\0'] + fields[j];
    }
    assert fields[..|fields|] == fields;
  }

  method WriteFields(written: string, fields: seq<string>) returns (longer: string)
    ensures longer == written + Terminated(fields)
  {
    longer := written;
    for j := 0 to |fields|
      invariant longer == written + Terminated(fields[..j])
    {
      TerminatedStep(fields, j);
      assert longer + fields[j] + ['\0'] == written + (Terminated(fields[..j]) + fields[j] + ['\0']);
      longer := longer + fields[j] + ['\0'];
    }
    assert fields[..|fields|] == fields;
  }

  /** The device writes the same fields one after another, refusing paths out of order. */
  method DevicePreimage(entries: seq<Entry>) returns (text: Option<string>)
    ensures text == if Canonical(entries) then Some(Preimage(entries)) else None
  {
    hide Terminated, AllFields, Preimage, Encode, Less;
    NoEntries();
    var written := "";
    for i := 0 to |entries|
      invariant written == Preimage(entries[..i])
      invariant forall k :: 1 <= k < i ==> Less(Encode(entries[k - 1].path), Encode(entries[k].path))
    {
      if i > 0 {
        var order := CompareUtf8(entries[i - 1].path, entries[i].path);
        if order >= 0 {
          return None;
        }
      }
      PreimageStep(entries, i);
      written := WriteFields(written, Fields(entries[i]));
    }
    assert entries[..|entries|] == entries;
    return Some(written);
  }

  lemma {:induction false} SameEntriesSameOrder(a: seq<Entry>, b: seq<Entry>)
    requires Canonical(a) && Canonical(b)
    requires forall e :: e in a <==> e in b
    ensures a == b
  {
    SameEmptiness(a, b);
    if a != [] {
      FirstIsFirst(a, b);
      FirstIsFirst(b, a);
      LessTotal(Encode(a[0].path), Encode(b[0].path));
      assert a[0] == b[0];
      forall e ensures e in a[1..] <==> e in b[1..] {
        HeadIsOnce(a);
        HeadIsOnce(b);
        assert a == [a[0]] + a[1..] && b == [b[0]] + b[1..];
        assert e in a <==> e == a[0] || e in a[1..];
        assert e in b <==> e == b[0] || e in b[1..];
      }
      SameEntriesSameOrder(a[1..], b[1..]);
      assert a == [a[0]] + a[1..] && b == [b[0]] + b[1..];
    }
  }

  lemma SameEmptiness(a: seq<Entry>, b: seq<Entry>)
    requires forall e :: e in a <==> e in b
    ensures a == [] <==> b == []
  {
    if a != [] {
      assert a[0] in a;
    }
    if b != [] {
      assert b[0] in b;
    }
  }

  lemma HeadIsOnce(a: seq<Entry>)
    requires Canonical(a) && a != []
    ensures a[0] !in a[1..]
  {
    forall j | 0 <= j < |a| - 1 ensures a[1..][j] != a[0] {
      CanonicalPairwise(a, 0, j + 1);
      LessIrreflexive(Encode(a[0].path));
    }
  }

  lemma FirstIsFirst(a: seq<Entry>, b: seq<Entry>)
    requires Canonical(a) && Canonical(b) && a != [] && b != []
    requires a[0] in b
    ensures a[0] == b[0] || Less(Encode(b[0].path), Encode(a[0].path))
  {
    var j :| 0 <= j < |b| && b[j] == a[0];
    if j > 0 {
      CanonicalPairwise(b, 0, j);
    }
  }

  /** Two accepted manifests without NULs have one pre-image exactly when they hold the same
      entries, in the text and in the bytes that are hashed.
   */
  lemma SamePreimageSameEntries(a: seq<Entry>, b: seq<Entry>)
    requires Canonical(a) && Canonical(b)
    requires forall i :: 0 <= i < |a| ==> ValidEntry(a[i]) && NulFreeEntry(a[i])
    requires forall i :: 0 <= i < |b| ==> ValidEntry(b[i]) && NulFreeEntry(b[i])
    ensures Preimage(a) == Preimage(b) <==> (forall e :: e in a <==> e in b)
    ensures Encode(Preimage(a)) == Encode(Preimage(b)) <==> Preimage(a) == Preimage(b)
  {
    PreimageInjective(a, b);
    EncodeIsInjective(Preimage(a), Preimage(b));
    if forall e :: e in a <==> e in b {
      SameEntriesSameOrder(a, b);
    }
  }

  /** What an entry adds to the pre-image, spelled out: its path and then, of the baseline, the index and
      the working tree, the layer's name, its status and its old path, or nothing where there is none.
   */
  lemma EntrySpelledOut(entries: seq<Entry>, e: Entry)
    ensures var status := (c: Option<Change>) => if c == None then "" else c.value.status;
            var source := (c: Option<Change>) =>
              if c == None || c.value.oldPath == None then "" else c.value.oldPath.value;
            Preimage([]) == "" &&
            Preimage(entries + [e])
            == Preimage(entries)
               + Terminated([e.path, "baseline", status(e.baseline), source(e.baseline),
                             "index", status(e.index), source(e.index),
                             "worktree", status(e.worktree), source(e.worktree)])
  {
    hide Terminated, AllFields;
    AllFieldsConcat(entries, [e]);
    SingleFields(e);
    TerminatedConcat(AllFields(entries), Fields(e));
    NoneTerminated();
  }

  /** Each field is closed by a NUL. */
  lemma FieldSpelledOut(fields: seq<string>, f: string)
    ensures Terminated([]) == "" && Terminated(fields + [f]) == Terminated(fields) + f + "\0"
  {
    TerminatedConcat(fields, [f]);
    assert [f][1..] == [];
    assert Terminated([f]) == f + ['\0'] + "";
  }

  lemma NoneTerminated()
    ensures Terminated([]) == "" && Preimage([]) == ""
  {
  }
}
