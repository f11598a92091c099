/** When two manifests share a pre-image.

    The validator admits a NUL in a path; its limit on path lengths decides what that allows.
 */
module ManifestSharing {
  import opened Utf8
  import opened Manifests
  import opened Collections

  // The validator lets NULs into paths, so one path may swallow whole entries. It also limits the
  // length of a path, which limits what can be swallowed.

  /** The longest path accepted. */
  const PATH_LIMIT := 512

  /** The length of a text in UTF-16 units, as JavaScript counts it. */
  function Units(s: string): nat {
    if s == "" then 0 else (if s[0] as int < 0x1_0000 then 1 else 2) + Units(s[1..])
  }

  lemma {:induction false} UnitsConcat(s: string, t: string)
    ensures Units(s + t) == Units(s) + Units(t)
  {
    if s == "" {
      assert s + t == t;
    } else {
      assert (s + t)[1..] == s[1..] + t;
      UnitsConcat(s[1..], t);
    }
  }

  predicate Within(bound: nat, e: Entry) {
    && Units(e.path) <= bound
    && Units(OldPathOf(e.baseline)) <= bound
    && Units(OldPathOf(e.index)) <= bound
    && Units(OldPathOf(e.worktree)) <= bound
  }

  /** What the service accepts when it limits paths to `bound`. */
  predicate Accepted(bound: nat, entries: seq<Entry>) {
    Canonical(entries) && forall i :: 0 <= i < |entries| ==> ValidEntry(entries[i]) && Within(bound, entries[i])
  }

  predicate NulFreeAll(entries: seq<Entry>) {
    forall i :: 0 <= i < |entries| ==> NulFreeEntry(entries[i])
  }

  function NulCount(s: string): nat {
    if s == "" then 0 else (if s[0] == '\0' then 1 else 0) + NulCount(s[1..])
  }

  lemma {:induction false} NulCountConcat(s: string, t: string)
    ensures NulCount(s + t) == NulCount(s) + NulCount(t)
  {
    if s == "" {
      assert s + t == t;
    } else {
      assert (s + t)[1..] == s[1..] + t;
      NulCountConcat(s[1..], t);
    }
  }

  lemma {:induction false} NoNulsExactlyWhen(s: string)
    ensures NulCount(s) == 0 <==> NulFree(s)
  {
    if s != "" {
      NoNulsExactlyWhen(s[1..]);
      assert s == [s[0]] + s[1..];
    }
  }

  /** There are at least as many NULs as fields, and no more exactly when no field holds one. */
  lemma {:induction false} NulsOfFields(fields: seq<string>)
    ensures NulCount(Terminated(fields)) >= |fields|
    ensures NulCount(Terminated(fields)) == |fields| <==> forall i :: 0 <= i < |fields| ==> NulFree(fields[i])
  {
    if fields != [] {
      var rest := Terminated(fields[1..]);
      NulsOfFields(fields[1..]);
      NulCountConcat(fields[0] + ['\0'], rest);
      NulCountConcat(fields[0], ['\0']);
      assert ['\0'][1..] == "";
      NoNulsExactlyWhen(fields[0]);
      assert forall i :: 0 < i < |fields| ==> fields[i] == fields[1..][i - 1];
    }
  }

  lemma {:induction false} FieldCount(entries: seq<Entry>)
    ensures |AllFields(entries)| == 10 * |entries|
  {
    if entries != [] {
      FieldCount(entries[1..]);
    }
  }

  /** Whatever the limit, a manifest of at most one NUL-free entry shares its pre-image with no other. */
  lemma ShortIsAlone(bound: nat, a: seq<Entry>, b: seq<Entry>)
    requires Accepted(bound, a) && NulFreeAll(a) && |a| <= 1 && Accepted(bound, b) && Preimage(a) == Preimage(b)
    ensures a == b
  {
    hide Fields, Terminated, NulCount, AllFields, Canonical, NulFree, ValidEntry, Within;
    forall i | 0 <= i < |AllFields(a)| ensures NulFree(AllFields(a)[i]) { FieldsNulFree(a, i); }
    FieldCount(a);
    FieldCount(b);
    NulsOfFields(AllFields(a));
    NulsOfFields(AllFields(b));
    NoFields();
    TerminatedInjective(AllFields(a), AllFields(b));
    AllFieldsInjective(a, b);
  }

  lemma NoFields()
    ensures NulCount(Preimage([])) == 0
  {
  }

  // ------------------------------------------------------------------- merging neighbours

  lemma PreimageConcat(a: seq<Entry>, b: seq<Entry>)
    ensures Preimage(a + b) == Preimage(a) + Preimage(b)
  {
    AllFieldsConcat(a, b);
    TerminatedConcat(AllFields(a), AllFields(b));
  }

  lemma PreimageOne(e: Entry)
    ensures Preimage([e]) == Terminated(Fields(e))
  {
    SingleFields(e);
  }

  /** Two entries as one whose path swallows the first. */
  function Swallowing(first: Entry, second: Entry): Entry {
    second.(path := Terminated(Fields(first)) + second.path)
  }

  function MergedAt(entries: seq<Entry>, i: nat): seq<Entry>
    requires i + 1 < |entries|
  {
    entries[..i] + [Swallowing(entries[i], entries[i + 1])] + entries[i + 2..]
  }

  /** The path that swallows entry i keeps within the limit. */
  predicate Mergeable(bound: nat, entries: seq<Entry>, i: nat) {
    i + 1 < |entries| && Units(Terminated(Fields(entries[i]))) + Units(entries[i + 1].path) <= bound
  }

  lemma MergedPath(first: Entry, second: Entry) returns (more: string)
    ensures Terminated(Fields(first)) + second.path == first.path + more && more != "" && more[0] == '\0'
  {
    var rest := Terminated(Fields(first)[1..]);
    more := ['\0'] + rest + second.path;
    assert Terminated(Fields(first)) == first.path + ['\0'] + rest;
  }

  lemma {:induction false} ExtensionIsGreater(path: string, more: string)
    requires more != ""
    ensures TextLess(path, path + more)
  {
    if path != "" {
      assert (path + more)[1..] == path[1..] + more;
      ExtensionIsGreater(path[1..], more);
    }
  }

  /** A path extended by a NUL stays below every greater path without one. */
  lemma {:induction false} NulExtensionStaysBelow(path: string, more: string, other: string)
    requires TextLess(path, other) && NulFree(other) && more != "" && more[0] == '\0'
    ensures TextLess(path + more, other)
  {
    if path == "" {
      assert path + more == more;
      assert other[0] in other;
    } else if path[0] == other[0] {
      assert (path + more)[1..] == path[1..] + more;
      NulExtensionStaysBelow(path[1..], more, other[1..]);
    }
  }

  lemma SwallowingIsBetween(first: Entry, second: Entry)
    ensures Less(Encode(first.path), Encode(Swallowing(first, second).path))
    ensures forall other: string :: NulFree(other) && Less(Encode(first.path), Encode(other)) ==>
              Less(Encode(Swallowing(first, second).path), Encode(other))
  {
    hide Less, Encode, Terminated, NulFree;
    var one := Swallowing(first, second);
    var more := MergedPath(first, second);
    ExtensionIsGreater(first.path, more);
    EncodeIsInjective(first.path, one.path);
    forall other: string | NulFree(other) && Less(Encode(first.path), Encode(other))
      ensures Less(Encode(one.path), Encode(other))
    {
      EncodeIsInjective(first.path, other);
      NulExtensionStaysBelow(first.path, more, other);
      EncodeIsInjective(one.path, other);
    }
  }

  lemma MergedCanonical(a: seq<Entry>, i: nat)
    requires Canonical(a) && NulFreeAll(a) && i + 1 < |a|
    ensures Canonical(MergedAt(a, i))
  {
    hide Less, Encode, Terminated, Swallowing, NulFree;
    var b, one := MergedAt(a, i), Swallowing(a[i], a[i + 1]);
    SwallowingIsBetween(a[i], a[i + 1]);
    forall k | 1 <= k < |b| ensures Less(Encode(b[k - 1].path), Encode(b[k].path)) {
      if k < i {
        assert b[k - 1] == a[k - 1] && b[k] == a[k];
      } else if k == i {
        assert b[k - 1] == a[k - 1] && b[k] == one;
        LessTransitive(Encode(a[i - 1].path), Encode(a[i].path), Encode(one.path));
      } else if k == i + 1 {
        assert b[k - 1] == one && b[k] == a[i + 2];
        CanonicalPairwise(a, i, i + 2);
        assert NulFreeEntry(a[i + 2]);
      } else {
        assert b[k - 1] == a[k] && b[k] == a[k + 1];
      }
    }
  }

  lemma MergedPreimage(a: seq<Entry>, i: nat)
    requires i + 1 < |a|
    ensures Preimage(MergedAt(a, i)) == Preimage(a)
  {
    hide Preimage, Terminated, Fields;
    var x, y, one := a[..i], a[i + 2..], Swallowing(a[i], a[i + 1]);
    Swallows(a[i], a[i + 1], one);
    assert a == x + [a[i], a[i + 1]] + y;
    PreimageConcat(x + [a[i], a[i + 1]], y);
    PreimageConcat(x, [a[i], a[i + 1]]);
    PreimageConcat(x + [one], y);
    PreimageConcat(x, [one]);
  }

  /** Where a merged path keeps within the limit, another accepted manifest has the same pre-image. */
  lemma MergedShares(bound: nat, a: seq<Entry>, i: nat)
    requires Accepted(bound, a) && NulFreeAll(a) && Mergeable(bound, a, i)
    ensures var b := MergedAt(a, i); Accepted(bound, b) && b != a && Preimage(b) == Preimage(a)
  {
    MergedCanonical(a, i);
    MergedPreimage(a, i);
    hide Canonical, Preimage, Terminated, Fields, ValidChange, NulFreeEntry, Units;
    var b, one := MergedAt(a, i), Swallowing(a[i], a[i + 1]);
    UnitsConcat(Terminated(Fields(a[i])), a[i + 1].path);
    assert |b| == |a| - 1;
    forall k | 0 <= k < |b| ensures ValidEntry(b[k]) && Within(bound, b[k]) {
      if k < i {
        assert b[k] == a[k];
      } else if k > i {
        assert b[k] == a[k + 1];
      } else {
        assert b[k] == one && ValidEntry(a[i + 1]) && Within(bound, a[i + 1]);
      }
    }
  }

  /** Two short entries, accepted as two and as one. */
  lemma NulCollision() returns (a: seq<Entry>, b: seq<Entry>)
    ensures Accepted(PATH_LIMIT, a) && Accepted(PATH_LIMIT, b) && a != b && Preimage(a) == Preimage(b)
  {
    hide Accepted, Preimage, Less;
    TwoInOrder();
    a, b := CollisionOf("a", "b");
  }

  lemma CollisionOf(p: string, q: string) returns (a: seq<Entry>, b: seq<Entry>)
    requires 1 <= |p| <= 9 && 1 <= |q| <= 9 && NulFree(p) && NulFree(q) && Less(Encode(p), Encode(q))
    ensures Accepted(PATH_LIMIT, a) && Accepted(PATH_LIMIT, b) && a != b && Preimage(a) == Preimage(b)
  {
    AddedIs(p);
    AddedIs(q);
    UnitsBound(q);
    hide Terminated, Encode, Less, Units, Fields, ValidEntry, NulFreeEntry, Added, Within, Preimage, NulFree;
    a := [Added(p), Added(q)];
    MergedShares(PATH_LIMIT, a, 0);
    b := MergedAt(a, 0);
  }

  function Added(path: string): Entry {
    Entry(path, Some(Change("added", None)), None, None)
  }

  lemma AddedIs(path: string)
    requires 1 <= |path| <= 9 && NulFree(path)
    ensures Added(path).path == path && ValidEntry(Added(path)) && NulFreeEntry(Added(path))
    ensures Within(PATH_LIMIT, Added(path))
    ensures Units(Terminated(Fields(Added(path)))) <= 200
  {
    assert STATUSES[0] == "added";
    UnitsBound(path);
    ShortUnits(Added(path));
  }

  lemma TwoInOrder()
    ensures Less(Encode("a"), Encode("b"))
  {
    assert TextLess("a", "b");
    EncodeIsInjective("a", "b");
  }

  lemma {:induction false} UnitsBound(s: string)
    ensures Units(s) <= 2 * |s|
  {
    if s != "" {
      UnitsBound(s[1..]);
    }
  }

  lemma {:induction false} TerminatedLength(fields: seq<string>, most: nat)
    requires forall i :: 0 <= i < |fields| ==> |fields[i]| <= most
    ensures |Terminated(fields)| <= |fields| * (most + 1)
  {
    if fields != [] {
      TerminatedLength(fields[1..], most);
    }
  }

  lemma ShortUnits(e: Entry)
    requires |e.path| <= 9 && |StatusOf(e.baseline)| <= 9 && |StatusOf(e.index)| <= 9 && |StatusOf(e.worktree)| <= 9
    requires OldPathOf(e.baseline) == "" && OldPathOf(e.index) == "" && OldPathOf(e.worktree) == ""
    ensures Units(Terminated(Fields(e))) <= 200
  {
    TerminatedLength(Fields(e), 9);
    UnitsBound(Terminated(Fields(e)));
  }

  // ------------------------------------------------------- reading a pre-image back

  lemma LongerField(f: string, g: string, x: string, y: string)
    requires NulFree(f) && f + ['\0'] + x == g + ['\0'] + y && f != g
    ensures |f| < |g| && g == f + ['\0'] + g[|f| + 1..] && x == g[|f| + 1..] + ['\0'] + y
  {
    var l, r := f + ['\0'] + x, g + ['\0'] + y;
    SameFieldLength(f, g, x, y);
    assert g == r[..|g|] == l[..|g|];
    assert l[..|f|] == f && l[|f|] == '\0';
    assert x == l[|f| + 1..];
    assert r[|f| + 1..] == g[|f| + 1..] + ['\0'] + y;
  }

  lemma TerminatedFirst(fields: seq<string>)
    requires fields != []
    ensures Terminated(fields) == fields[0] + ['\0'] + Terminated(fields[1..])
  {
  }

  /** A field of the other reading is one NUL-free field of this one, or several with their NULs. */
  lemma {:induction false} TakeFirst(g: seq<string>, f: seq<string>) returns (k: nat)
    requires g != [] && Terminated(g) == Terminated(f) && forall i :: 0 <= i < |f| ==> NulFree(f[i])
    ensures 1 <= k <= |f| && g[0] + ['\0'] == Terminated(f[..k]) && Terminated(g[1..]) == Terminated(f[k..])
    decreases |f|
  {
    TerminatedFirst(g);
    assert |Terminated(g)| > 0;
    assert f != [];
    TerminatedFirst(f);
    hide Terminated, NulFree;
    var x, y := Terminated(f[1..]), Terminated(g[1..]);
    if f[0] == g[0] {
      k := 1;
      assert f[0] + ['\0'] + x == f[0] + ['\0'] + y;
      SameRest(f[0] + ['\0'], x, y);
      OneField(f[0]);
      assert f[..1] == [f[0]];
    } else {
      LongerField(f[0], g[0], x, y);
      var rest := [g[0][|f[0]| + 1..]] + g[1..];
      assert rest[1..] == g[1..];
      TerminatedFirst(rest);
      var n := TakeFirst(rest, f[1..]);
      k := n + 1;
      assert f[..k][1..] == f[1..][..n] && f[..k][0] == f[0];
      TerminatedFirst(f[..k]);
      assert f[1..][n..] == f[k..];
    }
  }

  lemma SameRest(h: string, x: string, y: string)
    requires h + x == h + y
    ensures x == y
  {
    assert x == (h + x)[|h|..] && y == (h + y)[|h|..];
  }

  lemma OneField(f: string)
    ensures Terminated([f]) == f + ['\0']
  {
    assert [f][1..] == [];
    assert Terminated([]) == "";
  }

  lemma HeadTail<T>(s: seq<T>, n: nat)
    requires 1 <= n <= |s|
    ensures s[1..][n - 1..] == s[n..] && s[..n] == [s[0]] + s[1..][..n - 1]
  {
  }

  /** Fields without NULs are read back one for one. */
  lemma {:induction false} TakeMany(g: seq<string>, f: seq<string>, n: nat)
    requires n <= |g| && Terminated(g) == Terminated(f)
    requires (forall i :: 0 <= i < |f| ==> NulFree(f[i])) && forall i :: 0 <= i < n ==> NulFree(g[i])
    ensures n <= |f| && g[..n] == f[..n] && Terminated(g[n..]) == Terminated(f[n..])
    decreases n
  {
    if n == 0 {
      assert g[0..] == g && f[0..] == f;
    } else {
      hide Terminated, NulFree;
      var k := TakeFirst(g, f);
      TerminatedFirst(g);
      TerminatedFirst(f);
      FirstField(f[0], g[0], Terminated(f[1..]), Terminated(g[1..]));
      TakeMany(g[1..], f[1..], n - 1);
      HeadTail(g, n);
      HeadTail(f, n);
    }
  }

  // ---------------------------------------------------------- manifests without renames

  predicate Unmoved(change: Option<Change>) {
    change.Some? ==> change.value.status != "renamed" && change.value.status != "copied"
  }

  /** No entry was renamed or copied, so none has an old path. */
  predicate RenameFree(entries: seq<Entry>) {
    forall i :: 0 <= i < |entries| ==>
      Unmoved(entries[i].baseline) && Unmoved(entries[i].index) && Unmoved(entries[i].worktree)
  }

  lemma {:induction false} FieldAt(entries: seq<Entry>, i: nat, r: nat)
    requires i < |entries| && r < 10
    ensures |AllFields(entries)| == 10 * |entries|
    ensures AllFields(entries)[10 * i + r] == Fields(entries[i])[r]
  {
    FieldCount(entries);
    hide Fields;
    if i > 0 {
      FieldAt(entries[1..], i - 1, r);
      assert entries[1..][i - 1] == entries[i];
      assert AllFields(entries)[10 * i + r] == AllFields(entries[1..])[10 * (i - 1) + r];
    }
  }

  lemma UnmovedHasNone(change: Option<Change>)
    requires (change.Some? ==> ValidChange(change.value)) && Unmoved(change)
    ensures OldPathOf(change) == ""
  {
  }

  predicate IsStatus(s: string) {
    s == "" || s in STATUSES
  }

  lemma StatusIs(change: Option<Change>)
    requires change.Some? ==> ValidChange(change.value)
    ensures IsStatus(StatusOf(change))
  {
  }

  lemma WordsAreNoStatus()
    ensures !IsStatus("baseline") && "index" != "baseline" && "worktree" != "baseline"
  {
    assert "baseline"[0] == 'b' && "index"[0] == 'i' && "worktree"[0] == 'w';
    assert forall s :: s in STATUSES ==> s[0] != 'b';
  }

  /** Only the layer name itself reads as the start of a layer. */
  lemma BaselineOnlyAtOne(e: Entry, r: nat)
    requires ValidEntry(e) && Unmoved(e.baseline) && Unmoved(e.index) && Unmoved(e.worktree)
    requires r < 9 && Fields(e)[r] == "baseline" && IsStatus(Fields(e)[r + 1])
    ensures r == 1
  {
    hide IsStatus;
    WordsAreNoStatus();
    StatusIs(e.baseline);
    StatusIs(e.index);
    StatusIs(e.worktree);
    UnmovedHasNone(e.baseline);
    UnmovedHasNone(e.index);
  }

  lemma LastFieldIsEmpty(e: Entry)
    requires ValidEntry(e) && Unmoved(e.worktree)
    ensures Fields(e)[9] == ""
  {
    UnmovedHasNone(e.worktree);
  }

  /** Where a layer can start in the fields of a manifest without renames. */
  lemma LayerStartsAt(a: seq<Entry>, k: nat)
    requires RenameFree(a) && forall i :: 0 <= i < |a| ==> ValidEntry(a[i])
    requires k + 1 < |AllFields(a)| && AllFields(a)[k] == "baseline" && IsStatus(AllFields(a)[k + 1])
    ensures k % 10 == 1
  {
    hide AllFields, Fields, IsStatus, ValidEntry, Unmoved;
    FieldCount(a);
    var i, r := k / 10, k % 10;
    FieldAt(a, i, r);
    if r == 9 {
      LastFieldIsEmpty(a[i]);
    } else {
      FieldAt(a, i, r + 1);
      BaselineOnlyAtOne(a[i], r);
    }
  }

  lemma UnmovedFields(e: Entry)
    requires ValidEntry(e)
    ensures NulFree(Fields(e)[1]) && NulFree(Fields(e)[2])
    ensures Fields(e)[1] == "baseline" && IsStatus(Fields(e)[2])
  {
    StatusNulFree(e.baseline);
    StatusNulFree(e.index);
    StatusNulFree(e.worktree);
    assert NulFree("baseline") && NulFree("index") && NulFree("worktree") && NulFree("");
  }

  lemma SameStatusUnmoved(change: Option<Change>, other: Option<Change>)
    requires StatusOf(change) == StatusOf(other) && Unmoved(other)
    requires (change.Some? ==> ValidChange(change.value)) && (other.Some? ==> ValidChange(other.value))
    ensures Unmoved(change)
  {
  }

  /** The nine fields after the path are those of one entry of the manifest without renames. */
  lemma LayersOf(e: Entry, d: Entry, g: seq<string>, f: seq<string>)
    requires ValidEntry(e) && ValidEntry(d) && Unmoved(d.baseline) && Unmoved(d.index) && Unmoved(d.worktree)
    requires 9 <= |g| && g[..9] == Fields(e)[1..] && 9 <= |f| && f[..9] == Fields(d)[1..]
    requires Terminated(g) == Terminated(f) && forall i :: 0 <= i < |f| ==> NulFree(f[i])
    ensures Fields(e)[1..] == Fields(d)[1..] && Terminated(g[9..]) == Terminated(f[9..])
  {
    LayerNames();
    LayerFields(e, g);
    LayerFields(d, f);
    ChangesAreValid(e);
    ChangesAreValid(d);
    hide *;
    LayerSame(g, f, 0, e.baseline, d.baseline);
    LayerSame(g, f, 3, e.index, d.index);
    LayerSame(g, f, 6, e.worktree, d.worktree);
    TakeMany(g, f, 9);
  }

  /** One layer of one entry: its status is the other's, and so it has no old path either. */
  lemma LayerSame(g: seq<string>, f: seq<string>, base: nat, change: Option<Change>, other: Option<Change>)
    requires base + 3 <= |g| && base + 3 <= |f| && Terminated(g) == Terminated(f)
    requires forall i :: 0 <= i < |f| ==> NulFree(f[i])
    requires (forall i :: 0 <= i < base ==> NulFree(g[i])) && NulFree(g[base])
    requires g[base + 1] == StatusOf(change) && f[base + 1] == StatusOf(other) && g[base + 2] == OldPathOf(change)
    requires (change.Some? ==> ValidChange(change.value)) && (other.Some? ==> ValidChange(other.value))
    requires Unmoved(other)
    ensures forall i :: 0 <= i < base + 3 ==> NulFree(g[i])
  {
    hide *;
    StatusNulFree(change);
    SameUpTo(g, f, base + 2);
    SameStatusUnmoved(change, other);
    UnmovedHasNone(change);
    EmptyNulFree();
  }

  lemma EmptyNulFree()
    ensures NulFree("")
  {
  }

  lemma ChangesAreValid(e: Entry)
    requires ValidEntry(e)
    ensures e.baseline.Some? ==> ValidChange(e.baseline.value)
    ensures e.index.Some? ==> ValidChange(e.index.value)
    ensures e.worktree.Some? ==> ValidChange(e.worktree.value)
  {
  }

  lemma SameUpTo(g: seq<string>, f: seq<string>, n: nat)
    requires 1 <= n <= |g| && Terminated(g) == Terminated(f)
    requires (forall i :: 0 <= i < |f| ==> NulFree(f[i])) && forall i :: 0 <= i < n ==> NulFree(g[i])
    ensures n <= |f| && g[n - 1] == f[n - 1]
  {
    hide Terminated, NulFree;
    TakeMany(g, f, n);
    assert g[n - 1] == g[..n][n - 1] && f[n - 1] == f[..n][n - 1];
  }

  lemma LayerFields(e: Entry, g: seq<string>)
    requires 9 <= |g| && g[..9] == Fields(e)[1..]
    ensures g[0] == "baseline" && g[1] == StatusOf(e.baseline) && g[2] == OldPathOf(e.baseline)
    ensures g[3] == "index" && g[4] == StatusOf(e.index) && g[5] == OldPathOf(e.index)
    ensures g[6] == "worktree" && g[7] == StatusOf(e.worktree) && g[8] == OldPathOf(e.worktree)
  {
    forall r | 0 <= r < 9 ensures g[r] == Fields(e)[r + 1] {
      assert g[r] == g[..9][r];
    }
  }

  lemma LayerNames()
    ensures NulFree("baseline") && NulFree("index") && NulFree("worktree") && NulFree("")
  {
  }

  predicate Plain(entries: seq<Entry>) {
    RenameFree(entries) && NulFreeAll(entries) && forall i :: 0 <= i < |entries| ==> ValidEntry(entries[i])
  }

  /** The fields of a manifest, cut before the layers of entry i. */
  lemma CutAt(a: seq<Entry>, i: nat)
    requires i < |a|
    ensures |AllFields(a)| == 10 * |a|
    ensures AllFields(a)[..10 * i + 1] == AllFields(a[..i]) + [a[i].path]
    ensures AllFields(a)[10 * i + 1..][..9] == Fields(a[i])[1..]
    ensures AllFields(a)[10 * i + 1..][9..] == AllFields(a[i + 1..])
  {
    hide AllFields;
    var x, y := a[..i], a[i + 1..];
    assert a == x + ([a[i]] + y);
    AllFieldsConcat(x, [a[i]] + y);
    AllFieldsConcat([a[i]], y);
    SingleFields(a[i]);
    FieldCount(x);
    FieldCount(a);
    hide Fields;
    FieldsStart(a[i]);
    CutBlock(AllFields(x), Fields(a[i]), AllFields(y));
  }

  lemma FieldsStart(e: Entry)
    ensures Fields(e)[0] == e.path
  {
  }

  lemma CutBlock<T>(x: seq<T>, block: seq<T>, y: seq<T>)
    requires |block| == 10
    ensures var all := x + (block + y);
            && all[..|x| + 1] == x + [block[0]]
            && all[|x| + 1..][..9] == block[1..] && all[|x| + 1..][9..] == y
  {
    assert (x + (block + y))[|x| + 1..] == block[1..] + y;
  }

  /** The first entry of any reading is one entry of the manifest, its path swallowing all before. */
  lemma FirstEntry(a: seq<Entry>, b: seq<Entry>) returns (i: nat)
    requires Plain(a) && b != [] && ValidEntry(b[0]) && Preimage(a) == Preimage(b)
    ensures i < |a| && b[0] == a[i].(path := Preimage(a[..i]) + a[i].path)
    ensures Preimage(b[1..]) == Preimage(a[i + 1..])
  {
    hide Terminated, NulFree, AllFields, Fields, ValidEntry, Unmoved, IsStatus, NulFreeEntry;
    var f, g := AllFields(a), AllFields(b);
    forall j | 0 <= j < |f| ensures NulFree(f[j]) { FieldsNulFree(a, j); }
    AllFieldsFirst(b);
    var k := TakeFirst(g, f);
    UnmovedFields(b[0]);
    assert g[1..][..2] == Fields(b[0])[1..3] && forall j :: 0 <= j < |f[k..]| ==> f[k..][j] == f[k + j];
    TakeMany(g[1..], f[k..], 2);
    assert f[k] == f[k..][..2][0] == g[1..][..2][0] && f[k + 1] == f[k..][..2][1] == g[1..][..2][1];
    LayerStartsAt(a, k);
    i := k / 10;
    FieldCount(a);
    CutAt(a, i);
    assert ValidEntry(a[i]);
    assert g[1..][..9] == Fields(b[0])[1..] && g[1..][9..] == AllFields(b[1..]);
    LayersOf(b[0], a[i], g[1..], f[k..]);
    TerminatedConcat(AllFields(a[..i]), [a[i].path]);
    OneField(a[i].path);
    SamePath(b[0].path, Preimage(a[..i]), a[i].path);
    RestoreEntry(b[0], a[i]);
  }

  lemma AllFieldsFirst(b: seq<Entry>)
    requires b != []
    ensures AllFields(b) == Fields(b[0]) + AllFields(b[1..]) && AllFields(b) != [] && AllFields(b)[0] == b[0].path
  {
  }

  lemma SamePath(p: string, x: string, y: string)
    requires p + ['\0'] == x + (y + ['\0'])
    ensures p == x + y
  {
    assert p == (p + ['\0'])[..|p|];
    assert x + y == (x + (y + ['\0']))[..|x| + |y|];
  }

  lemma RestoreEntry(e: Entry, d: Entry)
    requires ValidEntry(e) && ValidEntry(d) && Fields(e)[1..] == Fields(d)[1..]
    ensures e == d.(path := e.path)
  {
    var moved := d.(path := e.path);
    assert Fields(moved)[1..] == Fields(d)[1..];
    assert Fields(e) == [e.path] + Fields(e)[1..] && Fields(moved) == [e.path] + Fields(moved)[1..];
    FieldsInjective(e, moved);
  }

  /** Swallowing any number of entries takes at least what swallowing the first alone would. */
  lemma SwallowedUnits(a: seq<Entry>, i: nat)
    requires 1 <= i < |a|
    ensures Units(Preimage(a[..i]) + a[i].path) >= Units(Terminated(Fields(a[0]))) + Units(a[1].path)
  {
    hide Units, Terminated, Fields, AllFields, Preimage;
    UnitsConcat(Preimage(a[..i]), a[i].path);
    assert a[..i] == [a[0]] + a[1..i];
    PreimageConcat([a[0]], a[1..i]);
    PreimageOne(a[0]);
    UnitsConcat(Terminated(Fields(a[0])), Preimage(a[1..i]));
    if i == 1 {
      assert a[1..i] == [];
    } else {
      assert a[1..i] == [a[1]] + a[2..i];
      PreimageConcat([a[1]], a[2..i]);
      PreimageOne(a[1]);
      UnitsConcat(Terminated(Fields(a[1])), Preimage(a[2..i]));
      var more := MergedPath(a[1], a[1]);
      PathUnits(a[1]);
    }
  }

  lemma PathUnits(e: Entry)
    ensures Units(Terminated(Fields(e))) > Units(e.path)
  {
    hide Units;
    var rest := Terminated(Fields(e)[1..]);
    assert Terminated(Fields(e)) == e.path + (['\0'] + rest);
    UnitsConcat(e.path, ['\0'] + rest);
    UnitsConcat(['\0'], rest);
    NulUnit();
  }

  lemma NulUnit()
    ensures Units(['\0']) == 1
  {
    assert ['\0'][1..] == "";
  }

  lemma {:induction false} OnlyByMerging(bound: nat, a: seq<Entry>, b: seq<Entry>) returns (j: nat)
    requires Plain(a) && a != b && Preimage(a) == Preimage(b)
    requires forall i :: 0 <= i < |b| ==> ValidEntry(b[i]) && Within(bound, b[i])
    ensures Mergeable(bound, a, j)
    decreases |a|
  {
    hide Terminated, NulFree, AllFields, Fields, ValidEntry, Unmoved, NulFreeEntry, Units, Preimage;
    EmptyPreimage(a);
    var i := FirstEntry(a, b);
    if i > 0 {
      SwallowedUnits(a, i);
      j := 0;
    } else {
      NothingBefore(a);
      assert a == [a[0]] + a[1..] && b == [b[0]] + b[1..];
      var n := OnlyByMerging(bound, a[1..], b[1..]);
      j := n + 1;
    }
  }

  lemma EmptyPreimage(a: seq<Entry>)
    ensures Preimage(a) == Preimage([]) <==> a == []
  {
    hide NulCount, Terminated, AllFields;
    FieldCount(a);
    NulsOfFields(AllFields(a));
    NoFields();
  }

  lemma NothingBefore(a: seq<Entry>)
    requires a != []
    ensures Preimage(a[..0]) + a[0].path == a[0].path
  {
    assert a[..0] == [];
  }

  /** Without renames, an accepted NUL-free manifest shares its pre-image with another accepted one
      exactly when two neighbours can be merged within the limit.
   */
  lemma SharedExactlyWhen(bound: nat, a: seq<Entry>)
    requires Accepted(bound, a) && NulFreeAll(a) && RenameFree(a)
    ensures (exists b :: Accepted(bound, b) && b != a && Preimage(b) == Preimage(a))
            <==> exists i: nat :: Mergeable(bound, a, i)
  {
    hide Preimage, Mergeable, Canonical, NulFreeAll, RenameFree, ValidEntry, Within;
    if i: nat :| Mergeable(bound, a, i) {
      MergedShares(bound, a, i);
    }
    forall b | Accepted(bound, b) && b != a && Preimage(b) == Preimage(a)
      ensures exists i: nat :: Mergeable(bound, a, i)
    {
      var j := OnlyByMerging(bound, a, b);
    }
  }

  /** Paths of full length cannot be swallowed: such a manifest is alone however many entries it has. */
  lemma LongIsAlone(bound: nat, a: seq<Entry>, b: seq<Entry>)
    requires Accepted(bound, a) && NulFreeAll(a) && RenameFree(a) && Accepted(bound, b) && Preimage(b) == Preimage(a)
    requires forall i :: 0 <= i < |a| ==> Units(a[i].path) == bound
    ensures a == b
  {
    hide Preimage, Units, Terminated, Fields, Canonical, NulFreeAll, RenameFree, ValidEntry;
    if a != b {
      var j := OnlyByMerging(bound, a, b);
      PathUnits(a[j]);
    }
  }
}
