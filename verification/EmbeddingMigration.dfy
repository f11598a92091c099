/** The embedding migration: a paged pass over an index ordered by the very field it rewrites. */
module EmbeddingMigration {
  import opened Utf8
  import opened Collections

  type RowId = nat
  type ObjectId = nat
  type Vector = seq<real>

  datatype Row = Row(objectId: ObjectId, scope: string, scopeModelKey: Option<string>, provider: string,
                     model: string, contentRevision: nat, vector: Vector)
  datatype Object = Object(publicId: string, scope: string, text: string, revision: nat, active: bool)

  /** Work handed to the provider: embed this revision of this object. */
  datatype Embed = Embed(publicId: string, expectedRevision: nat)

  const FALLBACK := "overgent-concepts/v1/1024"
  const BATCH := 100

  // ------------------------------------------------------------ the composite key

  function Decimal(n: nat): string {
    if n < 10 then [('0' as int + n) as char] else Decimal(n / 10) + [('0' as int + n % 10) as char]
  }

  function ScopeModelKey(scope: string, model: string): string {
    Decimal(|scope|) + ":" + scope + model
  }

  lemma {:induction false} DecimalIsDigits(n: nat, i: nat)
    requires i < |Decimal(n)|
    ensures '0' <= Decimal(n)[i] <= '9'
  {
    if n >= 10 && i < |Decimal(n / 10)| {
      DecimalIsDigits(n / 10, i);
    }
  }

  lemma {:induction false} DecimalInjective(m: nat, n: nat)
    requires Decimal(m) == Decimal(n)
    ensures m == n
  {
    var a, b := Decimal(m), Decimal(n);
    DecimalNonEmpty(m / 10);
    DecimalNonEmpty(n / 10);
    assert a[|a| - 1] == b[|b| - 1];
    if m >= 10 && n >= 10 {
      assert a[..|a| - 1] == Decimal(m / 10) && b[..|b| - 1] == Decimal(n / 10);
      DecimalInjective(m / 10, n / 10);
    }
  }

  lemma DecimalNonEmpty(n: nat)
    ensures |Decimal(n)| >= 1
  {
  }

  lemma ColonAt(scope: string, model: string, k: nat)
    requires k <= |Decimal(|scope|)|
    ensures ScopeModelKey(scope, model)[k] == ':' <==> k == |Decimal(|scope|)|
  {
    if k < |Decimal(|scope|)| {
      DecimalIsDigits(|scope|, k);
      assert ScopeModelKey(scope, model)[k] == Decimal(|scope|)[k];
    }
  }

  /** The length prefix makes the composite key unambiguous. */
  lemma ScopeModelKeyInjective(scope: string, model: string, scope': string, model': string)
    requires ScopeModelKey(scope, model) == ScopeModelKey(scope', model')
    ensures scope == scope' && model == model'
  {
    var key := ScopeModelKey(scope, model);
    var d, d' := Decimal(|scope|), Decimal(|scope'|);
    if |d| <= |d'| {
      ColonAt(scope, model, |d|);
      ColonAt(scope', model', |d|);
    } else {
      ColonAt(scope, model, |d'|);
      ColonAt(scope', model', |d'|);
    }
    assert d == key[..|d|] && d' == key[..|d'|];
    DecimalInjective(|scope|, |scope'|);
    var rest := key[|d| + 1..];
    assert rest == scope + model && rest == scope' + model';
    assert scope == rest[..|scope|] && scope' == rest[..|scope'|];
    assert model == rest[|scope|..] && model' == rest[|scope'|..];
  }

  // -------------------------------------------------------------------- the index

  /** A position in the index of one scope: model version, then row id. */
  datatype Key = Key(model: string, id: RowId)

  predicate KeyLess(a: Key, b: Key) {
    TextLess(a.model, b.model) || (a.model == b.model && a.id < b.id)
  }

  lemma KeyOrder(a: Key, b: Key, c: Key)
    ensures !KeyLess(a, a)
    ensures KeyLess(a, b) && KeyLess(b, c) ==> KeyLess(a, c)
    ensures KeyLess(a, b) || a == b || KeyLess(b, a)
    ensures !(KeyLess(a, b) && KeyLess(b, a))
  {
    EncodeIsInjective(a.model, b.model);
    EncodeIsInjective(b.model, a.model);
    EncodeIsInjective(b.model, c.model);
    EncodeIsInjective(a.model, c.model);
    EncodeIsInjective(a.model, a.model);
    LessTotal(Encode(a.model), Encode(b.model));
    LessIrreflexive(Encode(a.model));
    if TextLess(a.model, b.model) && TextLess(b.model, c.model) {
      LessTransitive(Encode(a.model), Encode(b.model), Encode(c.model));
    }
  }

  type Rows = map<RowId, Row>
  type Cursor = Option<Key>

  function KeyOf(rows: Rows, id: RowId): Key
    requires id in rows
  {
    Key(rows[id].model, id)
  }

  predicate Past(cursor: Cursor, k: Key) {
    cursor.None? || KeyLess(cursor.value, k)
  }

  /** The rows of a scope the pass has not reached. */
  function Ahead(rows: Rows, scope: string, cursor: Cursor): set<RowId> {
    set id | id in rows && rows[id].scope == scope && Past(cursor, KeyOf(rows, id))
  }

  /** Those of them still at another model. */
  function Foreign(rows: Rows, scope: string, model: string, cursor: Cursor): set<RowId> {
    set id | id in Ahead(rows, scope, cursor) && rows[id].model != model
  }

  ghost predicate IsFirst(rows: Rows, ids: set<RowId>, id: RowId)
    requires forall i :: i in ids ==> i in rows
  {
    id in ids && forall i :: i in ids && i != id ==> KeyLess(KeyOf(rows, id), KeyOf(rows, i))
  }

  lemma {:induction false} FirstExists(rows: Rows, ids: set<RowId>) returns (id: RowId)
    requires ids != {} && forall i :: i in ids ==> i in rows
    ensures IsFirst(rows, ids, id)
  {
    var x :| x in ids;
    if ids == {x} {
      id := x;
    } else {
      var y := FirstExists(rows, ids - {x});
      KeyOrder(KeyOf(rows, x), KeyOf(rows, y), KeyOf(rows, y));
      if KeyLess(KeyOf(rows, x), KeyOf(rows, y)) {
        id := x;
        forall i | i in ids && i != x ensures KeyLess(KeyOf(rows, x), KeyOf(rows, i)) {
          if i != y {
            KeyOrder(KeyOf(rows, x), KeyOf(rows, y), KeyOf(rows, i));
          }
        }
      } else {
        id := y;
        assert KeyOf(rows, x).id != KeyOf(rows, y).id;
      }
    }
  }

  lemma SomeFirst(rows: Rows, ids: set<RowId>)
    requires ids != {} && forall i :: i in ids ==> i in rows
    ensures exists id :: IsFirst(rows, ids, id)
  {
    var id := FirstExists(rows, ids);
  }

  /** The row of these that comes first in the index. */
  ghost function First(rows: Rows, ids: set<RowId>): (id: RowId)
    requires ids != {} && forall i :: i in ids ==> i in rows
    ensures IsFirst(rows, ids, id)
  {
    SomeFirst(rows, ids);
    var id :| IsFirst(rows, ids, id);
    id
  }

  /** The next rows of a scope in index order, at most `size` of them. */
  ghost function Page(rows: Rows, scope: string, cursor: Cursor, size: nat): seq<RowId>
    decreases size
  {
    var ahead := Ahead(rows, scope, cursor);
    if size == 0 || ahead == {} then []
    else
      var id := First(rows, ahead);
      [id] + Page(rows, scope, Some(KeyOf(rows, id)), size - 1)
  }

  /** The cursor a page leaves behind: the position of its last row. */
  function CursorAfter(rows: Rows, page: seq<RowId>, cursor: Cursor): Cursor
    requires forall id :: id in page ==> id in rows
  {
    if page == [] then cursor else Some(KeyOf(rows, page[|page| - 1]))
  }

  /** A page is exactly the stretch of the index between the two cursors. */
  lemma {:induction false} PageIsStretch(rows: Rows, scope: string, cursor: Cursor, size: nat)
    ensures var page := Page(rows, scope, cursor, size);
            && |page| <= size
            && (size > 0 && Ahead(rows, scope, cursor) != {} ==> page != [])
            && (forall i, j :: 0 <= i < j < |page| ==> page[i] != page[j])
            && (forall id :: id in page ==> id in Ahead(rows, scope, cursor))
            && var next := CursorAfter(rows, page, cursor);
               forall id :: id in Ahead(rows, scope, cursor) <==> id in page || id in Ahead(rows, scope, next)
    ensures var page := Page(rows, scope, cursor, size);
            (forall id :: id in page ==> id in rows) &&
            var next := CursorAfter(rows, page, cursor);
            && (forall id :: id in page ==> id !in Ahead(rows, scope, next))
            && (page != [] ==> next.Some? && Past(cursor, next.value))
    decreases size
  {
    hide KeyLess;
    var ahead := Ahead(rows, scope, cursor);
    if size > 0 && ahead != {} {
      var id := First(rows, ahead);
      var here := Some(KeyOf(rows, id));
      var rest := Page(rows, scope, here, size - 1);
      PageIsStretch(rows, scope, here, size - 1);
      var next := CursorAfter(rows, rest, here);
      assert CursorAfter(rows, [id] + rest, cursor) == next;
      KeyOrder(here.value, here.value, here.value);
      assert id !in Ahead(rows, scope, here);
      forall i ensures i in ahead <==> i == id || i in Ahead(rows, scope, here) {
        if i in rows {
          AdvanceByOne(cursor, here.value, KeyOf(rows, i));
        }
      }
      if rest != [] {
        AdvanceByOne(cursor, here.value, next.value);
        KeyOrder(here.value, next.value, here.value);
      }
    }
  }

  lemma AdvanceByOne(cursor: Cursor, here: Key, k: Key)
    requires Past(cursor, here)
    ensures KeyLess(here, k) ==> Past(cursor, k)
    ensures KeyLess(here, k) ==> !KeyLess(k, here)
  {
    if cursor.Some? {
      KeyOrder(cursor.value, here, k);
    }
    KeyOrder(here, k, here);
  }

  // ------------------------------------------------------------- converging a row

  datatype World = World(objects: map<ObjectId, Object>, conceptVector: string -> Vector)

  function Composite(scope: string, model: string): Option<string> {
    Some(ScopeModelKey(scope, model))
  }

  /** The row with its vector recomputed from its object's own text. */
  function Reembedded(w: World, scope: string, model: string, row: Row): Row
    requires row.objectId in w.objects
  {
    var source := w.objects[row.objectId];
    row.(scope := source.scope, scopeModelKey := Composite(scope, model), provider := "overgent",
         model := model, contentRevision := source.revision, vector := w.conceptVector(source.text))
  }

  /** What becomes of one row of a page; no row means it is deleted. */
  function ConvergeRow(w: World, scope: string, model: string, row: Row): Option<Row> {
    if row.model == model then Some(row.(scopeModelKey := Composite(scope, model)))
    else if row.objectId !in w.objects then None
    else if model == FALLBACK then Some(Reembedded(w, scope, model, row))
    else Some(row)
  }

  function ConvergeOne(w: World, scope: string, model: string, rows: Rows, id: RowId): Rows
    requires id in rows
  {
    match ConvergeRow(w, scope, model, rows[id])
    case Some(row) => rows[id := row]
    case None => rows - {id}
  }

  /** The rows after a whole page, each decided from what the page read. */
  function ConvergePage(w: World, scope: string, model: string, rows: Rows, page: seq<RowId>): (r: Rows)
    requires forall id :: id in page ==> id in rows
    requires forall i, j :: 0 <= i < j < |page| ==> page[i] != page[j]
    ensures forall id :: id !in page ==> (id in r <==> id in rows) && (id in rows ==> r[id] == rows[id])
    ensures forall id :: id in page ==> (id in r <==> ConvergeRow(w, scope, model, rows[id]).Some?)
    ensures forall id :: id in page && id in r ==> r[id] == ConvergeRow(w, scope, model, rows[id]).value
  {
    map id | id in rows && (id in page ==> ConvergeRow(w, scope, model, rows[id]).Some?) ::
      if id in page then ConvergeRow(w, scope, model, rows[id]).value else rows[id]
  }

  /** A row that waits for the provider. */
  predicate Schedules(w: World, model: string, row: Row) {
    row.model != model && row.objectId in w.objects && model != FALLBACK && w.objects[row.objectId].active
  }

  function EmbedOf(w: World, row: Row): Embed
    requires row.objectId in w.objects
  {
    Embed(w.objects[row.objectId].publicId, w.objects[row.objectId].revision)
  }

  /** The provider work a page schedules. */
  function PageWork(w: World, model: string, rows: Rows, page: seq<RowId>): seq<Embed>
    requires forall id :: id in page ==> id in rows
  {
    if page == [] then []
    else
      var row := rows[page[|page| - 1]];
      PageWork(w, model, rows, page[..|page| - 1])
      + if Schedules(w, model, row) then [EmbedOf(w, row)] else []
  }

  predicate Counts(w: World, model: string, row: Row) {
    row.model != model && row.objectId in w.objects && (model == FALLBACK || w.objects[row.objectId].active)
  }

  /** How many rows of a page are converged or on their way. */
  function PageCount(w: World, model: string, rows: Rows, page: seq<RowId>): nat
    requires forall id :: id in page ==> id in rows
  {
    if page == [] then 0
    else PageCount(w, model, rows, page[..|page| - 1]) + if Counts(w, model, rows[page[|page| - 1]]) then 1 else 0
  }

  // --------------------------------------------------------------- the whole pass

  /** The size of a page: any from one row to the batch limit. */
  function PageSize(choice: nat): nat {
    1 + choice % BATCH
  }

  datatype Migrated = Migrated(rows: Rows, work: seq<Embed>)

  lemma PageShrinks(w: World, scope: string, model: string, rows: Rows, cursor: Cursor, size: nat)
    requires size > 0 && Ahead(rows, scope, cursor) != {}
    ensures var page := Page(rows, scope, cursor, size);
            && (forall id :: id in page ==> id in rows)
            && (forall i, j :: 0 <= i < j < |page| ==> page[i] != page[j])
            && var rows', next := ConvergePage(w, scope, model, rows, page), CursorAfter(rows, page, cursor);
               var f, f' := Foreign(rows, scope, model, cursor), Foreign(rows', scope, model, next);
               |f'| < |f| || (|f'| == |f| && |Ahead(rows', scope, next)| < |Ahead(rows, scope, cursor)|)
  {
    hide Page, KeyLess, ConvergePage, Composite;
    var page := Page(rows, scope, cursor, size);
    PageIsStretch(rows, scope, cursor, size);
    var rows', next := ConvergePage(w, scope, model, rows, page), CursorAfter(rows, page, cursor);
    var f, f' := Foreign(rows, scope, model, cursor), Foreign(rows', scope, model, next);
    forall id | id in f' ensures id in f && id !in page {
    }
    SubsetSize(f', f);
    if f' == f {
      var a, a' := Ahead(rows, scope, cursor), Ahead(rows', scope, next);
      forall id | id in a' ensures id in a && id !in page {
        assert id in page ==> id !in f;
      }
      assert page[0] in page;
      ProperSubsetSize(a', a, page[0]);
    } else {
      var id :| id in f && id !in f';
      ProperSubsetSize(f', f, id);
    }
  }

  lemma ProperSubsetSize(a: set<RowId>, b: set<RowId>, x: RowId)
    requires a <= b && x in b && x !in a
    ensures |a| < |b|
  {
    SubsetSize(a + {x}, b);
  }

  // ------------------------------------------------------ writes of others between pages

  /** What others do to the table between two pages: a row put, or nothing in its place. */
  type Writes = map<RowId, Option<Row>>

  function Get(rows: Rows, id: RowId): Option<Row> {
    if id in rows then Some(rows[id]) else None
  }

  function Put(rows: Rows, writes: Writes): (r: Rows)
    ensures forall id :: Get(r, id) == if id in writes then writes[id] else Get(rows, id)
  {
    map id | id in rows.Keys + writes.Keys && (id in writes ==> writes[id].Some?) ::
      if id in writes then writes[id].value else rows[id]
  }

  function PutAll(rows: Rows, writes: seq<Writes>): Rows
    decreases |writes|
  {
    if writes == [] then rows else PutAll(Put(rows, writes[0]), writes[1..])
  }

  /** What the last of these writes left at a place, if any of them wrote there. */
  function LastWrite(writes: seq<Writes>, id: RowId): Option<Option<Row>>
    decreases |writes|
  {
    if writes == [] then None
    else if LastWrite(writes[1..], id).Some? then LastWrite(writes[1..], id)
    else if id in writes[0] then Some(writes[0][id])
    else None
  }

  predicate AtTarget(scope: string, model: string, row: Row) {
    row.model == model && row.scopeModelKey == Composite(scope, model)
  }

  /** Rows others put into the scope are at the target already: the provider's own results are. */
  predicate Benign(scope: string, model: string, writes: seq<Writes>) {
    forall i, id :: 0 <= i < |writes| && id in writes[i] && writes[i][id].Some? ==>
      writes[i][id].value.scope == scope ==> AtTarget(scope, model, writes[i][id].value)
  }

  /** The first batch of writes lands on the table, the others wait. */
  function Disturb(rows: Rows, writes: seq<Writes>): Rows {
    if writes == [] then rows else Put(rows, writes[0])
  }

  function Later(writes: seq<Writes>): seq<Writes> {
    if writes == [] then [] else writes[1..]
  }

  /** Runs the pass to its end, whatever page sizes the database chooses, whether or not it notices
      the end with the last row, and with any finite number of writes by others landing after its
      pages.  That this recursion is accepted is the proof that the pass terminates although it
      walks an index it rewrites.
   */
  ghost function Migrate(w: World, scope: string, model: string, rows: Rows, cursor: Cursor,
                         sizes: nat -> nat, sawEnd: nat -> bool, n: nat, writes: seq<Writes>): Migrated
    decreases |writes|, |Foreign(rows, scope, model, cursor)|, |Ahead(rows, scope, cursor)|
  {
    if Ahead(rows, scope, cursor) == {} then Migrated(PutAll(rows, writes), [])
    else
      PageShrinks(w, scope, model, rows, cursor, PageSize(sizes(n)));
      var page := Page(rows, scope, cursor, PageSize(sizes(n)));
      var rows', next := ConvergePage(w, scope, model, rows, page), CursorAfter(rows, page, cursor);
      var work := PageWork(w, model, rows, page);
      if sawEnd(n) && Ahead(rows, scope, next) == {} then Migrated(PutAll(rows', writes), work)
      else
        var rest := Migrate(w, scope, model, Disturb(rows', writes), next, sizes, sawEnd, n + 1, Later(writes));
        Migrated(rest.rows, work + rest.work)
  }

  // ------------------------------------------------------------- what it achieves

  /** What the pass owes a place of the table that nobody else writes: a row of the scope it has
      not reached is converged, and anything else is left alone.
   */
  function Owed(w: World, scope: string, model: string, rows: Rows, cursor: Cursor, id: RowId): Option<Row> {
    if id in Ahead(rows, scope, cursor) then ConvergeRow(w, scope, model, rows[id]) else Get(rows, id)
  }

  function Outcome(w: World, scope: string, model: string, rows: Rows, cursor: Cursor, writes: seq<Writes>,
                   id: RowId): Option<Row> {
    if LastWrite(writes, id).Some? then LastWrite(writes, id).value else Owed(w, scope, model, rows, cursor, id)
  }

  lemma ConvergeTwice(w: World, scope: string, model: string, row: Row)
    ensures var r := ConvergeRow(w, scope, model, row);
            r.Some? ==> ConvergeRow(w, scope, model, r.value) == r
    ensures AtTarget(scope, model, row) ==> ConvergeRow(w, scope, model, row) == Some(row)
  {
  }

  /** A page moves rows about in the index it walks, and yet owes every place what it owed before. */
  lemma PageOwes(w: World, scope: string, model: string, rows: Rows, cursor: Cursor, size: nat, id: RowId)
    requires size > 0 && Ahead(rows, scope, cursor) != {}
    ensures var page := Page(rows, scope, cursor, size);
            && (forall i :: i in page ==> i in rows)
            && (forall i, j :: 0 <= i < j < |page| ==> page[i] != page[j])
            && var rows', next := ConvergePage(w, scope, model, rows, page), CursorAfter(rows, page, cursor);
               && Owed(w, scope, model, rows', next, id) == Owed(w, scope, model, rows, cursor, id)
               && (Ahead(rows, scope, next) == {} ==> Get(rows', id) == Owed(w, scope, model, rows, cursor, id))
  {
    hide Page, KeyLess, ConvergePage, ConvergeRow;
    var page := Page(rows, scope, cursor, size);
    PageIsStretch(rows, scope, cursor, size);
    if id in page {
      ConvergeTwice(w, scope, model, rows[id]);
    }
  }

  lemma DisturbOwes(w: World, scope: string, model: string, rows: Rows, cursor: Cursor, writes: seq<Writes>, id: RowId)
    requires Benign(scope, model, writes)
    ensures Benign(scope, model, Later(writes))
    ensures Outcome(w, scope, model, Disturb(rows, writes), cursor, Later(writes), id)
         == Outcome(w, scope, model, rows, cursor, writes, id)
  {
    hide ConvergeRow, KeyLess, Put, AtTarget;
    if writes != [] {
      var after := Put(rows, writes[0]);
      assert Get(after, id) == if id in writes[0] then writes[0][id] else Get(rows, id);
      if id in writes[0] && id in after && after[id].scope == scope {
        ConvergeTwice(w, scope, model, after[id]);
      }
    }
  }

  lemma {:induction false} PutAllIs(rows: Rows, writes: seq<Writes>, id: RowId)
    ensures Get(PutAll(rows, writes), id)
         == if LastWrite(writes, id).Some? then LastWrite(writes, id).value else Get(rows, id)
    decreases |writes|
  {
    hide Put;
    if writes != [] {
      PutAllIs(Put(rows, writes[0]), writes[1..], id);
    }
  }

  lemma SizePositive(choice: nat)
    ensures 1 <= PageSize(choice) <= BATCH
  {
  }

  /** The pass, exactly: whatever the page sizes and the writes of others meanwhile, each place of
      the table ends with the last thing others put there, or else with its row converged if that
      was of the scope, and as it was if not.
   */
  lemma {:induction false} MigrationExactly(w: World, scope: string, model: string, rows: Rows, cursor: Cursor,
                                            sizes: nat -> nat, sawEnd: nat -> bool, n: nat,
                                            writes: seq<Writes>, id: RowId)
    requires Benign(scope, model, writes)
    ensures Get(Migrate(w, scope, model, rows, cursor, sizes, sawEnd, n, writes).rows, id)
         == Outcome(w, scope, model, rows, cursor, writes, id)
    decreases |writes|, |Foreign(rows, scope, model, cursor)|, |Ahead(rows, scope, cursor)|
  {
    hide Owed, Benign, ConvergePage, PageWork, Page, Past, ConvergeRow, CursorAfter, PageSize, PutAll, LastWrite, Get;
    if Ahead(rows, scope, cursor) == {} {
      PutAllIs(rows, writes, id);
      NothingOwed(w, scope, model, rows, cursor, id);
    } else {
      var size := PageSize(sizes(n));
      SizePositive(sizes(n));
      PageShrinks(w, scope, model, rows, cursor, size);
      PageOwes(w, scope, model, rows, cursor, size, id);
      var page := Page(rows, scope, cursor, size);
      var rows', next := ConvergePage(w, scope, model, rows, page), CursorAfter(rows, page, cursor);
      if sawEnd(n) && Ahead(rows, scope, next) == {} {
        PutAllIs(rows', writes, id);
      } else {
        DisturbOwes(w, scope, model, rows', next, writes, id);
        MigrationExactly(w, scope, model, Disturb(rows', writes), next, sizes, sawEnd, n + 1, Later(writes), id);
      }
    }
  }

  lemma NothingOwed(w: World, scope: string, model: string, rows: Rows, cursor: Cursor, id: RowId)
    requires Ahead(rows, scope, cursor) == {}
    ensures Owed(w, scope, model, rows, cursor, id) == Get(rows, id)
  {
  }

  /** An undisturbed pass with the scope at the fallback model: no row appears, rows of other scopes
      are left alone, exactly the orphans at another model go, and every other row of the scope ends
      at the fallback model under the scope's composite key, those from another model with their
      object's scope and revision and the vector of its text.
   */
  lemma MigrationConverges(w: World, scope: string, rows: Rows, sizes: nat -> nat, sawEnd: nat -> bool, id: RowId)
    ensures var after := Migrate(w, scope, FALLBACK, rows, None, sizes, sawEnd, 0, []).rows;
            && (id in after ==> id in rows && after[id].objectId == rows[id].objectId)
            && (id in rows && rows[id].scope != scope ==> id in after && after[id] == rows[id])
            && (id in rows && rows[id].scope == scope ==>
                  && (id in after <==> rows[id].model == FALLBACK || rows[id].objectId in w.objects)
                  && (id in after ==> AtTarget(scope, FALLBACK, after[id]))
                  && (id in after && rows[id].model == FALLBACK ==>
                        after[id] == rows[id].(scopeModelKey := Composite(scope, FALLBACK)))
                  && (id in after && rows[id].model != FALLBACK ==>
                        var source := w.objects[rows[id].objectId];
                        && after[id].scope == source.scope && after[id].contentRevision == source.revision
                        && after[id].vector == w.conceptVector(source.text) && after[id].provider == "overgent"))
  {
    hide Migrate, Composite;
    MigrationExactly(w, scope, FALLBACK, rows, None, sizes, sawEnd, 0, [], id);
  }

  // --------------------------------------------------------- the provider's share

  function Members(page: seq<RowId>): set<RowId> {
    set id | id in page
  }

  /** The rows among these for which the provider must embed exactly this. */
  function Due(w: World, model: string, rows: Rows, ids: set<RowId>, e: Embed): set<RowId> {
    set id | id in ids && id in rows && Schedules(w, model, rows[id]) && EmbedOf(w, rows[id]) == e
  }

  lemma {:induction false} PageWorkCounts(w: World, model: string, rows: Rows, page: seq<RowId>, e: Embed)
    requires forall id :: id in page ==> id in rows
    requires forall i, j :: 0 <= i < j < |page| ==> page[i] != page[j]
    ensures multiset(PageWork(w, model, rows, page))[e] == |Due(w, model, rows, Members(page), e)|
  {
    if page == [] {
      assert Due(w, model, rows, Members(page), e) == {};
    } else {
      hide EmbedOf, Due, Members, Schedules, PageWork;
      var front, last := page[..|page| - 1], page[|page| - 1];
      PageWorkCounts(w, model, rows, front, e);
      PageWorkStep(w, model, rows, page);
      DueSnoc(w, model, rows, page, e);
      if Schedules(w, model, rows[last]) {
        SchedulesLive(w, model, rows[last]);
        CountLast(PageWork(w, model, rows, front), EmbedOf(w, rows[last]), e);
      }
    }
  }

  lemma SchedulesLive(w: World, model: string, row: Row)
    requires Schedules(w, model, row)
    ensures row.objectId in w.objects
  {
  }

  lemma DueSnoc(w: World, model: string, rows: Rows, page: seq<RowId>, e: Embed)
    requires page != [] && forall id :: id in page ==> id in rows
    requires forall i, j :: 0 <= i < j < |page| ==> page[i] != page[j]
    ensures var front, last := page[..|page| - 1], page[|page| - 1];
            |Due(w, model, rows, Members(page), e)|
            == |Due(w, model, rows, Members(front), e)|
               + if Schedules(w, model, rows[last]) && EmbedOf(w, rows[last]) == e then 1 else 0
  {
    hide EmbedOf;
    var front, last := page[..|page| - 1], page[|page| - 1];
    assert page == front + [last] && last !in front;
    var before, now := Due(w, model, rows, Members(front), e), Due(w, model, rows, Members(page), e);
    if Schedules(w, model, rows[last]) && EmbedOf(w, rows[last]) == e {
      assert now == before + {last};
    } else {
      assert now == before;
    }
  }

  /** A page and what is ahead of it afterwards split what was ahead of it before. */
  lemma DueSplits(w: World, scope: string, model: string, rows: Rows, cursor: Cursor, size: nat, e: Embed)
    requires size > 0 && Ahead(rows, scope, cursor) != {}
    ensures var page := Page(rows, scope, cursor, size);
            && (forall i :: i in page ==> i in rows)
            && (forall i, j :: 0 <= i < j < |page| ==> page[i] != page[j])
            && var rows', next := ConvergePage(w, scope, model, rows, page), CursorAfter(rows, page, cursor);
               && |Due(w, model, rows, Ahead(rows, scope, cursor), e)|
                  == multiset(PageWork(w, model, rows, page))[e] + |Due(w, model, rows', Ahead(rows', scope, next), e)|
               && (Ahead(rows, scope, next) == {} ==> Due(w, model, rows', Ahead(rows', scope, next), e) == {})
  {
    hide Page, KeyLess, ConvergePage, PageWork, EmbedOf, Composite;
    var page := Page(rows, scope, cursor, size);
    PageIsStretch(rows, scope, cursor, size);
    PageWorkCounts(w, model, rows, page, e);
    var rows', next := ConvergePage(w, scope, model, rows, page), CursorAfter(rows, page, cursor);
    var all := Due(w, model, rows, Ahead(rows, scope, cursor), e);
    var here, rest := Due(w, model, rows, Members(page), e), Due(w, model, rows', Ahead(rows', scope, next), e);
    forall id ensures id in all <==> id in here || id in rest
              ensures !(id in here && id in rest)
    {
      DueOnce(w, scope, model, rows, cursor, size, e, id);
    }
    assert all == here + rest && here !! rest;
  }

  lemma DueOnce(w: World, scope: string, model: string, rows: Rows, cursor: Cursor, size: nat, e: Embed, id: RowId)
    requires size > 0 && Ahead(rows, scope, cursor) != {}
    ensures var page := Page(rows, scope, cursor, size);
            && (forall i :: i in page ==> i in rows)
            && (forall i, j :: 0 <= i < j < |page| ==> page[i] != page[j])
            && var rows', next := ConvergePage(w, scope, model, rows, page), CursorAfter(rows, page, cursor);
               var here := Due(w, model, rows, Members(page), e);
               var rest := Due(w, model, rows', Ahead(rows', scope, next), e);
               && (id in Due(w, model, rows, Ahead(rows, scope, cursor), e) <==> id in here || id in rest)
               && !(id in here && id in rest)
               && (id in rest ==> id in Ahead(rows, scope, next))
  {
    hide Page, KeyLess, ConvergePage, EmbedOf, Composite;
    PageIsStretch(rows, scope, cursor, size);
  }

  /** The undisturbed pass asks the provider for each embedding exactly as often as there are live,
      active rows of the scope at another model that need it: no row is missed or asked for twice.
   */
  lemma {:induction false} WorkExactly(w: World, scope: string, model: string, rows: Rows, cursor: Cursor,
                                       sizes: nat -> nat, sawEnd: nat -> bool, n: nat, e: Embed)
    ensures multiset(Migrate(w, scope, model, rows, cursor, sizes, sawEnd, n, []).work)[e]
         == |Due(w, model, rows, Ahead(rows, scope, cursor), e)|
    decreases |Foreign(rows, scope, model, cursor)|, |Ahead(rows, scope, cursor)|
  {
    hide Due, ConvergePage, PageWork, Page, Past, ConvergeRow, CursorAfter, PageSize, PutAll;
    if Ahead(rows, scope, cursor) == {} {
      NothingDue(w, model, rows, e);
    } else {
      var size := PageSize(sizes(n));
      SizePositive(sizes(n));
      PageShrinks(w, scope, model, rows, cursor, size);
      DueSplits(w, scope, model, rows, cursor, size, e);
      var page := Page(rows, scope, cursor, size);
      var rows', next := ConvergePage(w, scope, model, rows, page), CursorAfter(rows, page, cursor);
      if !(sawEnd(n) && Ahead(rows, scope, next) == {}) {
        WorkExactly(w, scope, model, rows', next, sizes, sawEnd, n + 1, e);
        var work := PageWork(w, model, rows, page);
        var rest := Migrate(w, scope, model, rows', next, sizes, sawEnd, n + 1, []).work;
        assert multiset(work + rest) == multiset(work) + multiset(rest);
      }
    }
  }

  lemma NothingDue(w: World, model: string, rows: Rows, e: Embed)
    ensures Due(w, model, rows, {}, e) == {}
  {
  }

  // ------------------------------------------------------------------- stray keys

  /** A re-embedded row takes its object's scope but the pass's composite key, so its key matches
      its own scope exactly when its object still belongs to the scope being converged.
   */
  lemma KeyMatchesExactlyWhen(w: World, scope: string, row: Row)
    requires row.model != FALLBACK && row.objectId in w.objects
    ensures var r := ConvergeRow(w, scope, FALLBACK, row).value;
            r.scopeModelKey == Composite(r.scope, r.model) <==> w.objects[row.objectId].scope == scope
  {
    var own := w.objects[row.objectId].scope;
    if ScopeModelKey(scope, FALLBACK) == ScopeModelKey(own, FALLBACK) {
      ScopeModelKeyInjective(scope, FALLBACK, own, FALLBACK);
    }
  }

  /** Some row of the scope at another model belongs to an object that lives in another scope. */
  ghost predicate Stray(w: World, scope: string, rows: Rows, id: RowId) {
    && id in rows && rows[id].scope == scope && rows[id].model != FALLBACK
    && rows[id].objectId in w.objects && w.objects[rows[id].objectId].scope != scope
  }

  predicate KeyIsOwn(row: Row) {
    row.model == FALLBACK && row.scopeModelKey == Composite(row.scope, FALLBACK)
  }

  /** So the whole pass leaves every row that began in the scope at the fallback model under the key
      of its own scope exactly when no row at another model has its live object elsewhere.
   */
  lemma PassKeysMatchExactlyWhen(w: World, scope: string, rows: Rows, sizes: nat -> nat, sawEnd: nat -> bool)
    ensures var after := Migrate(w, scope, FALLBACK, rows, None, sizes, sawEnd, 0, []).rows;
            (forall id :: id in rows && rows[id].scope == scope && id in after ==> KeyIsOwn(after[id]))
            <==> !(exists id :: Stray(w, scope, rows, id))
  {
    hide Migrate, Composite, ScopeModelKey;
    var after := Migrate(w, scope, FALLBACK, rows, None, sizes, sawEnd, 0, []).rows;
    forall id | id in rows && rows[id].scope == scope
      ensures Stray(w, scope, rows, id) ==> id in after
      ensures id in after ==> (KeyIsOwn(after[id]) <==> !Stray(w, scope, rows, id))
    {
      MigrationExactly(w, scope, FALLBACK, rows, None, sizes, sawEnd, 0, [], id);
      if rows[id].model != FALLBACK && rows[id].objectId in w.objects {
        KeyMatchesExactlyWhen(w, scope, rows[id]);
      }
    }
  }

  /** A row whose object moved to another scope ends under a key of the scope it left. */
  lemma StrayKey()
    ensures var w := World(map[1 := Object("obj", "b", "", 1, true)], _ => []);
            var row := Row(1, "a", None, "openai", "m", 1, []);
            var r := ConvergeRow(w, "a", FALLBACK, row).value;
            r.scope == "b" && r.scopeModelKey != Composite(r.scope, r.model)
  {
    var w := World(map[1 := Object("obj", "b", "", 1, true)], _ => []);
    KeyMatchesExactlyWhen(w, "a", Row(1, "a", None, "openai", "m", 1, []));
    assert "a"[0] != "b"[0];
  }

  // --------------------------------------------------------- one page, as it runs

  lemma PageStep(w: World, scope: string, model: string, rows: Rows, page: seq<RowId>, i: nat)
    requires i < |page| && forall id :: id in page ==> id in rows
    requires forall j, k :: 0 <= j < k < |page| ==> page[j] != page[k]
    ensures page[i] in ConvergePage(w, scope, model, rows, page[..i])
    ensures ConvergePage(w, scope, model, rows, page[..i + 1])
         == ConvergeOne(w, scope, model, ConvergePage(w, scope, model, rows, page[..i]), page[i])
    ensures PageCount(w, model, rows, page[..i + 1])
         == PageCount(w, model, rows, page[..i]) + if Counts(w, model, rows[page[i]]) then 1 else 0
    ensures var row := rows[page[i]];
            PageWork(w, model, rows, page[..i + 1])
            == PageWork(w, model, rows, page[..i])
               + if Schedules(w, model, row) then [EmbedOf(w, row)] else []
  {
    hide ConvergePage, ConvergeRow, PageWork, PageCount, Counts, Schedules;
    assert page[..i + 1][..i] == page[..i] && page[..i + 1] == page[..i] + [page[i]];
    PageWorkStep(w, model, rows, page[..i + 1]);
    ConvergeStep(w, scope, model, rows, page[..i], page[i]);
  }

  lemma ConvergeStep(w: World, scope: string, model: string, rows: Rows, page: seq<RowId>, last: RowId)
    requires (forall id :: id in page ==> id in rows) && last in rows && last !in page
    requires forall j, k :: 0 <= j < k < |page| ==> page[j] != page[k]
    ensures last in ConvergePage(w, scope, model, rows, page)
    ensures ConvergePage(w, scope, model, rows, page + [last])
         == ConvergeOne(w, scope, model, ConvergePage(w, scope, model, rows, page), last)
  {
    hide ConvergePage, ConvergeRow;
    var before, after := ConvergePage(w, scope, model, rows, page), ConvergePage(w, scope, model, rows, page + [last]);
    var one := ConvergeOne(w, scope, model, before, last);
    assert forall id :: id in page + [last] <==> id in page || id == last;
    forall id ensures Get(after, id) == Get(one, id) {
      if id != last && id !in page {
        assert id !in page + [last];
      }
    }
    SameRows(after, one);
  }

  lemma PageWorkStep(w: World, model: string, rows: Rows, page: seq<RowId>)
    requires page != [] && forall id :: id in page ==> id in rows
    ensures var front, row := page[..|page| - 1], rows[page[|page| - 1]];
            && PageCount(w, model, rows, page)
                 == PageCount(w, model, rows, front) + (if Counts(w, model, row) then 1 else 0)
            && PageWork(w, model, rows, page)
               == PageWork(w, model, rows, front) + if Schedules(w, model, row) then [EmbedOf(w, row)] else []
  {
  }

  lemma SameRows(a: Rows, b: Rows)
    requires forall id :: Get(a, id) == Get(b, id)
    ensures a == b
  {
    forall id ensures id in a <==> id in b ensures id in a ==> a[id] == b[id] {
      assert Get(a, id) == Get(b, id);
    }
  }

  lemma PageDone(w: World, scope: string, model: string, rows: Rows)
    ensures ConvergePage(w, scope, model, rows, []) == rows
    ensures PageWork(w, model, rows, []) == [] && PageCount(w, model, rows, []) == 0
  {
    hide ConvergePage, ConvergeRow;
    SameRows(ConvergePage(w, scope, model, rows, []), rows);
  }

  datatype PageTask = PageTask(scope: string, model: string, cursor: Cursor)

  class EmbeddingStore {
    var rows: Rows
    var scopeModels: map<string, string>
    var embeds: seq<Embed>
    var tasks: seq<PageTask>
    const world: World

    constructor (world: World)
      ensures this.world == world && rows == map[] && scopeModels == map[] && embeds == [] && tasks == []
    {
      this.world := world;
      rows, scopeModels, embeds, tasks := map[], map[], [], [];
    }

    /** Decides one row, and says whether it counts as converged. */
    method ConvergeEmbedding(scope: string, model: string, id: RowId) returns (counted: bool)
      requires id in rows
      modifies this
      ensures scopeModels == old(scopeModels) && tasks == old(tasks)
      ensures rows == ConvergeOne(world, scope, model, old(rows), id)
      ensures counted == Counts(world, model, old(rows[id]))
      ensures var row := old(rows[id]);
              embeds == old(embeds) + if Schedules(world, model, row) then [EmbedOf(world, row)] else []
    {
      var row := rows[id];
      var composite := ScopeModelKey(scope, model);
      counted := false;
      if row.model == model {
        if row.scopeModelKey != Some(composite) {
          rows := rows[id := row.(scopeModelKey := Some(composite))];
        } else {
          assert rows[id := row] == rows;
        }
      } else if row.objectId !in world.objects {
        rows := rows - {id};
      } else if model == FALLBACK {
        rows := rows[id := Reembedded(world, scope, model, row)];
        counted := true;
      } else {
        assert rows[id := row] == rows;
        var source := world.objects[row.objectId];
        if source.active {
          embeds := embeds + [Embed(source.publicId, source.revision)];
          counted := true;
        }
      }
    }

    /** Converges one page and queues the next; a page queued for a superseded model changes nothing. */
    method Converge(task: PageTask, page: seq<RowId>, isDone: bool) returns (converged: nat)
      requires forall id :: id in page ==> id in rows
      requires forall i, j :: 0 <= i < j < |page| ==> page[i] != page[j]
      modifies this
      ensures scopeModels == old(scopeModels)
      ensures var PageTask(scope, model, cursor) := task;
              if scope in scopeModels && scopeModels[scope] == model then
                && rows == ConvergePage(world, scope, model, old(rows), page)
                && embeds == old(embeds) + PageWork(world, model, old(rows), page)
                && converged == PageCount(world, model, old(rows), page)
                && tasks == old(tasks) + (if isDone then []
                                          else [PageTask(scope, model, CursorAfter(old(rows), page, cursor))])
              else
                converged == 0 && rows == old(rows) && embeds == old(embeds) && tasks == old(tasks)
    {
      hide ConvergePage, PageWork, PageCount, ConvergeRow;
      converged := 0;
      var PageTask(scope, model, cursor) := task;
      if scope !in scopeModels || scopeModels[scope] != model {
        return;
      }
      ghost var read := rows;
      var next := CursorAfter(rows, page, cursor);
      PageDone(world, scope, model, rows);
      for i := 0 to |page|
        invariant scopeModels == old(scopeModels) && tasks == old(tasks)
        invariant forall j :: i <= j < |page| ==> page[j] in rows && rows[page[j]] == read[page[j]]
        invariant rows == ConvergePage(world, scope, model, read, page[..i])
        invariant embeds == old(embeds) + PageWork(world, model, read, page[..i])
        invariant converged == PageCount(world, model, read, page[..i])
      {
        PageStep(world, scope, model, read, page, i);
        var counted := ConvergeEmbedding(scope, model, page[i]);
        converged := converged + if counted then 1 else 0;
      }
      assert page[..|page|] == page;
      if !isDone {
        tasks := tasks + [PageTask(scope, model, next)];
      }
    }
  }
}
