/** What the migration does to each row and asks of the provider, told from the row and its object. */
module EmbeddingRows {
  import opened EmbeddingMigration
  import opened EmbeddingSwitches
  import opened Collections

  /** A row that only the provider can bring to the model, and the object it needs is live. */
  predicate NeedsProvider(w: World, model: string, row: Row) {
    && row.model != model && model != "overgent-concepts/v1/1024"
    && row.objectId in w.objects && w.objects[row.objectId].active
  }

  /** The embedding of a row's object at the revision the object has now. */
  predicate Wants(w: World, row: Row, publicId: string, revision: nat) {
    && row.objectId in w.objects
    && w.objects[row.objectId].publicId == publicId && w.objects[row.objectId].revision == revision
  }

  /** One row's turn: at the model already, orphaned, converged in place, or left to the provider. */
  predicate Turned(w: World, scope: string, model: string, row: Row, after: Option<Row>) {
    var key := Some(Decimal(|scope|) + ":" + scope + model);
    if row.model == model then
      after == Some(Row(row.objectId, row.scope, key, row.provider, model, row.contentRevision, row.vector))
    else if row.objectId !in w.objects then after == None
    else if model == "overgent-concepts/v1/1024" then
      var source := w.objects[row.objectId];
      after == Some(Row(row.objectId, source.scope, key, "overgent", model, source.revision,
                        w.conceptVector(source.text)))
    else after == Some(row)
  }

  // ------------------------------------------------------------------ one page

  lemma RowTurned(w: World, scope: string, model: string, row: Row)
    ensures Turned(w, scope, model, row, ConvergeRow(w, scope, model, row))
  {
  }

  lemma RowAsks(w: World, model: string, row: Row)
    ensures Schedules(w, model, row) <==> NeedsProvider(w, model, row)
    ensures Counts(w, model, row) <==>
      row.model != model && row.objectId in w.objects
      && (w.objects[row.objectId].active || model == "overgent-concepts/v1/1024")
    ensures forall p, r :: row.objectId in w.objects ==> (EmbedOf(w, row) == Embed(p, r) <==> Wants(w, row, p, r))
  {
  }

  /** A page turns its rows and no others; its work lists, in the page's order, what its rows need of
      the provider; and it counts the rows it converged or asked for.
   */
  lemma {:induction false} PageTold(w: World, scope: string, model: string, rows: Rows, page: seq<RowId>)
    requires forall id :: id in page ==> id in rows
    requires forall i, j :: 0 <= i < j < |page| ==> page[i] != page[j]
    ensures var after := ConvergePage(w, scope, model, rows, page);
            && (forall id :: id !in page ==> Get(after, id) == Get(rows, id))
            && (forall id :: id in page ==> Turned(w, scope, model, rows[id], Get(after, id)))
    ensures var needy := Filter(page, (id: RowId) => id in rows && NeedsProvider(w, model, rows[id]));
            var work := PageWork(w, model, rows, page);
            && |work| == |needy|
            && forall i :: 0 <= i < |work| ==>
                 needy[i] in rows && Wants(w, rows[needy[i]], work[i].publicId, work[i].expectedRevision)
    ensures PageCount(w, model, rows, page)
         == if model != "overgent-concepts/v1/1024" then |PageWork(w, model, rows, page)|
            else |Filter(page, (id: RowId) =>
                    id in rows && rows[id].model != model && rows[id].objectId in w.objects)|
  {
    hide ConvergeRow, NeedsProvider, Wants, Turned, Schedules, EmbedOf, Counts;
    forall id | id in page
      ensures Turned(w, scope, model, rows[id], Get(ConvergePage(w, scope, model, rows, page), id))
    {
      RowTurned(w, scope, model, rows[id]);
    }
    WorkInOrder(w, model, rows, page);
  }

  lemma {:induction false} WorkInOrder(w: World, model: string, rows: Rows, page: seq<RowId>)
    requires forall id :: id in page ==> id in rows
    ensures var needy := Filter(page, (id: RowId) => id in rows && NeedsProvider(w, model, rows[id]));
            var work := PageWork(w, model, rows, page);
            && |work| == |needy|
            && forall i :: 0 <= i < |work| ==>
                 needy[i] in rows && Wants(w, rows[needy[i]], work[i].publicId, work[i].expectedRevision)
    ensures PageCount(w, model, rows, page)
         == if model != "overgent-concepts/v1/1024" then |PageWork(w, model, rows, page)|
            else |Filter(page, (id: RowId) =>
                    id in rows && rows[id].model != model && rows[id].objectId in w.objects)|
  {
    var keep := (id: RowId) => id in rows && NeedsProvider(w, model, rows[id]);
    var moved := (id: RowId) => id in rows && rows[id].model != model && rows[id].objectId in w.objects;
    if page == [] {
      FilterNone(keep);
      FilterNone(moved);
    } else {
      hide NeedsProvider, Wants, Schedules, EmbedOf, Counts, PageWork, PageCount, Filter;
      var n := |page| - 1;
      assert page[..n + 1] == page;
      FilterSnoc(page, n, keep);
      FilterSnoc(page, n, moved);
      WorkInOrder(w, model, rows, page[..n]);
      PageWorkStep(w, model, rows, page);
      RowAsks(w, model, rows[page[n]]);
      AskedIsWanted(w, model, rows[page[n]]);
    }
  }

  lemma AskedIsWanted(w: World, model: string, row: Row)
    ensures Schedules(w, model, row) ==>
      && row.objectId in w.objects
      && Wants(w, row, EmbedOf(w, row).publicId, EmbedOf(w, row).expectedRevision)
    ensures model != FALLBACK ==> (Schedules(w, model, row) <==> Counts(w, model, row))
  {
  }

  // ------------------------------------------------------------------ a whole pass

  /** What an undisturbed pass leaves in each place: nothing new, rows of other scopes as they were,
      and every row of the scope turned once.
   */
  lemma PassTold(w: World, scope: string, model: string, rows: Rows, sizes: nat -> nat, sawEnd: nat -> bool, id: RowId)
    ensures var after := Migrate(w, scope, model, rows, None, sizes, sawEnd, 0, []).rows;
            if id in rows && rows[id].scope == scope then Turned(w, scope, model, rows[id], Get(after, id))
            else Get(after, id) == Get(rows, id)
  {
    hide Migrate, ConvergeRow, Turned;
    MigrationExactly(w, scope, model, rows, None, sizes, sawEnd, 0, [], id);
    if id in rows {
      RowTurned(w, scope, model, rows[id]);
    }
  }

  /** The rows of a scope that wait for this embedding of their object. */
  function Waiting(w: World, scope: string, model: string, rows: Rows, publicId: string, revision: nat): set<RowId> {
    set id | id in rows && rows[id].scope == scope && NeedsProvider(w, model, rows[id])
             && Wants(w, rows[id], publicId, revision)
  }

  /** An undisturbed pass asks for an embedding once for each row that waits for it; with the fallback
      model it asks for none.
   */
  lemma PassAsks(w: World, scope: string, model: string, rows: Rows, sizes: nat -> nat, sawEnd: nat -> bool,
                 publicId: string, revision: nat)
    ensures var work := Migrate(w, scope, model, rows, None, sizes, sawEnd, 0, []).work;
            && multiset(work)[Embed(publicId, revision)] == |Waiting(w, scope, model, rows, publicId, revision)|
            && (model == "overgent-concepts/v1/1024" ==> work == [])
  {
    hide Migrate, Schedules, EmbedOf, Wants;
    var work := Migrate(w, scope, model, rows, None, sizes, sawEnd, 0, []).work;
    forall e: Embed ensures multiset(work)[e] == |Waiting(w, scope, model, rows, e.publicId, e.expectedRevision)| {
      WorkExactly(w, scope, model, rows, None, sizes, sawEnd, 0, e);
      var due := Due(w, model, rows, Ahead(rows, scope, None), e);
      var waiting := Waiting(w, scope, model, rows, e.publicId, e.expectedRevision);
      forall id ensures id in due <==> id in waiting {
        if id in rows {
          RowAsks(w, model, rows[id]);
          assert Embed(e.publicId, e.expectedRevision) == e;
        }
      }
      assert due == waiting;
    }
    var asked := Embed(publicId, revision);
    assert multiset(work)[asked] == |Waiting(w, scope, model, rows, asked.publicId, asked.expectedRevision)|;
    forall e: Embed ensures model == "overgent-concepts/v1/1024" ==> multiset(work)[e] == 0 {
      var waiting := Waiting(w, scope, model, rows, e.publicId, e.expectedRevision);
      assert model == "overgent-concepts/v1/1024" ==> waiting == {};
    }
    EmptyOrCounted(work);
  }

  lemma EmptyOrCounted(work: seq<Embed>)
    ensures work == [] || exists e :: multiset(work)[e] > 0
  {
    if work != [] {
      assert multiset(work)[work[0]] > 0;
    }
  }

  // ------------------------------------------------------------------ many passes

  /** What a page of a run found for this row: at another model, its object existing, and this asked
      of the provider if the object was active.
   */
  ghost predicate AskedBy(scope: string, s: State, a: Act, id: RowId, asked: Option<Embed>) {
    && a.Run? && id in s.rows && s.rows[id].model != s.model && s.model != "overgent-concepts/v1/1024"
    && s.rows[id].objectId in a.world.objects
    && var source := a.world.objects[s.rows[id].objectId];
       asked == if source.active then Some(Embed(source.publicId, source.revision)) else None
  }

  lemma StepAsks(scope: string, s: State, a: Act, id: RowId)
    ensures var t := Next(scope, s, a);
            id in t.asked ==> (id in s.asked && t.asked[id] == s.asked[id]) || AskedBy(scope, s, a, id, t.asked[id])
  {
    hide Page, ConvergePage, PageWork, PageSize, Ahead;
    if a.Run? && a.k < |s.passes| && !s.passes[a.k].done && s.passes[a.k].model == s.model {
      var page := Page(s.rows, scope, s.passes[a.k].cursor, PageSize(a.choice));
      PageIsStretch(s.rows, scope, s.passes[a.k].cursor, PageSize(a.choice));
      assert Next(scope, s, a).asked == s.asked + Asked(a.world, s.model, s.rows, page);
      if id in Asked(a.world, s.model, s.rows, page) {
        RowAsks(a.world, s.model, s.rows[id]);
      }
    }
  }

  /** Over every run, whatever stands as asked for a row was asked by a page that met the row at another
      model, for the object as it was then, or was there from the start.
   */
  lemma {:induction false} AskedOfObjects(scope: string, s: State, acts: seq<Act>, id: RowId)
    ensures var t := Play(scope, s, acts);
            id in t.asked ==>
              || (id in s.asked && t.asked[id] == s.asked[id])
              || exists j :: 0 <= j < |acts| && AskedBy(scope, Play(scope, s, acts[..j]), acts[j], id, t.asked[id])
    decreases |acts|
  {
    if acts != [] {
      hide Next, AskedBy;
      var s1, rest := Next(scope, s, acts[0]), acts[1..];
      var t := Play(scope, s, acts);
      StepAsks(scope, s, acts[0], id);
      AskedOfObjects(scope, s1, rest, id);
      if id in t.asked {
        if id in s1.asked && t.asked[id] == s1.asked[id] {
          assert Play(scope, s, acts[..0]) == s;
        } else {
          var j :| 0 <= j < |rest| && AskedBy(scope, Play(scope, s1, rest[..j]), rest[j], id, t.asked[id]);
          assert acts[..j + 1][1..] == rest[..j] && acts[j + 1] == rest[j];
          assert Play(scope, s, acts[..j + 1]) == Play(scope, s1, rest[..j]);
        }
      }
    }
  }

  /** The length prefix, spelled out. */
  lemma KeyExample()
    ensures ScopeModelKey("repo", "text-v3") == "4:repotext-v3"
    ensures forall scope: string, model: string :: |scope| == 12 ==>
      ScopeModelKey(scope, model) == "12:" + scope + model
  {
    assert Decimal(1) == "1";
  }
}
