/** Passes overtaken by switches of model: stale pages, pages of several passes, and writes between. */
module EmbeddingSwitches {
  import opened EmbeddingMigration
  import opened Collections

  // A switch of model does not stop the passes under way, and a scope may be switched away from a
  // model and back, after which pages queued for its first time pass the guard again. What matters is
  // the pass begun since the last switch: once that one ends, the scope has converged.

  /** A pass: the model it was begun for, how far it has come, and whether its last page has run. */
  datatype Pass = Pass(model: string, cursor: Cursor, done: bool)

  /** `asked` records, for each row the current model's pages left to the provider, what they asked. */
  datatype State = State(rows: Rows, model: string, passes: seq<Pass>, work: seq<Embed>,
                         asked: map<RowId, Option<Embed>>)

  /** Each page reads the objects as they are then. */
  datatype Act =
    | Switch(model: string)
    | Begin(model: string)
    | Run(k: nat, world: World, choice: nat, sawEnd: bool)
    | Write(writes: Writes)

  /** The rows of a page that stay at another model because only the provider can converge them. */
  function Left(w: World, model: string, rows: Rows, page: seq<RowId>): set<RowId>
    requires forall id :: id in page ==> id in rows
  {
    set id | id in page && rows[id].model != model && rows[id].objectId in w.objects && model != FALLBACK
  }

  function Asked(w: World, model: string, rows: Rows, page: seq<RowId>): map<RowId, Option<Embed>>
    requires forall id :: id in page ==> id in rows
  {
    map id | id in Left(w, model, rows, page) ::
      if Schedules(w, model, rows[id]) then Some(EmbedOf(w, rows[id])) else None
  }

  ghost function RunPage(scope: string, s: State, k: nat, w: World, choice: nat, sawEnd: bool): State
    requires k < |s.passes|
  {
    var p := s.passes[k];
    var page := Page(s.rows, scope, p.cursor, PageSize(choice));
    PageIsStretch(s.rows, scope, p.cursor, PageSize(choice));
    var next := CursorAfter(s.rows, page, p.cursor);
    var done := Ahead(s.rows, scope, p.cursor) == {} || (sawEnd && Ahead(s.rows, scope, next) == {});
    State(ConvergePage(w, scope, s.model, s.rows, page), s.model, s.passes[k := Pass(p.model, next, done)],
          s.work + PageWork(w, s.model, s.rows, page), s.asked + Asked(w, s.model, s.rows, page))
  }

  ghost function Next(scope: string, s: State, a: Act): State {
    match a
    case Switch(model) => if model == s.model then s else s.(model := model, asked := map[])
    case Begin(model) => s.(passes := s.passes + [Pass(model, None, false)])
    case Run(k, w, choice, sawEnd) =>
      if k >= |s.passes| || s.passes[k].done then s
      else if s.passes[k].model != s.model then s.(passes := s.passes[k := s.passes[k].(done := true)])
      else RunPage(scope, s, k, w, choice, sawEnd)
    case Write(writes) => s.(rows := Put(s.rows, writes))
  }

  ghost function Play(scope: string, s: State, acts: seq<Act>): State
    decreases |acts|
  {
    if acts == [] then s else Play(scope, Next(scope, s, acts[0]), acts[1..])
  }

  // ------------------------------------------------------------------------ safety

  /** A row is at the target, or the provider was asked for it if its object was active. */
  predicate Handled(scope: string, s: State, id: RowId)
    requires id in s.rows
  {
    AtTarget(scope, s.model, s.rows[id]) || (s.model != FALLBACK && id in s.asked)
  }

  ghost predicate Converged(scope: string, s: State) {
    forall id :: id in s.rows && s.rows[id].scope == scope ==> Handled(scope, s, id)
  }

  /** Whatever the provider was asked is among the work scheduled. */
  predicate AskedIsScheduled(s: State) {
    forall id :: id in s.asked && s.asked[id].Some? ==> s.asked[id].value in s.work
  }

  /** Pass k belongs to the current model and has everything behind it handled. */
  ghost predicate OnCourse(scope: string, s: State, k: nat) {
    && k < |s.passes| && s.passes[k].model == s.model && AskedIsScheduled(s)
    && (forall id :: id in s.rows && s.rows[id].scope == scope && !Past(s.passes[k].cursor, KeyOf(s.rows, id)) ==>
          Handled(scope, s, id))
    && (s.passes[k].done ==> Converged(scope, s))
  }

  predicate Harmless(scope: string, model: string, a: Act) {
    !a.Switch? && (a.Write? ==> Benign(scope, model, [a.writes]))
  }

  lemma WriteKeeps(scope: string, s: State, k: nat, writes: Writes)
    requires OnCourse(scope, s, k) && Benign(scope, s.model, [writes])
    ensures OnCourse(scope, Next(scope, s, Write(writes)), k)
  {
    hide Put, AtTarget, KeyLess;
    var after := Next(scope, s, Write(writes));
    forall id | id in after.rows && after.rows[id].scope == scope
      ensures id in writes ==> Handled(scope, after, id)
      ensures id !in writes ==> id in s.rows && after.rows[id] == s.rows[id]
    {
      assert Get(after.rows, id) == if id in writes then writes[id] else Get(s.rows, id);
      if id in writes {
        assert id in [writes][0] && [writes][0][id].Some?;
      }
    }
  }

  lemma {:induction false} PageWorkHas(w: World, model: string, rows: Rows, page: seq<RowId>, id: RowId)
    requires forall i :: i in page ==> i in rows
    requires id in page && Schedules(w, model, rows[id])
    ensures EmbedOf(w, rows[id]) in PageWork(w, model, rows, page)
  {
    hide EmbedOf, Schedules;
    var front := page[..|page| - 1];
    assert page == front + [page[|page| - 1]];
    if id in front {
      PageWorkHas(w, model, rows, front, id);
    }
  }

  /** What one page leaves of a row: at the target, asked for, or as it was. */
  lemma PageLeaves(w: World, scope: string, model: string, rows: Rows, page: seq<RowId>, id: RowId)
    requires forall i :: i in page ==> i in rows
    requires forall i, j :: 0 <= i < j < |page| ==> page[i] != page[j]
    ensures var after := ConvergePage(w, scope, model, rows, page);
            id in after ==>
              && id in rows
              && (id !in page ==> after[id] == rows[id])
              && (id in page ==> AtTarget(scope, model, after[id]) || id in Left(w, model, rows, page))
  {
    hide ConvergePage, Composite;
  }

  lemma AskedKeeps(scope: string, s: State, k: nat, w: World, choice: nat, sawEnd: bool)
    requires k < |s.passes| && AskedIsScheduled(s)
    ensures AskedIsScheduled(RunPage(scope, s, k, w, choice, sawEnd))
  {
    hide Page, ConvergePage, PageWork, EmbedOf, KeyLess, PageSize;
    var page := Page(s.rows, scope, s.passes[k].cursor, PageSize(choice));
    PageIsStretch(s.rows, scope, s.passes[k].cursor, PageSize(choice));
    var after := RunPage(scope, s, k, w, choice, sawEnd);
    forall id | id in after.asked && after.asked[id].Some? ensures after.asked[id].value in after.work {
      if id in Left(w, s.model, s.rows, page) {
        PageWorkHas(w, s.model, s.rows, page, id);
      }
    }
  }

  /** A page of any pass of the current model keeps what any pass has behind it handled. */
  lemma RunKeeps(scope: string, s: State, k: nat, j: nat, w: World, choice: nat, sawEnd: bool)
    requires OnCourse(scope, s, k) && j < |s.passes| && !s.passes[j].done && s.passes[j].model == s.model
    ensures OnCourse(scope, RunPage(scope, s, j, w, choice, sawEnd), k)
  {
    hide Page, ConvergePage, PageWork, EmbedOf, KeyLess, PageSize, AtTarget, AskedIsScheduled;
    var p := s.passes[j];
    var page := Page(s.rows, scope, p.cursor, PageSize(choice));
    PageIsStretch(s.rows, scope, p.cursor, PageSize(choice));
    var after := RunPage(scope, s, j, w, choice, sawEnd);
    AskedKeeps(scope, s, j, w, choice, sawEnd);
    forall id | id in after.rows
      ensures id in s.rows && (id !in page ==> after.rows[id] == s.rows[id])
      ensures id in page ==> Handled(scope, after, id)
      ensures id !in page && Handled(scope, s, id) ==> Handled(scope, after, id)
    {
      PageLeaves(w, scope, s.model, s.rows, page, id);
    }
    if j == k {
      OwnPage(scope, s, k, w, choice, sawEnd);
    }
  }

  /** When a pass runs its own page, whatever it has then gone by is handled. */
  lemma OwnPage(scope: string, s: State, k: nat, w: World, choice: nat, sawEnd: bool)
    requires OnCourse(scope, s, k) && !s.passes[k].done
    ensures var after := RunPage(scope, s, k, w, choice, sawEnd);
            && (forall id :: id in after.rows && after.rows[id].scope == scope ==>
                  !Past(after.passes[k].cursor, KeyOf(after.rows, id)) ==> Handled(scope, after, id))
            && (after.passes[k].done ==> Converged(scope, after))
  {
    hide Page, ConvergePage, PageWork, EmbedOf, KeyLess, PageSize, AtTarget;
    var p := s.passes[k];
    var page := Page(s.rows, scope, p.cursor, PageSize(choice));
    PageIsStretch(s.rows, scope, p.cursor, PageSize(choice));
    var after := RunPage(scope, s, k, w, choice, sawEnd);
    forall id | id in after.rows && after.rows[id].scope == scope
      ensures id in page ==> Handled(scope, after, id)
      ensures id !in page ==> id in s.rows && after.rows[id] == s.rows[id]
      ensures id !in page && id !in Ahead(s.rows, scope, p.cursor) ==> Handled(scope, after, id)
    {
      PageLeaves(w, scope, s.model, s.rows, page, id);
    }
  }

  lemma NextKeeps(scope: string, s: State, k: nat, a: Act)
    requires OnCourse(scope, s, k) && Harmless(scope, s.model, a)
    ensures OnCourse(scope, Next(scope, s, a), k) && Next(scope, s, a).model == s.model
  {
    hide RunPage, Converged, Handled, Past, Put;
    match a
    case Begin(_) =>
      SameTable(scope, s, Next(scope, s, a), k);
    case Write(writes) =>
      WriteKeeps(scope, s, k, writes);
    case Run(j, w, choice, sawEnd) =>
      if j < |s.passes| && !s.passes[j].done {
        if s.passes[j].model == s.model {
          RunKeeps(scope, s, k, j, w, choice, sawEnd);
          RunModel(scope, s, j, w, choice, sawEnd);
        } else {
          SameTable(scope, s, Next(scope, s, a), k);
        }
      }
  }

  lemma RunModel(scope: string, s: State, k: nat, w: World, choice: nat, sawEnd: bool)
    requires k < |s.passes|
    ensures RunPage(scope, s, k, w, choice, sawEnd).model == s.model
  {
  }

  lemma SameTable(scope: string, s: State, t: State, k: nat)
    requires OnCourse(scope, s, k) && k < |t.passes| && t.passes[k] == s.passes[k]
    requires t.rows == s.rows && t.model == s.model && t.work == s.work && t.asked == s.asked
    ensures OnCourse(scope, t, k)
  {
    hide AtTarget, Past;
    assert Converged(scope, s) ==> Converged(scope, t) by {
      forall id | id in t.rows && t.rows[id].scope == scope && Converged(scope, s) ensures Handled(scope, t, id) {
        assert Handled(scope, s, id);
      }
    }
    forall id | id in t.rows && t.rows[id].scope == scope && !Past(t.passes[k].cursor, KeyOf(t.rows, id))
      ensures Handled(scope, t, id)
    {
      assert Handled(scope, s, id);
    }
  }

  lemma {:induction false} PlayKeeps(scope: string, s: State, k: nat, acts: seq<Act>)
    requires OnCourse(scope, s, k) && forall a :: a in acts ==> Harmless(scope, s.model, a)
    ensures OnCourse(scope, Play(scope, s, acts), k) && Play(scope, s, acts).model == s.model
    decreases |acts|
  {
    hide Next, OnCourse, Harmless;
    if acts != [] {
      NextKeeps(scope, s, k, acts[0]);
      PlayKeeps(scope, Next(scope, s, acts[0]), k, acts[1..]);
    }
  }

  /** From any state, with any passes of any models under way: once a pass begun since the last switch
      has run its last page, every row of the scope is at the model, or the provider was asked for it.
      Pages of other passes, stale ones of the same model included, and writes do no harm.
   */
  lemma LastSwitchConverges(scope: string, s: State, acts: seq<Act>)
    requires AskedIsScheduled(s) && forall a :: a in acts ==> Harmless(scope, s.model, a)
    ensures var k, t := |s.passes|, Play(scope, s, [Begin(s.model)] + acts);
            && t.model == s.model && AskedIsScheduled(t) && k < |t.passes|
            && (t.passes[k].done ==> Converged(scope, t))
  {
    var begun := Next(scope, s, Begin(s.model));
    assert OnCourse(scope, begun, |s.passes|);
    hide Next, Harmless;
    assert ([Begin(s.model)] + acts)[1..] == acts;
    PlayKeeps(scope, begun, |s.passes|, acts);
  }

  /** With the fallback model that means every row of the scope, under the scope's key. */
  lemma FallbackConverges(scope: string, s: State, acts: seq<Act>, id: RowId)
    requires s.model == FALLBACK && AskedIsScheduled(s) && forall a :: a in acts ==> Harmless(scope, FALLBACK, a)
    ensures var t := Play(scope, s, [Begin(FALLBACK)] + acts);
            |s.passes| < |t.passes| && (t.passes[|s.passes|].done && id in t.rows && t.rows[id].scope == scope ==>
                                          AtTarget(scope, FALLBACK, t.rows[id]))
  {
    hide Play, Harmless, AtTarget, AskedIsScheduled;
    LastSwitchConverges(scope, s, acts);
  }

  // ---------------------------------------------------------------------- progress

  /** All rows of the scope at another model. */
  function AllForeign(scope: string, s: State): set<RowId> {
    set id | id in s.rows && s.rows[id].scope == scope && s.rows[id].model != s.model
  }

  /** What a pass has to go: rows at another model anywhere, then rows ahead of it. */
  function ToGo(scope: string, s: State, k: nat, most: nat): nat
    requires k < |s.passes|
  {
    |AllForeign(scope, s)| * (most + 1) + |Ahead(s.rows, scope, s.passes[k].cursor)|
  }

  lemma ProductDrops(f: nat, g: nat, most: nat, a: nat, b: nat)
    requires f < g && a <= most
    ensures f * (most + 1) + a < g * (most + 1) + b
  {
    assert g * (most + 1) >= (f + 1) * (most + 1) == f * (most + 1) + most + 1;
  }

  /** A page takes rows from those at another model and adds none. */
  lemma ForeignShrinks(scope: string, s: State, j: nat, w: World, choice: nat, sawEnd: bool)
    requires j < |s.passes|
    ensures var t := RunPage(scope, s, j, w, choice, sawEnd);
            && AllForeign(scope, t) <= AllForeign(scope, s) && t.rows.Keys <= s.rows.Keys
            && (AllForeign(scope, t) == AllForeign(scope, s) ==>
                  forall cursor :: Ahead(t.rows, scope, cursor) == Ahead(s.rows, scope, cursor))
  {
    hide Page, KeyLess, ConvergePage, PageWork, PageSize, Composite;
    PageIsStretch(s.rows, scope, s.passes[j].cursor, PageSize(choice));
    var page := Page(s.rows, scope, s.passes[j].cursor, PageSize(choice));
    var t := RunPage(scope, s, j, w, choice, sawEnd);
    forall id | id in t.rows ensures id in s.rows {
    }
    if AllForeign(scope, t) == AllForeign(scope, s) {
      forall id | id in s.rows && s.rows[id].scope == scope
        ensures id in t.rows && t.rows[id].model == s.rows[id].model && t.rows[id].scope == scope
      {
        assert id in AllForeign(scope, s) ==> id in AllForeign(scope, t);
      }
      forall cursor ensures Ahead(t.rows, scope, cursor) == Ahead(s.rows, scope, cursor) {
        forall id | id in t.rows && t.rows[id].scope == scope ensures id in s.rows && s.rows[id].scope == scope {
        }
      }
    }
  }

  predicate Pages(a: Act) {
    a.Run? || a.Begin?
  }

  lemma AheadWithin(scope: string, s: State, cursor: Cursor)
    ensures |Ahead(s.rows, scope, cursor)| <= |s.rows.Keys|
  {
    hide KeyLess;
    SubsetSize(Ahead(s.rows, scope, cursor), s.rows.Keys);
  }

  /** A page of another pass never sets this one back. */
  lemma OthersDoNotSetBack(scope: string, s: State, k: nat, j: nat, w: World, choice: nat, sawEnd: bool, most: nat)
    requires k < |s.passes| && j < |s.passes| && j != k && |s.rows.Keys| <= most
    ensures var t := RunPage(scope, s, j, w, choice, sawEnd);
            |t.rows.Keys| <= most && t.passes[k] == s.passes[k] && |t.passes| == |s.passes|
            && ToGo(scope, t, k, most) <= ToGo(scope, s, k, most)
  {
    ForeignShrinks(scope, s, j, w, choice, sawEnd);
    hide Page, ConvergePage, PageWork, PageSize, AllForeign, Ahead;
    var t := RunPage(scope, s, j, w, choice, sawEnd);
    SubsetSize(t.rows.Keys, s.rows.Keys);
    SubsetSize(AllForeign(scope, t), AllForeign(scope, s));
    AheadWithin(scope, t, s.passes[k].cursor);
    if |AllForeign(scope, t)| < |AllForeign(scope, s)| {
      ProductDrops(|AllForeign(scope, t)|, |AllForeign(scope, s)|, most,
                   |Ahead(t.rows, scope, s.passes[k].cursor)|, |Ahead(s.rows, scope, s.passes[k].cursor)|);
    } else {
      EqualSubset(AllForeign(scope, t), AllForeign(scope, s));
    }
  }

  lemma EqualSubset(a: set<RowId>, b: set<RowId>)
    requires a <= b && |a| >= |b|
    ensures a == b
  {
    if x :| x in b && x !in a {
      SubsetSize(a + {x}, b);
    }
  }

  /** A page of its own ends the pass or takes it closer. */
  lemma OwnPageAdvances(scope: string, s: State, k: nat, w: World, choice: nat, sawEnd: bool, most: nat)
    requires k < |s.passes| && |s.rows.Keys| <= most
    ensures var t := RunPage(scope, s, k, w, choice, sawEnd);
            |t.rows.Keys| <= most && |t.passes| == |s.passes|
            && (t.passes[k].done || ToGo(scope, t, k, most) < ToGo(scope, s, k, most))
  {
    ForeignShrinks(scope, s, k, w, choice, sawEnd);
    PageIsStretch(s.rows, scope, s.passes[k].cursor, PageSize(choice));
    SizePositive(choice);
    hide Page, ConvergePage, PageWork, PageSize, AllForeign, Past;
    var t := RunPage(scope, s, k, w, choice, sawEnd);
    var cursor, next := s.passes[k].cursor, t.passes[k].cursor;
    SubsetSize(t.rows.Keys, s.rows.Keys);
    SubsetSize(AllForeign(scope, t), AllForeign(scope, s));
    AheadWithin(scope, t, next);
    if !t.passes[k].done {
      if |AllForeign(scope, t)| < |AllForeign(scope, s)| {
        ProductDrops(|AllForeign(scope, t)|, |AllForeign(scope, s)|, most,
                     |Ahead(t.rows, scope, next)|, |Ahead(s.rows, scope, cursor)|);
      } else {
        EqualSubset(AllForeign(scope, t), AllForeign(scope, s));
        var page := Page(s.rows, scope, cursor, PageSize(choice));
        assert page[0] in page;
        assert Ahead(t.rows, scope, next) == Ahead(s.rows, scope, next);
        ProperSubsetSize(Ahead(s.rows, scope, next), Ahead(s.rows, scope, cursor), page[0]);
      }
    }
  }

  /** How often these acts run a page of pass k. */
  function OwnPages(acts: seq<Act>, k: nat): nat {
    if acts == [] then 0 else (if acts[0].Run? && acts[0].k == k then 1 else 0) + OwnPages(acts[1..], k)
  }

  /** However pages of other passes and new passes interleave, a pass of the current model that runs
      more pages than it had rows to go, counted so, has ended.
   */
  lemma {:induction false} PassEnds(scope: string, s: State, k: nat, acts: seq<Act>, most: nat)
    requires k < |s.passes| && s.passes[k].model == s.model && |s.rows.Keys| <= most
    requires (forall a :: a in acts ==> Pages(a)) && OwnPages(acts, k) > ToGo(scope, s, k, most)
    ensures var t := Play(scope, s, acts); k < |t.passes| && t.passes[k].done
    decreases |acts|
  {
    var a := acts[0];
    var t := Next(scope, s, a);
    PassStep(scope, s, k, a, most);
    hide Next, ToGo;
    if t.passes[k].done {
      DoneStays(scope, t, k, acts[1..]);
    } else {
      PassEnds(scope, t, k, acts[1..], most);
    }
  }

  lemma PassStep(scope: string, s: State, k: nat, a: Act, most: nat)
    requires k < |s.passes| && s.passes[k].model == s.model && |s.rows.Keys| <= most && Pages(a)
    ensures var t := Next(scope, s, a);
            && k < |t.passes| && t.model == s.model && t.passes[k].model == s.model && |t.rows.Keys| <= most
            && (t.passes[k].done
                || ToGo(scope, t, k, most) + (if a.Run? && a.k == k then 1 else 0) <= ToGo(scope, s, k, most))
  {
    hide Page, ConvergePage, PageWork, PageSize, Ahead;
    if a.Run? && a.k < |s.passes| && !s.passes[a.k].done && s.passes[a.k].model == s.model {
      if a.k == k {
        OwnPageAdvances(scope, s, k, a.world, a.choice, a.sawEnd, most);
      } else {
        OthersDoNotSetBack(scope, s, k, a.k, a.world, a.choice, a.sawEnd, most);
      }
    }
  }

  lemma {:induction false} DoneStays(scope: string, s: State, k: nat, acts: seq<Act>)
    requires k < |s.passes| && s.passes[k].done
    ensures var t := Play(scope, s, acts); k < |t.passes| && t.passes[k].done
    decreases |acts|
  {
    hide Page, ConvergePage, PageWork, PageSize, Ahead;
    if acts != [] {
      DoneStays(scope, Next(scope, s, acts[0]), k, acts[1..]);
    }
  }
}
