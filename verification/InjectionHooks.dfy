/** Hooks of agent sessions racing for the same corrections. */
module InjectionHooks {
  // Each hook checks the session's focus, fetches a brief, reads which of its items are still
  // undelivered, selects what fits, and claims the selection in one transaction. Any number of
  // hooks interleave at these steps, and members switch focus on and off meanwhile.

  import opened Injection
  import opened Utf8
  import opened Collections
  import opened Text

  datatype Key = Key(session: string, id: string, revision: int)

  function KeyOf(session: string, item: Item): Key {
    Key(session, item.id, item.revision)
  }

  function Keys(session: string, items: seq<Item>): set<Key> {
    set item | item in items :: KeyOf(session, item)
  }

  predicate ValidItems(items: seq<Item>) {
    forall item :: item in items ==> item.id != "" && item.revision >= 1
  }

  /** What the read step keeps of a brief: undelivered, and mid-turn only what cannot wait. */
  function Pending(session: string, midTurn: bool, brief: seq<Item>, delivered: set<Key>): seq<Item> {
    if ValidItems(brief)
    then Filter(brief, (item: Item) => KeyOf(session, item) !in delivered && (midTurn ==> item.action == REQUIRED))
    else []
  }

  /** The claim transaction: all selected revisions or, on any failure, none. */
  predicate ClaimCommits(session: string, selected: seq<Item>, storeOk: bool) {
    storeOk && session != "" && ValidItems(selected)
  }

  function Payload(session: string, selected: seq<Item>, delivered: set<Key>, storeOk: bool): seq<Item> {
    if ClaimCommits(session, selected, storeOk)
    then Filter(selected, (item: Item) => KeyOf(session, item) !in delivered)
    else []
  }

  function Claimed(session: string, selected: seq<Item>, delivered: set<Key>, storeOk: bool): set<Key> {
    if ClaimCommits(session, selected, storeOk) then delivered + Keys(session, selected) else delivered
  }

  // ---------------------------------------------------------------- The state machine

  datatype Hook =
    | Checked(session: string, midTurn: bool)
    | Fetched(session: string, midTurn: bool, brief: seq<Item>)
    | Ready(session: string, midTurn: bool, brief: seq<Item>, pending: seq<Item>)
    | Done(session: string, midTurn: bool, brief: seq<Item>, payload: seq<Item>)

  datatype World = World(delivered: set<Key>, focused: set<string>, hooks: map<nat, Hook>)

  datatype Action =
    | Start(h: nat, session: string, midTurn: bool, focusReadable: bool)
    | Fetch(h: nat, items: seq<Item>)
    | Read(h: nat, storeOk: bool)
    | Claim(h: nat, storeOk: bool)
    | Focus(session: string)
    | Unfocus(session: string)

  function At(w: World, h: nat, hook: Hook): World {
    w.(hooks := w.hooks[h := hook])
  }

  function Next(w: World, a: Action): World {
    match a
    case Start(h, session, midTurn, readable) =>
      if h in w.hooks then w
      else if readable && session in w.focused then At(w, h, Done(session, midTurn, [], []))
      else At(w, h, Checked(session, midTurn))
    case Fetch(h, items) =>
      if h in w.hooks && w.hooks[h].Checked?
      then At(w, h, Fetched(w.hooks[h].session, w.hooks[h].midTurn, items))
      else w
    case Read(h, storeOk) =>
      if h in w.hooks && w.hooks[h].Fetched? then ReadBy(w, h, w.hooks[h], storeOk) else w
    case Claim(h, storeOk) =>
      if h in w.hooks && w.hooks[h].Ready? then ClaimBy(w, h, w.hooks[h], storeOk) else w
    case Focus(session) => w.(focused := w.focused + {session})
    case Unfocus(session) => w.(focused := w.focused - {session})
  }

  function ReadBy(w: World, h: nat, k: Hook, storeOk: bool): World
    requires k.Fetched?
  {
    At(w, h, Ready(k.session, k.midTurn, k.brief,
                   if storeOk then Pending(k.session, k.midTurn, k.brief, w.delivered) else []))
  }

  function ClaimBy(w: World, h: nat, k: Hook, storeOk: bool): World
    requires k.Ready?
  {
    var selected := Select(HEADER_BYTES, k.pending);
    At(w.(delivered := Claimed(k.session, selected, w.delivered, storeOk)), h,
       Done(k.session, k.midTurn, k.brief, Payload(k.session, selected, w.delivered, storeOk)))
  }

  function Run(w: World, actions: seq<Action>): World
    decreases |actions|
  {
    if actions == [] then w else Run(Next(w, actions[0]), actions[1..])
  }

  function Init(delivered: set<Key>, focused: set<string>): World {
    World(delivered, focused, map[])
  }

  function PayloadKeys(k: Hook): set<Key> {
    if k.Done? then Keys(k.session, k.payload) else {}
  }

  // ---------------------------------------------------------------- What every state keeps

  predicate FromBrief(item: Item, brief: seq<Item>, midTurn: bool) {
    exists b :: b in brief && (midTurn ==> b.action == REQUIRED) && (item == b || item == Compacted(b))
  }

  predicate Distinct(session: string, items: seq<Item>) {
    forall i, j :: 0 <= i < j < |items| ==> KeyOf(session, items[i]) != KeyOf(session, items[j])
  }

  predicate GoodHook(k: Hook) {
    match k
    case Ready(session, midTurn, brief, pending) =>
      && (forall item :: item in pending ==> item in brief && (midTurn ==> item.action == REQUIRED))
      && (Distinct(session, brief) ==> Distinct(session, pending))
    case Done(session, midTurn, brief, payload) =>
      && (forall item :: item in payload ==> FromBrief(item, brief, midTurn))
      && (Distinct(session, brief) ==> Distinct(session, payload))
      && ByteLen(Render(payload)) <= LIMIT
    case _ => true
  }

  predicate HooksGood(w: World) {
    forall h :: h in w.hooks ==> GoodHook(w.hooks[h])
  }

  /** No two payloads, and no payload and the earlier deliveries, share a key. */
  predicate Exclusive(w: World, base: set<Key>) {
    && (forall g, h :: g in w.hooks && h in w.hooks && g != h ==> PayloadKeys(w.hooks[g]) !! PayloadKeys(w.hooks[h]))
    && (forall h :: h in w.hooks ==> PayloadKeys(w.hooks[h]) !! base)
  }

  /** A key is recorded as delivered exactly when it was before, or is in some hook's payload. */
  predicate Accounted(w: World, base: set<Key>) {
    && base <= w.delivered
    && (forall h :: h in w.hooks ==> PayloadKeys(w.hooks[h]) <= w.delivered)
    && (forall key :: key in w.delivered - base ==> exists h :: h in w.hooks && key in PayloadKeys(w.hooks[h]))
  }

  predicate Inv(w: World, base: set<Key>) {
    HooksGood(w) && Exclusive(w, base) && Accounted(w, base)
  }

  // ---------------------------------------------------------------- Steps

  lemma {:induction false} FilterDistinct(session: string, items: seq<Item>, keep: Item -> bool)
    requires Distinct(session, items)
    ensures Distinct(session, Filter(items, keep))
  {
    if items != [] {
      var rest := Filter(items[1..], keep);
      assert Distinct(session, items[1..]) by {
        forall i, j | 0 <= i < j < |items[1..]|
          ensures KeyOf(session, items[1..][i]) != KeyOf(session, items[1..][j])
        {
          assert items[1..][i] == items[i + 1] && items[1..][j] == items[j + 1];
        }
      }
      FilterDistinct(session, items[1..], keep);
      forall j | 0 <= j < |rest| ensures KeyOf(session, rest[j]) != KeyOf(session, items[0]) {
        FilterIs(items[1..], keep, rest[j]);
        assert rest[j] in items[1..];
      }
    }
  }

  lemma PendingIs(session: string, midTurn: bool, brief: seq<Item>, delivered: set<Key>)
    ensures var p := Pending(session, midTurn, brief, delivered);
            && (forall item :: item in p <==>
                  ValidItems(brief) && item in brief && KeyOf(session, item) !in delivered
                  && (midTurn ==> item.action == REQUIRED))
            && (Distinct(session, brief) ==> Distinct(session, p))
  {
    if ValidItems(brief) {
      var keep := (item: Item) => KeyOf(session, item) !in delivered && (midTurn ==> item.action == REQUIRED);
      forall item ensures item in Filter(brief, keep) <==> item in brief && keep(item) {
        FilterIs(brief, keep, item);
      }
      if Distinct(session, brief) {
        FilterDistinct(session, brief, keep);
      }
    }
  }

  lemma PayloadIs(session: string, selected: seq<Item>, delivered: set<Key>, storeOk: bool)
    ensures var p := Payload(session, selected, delivered, storeOk);
            && (forall item :: item in p <==>
                  ClaimCommits(session, selected, storeOk) && item in selected && KeyOf(session, item) !in delivered)
            && (Distinct(session, selected) ==> Distinct(session, p))
            && Keys(session, p) !! delivered
            && Claimed(session, selected, delivered, storeOk) == delivered + Keys(session, p)
  {
    if ClaimCommits(session, selected, storeOk) {
      var keep := (item: Item) => KeyOf(session, item) !in delivered;
      forall item ensures item in Filter(selected, keep) <==> item in selected && keep(item) {
        FilterIs(selected, keep, item);
      }
      if Distinct(session, selected) {
        FilterDistinct(session, selected, keep);
      }
    }
  }

  lemma SelectFromBrief(session: string, midTurn: bool, brief: seq<Item>, pending: seq<Item>)
    requires GoodHook(Ready(session, midTurn, brief, pending))
    ensures forall item :: item in Select(HEADER_BYTES, pending) ==> FromBrief(item, brief, midTurn)
    ensures Distinct(session, brief) ==> Distinct(session, Select(HEADER_BYTES, pending))
  {
    hide Select, LineBytes, Compacted, SumBytes;
    SelectIsPrefix(HEADER_BYTES, pending);
    var s := Select(HEADER_BYTES, pending);
    forall item | item in s ensures FromBrief(item, brief, midTurn) {
      var i :| 0 <= i < |s| && s[i] == item;
      assert pending[i] in brief;
    }
    forall i | 0 <= i < |s| ensures KeyOf(session, s[i]) == KeyOf(session, pending[i]) {
      CompactedKey(session, pending[i]);
    }
  }

  lemma PayloadFits(session: string, pending: seq<Item>, delivered: set<Key>, storeOk: bool)
    ensures ByteLen(Render(Payload(session, Select(HEADER_BYTES, pending), delivered, storeOk))) <= LIMIT
  {
    hide Select, Filter, ByteLen, Lines;
    if ClaimCommits(session, Select(HEADER_BYTES, pending), storeOk) {
      RenderedWithinLimit(pending, (item: Item) => KeyOf(session, item) !in delivered);
    } else {
      RenderBytes([]);
    }
  }

  lemma ClaimKeepsHookGood(k: Hook, delivered: set<Key>, storeOk: bool)
    requires k.Ready? && GoodHook(k)
    ensures GoodHook(Done(k.session, k.midTurn, k.brief,
        Payload(k.session, Select(HEADER_BYTES, k.pending), delivered, storeOk)))
  {
    hide Select, Render, ByteLen, Payload, FromBrief;
    SelectFromBrief(k.session, k.midTurn, k.brief, k.pending);
    PayloadIs(k.session, Select(HEADER_BYTES, k.pending), delivered, storeOk);
    PayloadFits(k.session, k.pending, delivered, storeOk);
  }

  /** Placing a hook that has no payload yet, or an empty one, keeps the invariant. */
  lemma PlaceKeeps(w: World, base: set<Key>, h: nat, hook: Hook)
    requires Inv(w, base) && GoodHook(hook) && PayloadKeys(hook) == {}
    requires h in w.hooks ==> PayloadKeys(w.hooks[h]) == {}
    ensures Inv(At(w, h, hook), base)
  {
    hide GoodHook, PayloadKeys;
    var v := At(w, h, hook);
    forall key | key in v.delivered - base ensures exists g :: g in v.hooks && key in PayloadKeys(v.hooks[g]) {
      var g :| g in w.hooks && key in PayloadKeys(w.hooks[g]);
      assert g != h && v.hooks[g] == w.hooks[g];
    }
  }

  lemma ClaimKeeps(w: World, base: set<Key>, h: nat, storeOk: bool)
    requires Inv(w, base) && h in w.hooks && w.hooks[h].Ready?
    ensures Inv(Next(w, Claim(h, storeOk)), base)
  {
    hide GoodHook, Payload, Claimed, Select, Keys;
    var k := w.hooks[h];
    var selected := Select(HEADER_BYTES, k.pending);
    var v := Next(w, Claim(h, storeOk));
    PayloadIs(k.session, selected, w.delivered, storeOk);
    ClaimKeepsHookGood(k, w.delivered, storeOk);
    assert v == ClaimBy(w, h, k, storeOk);
    forall key | key in v.delivered - base ensures exists g :: g in v.hooks && key in PayloadKeys(v.hooks[g]) {
      if key in w.delivered {
        assert key in w.delivered - base;
        var g :| g in w.hooks && key in PayloadKeys(w.hooks[g]);
        assert g != h && v.hooks[g] == w.hooks[g];
      } else {
        assert key in PayloadKeys(v.hooks[h]);
      }
    }
  }

  lemma NextKeeps(w: World, base: set<Key>, a: Action)
    requires Inv(w, base)
    ensures Inv(Next(w, a), base)
  {
    hide Select, Pending, Payload, Claimed, Render, ByteLen;
    match a
    case Start(h, session, midTurn, readable) =>
      if h !in w.hooks {
        RenderNothing();
        PlaceKeeps(w, base, h, Done(session, midTurn, [], []));
        PlaceKeeps(w, base, h, Checked(session, midTurn));
      }
    case Fetch(h, items) =>
      if h in w.hooks && w.hooks[h].Checked? {
        PlaceKeeps(w, base, h, Fetched(w.hooks[h].session, w.hooks[h].midTurn, items));
      }
    case Read(h, storeOk) =>
      if h in w.hooks && w.hooks[h].Fetched? {
        var k := w.hooks[h];
        PendingIs(k.session, k.midTurn, k.brief, w.delivered);
        PlaceKeeps(w, base, h, ReadBy(w, h, k, storeOk).hooks[h]);
      }
    case Claim(h, storeOk) =>
      if h in w.hooks && w.hooks[h].Ready? {
        ClaimKeeps(w, base, h, storeOk);
      }
    case Focus(_) =>
    case Unfocus(_) =>
  }

  lemma RenderNothing()
    ensures ByteLen(Render([])) == 0
  {
    RenderBytes([]);
  }

  /** Over every interleaving: each (session, item, revision) is in at most one payload and in
      none if it was delivered before; a key is marked delivered exactly when some hook carries
      it; and each payload honours the limit, comes from its own hook's brief, names mid-turn only
      items that required coordination, and repeats a key only if the brief did.
   */
  lemma {:induction false} EveryInterleavingKeeps(w: World, base: set<Key>, actions: seq<Action>)
    requires Inv(w, base)
    ensures Inv(Run(w, actions), base)
    decreases |actions|
  {
    hide Inv;
    if actions != [] {
      NextKeeps(w, base, actions[0]);
      EveryInterleavingKeeps(Next(w, actions[0]), base, actions[1..]);
    }
  }

  lemma InjectionSafety(base: set<Key>, focused: set<string>, actions: seq<Action>)
    ensures Inv(Run(Init(base, focused), actions), base)
  {
    EveryInterleavingKeeps(Init(base, focused), base, actions);
  }

  // ---------------------------------------------------------------- Nothing is taken back

  lemma {:induction false} PayloadsAreFinal(w: World, actions: seq<Action>, h: nat)
    requires h in w.hooks && w.hooks[h].Done?
    ensures var v := Run(w, actions); h in v.hooks && v.hooks[h] == w.hooks[h]
    decreases |actions|
  {
    hide Select, Pending, Payload, Claimed;
    if actions != [] {
      PayloadsAreFinal(Next(w, actions[0]), actions[1..], h);
    }
  }

  lemma {:induction false} DeliveriesOnlyGrow(w: World, actions: seq<Action>)
    ensures w.delivered <= Run(w, actions).delivered
    decreases |actions|
  {
    hide Select, Pending, Payload;
    if actions != [] {
      DeliveriesOnlyGrow(Next(w, actions[0]), actions[1..]);
    }
  }

  // ---------------------------------------------------------------- Focus

  /** A hook that finds its session focused never claims anything, whatever happens later. */
  lemma FocusedHookClaimsNothing(w: World, h: nat, session: string, midTurn: bool, actions: seq<Action>)
    requires h !in w.hooks && session in w.focused
    ensures var v := Run(w, [Start(h, session, midTurn, true)] + actions);
            h in v.hooks && PayloadKeys(v.hooks[h]) == {}
  {
    var w1 := Next(w, Start(h, session, midTurn, true));
    assert ([Start(h, session, midTurn, true)] + actions)[1..] == actions;
    PayloadsAreFinal(w1, actions, h);
  }

  // ---------------------------------------------------------------- Hooks that run alone

  function Visit(h: nat, session: string, midTurn: bool, brief: seq<Item>): seq<Action> {
    [Start(h, session, midTurn, true), Fetch(h, brief), Read(h, true), Claim(h, true)]
  }

  function Taken(session: string, midTurn: bool, brief: seq<Item>, delivered: set<Key>): seq<Item> {
    Select(HEADER_BYTES, Pending(session, midTurn, brief, delivered))
  }

  function After(session: string, midTurn: bool, brief: seq<Item>, delivered: set<Key>): set<Key> {
    Claimed(session, Taken(session, midTurn, brief, delivered), delivered, true)
  }

  lemma {:induction false} RunConcat(w: World, a: seq<Action>, b: seq<Action>)
    ensures Run(w, a + b) == Run(Run(w, a), b)
    decreases |a|
  {
    hide Next;
    if a == [] {
      assert a + b == b;
    } else {
      assert (a + b)[1..] == a[1..] + b;
      RunConcat(Next(w, a[0]), a[1..], b);
    }
  }

  lemma RunStep(w: World, a: Action, rest: seq<Action>)
    ensures Run(w, [a] + rest) == Run(Next(w, a), rest)
    ensures Run(w, []) == w
  {
    hide Next;
    assert ([a] + rest)[1..] == rest;
  }

  /** From its check on, an undisturbed hook delivers what it takes, whoever focused meanwhile. */
  lemma FromCheckOn(w: World, h: nat, brief: seq<Item>)
    requires h in w.hooks && w.hooks[h].Checked?
    ensures var k := w.hooks[h];
            var v := Run(w, [Fetch(h, brief), Read(h, true), Claim(h, true)]);
            v.delivered == After(k.session, k.midTurn, brief, w.delivered) && v.focused == w.focused
            && v.hooks.Keys == w.hooks.Keys
  {
    hide Select, Pending, Payload, Claimed, Run;
    var w1 := Next(w, Fetch(h, brief));
    var w2 := Next(w1, Read(h, true));
    var w3 := Next(w2, Claim(h, true));
    assert [Fetch(h, brief), Read(h, true), Claim(h, true)]
      == [Fetch(h, brief)] + ([Read(h, true)] + ([Claim(h, true)] + []));
    RunStep(w, Fetch(h, brief), [Read(h, true)] + ([Claim(h, true)] + []));
    RunStep(w1, Read(h, true), [Claim(h, true)] + []);
    RunStep(w2, Claim(h, true), []);
    RunStep(w3, Claim(h, true), []);
  }

  lemma VisitDelivers(w: World, h: nat, session: string, midTurn: bool, brief: seq<Item>)
    requires h !in w.hooks && session !in w.focused
    ensures var v := Run(w, Visit(h, session, midTurn, brief));
            v.delivered == After(session, midTurn, brief, w.delivered) && v.focused == w.focused
            && v.hooks.Keys == w.hooks.Keys + {h}
  {
    hide Select, Pending, Payload, Claimed, Run;
    var rest := [Fetch(h, brief), Read(h, true), Claim(h, true)];
    assert Visit(h, session, midTurn, brief) == [Start(h, session, midTurn, true)] + rest;
    RunStep(w, Start(h, session, midTurn, true), rest);
    FromCheckOn(Next(w, Start(h, session, midTurn, true)), h, brief);
  }

  // ---------------------------------------------------------------- Draining a brief

  predicate Fits(item: Item) {
    HEADER_BYTES + LineBytes(item) <= LIMIT || HEADER_BYTES + LineBytes(Compacted(item)) <= LIMIT
  }

  /** When something is pending and fits, the first pending item is delivered. */
  lemma FirstIsTaken(session: string, midTurn: bool, brief: seq<Item>, delivered: set<Key>, first: Item)
    requires session != "" && ValidItems(brief)
    requires var p := Pending(session, midTurn, brief, delivered); p != [] && p[0] == first && Fits(first)
    ensures KeyOf(session, first) in After(session, midTurn, brief, delivered)
  {
    hide LineBytes, Compacted, Pending, Select, ValidItems;
    var p := Pending(session, midTurn, brief, delivered);
    var s := Select(HEADER_BYTES, p);
    SelectStep(HEADER_BYTES, p, 0);
    assert p[0..] == p;
    SelectKeepsValid(session, midTurn, brief, delivered);
    assert s[0] == Chosen(Choose(HEADER_BYTES, first), first);
    CompactedKey(session, first);
    assert KeyOf(session, s[0]) in Keys(session, s);
  }

  /** When the first pending item does not fit, nothing is taken. */
  lemma MisfitTakesNothing(pending: seq<Item>)
    requires pending == [] || !Fits(pending[0])
    ensures Select(HEADER_BYTES, pending) == []
  {
    hide LineBytes, Compacted;
  }

  lemma CompactedKey(session: string, item: Item)
    ensures KeyOf(session, Compacted(item)) == KeyOf(session, item)
  {
  }

  lemma SelectKeepsValid(session: string, midTurn: bool, brief: seq<Item>, delivered: set<Key>)
    requires ValidItems(brief)
    ensures ValidItems(Taken(session, midTurn, brief, delivered))
  {
    hide LineBytes, Pending, Select, SumBytes;
    var p := Pending(session, midTurn, brief, delivered);
    PendingIs(session, midTurn, brief, delivered);
    SelectIsPrefix(HEADER_BYTES, p);
    var s := Select(HEADER_BYTES, p);
    forall item | item in s ensures item.id != "" && item.revision >= 1 {
      var i :| 0 <= i < |s| && s[i] == item;
      assert p[i] in p;
    }
  }

  /** Each undisturbed visit shortens what is pending, as long as all of it fits. */
  lemma VisitShortens(session: string, brief: seq<Item>, delivered: set<Key>)
    requires session != "" && ValidItems(brief)
    requires forall item :: item in brief && KeyOf(session, item) !in delivered ==> Fits(item)
    ensures var p := Pending(session, false, brief, delivered);
            var q := Pending(session, false, brief, After(session, false, brief, delivered));
            |q| <= |p| <= |brief| && (p != [] ==> |q| < |p|)
  {
    hide Select, Fits, Filter, ValidItems;
    var p := Pending(session, false, brief, delivered);
    var later := After(session, false, brief, delivered);
    var keep := (item: Item) => KeyOf(session, item) !in delivered && (false ==> item.action == REQUIRED);
    var fewer := (item: Item) => KeyOf(session, item) !in later && (false ==> item.action == REQUIRED);
    PendingIs(session, false, brief, delivered);
    FilterShorter(brief, keep, fewer);
    if p != [] {
      var first := p[0];
      assert first in p;
      FirstIsTaken(session, false, brief, delivered, first);
      assert first in brief && keep(first) && !fewer(first);
    }
  }

  lemma {:induction false} SumCovers(items: seq<Item>, i: nat)
    requires i < |items|
    ensures LineBytes(items[i]) <= SumBytes(items)
  {
    hide LineBytes;
    if i > 0 {
      assert items[i] == items[1..][i - 1];
      SumCovers(items[1..], i - 1);
    }
  }

  /** An item that does not fit even compacted is passed over by every visit. */
  lemma MisfitStays(session: string, brief: seq<Item>, delivered: set<Key>, item: Item)
    requires Distinct(session, brief) && item in brief && !Fits(item) && KeyOf(session, item) !in delivered
    ensures KeyOf(session, item) !in After(session, false, brief, delivered)
  {
    hide LineBytes, Compacted, Pending, Select, SumBytes;
    var p := Pending(session, false, brief, delivered);
    var s := Select(HEADER_BYTES, p);
    PendingIs(session, false, brief, delivered);
    SelectIsPrefix(HEADER_BYTES, p);
    if KeyOf(session, item) in Keys(session, s) {
      var taken :| taken in s && KeyOf(session, taken) == KeyOf(session, item);
      var i :| 0 <= i < |s| && s[i] == taken;
      CompactedKey(session, p[i]);
      assert p[i] in p;
      SameKeySameItem(session, brief, p[i], item);
      SumCovers(s, i);
    }
  }

  lemma SameKeySameItem(session: string, items: seq<Item>, a: Item, b: Item)
    requires Distinct(session, items) && a in items && b in items && KeyOf(session, a) == KeyOf(session, b)
    ensures a == b
  {
    var i :| 0 <= i < |items| && items[i] == a;
    var j :| 0 <= j < |items| && items[j] == b;
    assert i == j;
  }

  /** n natural-boundary hooks of one session in a row, each fetching the same brief. */
  function Visits(h: nat, session: string, brief: seq<Item>, n: nat): seq<Action>
    decreases n
  {
    if n == 0 then [] else Visit(h, session, false, brief) + Visits(h + 1, session, brief, n - 1)
  }

  predicate AllDelivered(session: string, brief: seq<Item>, delivered: set<Key>) {
    forall item :: item in brief ==> KeyOf(session, item) in delivered
  }

  predicate Deliverable(session: string, brief: seq<Item>, delivered: set<Key>) {
    ValidItems(brief) && forall item :: item in brief && KeyOf(session, item) !in delivered ==> Fits(item)
  }

  lemma OneVisit(w: World, h: nat, session: string, brief: seq<Item>, n: nat)
    requires n > 0 && session !in w.focused && forall g :: g in w.hooks ==> g < h
    ensures var v := Run(w, Visit(h, session, false, brief));
            && v.delivered == After(session, false, brief, w.delivered) && session !in v.focused
            && (forall g :: g in v.hooks ==> g < h + 1)
            && Run(w, Visits(h, session, brief, n)) == Run(v, Visits(h + 1, session, brief, n - 1))
  {
    hide Run, Visit, After;
    VisitDelivers(w, h, session, false, brief);
    RunConcat(w, Visit(h, session, false, brief), Visits(h + 1, session, brief, n - 1));
  }

  lemma {:induction false} Drains(w: World, h: nat, session: string, brief: seq<Item>, n: nat)
    requires session != "" && session !in w.focused && forall g :: g in w.hooks ==> g < h
    requires Deliverable(session, brief, w.delivered)
    requires |Pending(session, false, brief, w.delivered)| <= n
    ensures AllDelivered(session, brief, Run(w, Visits(h, session, brief, n)).delivered)
    decreases n
  {
    hide Run, Visit, After, Pending, Fits, ValidItems;
    PendingIs(session, false, brief, w.delivered);
    if n == 0 {
      RunStep(w, Focus(session), []);
    } else {
      var v := Run(w, Visit(h, session, false, brief));
      OneVisit(w, h, session, brief, n);
      VisitShortens(session, brief, w.delivered);
      AfterGrows(session, brief, w.delivered);
      Drains(v, h + 1, session, brief, n - 1);
    }
  }

  lemma AfterGrows(session: string, brief: seq<Item>, delivered: set<Key>)
    ensures delivered <= After(session, false, brief, delivered)
  {
    hide Select, Pending;
  }

  /** Where a brief holds an invalid identity nothing is ever taken from it. */
  lemma InvalidTakesNothing(session: string, brief: seq<Item>, delivered: set<Key>)
    requires !ValidItems(brief)
    ensures After(session, false, brief, delivered) == delivered
  {
    SelectNone(HEADER_BYTES);
  }

  lemma {:induction false} Blocked(w: World, h: nat, session: string, brief: seq<Item>, n: nat, item: Item)
    requires session !in w.focused && forall g :: g in w.hooks ==> g < h
    requires Distinct(session, brief) && item in brief && KeyOf(session, item) !in w.delivered
    requires !ValidItems(brief) || !Fits(item)
    ensures KeyOf(session, item) !in Run(w, Visits(h, session, brief, n)).delivered
    decreases n
  {
    hide Run, Visit, After, Fits, ValidItems, Distinct;
    if n == 0 {
      RunStep(w, Focus(session), []);
    } else {
      OneVisit(w, h, session, brief, n);
      if !ValidItems(brief) {
        InvalidTakesNothing(session, brief, w.delivered);
      } else {
        MisfitStays(session, brief, w.delivered, item);
      }
      Blocked(Run(w, Visit(h, session, false, brief)), h + 1, session, brief, n - 1, item);
    }
  }

  lemma OneLineIsLong(s: string)
    ensures |OneLine(s)| >= |NonSpace(s)|
  {
    FieldsConserve(s);
    JoinIsLonger(Fields(s), " ");
  }

  /** A long word for a text and another for an id fit neither in full nor compacted. */
  lemma LongWordsDoNotFit(item: Item)
    requires SpaceFree(item.id) && SpaceFree(item.text) && |item.id| >= LIMIT && |item.text| >= LIMIT
    ensures !Fits(item)
  {
    hide OneLine, NonSpace, ByteLen, IsSpace;
    var short := Compacted(item);
    SpaceFreeIsNonSpace(item.id);
    SpaceFreeIsNonSpace(item.text);
    NonSpaceConcat("Review coordination item " + item.id, ".");
    NonSpaceConcat("Review coordination item ", item.id);
    OneLineIsLong(item.text);
    OneLineIsLong(short.text);
    LengthBounds(InjectionLine(item));
    LengthBounds(InjectionLine(short));
  }

  function Long(): string {
    seq(LIMIT, _ => 'a')
  }

  /** Such a correction waits for ever: no number of turns delivers it. */
  lemma UndeliverableWitness(w: World, h: nat, session: string, n: nat)
    requires session != "" && session !in w.focused && forall g :: g in w.hooks ==> g < h
    requires KeyOf(session, Item(Long(), 1, Long(), "", "")) !in w.delivered
    ensures var item := Item(Long(), 1, Long(), "", "");
            ValidItems([item]) && KeyOf(session, item) !in Run(w, Visits(h, session, [item], n)).delivered
  {
    LongIs();
    hide *;
    var item := Item(Long(), 1, Long(), "", "");
    LongWordsDoNotFit(item);
    OneItem(session, item);
    Blocked(w, h, session, [item], n, item);
  }

  lemma LongIs()
    ensures |Long()| == LIMIT && SpaceFree(Long()) && Long() != ""
  {
  }

  lemma OneItem(session: string, item: Item)
    requires item.id != "" && item.revision >= 1
    ensures ValidItems([item]) && Distinct(session, [item])
  {
  }

  /** As many natural boundaries as a brief has items deliver all of it, exactly when it was
      delivered already, or all its identities are valid and whatever is outstanding fits the
      limit on its own, compacted if need be.
   */
  lemma DrainsExactlyWhen(w: World, h: nat, session: string, brief: seq<Item>, n: nat)
    requires session != "" && session !in w.focused && forall g :: g in w.hooks ==> g < h
    requires Distinct(session, brief) && n >= |brief|
    ensures AllDelivered(session, brief, Run(w, Visits(h, session, brief, n)).delivered)
            <==> AllDelivered(session, brief, w.delivered) || Deliverable(session, brief, w.delivered)
  {
    hide Run, Visits, Fits, ValidItems, Filter, Distinct;
    if AllDelivered(session, brief, w.delivered) {
      DeliveriesOnlyGrow(w, Visits(h, session, brief, n));
    } else if Deliverable(session, brief, w.delivered) {
      VisitShortens(session, brief, w.delivered);
      Drains(w, h, session, brief, n);
    } else {
      var item :| item in brief && KeyOf(session, item) !in w.delivered && (ValidItems(brief) ==> !Fits(item));
      Blocked(w, h, session, brief, n, item);
    }
  }
}
