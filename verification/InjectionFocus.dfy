/** Focus: exactly when a session that asked not to be interrupted is interrupted all the same. */
module InjectionFocus {
  import opened Injection
  import opened InjectionHooks
  import opened Collections
  import opened Text
  import opened Utf8

  /** Some correction reaches the session between two states. */
  predicate Delivers(session: string, w: World, v: World) {
    exists key :: key in v.delivered - w.delivered && key.session == session
  }

  /** The session's focus lasts throughout. */
  predicate Lasts(actions: seq<Action>, session: string) {
    forall a :: a in actions ==> a != Unfocus(session)
  }

  /** And every hook of the session can read it. */
  predicate Reads(actions: seq<Action>, session: string) {
    forall a :: a in actions && a.Start? && a.session == session ==> a.focusReadable
  }

  /** A hook that still has something to deliver: one past its check that may fetch anything, one
      whose brief has an undelivered item at its head that fits, or one that selected an item
      nobody has claimed yet.
   */
  predicate CanDeliver(session: string, w: World, h: nat) {
    && h in w.hooks && w.hooks[h].session == session && session != ""
    && match w.hooks[h]
       case Checked(_, _) => true
       case Fetched(_, midTurn, brief) =>
         var p := Pending(session, midTurn, brief, w.delivered);
         p != [] && Fits(p[0])
       case Ready(_, _, _, pending) =>
         var selected := Select(HEADER_BYTES, pending);
         ValidItems(selected) && exists item :: item in selected && KeyOf(session, item) !in w.delivered
       case Done(_, _, _, _) => false
  }

  ghost predicate SomeCanDeliver(session: string, w: World) {
    exists h :: CanDeliver(session, w, h)
  }

  // ---------------------------------------------------------------- When none can

  /** What is delivered to other sessions does not change what is pending for this one. */
  lemma PendingElsewhere(session: string, midTurn: bool, brief: seq<Item>, delivered: set<Key>, later: set<Key>)
    requires forall key: Key :: key.session == session ==> (key in delivered <==> key in later)
    ensures Pending(session, midTurn, brief, delivered) == Pending(session, midTurn, brief, later)
  {
    if ValidItems(brief) {
      var keep := (item: Item) => KeyOf(session, item) !in delivered && (midTurn ==> item.action == REQUIRED);
      var kept := (item: Item) => KeyOf(session, item) !in later && (midTurn ==> item.action == REQUIRED);
      FilterCongruent(brief, keep, kept);
    }
  }

  /** Deliveries elsewhere, and hooks left alone, leave a hook as able as it was. */
  lemma AsAble(session: string, w: World, v: World, h: nat)
    requires forall key: Key :: key.session == session ==> (key in w.delivered <==> key in v.delivered)
    requires h in v.hooks ==> h in w.hooks && v.hooks[h] == w.hooks[h]
    requires CanDeliver(session, v, h)
    ensures CanDeliver(session, w, h)
  {
    hide Pending, Select, Fits, ValidItems;
    var k := w.hooks[h];
    if k.Fetched? {
      PendingElsewhere(session, k.midTurn, k.brief, w.delivered, v.delivered);
    }
  }

  lemma NothingReady(session: string, w: World, h: nat)
    requires h in w.hooks && w.hooks[h].Ready? && Select(HEADER_BYTES, w.hooks[h].pending) == []
    ensures !CanDeliver(session, w, h)
  {
    hide Select;
  }

  /** Reading what cannot be delivered leaves nothing to claim. */
  lemma ReadGainsNothing(session: string, w: World, h: nat, storeOk: bool)
    requires !CanDeliver(session, w, h)
    ensures !CanDeliver(session, Next(w, Read(h, storeOk)), h)
  {
    hide Pending, Select, Fits;
    if h in w.hooks && w.hooks[h].Fetched? && w.hooks[h].session == session && session != "" {
      var k := w.hooks[h];
      MisfitTakesNothing([]);
      MisfitTakesNothing(Pending(session, k.midTurn, k.brief, w.delivered));
      NothingReady(session, Next(w, Read(h, storeOk)), h);
    }
  }

  /** A claim adds keys of its own session only, and none if its hook could not deliver. */
  lemma ClaimOfUnable(session: string, w: World, h: nat, storeOk: bool, key: Key)
    requires h in w.hooks && w.hooks[h].Ready? && !CanDeliver(session, w, h) && key.session == session
    ensures key in Next(w, Claim(h, storeOk)).delivered <==> key in w.delivered
  {
    hide Select, ValidItems;
    var k := w.hooks[h];
    assert k == Ready(k.session, k.midTurn, k.brief, k.pending);
    assert Next(w, Claim(h, storeOk)) == ClaimBy(w, h, k, storeOk);
    var selected := Select(HEADER_BYTES, k.pending);
    if ClaimCommits(k.session, selected, storeOk) && key in Keys(k.session, selected) {
      var item :| item in selected && KeyOf(k.session, item) == key;
    }
  }

  lemma StepUnable(session: string, w: World, a: Action)
    requires session in w.focused && !SomeCanDeliver(session, w)
    requires a != Unfocus(session) && (a.Start? && a.session == session ==> a.focusReadable)
    ensures var v := Next(w, a);
            && session in v.focused && !SomeCanDeliver(session, v)
            && forall key: Key :: key.session == session ==> (key in v.delivered <==> key in w.delivered)
  {
    hide CanDeliver, Select, Pending, Payload, Claimed;
    var v := Next(w, a);
    forall key: Key | key.session == session ensures key in v.delivered <==> key in w.delivered {
      if a.Claim? && a.h in w.hooks && w.hooks[a.h].Ready? {
        ClaimOfUnable(session, w, a.h, a.storeOk, key);
      } else {
        OnlyClaimsDeliver(w, a);
      }
    }
    forall h ensures !CanDeliver(session, v, h) {
      if CanDeliver(session, v, h) {
        StepHook(session, w, a, h);
      }
    }
  }

  lemma OnlyClaimsDeliver(w: World, a: Action)
    requires !(a.Claim? && a.h in w.hooks && w.hooks[a.h].Ready?)
    ensures Next(w, a).delivered == w.delivered
  {
    hide Select, Pending;
  }

  /** No step makes a hook of a focused session able to deliver. */
  lemma StepHook(session: string, w: World, a: Action, h: nat)
    requires session in w.focused
    requires a.Start? && a.session == session ==> a.focusReadable
    requires forall key: Key :: key.session == session ==> (key in Next(w, a).delivered <==> key in w.delivered)
    requires CanDeliver(session, Next(w, a), h)
    ensures CanDeliver(session, w, h)
  {
    hide Select, Pending, Fits, ValidItems, Payload, Claimed;
    var v := Next(w, a);
    if h in w.hooks && w.hooks[h] == v.hooks[h] {
      AsAble(session, w, v, h);
    } else if a.Read? {
      assert a.h == h;
      ReadGainsNothingAt(session, w, h, a.storeOk);
    }
  }

  lemma ReadGainsNothingAt(session: string, w: World, h: nat, storeOk: bool)
    requires CanDeliver(session, Next(w, Read(h, storeOk)), h)
    ensures CanDeliver(session, w, h)
  {
    hide CanDeliver, Next;
    if !CanDeliver(session, w, h) {
      ReadGainsNothing(session, w, h, storeOk);
    }
  }

  lemma {:induction false} NoneDelivers(session: string, w: World, actions: seq<Action>)
    requires session in w.focused && !SomeCanDeliver(session, w) && Lasts(actions, session) && Reads(actions, session)
    ensures forall key: Key :: key.session == session ==> (key in Run(w, actions).delivered <==> key in w.delivered)
    decreases |actions|
  {
    hide Next, SomeCanDeliver;
    if actions != [] {
      assert actions[0] in actions && forall a :: a in actions[1..] ==> a in actions;
      StepUnable(session, w, actions[0]);
      NoneDelivers(session, Next(w, actions[0]), actions[1..]);
    }
  }

  // ---------------------------------------------------------------- When one can

  lemma ReadyDelivers(session: string, w: World, h: nat)
    requires CanDeliver(session, w, h) && w.hooks[h].Ready?
    ensures Delivers(session, w, Run(w, [Claim(h, true)]))
  {
    hide Select, ValidItems, Run;
    var k := w.hooks[h];
    var v := Next(w, Claim(h, true));
    var selected := Select(HEADER_BYTES, k.pending);
    assert [Claim(h, true)] == [Claim(h, true)] + [];
    RunStep(w, Claim(h, true), []);
    RunStep(v, Claim(h, true), []);
    var item :| item in selected && KeyOf(session, item) !in w.delivered;
    assert KeyOf(session, item) in v.delivered - w.delivered;
  }

  lemma FetchedDelivers(session: string, w: World, h: nat)
    requires CanDeliver(session, w, h) && w.hooks[h].Fetched?
    ensures Delivers(session, w, Run(w, [Read(h, true), Claim(h, true)]))
  {
    hide Select, Run, Fits, Claimed, Payload;
    var k := w.hooks[h];
    var v := Next(w, Read(h, true));
    var u := Next(v, Claim(h, true));
    assert [Read(h, true), Claim(h, true)] == [Read(h, true)] + ([Claim(h, true)] + []);
    RunStep(w, Read(h, true), [Claim(h, true)] + []);
    RunStep(v, Claim(h, true), []);
    RunStep(u, Claim(h, true), []);
    var p := Pending(session, k.midTurn, k.brief, w.delivered);
    assert ValidItems(k.brief);
    FirstIsTaken(session, k.midTurn, k.brief, w.delivered, p[0]);
    PendingIs(session, k.midTurn, k.brief, w.delivered);
    assert p[0] in p;
    assert KeyOf(session, p[0]) in u.delivered - w.delivered;
  }

  /** Above every revision on record. */
  lemma {:induction false} FreshRevision(delivered: set<Key>) returns (r: int)
    ensures r >= 1 && forall key :: key in delivered ==> key.revision < r
  {
    if delivered == {} {
      r := 1;
    } else {
      var key :| key in delivered;
      r := FreshRevision(delivered - {key});
      assert forall k :: k in delivered ==> k == key || k in delivered - {key};
      if key.revision >= r {
        r := key.revision + 1;
      }
    }
  }

  /** A new correction short enough for any turn. */
  lemma FreshItem(session: string, delivered: set<Key>) returns (item: Item)
    ensures ValidItems([item]) && KeyOf(session, item) !in delivered && Fits(item) && item.action == REQUIRED
  {
    var r := FreshRevision(delivered);
    item := Item("a", r, "", "", REQUIRED);
    ShortLine(item);
  }

  lemma {:induction false} OneLineIsShort(s: string)
    ensures |OneLine(s)| <= |s|
    decreases |s|
  {
    hide IsSpace;
    if s != "" {
      if IsSpace(s[0]) {
        OneLineIsShort(s[1..]);
      } else {
        var n := WordLength(s);
        var rest := Fields(s[n..]);
        assert Fields(s) == [s[..n]] + rest;
        if rest != [] {
          OneLineIsShort(s[n + 1..]);
          assert Fields(s[n..]) == Fields(s[n..][1..]) && s[n..][1..] == s[n + 1..];
          assert ([s[..n]] + rest)[1..] == rest;
        }
      }
    }
  }

  lemma ShortLine(item: Item)
    requires |item.text| + |item.reason| + |item.action| <= 100
    ensures Fits(item)
  {
    hide OneLine, Encode;
    OneLineIsShort(item.text);
    OneLineIsShort(item.reason);
    OneLineIsShort(item.action);
    assert |InjectionLine(item)| <= 150;
    LengthBounds(InjectionLine(item));
  }

  lemma CheckedDelivers(session: string, w: World, h: nat) returns (item: Item)
    requires CanDeliver(session, w, h) && w.hooks[h].Checked?
    ensures Delivers(session, w, Run(w, [Fetch(h, [item]), Read(h, true), Claim(h, true)]))
  {
    hide Select, Run, Fits, ValidItems;
    item := FreshItem(session, w.delivered);
    FromCheckOn(w, h, [item]);
    PendingIs(session, w.hooks[h].midTurn, [item], w.delivered);
    PendingOne(session, w.hooks[h].midTurn, item, w.delivered);
    FirstIsTaken(session, w.hooks[h].midTurn, [item], w.delivered, item);
  }

  lemma PendingOne(session: string, midTurn: bool, item: Item, delivered: set<Key>)
    requires ValidItems([item]) && KeyOf(session, item) !in delivered && item.action == REQUIRED
    ensures Pending(session, midTurn, [item], delivered) == [item]
  {
    var keep := (i: Item) => KeyOf(session, i) !in delivered && (midTurn ==> i.action == REQUIRED);
    FilterNone(keep);
    assert [item][1..] == [];
  }

  ghost predicate Interrupted(session: string, w: World, actions: seq<Action>) {
    Lasts(actions, session) && Reads(actions, session) && Delivers(session, w, Run(w, actions))
  }

  /** While every hook can read it, focus keeps corrections from a session exactly when none of its
      hooks could still deliver at the moment it was focused: then whatever happens until the focus
      ends, nothing arrives; and otherwise something may.
   */
  lemma FocusHoldsExactlyWhen(session: string, w: World)
    requires session in w.focused
    ensures (exists actions :: Interrupted(session, w, actions)) <==> SomeCanDeliver(session, w)
  {
    hide Run, CanDeliver;
    if SomeCanDeliver(session, w) {
      var h :| CanDeliver(session, w, h);
      var actions := Interrupt(session, w, h);
    } else {
      forall actions ensures !Interrupted(session, w, actions) {
        if Interrupted(session, w, actions) {
          NoneDelivers(session, w, actions);
        }
      }
    }
  }

  lemma Interrupt(session: string, w: World, h: nat) returns (actions: seq<Action>)
    requires CanDeliver(session, w, h)
    ensures Interrupted(session, w, actions)
  {
    hide Run, Delivers, Select, Pending, Fits, ValidItems;
    match w.hooks[h]
    case Checked(_, _) =>
      var item := CheckedDelivers(session, w, h);
      actions := [Fetch(h, [item]), Read(h, true), Claim(h, true)];
    case Fetched(_, _, _) =>
      FetchedDelivers(session, w, h);
      actions := [Read(h, true), Claim(h, true)];
    case Ready(_, _, _, _) =>
      ReadyDelivers(session, w, h);
      actions := [Claim(h, true)];
  }

  // ---------------------------------------------------------------- When focus cannot be read

  ghost predicate InterruptedUnread(session: string, w: World, actions: seq<Action>) {
    Lasts(actions, session) && Delivers(session, w, Run(w, actions))
  }

  lemma {:induction false} NamelessGetsNothing(w: World, actions: seq<Action>)
    ensures forall key: Key :: key.session == "" ==> (key in Run(w, actions).delivered <==> key in w.delivered)
    decreases |actions|
  {
    hide Next;
    if actions != [] {
      NamelessStep(w, actions[0]);
      NamelessGetsNothing(Next(w, actions[0]), actions[1..]);
    }
  }

  lemma NamelessStep(w: World, a: Action)
    ensures forall key: Key :: key.session == "" ==> (key in Next(w, a).delivered <==> key in w.delivered)
  {
    hide Select, Pending, Payload;
    if a.Claim? && a.h in w.hooks && w.hooks[a.h].Ready? {
      var k := w.hooks[a.h];
      assert Next(w, a) == ClaimBy(w, a.h, k, a.storeOk);
    }
  }

  lemma NewHook(w: World) returns (h: nat)
    ensures h !in w.hooks
  {
    h := FreshNumber(w.hooks.Keys);
  }

  lemma {:induction false} FreshNumber(used: set<nat>) returns (n: nat)
    ensures forall m :: m in used ==> m < n
  {
    if used == {} {
      n := 0;
    } else {
      var m :| m in used;
      n := FreshNumber(used - {m});
      assert forall k :: k in used ==> k == m || k in used - {m};
      if m >= n {
        n := m + 1;
      }
    }
  }

  /** A hook that fails to read the focus goes on as if there were none, so where reads may fail
      focus protects no session at all: a correction can reach any session a hook may name.
   */
  lemma UnreadableFocusProtectsNobody(session: string, w: World)
    requires session in w.focused
    ensures (exists actions :: InterruptedUnread(session, w, actions)) <==> session != ""
  {
    hide Run, Select, Pending;
    if session == "" {
      forall actions ensures !InterruptedUnread(session, w, actions) {
        NamelessGetsNothing(w, actions);
      }
    } else {
      var h := NewHook(w);
      var start := Start(h, session, false, false);
      var v := Next(w, start);
      assert v.hooks[h] == Checked(session, false);
      var item := CheckedDelivers(session, v, h);
      var rest := [Fetch(h, [item]), Read(h, true), Claim(h, true)];
      RunStep(w, start, rest);
      assert v.delivered == w.delivered;
      assert InterruptedUnread(session, w, [start] + rest);
    }
  }
}
