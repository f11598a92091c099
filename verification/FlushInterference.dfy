/** Backends and one another: that they do not interfere, and exactly when they would. */
module FlushInterference {
  import opened QueueLog
  import opened FlushPass
  import opened FlushLaws
  import opened Collections

  // ----------------------------------------------------- backends do not interfere

  /** What concerns one backend: the batches it was offered and the events of its workspaces. */
  predicate Concerns(env: Env, b: BackendId, step: Step) {
    if step.Sent? then step.backend == b else env.backendOf(step.event.workspace) == b
  }

  function OnBackend(env: Env, b: BackendId, steps: seq<Step>): seq<Step> {
    Filter(steps, (s: Step) => Concerns(env, b, s))
  }

  lemma OnBackendConcat(env: Env, b: BackendId, x: seq<Step>, y: seq<Step>)
    ensures OnBackend(env, b, x + y) == OnBackend(env, b, x) + OnBackend(env, b, y)
  {
    FilterConcat(x, y, (s: Step) => Concerns(env, b, s));
  }

  lemma OnBackendSnoc(env: Env, b: BackendId, steps: seq<Step>)
    requires steps != []
    ensures OnBackend(env, b, steps)
         == OnBackend(env, b, Front(steps)) + if Concerns(env, b, Last(steps)) then [Last(steps)] else []
  {
    assert steps == Front(steps) + [Last(steps)];
    FilterLast(Front(steps), Last(steps), (s: Step) => Concerns(env, b, s));
  }

  lemma OnBackendMember(env: Env, b: BackendId, steps: seq<Step>, step: Step)
    ensures step in OnBackend(env, b, steps) <==> step in steps && Concerns(env, b, step)
  {
    FilterIs(steps, (s: Step) => Concerns(env, b, s), step);
  }

  lemma {:induction false} CallsOnBackend(env: Env, b: BackendId, steps: seq<Step>)
    ensures CallsTo(OnBackend(env, b, steps), b) == CallsTo(steps, b)
  {
    if steps != [] {
      hide OnBackend;
      CallsOnBackend(env, b, Front(steps));
      OnBackendSnoc(env, b, steps);
      Snoc(OnBackend(env, b, Front(steps)), Last(steps));
      assert OnBackend(env, b, Front(steps)) + [] == OnBackend(env, b, Front(steps));
    }
  }

  /** The projection decides what every workspace of that backend has had settled. */
  lemma {:induction false} SettledOnBackend(env: Env, b: BackendId, steps: seq<Step>, w: WorkspaceId)
    requires env.backendOf(w) == b
    ensures Settled(OnBackend(env, b, steps), w) == Settled(steps, w)
  {
    if steps != [] {
      hide OnBackend;
      SettledOnBackend(env, b, Front(steps), w);
      OnBackendSnoc(env, b, steps);
      Snoc(OnBackend(env, b, Front(steps)), Last(steps));
      assert OnBackend(env, b, Front(steps)) + [] == OnBackend(env, b, Front(steps));
    }
  }

  /** The two runs see the same world except for what other backends answer. */
  ghost predicate SameFor(b: BackendId, left: Env, right: Env) {
    && (forall w :: left.paused(w) == right.paused(w))
    && (forall w :: left.backendOf(w) == right.backendOf(w))
    && (forall w :: left.backendOf(w) == b ==> left.hasSender(w) == right.hasSender(w))
    && (forall n :: left.reply(b, n) == right.reply(b, n))
    && (forall n :: left.storeWorks(n) && right.storeWorks(n))
  }

  lemma {:induction false} AckEachSame(b: BackendId, left: Env, right: Env, opsL: nat, opsR: nat, window: seq<Event>)
    requires SameFor(b, left, right)
    ensures AckEach(left, opsL, window) == AckEach(right, opsR, window)
    ensures AckEach(left, opsL, window).done
    decreases |window|
  {
    if window != [] {
      AckEachSame(b, left, right, opsL + 1, opsR + 1, window[1..]);
    }
  }

  lemma {:induction false} RetryEachSame(b: BackendId, left: Env, right: Env, calls: nat, opsL: nat, opsR: nat,
                                         window: seq<Event>)
    requires SameFor(b, left, right)
    ensures RetryEach(left, b, calls, opsL, window) == RetryEach(right, b, calls, opsR, window)
    decreases |window|
  {
    if window != [] {
      RetryEachSame(b, left, right, calls + 1, opsL + 1, opsR + 1, window[1..]);
    }
  }

  lemma OfferWindowSame(b: BackendId, left: Env, right: Env, calls: nat, opsL: nat, opsR: nat, window: seq<Event>)
    requires SameFor(b, left, right)
    ensures OfferWindow(left, b, calls, opsL, window) == OfferWindow(right, b, calls, opsR, window)
  {
    hide RetryEach, AckEach, VerdictOn, AllWellFormed;
    RetryEachSame(b, left, right, calls + 1, opsL, opsR, window);
    AckEachSame(b, left, right, opsL, opsR, window);
  }

  lemma {:induction false} DrainGroupSame(b: BackendId, left: Env, right: Env, calls: nat, opsL: nat, opsR: nat,
                                          events: seq<Event>)
    requires SameFor(b, left, right)
    ensures DrainGroup(left, b, calls, opsL, events) == DrainGroup(right, b, calls, opsR, events)
    decreases |events|
  {
    if events != [] {
      hide DrainGroup, OfferWindow, CallsTo, StoreOps, SameFor, Window;
      var n, first, calls', opsL' := DrainGroupStep(left, b, calls, opsL, events);
      var m, second, callsR, opsR' := DrainGroupStep(right, b, calls, opsR, events);
      OfferWindowSame(b, left, right, calls, opsL, opsR, events[..n]);
      assert m == n && second == first && callsR == calls';
      if first.outcome == Drained {
        DrainGroupSame(b, left, right, calls', opsL', opsR', events[n..]);
      }
    }
  }

  /** Every batch a group's drain offers goes to its own backend. */
  lemma {:induction false} RetryEachTarget(env: Env, b: BackendId, calls: nat, ops: nat, window: seq<Event>)
    ensures forall s :: s in RetryEach(env, b, calls, ops, window).steps ==> s.Sent? ==> s.backend == b
    decreases |window|
  {
    if window != [] {
      RetryEachTarget(env, b, calls + 1, ops + 1, window[1..]);
    }
  }

  predicate OffersOnlyTo(steps: seq<Step>, b: BackendId) {
    forall s :: s in steps ==> s.Sent? ==> s.backend == b
  }

  lemma TargetConcat(x: seq<Step>, y: seq<Step>, b: BackendId)
    requires OffersOnlyTo(x, b) && OffersOnlyTo(y, b)
    ensures OffersOnlyTo(x + y, b)
  {
  }

  lemma OfferWindowTarget(env: Env, b: BackendId, calls: nat, ops: nat, window: seq<Event>)
    ensures OffersOnlyTo(OfferWindow(env, b, calls, ops, window).steps, b)
    ensures AllWellFormed(window) && (forall n :: env.storeWorks(n)) ==>
        OfferWindow(env, b, calls, ops, window).outcome != Aborted
  {
    hide RetryEach, AckEach, VerdictOn, AllWellFormed;
    RetryEachTarget(env, b, calls + 1, ops, window);
    AckEachKinds(env, ops, window);
  }

  lemma {:induction false} DrainGroupTarget(env: Env, b: BackendId, calls: nat, ops: nat, events: seq<Event>)
    ensures OffersOnlyTo(DrainGroup(env, b, calls, ops, events).steps, b)
    ensures AllWellFormed(events) && (forall n :: env.storeWorks(n)) ==>
        DrainGroup(env, b, calls, ops, events).outcome != Aborted
    decreases |events|
  {
    if events != [] {
      hide DrainGroup, OfferWindow, CallsTo, StoreOps, OffersOnlyTo, AllWellFormed;
      var n, first, calls', ops' := DrainGroupStep(env, b, calls, ops, events);
      OfferWindowTarget(env, b, calls, ops, events[..n]);
      SplitWellFormed(events, n);
      if first.outcome == Drained {
        DrainGroupTarget(env, b, calls', ops', events[n..]);
        TargetConcat(first.steps, DrainGroup(env, b, calls', ops', events[n..]).steps, b);
      }
    }
  }

  lemma {:induction false} AckEachKinds(env: Env, ops: nat, window: seq<Event>)
    ensures forall s :: s in AckEach(env, ops, window).steps ==> !s.Sent?
    ensures (forall n :: env.storeWorks(n)) ==> AckEach(env, ops, window).done
    decreases |window|
  {
    if window != [] {
      AckEachKinds(env, ops + 1, window[1..]);
    }
  }

  lemma NoneConcern(env: Env, b: BackendId, steps: seq<Step>)
    requires forall s :: s in steps ==> !Concerns(env, b, s)
    ensures OnBackend(env, b, steps) == []
  {
    FilterAll(steps, (s: Step) => Concerns(env, b, s));
  }

  lemma OnBackendSame(left: Env, right: Env, b: BackendId, steps: seq<Step>)
    requires forall w :: left.backendOf(w) == right.backendOf(w)
    ensures OnBackend(left, b, steps) == OnBackend(right, b, steps)
  {
    FilterCongruent(steps, (s: Step) => Concerns(left, b, s), (s: Step) => Concerns(right, b, s));
  }

  // ------------------------------------------------------- payloads that cannot be batched

  predicate Malformed(snapshot: seq<Event>, w: WorkspaceId) {
    !AllWellFormed(Group(snapshot, w))
  }

  /** The first window of a workspace can be sent. */
  predicate Opens(snapshot: seq<Event>, w: WorkspaceId) {
    var group := Group(snapshot, w);
    AllWellFormed(group[..Window(group)])
  }

  /** A turn on another backend leaves this backend's view alone, though it may end the pass. */
  lemma TurnElsewhere(env: Env, snapshot: seq<Event>, w: WorkspaceId, p: Progress, b: BackendId)
    requires env.backendOf(w) != b
    ensures var q := Turn(env, snapshot, w, p);
            && OnBackend(env, b, q.steps) == OnBackend(env, b, p.steps)
            && (b in q.failed <==> b in p.failed)
            && (p.aborted ==> q.aborted)
            && (!Malformed(snapshot, w) && (forall n :: env.storeWorks(n)) ==> q.aborted == p.aborted)
  {
    hide DrainGroup, CallsTo, StoreOps, Group, OnBackend;
    var c := env.backendOf(w);
    if !p.aborted && c !in p.failed && env.hasSender(w) {
      var calls, ops, group := CallsTo(p.steps, c), StoreOps(p.steps), Group(snapshot, w);
      var drain := DrainGroup(env, c, calls, ops, group);
      GroupAllOf(snapshot, w);
      DrainGroupTarget(env, c, calls, ops, group);
      DrainGroupOnlyFor(env, c, calls, ops, w, group);
      NoneConcern(env, b, drain.steps);
      OnBackendConcat(env, b, p.steps, drain.steps);
    }
  }

  /** A backend is done in a pass when it failed or the pass ended. */
  predicate IsDone(b: BackendId, p: Progress) {
    p.aborted || b in p.failed
  }

  lemma {:induction false} DoneAddsNothing(env: Env, b: BackendId, snapshot: seq<Event>, order: seq<WorkspaceId>,
                                           p: Progress)
    requires IsDone(b, p)
    ensures OnBackend(env, b, DrainAll(env, snapshot, order, p).steps) == OnBackend(env, b, p.steps)
    decreases |order|
  {
    if order != [] {
      hide OnBackend, DrainGroup;
      if env.backendOf(order[0]) != b {
        TurnElsewhere(env, snapshot, order[0], p, b);
      }
      DoneAddsNothing(env, b, snapshot, order[1..], Turn(env, snapshot, order[0], p));
    }
  }

  /** A workspace of this backend that cannot be sent whole leaves it done. */
  lemma MalformedIsLast(env: Env, snapshot: seq<Event>, w: WorkspaceId, p: Progress)
    requires Malformed(snapshot, w)
    ensures IsDone(env.backendOf(w), Turn(env, snapshot, w, p))
    ensures !Opens(snapshot, w) ==> Turn(env, snapshot, w, p).steps == p.steps
  {
    hide DrainGroup, CallsTo, StoreOps, Group, Clean, AllWellFormed, OfferWindow;
    var b := env.backendOf(w);
    var calls, ops, group := CallsTo(p.steps, b), StoreOps(p.steps), Group(snapshot, w);
    DrainGroupDrains(env, b, calls, ops, group);
    if !Opens(snapshot, w) {
      NotOpening(env, b, calls, ops, group);
      assert p.steps + [] == p.steps;
    }
  }

  lemma NotOpening(env: Env, b: BackendId, calls: nat, ops: nat, group: seq<Event>)
    requires !AllWellFormed(group[..Window(group)])
    ensures DrainGroup(env, b, calls, ops, group) == Drain([], Aborted)
  {
    if group != [] {
      var n, first, calls', ops' := DrainGroupStep(env, b, calls, ops, group);
    }
  }

  /** What follows cannot add to this backend's view: its next workspace, if any, does not open. */
  predicate Mute(env: Env, b: BackendId, snapshot: seq<Event>, order: seq<WorkspaceId>)
    decreases |order|
  {
    order == []
    || if env.backendOf(order[0]) == b then !Opens(snapshot, order[0]) else Mute(env, b, snapshot, order[1..])
  }

  lemma {:induction false} MuteAddsNothing(env: Env, b: BackendId, snapshot: seq<Event>, order: seq<WorkspaceId>,
                                           p: Progress)
    requires Mute(env, b, snapshot, order)
    ensures OnBackend(env, b, DrainAll(env, snapshot, order, p).steps) == OnBackend(env, b, p.steps)
    decreases |order|
  {
    if order != [] {
      hide OnBackend, Turn, Opens, Malformed;
      if env.backendOf(order[0]) != b {
        TurnElsewhere(env, snapshot, order[0], p, b);
        MuteAddsNothing(env, b, snapshot, order[1..], Turn(env, snapshot, order[0], p));
      } else {
        NotOpeningIsMalformed(snapshot, order[0]);
        MalformedIsLast(env, snapshot, order[0], p);
        DoneAddsNothing(env, b, snapshot, order[1..], Turn(env, snapshot, order[0], p));
      }
    }
  }

  lemma NotOpeningIsMalformed(snapshot: seq<Event>, w: WorkspaceId)
    requires !Opens(snapshot, w)
    ensures Malformed(snapshot, w)
  {
    hide Group;
  }

  /** Place i may or may not end the pass before place j, which has something for this backend. */
  predicate ExposedAt(env: Env, b: BackendId, snapshot: seq<Event>, order: seq<WorkspaceId>, i: nat, j: nat) {
    && i < j < |order|
    && env.backendOf(order[i]) != b && Malformed(snapshot, order[i])
    && env.backendOf(order[j]) == b && Opens(snapshot, order[j])
    && forall k :: 0 <= k < j && env.backendOf(order[k]) == b ==> !Malformed(snapshot, order[k])
  }

  /** Some workspace of another backend holds a payload that cannot be batched, and a workspace of
      this backend comes after it, can open, and has no such payload of this backend before it.
   */
  ghost predicate Exposed(env: Env, b: BackendId, snapshot: seq<Event>, order: seq<WorkspaceId>) {
    exists i: nat, j: nat :: ExposedAt(env, b, snapshot, order, i, j)
  }

  lemma {:induction false} MuteOrOpens(env: Env, b: BackendId, snapshot: seq<Event>, order: seq<WorkspaceId>)
    returns (j: nat)
    requires !Mute(env, b, snapshot, order)
    ensures j < |order| && env.backendOf(order[j]) == b && Opens(snapshot, order[j])
    ensures forall k :: 0 <= k < j ==> env.backendOf(order[k]) != b
    decreases |order|
  {
    hide Opens;
    if env.backendOf(order[0]) == b {
      j := 0;
    } else {
      var n := MuteOrOpens(env, b, snapshot, order[1..]);
      j := n + 1;
    }
  }

  lemma ExposedNow(env: Env, b: BackendId, snapshot: seq<Event>, order: seq<WorkspaceId>)
    requires order != [] && env.backendOf(order[0]) != b && Malformed(snapshot, order[0])
    requires !Mute(env, b, snapshot, order[1..])
    ensures Exposed(env, b, snapshot, order)
  {
    hide Opens, Malformed, Mute;
    var n := MuteOrOpens(env, b, snapshot, order[1..]);
    assert forall k :: 1 <= k < n + 1 ==> order[k] == order[1..][k - 1];
    assert ExposedAt(env, b, snapshot, order, 0, n + 1);
  }

  lemma ExposedLater(env: Env, b: BackendId, snapshot: seq<Event>, order: seq<WorkspaceId>)
    requires order != [] && !(env.backendOf(order[0]) == b && Malformed(snapshot, order[0]))
    requires Exposed(env, b, snapshot, order[1..])
    ensures Exposed(env, b, snapshot, order)
  {
    hide Opens, Malformed;
    var i: nat, j: nat :| ExposedAt(env, b, snapshot, order[1..], i, j);
    assert forall k :: 1 <= k < j + 1 ==> order[k] == order[1..][k - 1];
    assert ExposedAt(env, b, snapshot, order, i + 1, j + 1);
  }

  lemma UnexposedRest(env: Env, b: BackendId, snapshot: seq<Event>, order: seq<WorkspaceId>)
    requires order != [] && !Exposed(env, b, snapshot, order)
    ensures env.backendOf(order[0]) != b && Malformed(snapshot, order[0]) ==> Mute(env, b, snapshot, order[1..])
    ensures !(env.backendOf(order[0]) == b && Malformed(snapshot, order[0])) ==> !Exposed(env, b, snapshot, order[1..])
  {
    hide Exposed, Malformed, Mute;
    if env.backendOf(order[0]) != b && Malformed(snapshot, order[0]) && !Mute(env, b, snapshot, order[1..]) {
      ExposedNow(env, b, snapshot, order);
    }
    if !(env.backendOf(order[0]) == b && Malformed(snapshot, order[0])) && Exposed(env, b, snapshot, order[1..]) {
      ExposedLater(env, b, snapshot, order);
    }
  }

  // ------------------------------------------------------------- backends do not interfere

  /** The relation two runs keep while only other backends differ. */
  ghost predicate InStep(b: BackendId, left: Env, p: Progress, q: Progress) {
    && OnBackend(left, b, p.steps) == OnBackend(left, b, q.steps)
    && (b in p.failed <==> b in q.failed)
    && p.aborted == q.aborted
  }

  /** A turn of this backend's own goes alike in both runs. */
  lemma TurnHere(b: BackendId, left: Env, right: Env, snapshot: seq<Event>, w: WorkspaceId, p: Progress, q: Progress)
    requires SameFor(b, left, right) && InStep(b, left, p, q) && left.backendOf(w) == b
    ensures InStep(b, left, Turn(left, snapshot, w, p), Turn(right, snapshot, w, q))
  {
    hide DrainGroup, CallsTo, StoreOps, Group, OnBackend;
    if !p.aborted && b !in p.failed && left.hasSender(w) {
      CallsOnBackend(left, b, p.steps);
      CallsOnBackend(left, b, q.steps);
      var calls, group := CallsTo(p.steps, b), Group(snapshot, w);
      var drain := DrainGroup(left, b, calls, StoreOps(p.steps), group);
      DrainGroupSame(b, left, right, calls, StoreOps(p.steps), StoreOps(q.steps), group);
      OnBackendConcat(left, b, p.steps, drain.steps);
      OnBackendConcat(left, b, q.steps, drain.steps);
    }
  }

  /** A turn on another backend changes nothing of this backend's in either run. */
  lemma TurnThere(b: BackendId, left: Env, right: Env, snapshot: seq<Event>, w: WorkspaceId, p: Progress, q: Progress)
    requires SameFor(b, left, right) && InStep(b, left, p, q) && left.backendOf(w) != b
    ensures OnBackend(left, b, Turn(left, snapshot, w, p).steps)
        == OnBackend(left, b, Turn(right, snapshot, w, q).steps)
    ensures !Malformed(snapshot, w) ==> InStep(b, left, Turn(left, snapshot, w, p), Turn(right, snapshot, w, q))
  {
    hide Turn, OnBackend, Malformed;
    TurnElsewhere(left, snapshot, w, p, b);
    TurnElsewhere(right, snapshot, w, q, b);
    OnBackendSame(left, right, b, q.steps);
    OnBackendSame(left, right, b, Turn(right, snapshot, w, q).steps);
  }

  lemma {:induction false} UnexposedInStep(b: BackendId, left: Env, right: Env, snapshot: seq<Event>,
                                           order: seq<WorkspaceId>, p: Progress, q: Progress)
    requires SameFor(b, left, right) && InStep(b, left, p, q) && !Exposed(left, b, snapshot, order)
    ensures OnBackend(left, b, DrainAll(left, snapshot, order, p).steps)
         == OnBackend(left, b, DrainAll(right, snapshot, order, q).steps)
    decreases |order|
  {
    if order != [] {
      hide Turn, OnBackend, Exposed, Mute, Malformed;
      var w, rest := order[0], order[1..];
      var p', q' := Turn(left, snapshot, w, p), Turn(right, snapshot, w, q);
      UnexposedRest(left, b, snapshot, order);
      if left.backendOf(w) == b {
        TurnHere(b, left, right, snapshot, w, p, q);
        if Malformed(snapshot, w) {
          MalformedIsLast(left, snapshot, w, p);
          MalformedIsLast(right, snapshot, w, q);
          BothQuiet(b, left, right, snapshot, rest, p', q');
        } else {
          UnexposedInStep(b, left, right, snapshot, rest, p', q');
        }
      } else {
        TurnThere(b, left, right, snapshot, w, p, q);
        if Malformed(snapshot, w) {
          BothQuiet(b, left, right, snapshot, rest, p', q');
        } else {
          UnexposedInStep(b, left, right, snapshot, rest, p', q');
        }
      }
    }
  }

  /** When this backend is done, or nothing to come can open, its view stays as it is in both runs. */
  lemma BothQuiet(b: BackendId, left: Env, right: Env, snapshot: seq<Event>, order: seq<WorkspaceId>, p: Progress,
                  q: Progress)
    requires SameFor(b, left, right) && OnBackend(left, b, p.steps) == OnBackend(left, b, q.steps)
    requires (IsDone(b, p) && IsDone(b, q)) || Mute(left, b, snapshot, order)
    ensures OnBackend(left, b, DrainAll(left, snapshot, order, p).steps)
         == OnBackend(left, b, DrainAll(right, snapshot, order, q).steps)
  {
    hide DrainAll, OnBackend, Mute;
    OnBackendSame(left, right, b, q.steps);
    OnBackendSame(left, right, b, DrainAll(right, snapshot, order, q).steps);
    if IsDone(b, p) && IsDone(b, q) {
      DoneAddsNothing(left, b, snapshot, order, p);
      DoneAddsNothing(right, b, snapshot, order, q);
    } else {
      MuteSame(left, right, b, snapshot, order);
      MuteAddsNothing(left, b, snapshot, order, p);
      MuteAddsNothing(right, b, snapshot, order, q);
    }
  }

  lemma {:induction false} MuteSame(left: Env, right: Env, b: BackendId, snapshot: seq<Event>, order: seq<WorkspaceId>)
    requires forall w :: left.backendOf(w) == right.backendOf(w)
    ensures Mute(left, b, snapshot, order) == Mute(right, b, snapshot, order)
    decreases |order|
  {
    hide Opens;
    if order != [] {
      MuteSame(left, right, b, snapshot, order[1..]);
    }
  }

  lemma {:induction false} OrderSame(left: Env, right: Env, snapshot: seq<Event>)
    requires forall w :: left.paused(w) == right.paused(w)
    ensures Order(left, snapshot) == Order(right, snapshot)
  {
    if snapshot != [] {
      OrderSame(left, right, snapshot[..|snapshot| - 1]);
    }
  }

  /** Two passes from one snapshot that differ only in what other backends answer offer this backend
      the same batches and settle its workspaces identically.
   */
  ghost predicate Alike(b: BackendId, left: Env, right: Env, snapshot: seq<Event>) {
    && OnBackend(left, b, FlushSnapshot(left, snapshot).steps)
         == OnBackend(left, b, FlushSnapshot(right, snapshot).steps)
    && (forall w :: left.backendOf(w) == b ==>
          Settled(FlushSnapshot(left, snapshot).steps, w) == Settled(FlushSnapshot(right, snapshot).steps, w))
  }

  lemma UnexposedAlike(b: BackendId, left: Env, right: Env, snapshot: seq<Event>)
    requires SameFor(b, left, right) && !Exposed(left, b, snapshot, Order(left, snapshot))
    ensures Alike(b, left, right, snapshot)
  {
    hide DrainAll, Order, OnBackend, Settled, Exposed;
    OrderSame(left, right, snapshot);
    UnexposedInStep(b, left, right, snapshot, Order(left, snapshot), START, START);
    forall w | left.backendOf(w) == b
      ensures Settled(FlushSnapshot(left, snapshot).steps, w) == Settled(FlushSnapshot(right, snapshot).steps, w)
    {
      SettledOnBackend(left, b, FlushSnapshot(left, snapshot).steps, w);
      SettledOnBackend(left, b, FlushSnapshot(right, snapshot).steps, w);
    }
  }

  /** Non-interference: from whatever a legal log has pending, what other backends answer never
      changes what this backend is offered or what its workspaces have settled.
   */
  lemma BackendsDoNotInterfere(b: BackendId, left: Env, right: Env, log: seq<Step>, snapshot: seq<Event>)
    requires Legal(log) && SnapshotOf(log, snapshot) && SameFor(b, left, right)
    ensures Alike(b, left, right, snapshot)
  {
    hide Legal, Group, Order, Alike;
    SnapshotWellFormed(log, snapshot);
    forall w ensures !Malformed(snapshot, w) {
      forall e | e in Group(snapshot, w) ensures e.wellFormed {
        GroupMember(snapshot, w, e);
      }
    }
    UnexposedAlike(b, left, right, snapshot);
  }

  // --------------------------------------------------------------- when they would

  /** An environment whose backends in `open` can be sent to and acknowledge everything. */
  function Willing(env: Env, open: set<BackendId>, snapshot: seq<Event>): Env {
    Env(env.paused, env.backendOf, (w: WorkspaceId) => env.backendOf(w) in open,
        (_, _) => Acknowledged(Ids(snapshot), "cursor"), _ => true)
  }

  lemma AcknowledgesAll(snapshot: seq<Event>, window: seq<Event>)
    requires window != [] && forall e :: e in window ==> e in snapshot
    ensures VerdictOn(Ids(window), Acknowledged(Ids(snapshot), "cursor")) == Accepted
  {
    forall id | id in Ids(window) ensures id in Ids(snapshot) {
      var k :| 0 <= k < |window| && Ids(window)[k] == id;
      assert window[k] in snapshot;
      var i :| 0 <= i < |snapshot| && snapshot[i] == window[k];
      assert Ids(snapshot)[i] == id;
    }
  }

  lemma {:induction false} WillingDrains(env: Env, open: set<BackendId>, snapshot: seq<Event>,
                                         b: BackendId, calls: nat, ops: nat, events: seq<Event>)
    requires forall e :: e in events ==> e in snapshot
    ensures DrainGroup(Willing(env, open, snapshot), b, calls, ops, events).outcome
         == if AllWellFormed(events) then Drained else Aborted
    decreases |events|
  {
    if events != [] {
      hide DrainGroup, CallsTo, StoreOps, AckEach, VerdictOn;
      var e := Willing(env, open, snapshot);
      var n, first, calls', ops' := DrainGroupStep(e, b, calls, ops, events);
      SplitWellFormed(events, n);
      AcknowledgesAll(snapshot, events[..n]);
      AckEachKinds(e, ops, events[..n]);
      if first.outcome == Drained {
        WillingDrains(env, open, snapshot, b, calls', ops', events[n..]);
      }
    }
  }

  /** A pass over willing backends goes on exactly as long as their payloads can be batched. */
  lemma {:induction false} WillingRuns(env: Env, open: set<BackendId>, snapshot: seq<Event>, order: seq<WorkspaceId>,
                                       p: Progress)
    requires !p.aborted && p.failed !! open
    ensures var q := DrainAll(Willing(env, open, snapshot), snapshot, order, p);
            if exists w :: w in order && env.backendOf(w) in open && Malformed(snapshot, w) then q.aborted
            else !q.aborted && q.failed !! open
    decreases |order|
  {
    if order != [] {
      hide DrainGroup, CallsTo, StoreOps, Group, AllWellFormed;
      var e, w := Willing(env, open, snapshot), order[0];
      var b := env.backendOf(w);
      assert order == [w] + order[1..];
      forall d | d in Group(snapshot, w) ensures d in snapshot {
        GroupMember(snapshot, w, d);
      }
      WillingDrains(env, open, snapshot, b, CallsTo(p.steps, b), StoreOps(p.steps), Group(snapshot, w));
      var next := Turn(e, snapshot, w, p);
      if next.aborted {
        AbortedStays(e, snapshot, order[1..], next);
      } else {
        WillingRuns(env, open, snapshot, order[1..], next);
      }
    }
  }

  lemma {:induction false} DrainAllSplit(env: Env, snapshot: seq<Event>, x: seq<WorkspaceId>, y: seq<WorkspaceId>,
                                         p: Progress)
    ensures DrainAll(env, snapshot, x + y, p) == DrainAll(env, snapshot, y, DrainAll(env, snapshot, x, p))
    decreases |x|
  {
    hide Turn;
    if x == [] {
      assert x + y == y;
    } else {
      assert (x + y)[1..] == x[1..] + y;
      DrainAllSplit(env, snapshot, x[1..], y, Turn(env, snapshot, x[0], p));
    }
  }

  predicate OffersFrom(step: Step, v: WorkspaceId) {
    step.Sent? && step.batch != [] && step.batch[0].workspace == v
  }

  /** A workspace the pass does not visit is not offered. */
  lemma {:induction false} UnvisitedUnoffered(env: Env, snapshot: seq<Event>, order: seq<WorkspaceId>, p: Progress,
                                              v: WorkspaceId)
    requires v !in order && forall s :: s in p.steps ==> !OffersFrom(s, v)
    ensures forall s :: s in DrainAll(env, snapshot, order, p).steps ==> !OffersFrom(s, v)
    decreases |order|
  {
    if order != [] {
      hide DrainGroup, CallsTo, StoreOps, Group;
      var w := order[0];
      var b := env.backendOf(w);
      GroupAllOf(snapshot, w);
      DrainGroupOffersOwn(env, b, CallsTo(p.steps, b), StoreOps(p.steps), w, Group(snapshot, w));
      UnvisitedUnoffered(env, snapshot, order[1..], Turn(env, snapshot, w, p), v);
    }
  }

  predicate OffersOwn(steps: seq<Step>, w: WorkspaceId) {
    forall s :: s in steps && s.Sent? ==> AllOf(s.batch, w)
  }

  lemma {:induction false} RetryEachOffersOwn(env: Env, b: BackendId, calls: nat, ops: nat, w: WorkspaceId,
                                              window: seq<Event>)
    requires AllOf(window, w)
    ensures OffersOwn(RetryEach(env, b, calls, ops, window).steps, w)
    decreases |window|
  {
    if window != [] {
      assert window[0] in window;
      RetryEachOffersOwn(env, b, calls + 1, ops + 1, w, window[1..]);
    }
  }

  lemma {:induction false} DrainGroupOffersOwn(env: Env, b: BackendId, calls: nat, ops: nat, w: WorkspaceId,
                                               events: seq<Event>)
    requires AllOf(events, w)
    ensures OffersOwn(DrainGroup(env, b, calls, ops, events).steps, w)
    decreases |events|
  {
    if events != [] {
      hide DrainGroup, CallsTo, StoreOps, AckEach, RetryEach, VerdictOn;
      var n, first, calls', ops' := DrainGroupStep(env, b, calls, ops, events);
      RetryEachOffersOwn(env, b, calls + 1, ops, w, events[..n]);
      AckEachKinds(env, ops, events[..n]);
      if first.outcome == Drained {
        DrainGroupOffersOwn(env, b, calls', ops', w, events[n..]);
      }
    }
  }

  /** With only this backend willing, the pass gets as far as its exposed workspace and opens it. */
  lemma ReachesExposed(env: Env, b: BackendId, snapshot: seq<Event>, order: seq<WorkspaceId>, i: nat, j: nat)
    returns (s: Step)
    requires ExposedAt(env, b, snapshot, order, i, j) && Group(snapshot, order[j]) != []
    ensures s in DrainAll(Willing(env, {b}, snapshot), snapshot, order, START).steps
    ensures s.Sent? && s.backend == b && OffersFrom(s, order[j])
  {
    hide DrainGroup, DrainAll, Group, CallsTo, StoreOps, AllWellFormed;
    var e, v := Willing(env, {b}, snapshot), order[j];
    var before := DrainAll(e, snapshot, order[..j], START);
    forall w | w in order[..j] && env.backendOf(w) == b ensures !Malformed(snapshot, w) {
      var k :| 0 <= k < j && order[k] == w;
    }
    WillingRuns(env, {b}, snapshot, order[..j], START);
    assert !before.aborted && b !in before.failed;
    assert order == order[..j] + order[j..] && order[j..][0] == v && order[j..][1..] == order[j + 1..];
    DrainAllSplit(e, snapshot, order[..j], order[j..], START);
    DrainAllFirst(e, snapshot, order[j..], before);
    var calls, ops, group := CallsTo(before.steps, b), StoreOps(before.steps), Group(snapshot, v);
    s := OpeningOffer(e, b, calls, ops, group);
    GroupAllOf(snapshot, v);
    assert s in Turn(e, snapshot, v, before).steps;
    StepsGrow(e, snapshot, order[j + 1..], Turn(e, snapshot, v, before));
  }

  lemma DrainAllFirst(env: Env, snapshot: seq<Event>, order: seq<WorkspaceId>, p: Progress)
    requires order != []
    ensures DrainAll(env, snapshot, order, p) == DrainAll(env, snapshot, order[1..], Turn(env, snapshot, order[0], p))
  {
    hide Turn;
  }

  lemma OpeningOffer(env: Env, b: BackendId, calls: nat, ops: nat, group: seq<Event>) returns (s: Step)
    requires group != [] && AllWellFormed(group[..Window(group)])
    ensures s in DrainGroup(env, b, calls, ops, group).steps
    ensures s.Sent? && s.backend == b && s.batch != [] && s.batch[0] == group[0]
  {
    hide DrainGroup, AckEach, RetryEach, VerdictOn, CallsTo, StoreOps;
    var n, first, calls', ops' := DrainGroupStep(env, b, calls, ops, group);
    s := Sent(b, group[..n], env.reply(b, calls));
    assert s in first.steps;
  }

  /** With the spoilt workspace's backend willing too, the pass ends before it gets there. */
  lemma NeverReaches(env: Env, b: BackendId, snapshot: seq<Event>, order: seq<WorkspaceId>, i: nat, j: nat)
    requires ExposedAt(env, b, snapshot, order, i, j) && Distinct(order)
    ensures var e := Willing(env, {b, env.backendOf(order[i])}, snapshot);
            forall s :: s in DrainAll(e, snapshot, order, START).steps ==> !OffersFrom(s, order[j])
  {
    hide Turn, DrainAll;
    var open := {b, env.backendOf(order[i])};
    var e := Willing(env, open, snapshot);
    var x, y := order[..i + 1], order[i + 1..];
    assert order == x + y;
    WillingRuns(env, open, snapshot, x, START);
    assert x[i] == order[i] && order[i] in x;
    DrainAllSplit(e, snapshot, x, y, START);
    AbortedStays(e, snapshot, y, DrainAll(e, snapshot, x, START));
    assert order[j] !in x;
    UnvisitedUnoffered(e, snapshot, x, START, order[j]);
  }

  /** Two runs that see the same pauses and bindings, differ only for other backends, and yet treat
      this backend differently.
   */
  ghost predicate Interferes(env: Env, b: BackendId, snapshot: seq<Event>, left: Env, right: Env) {
    && (forall w :: left.paused(w) == env.paused(w) && left.backendOf(w) == env.backendOf(w))
    && SameFor(b, left, right) && !Alike(b, left, right, snapshot)
  }

  /** Over arbitrary snapshots, interference is possible exactly when this backend is exposed; the
      snapshots of legal logs never are.
   */
  lemma InterferesExactlyWhen(env: Env, b: BackendId, snapshot: seq<Event>)
    ensures (exists left, right :: Interferes(env, b, snapshot, left, right))
            <==> Exposed(env, b, snapshot, Order(env, snapshot))
  {
    hide Order, Alike, ExposedAt;
    var order := Order(env, snapshot);
    if Exposed(env, b, snapshot, order) {
      var i: nat, j: nat :| ExposedAt(env, b, snapshot, order, i, j);
      ExposedInterferes(env, b, snapshot, i, j);
    }
    forall left, right | Interferes(env, b, snapshot, left, right) ensures Exposed(env, b, snapshot, order) {
      OrderSame(env, left, snapshot);
      if Exposed(left, b, snapshot, order) {
        ExposedSame(env, left, b, snapshot, order);
      } else {
        UnexposedAlike(b, left, right, snapshot);
      }
    }
  }

  lemma ExposedSame(env: Env, left: Env, b: BackendId, snapshot: seq<Event>, order: seq<WorkspaceId>)
    requires (forall w :: left.backendOf(w) == env.backendOf(w)) && Exposed(left, b, snapshot, order)
    ensures Exposed(env, b, snapshot, order)
  {
    hide Opens, Malformed;
    var i: nat, j: nat :| ExposedAt(left, b, snapshot, order, i, j);
    assert ExposedAt(env, b, snapshot, order, i, j);
  }

  lemma ExposedInterferes(env: Env, b: BackendId, snapshot: seq<Event>, i: nat, j: nat)
    requires ExposedAt(env, b, snapshot, Order(env, snapshot), i, j)
    ensures var left := Willing(env, {b}, snapshot);
            var right := Willing(env, {b, env.backendOf(Order(env, snapshot)[i])}, snapshot);
            Interferes(env, b, snapshot, left, right)
  {
    hide DrainAll, Order, OnBackend, Settled, Malformed, Opens;
    var order := Order(env, snapshot);
    var left, right := Willing(env, {b}, snapshot), Willing(env, {b, env.backendOf(order[i])}, snapshot);
    OrderIs(env, snapshot);
    OrderSame(env, left, snapshot);
    OrderSame(env, right, snapshot);
    HasWork(env, snapshot, order[j]);
    var s := ReachesExposed(env, b, snapshot, order, i, j);
    NeverReaches(env, b, snapshot, order, i, j);
    OnBackendMember(left, b, FlushSnapshot(left, snapshot).steps, s);
    OnBackendMember(left, b, FlushSnapshot(right, snapshot).steps, s);
  }

  lemma HasWork(env: Env, snapshot: seq<Event>, w: WorkspaceId)
    requires w in Order(env, snapshot)
    ensures Group(snapshot, w) != []
  {
    hide Order, Group;
    OrderIs(env, snapshot);
    var e :| e in snapshot && e.workspace == w;
    GroupMember(snapshot, w, e);
  }
}
