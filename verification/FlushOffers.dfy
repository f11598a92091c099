/** Which batches a publish pass offers, in which order, and when it stops offering. */
module FlushOffers {
  import opened QueueLog
  import opened FlushPass
  import opened FlushLaws
  import opened FlushInterference
  import opened FlushEvidence
  import opened Collections

  // ------------------------------------------------------------------ windows

  /** A full window of a workspace's events, or its last ones. */
  predicate IsWindow(batch: seq<Event>, events: seq<Event>) {
    exists i: nat :: i <= |events| && IsWindowAt(batch, events, i)
  }

  predicate IsWindowAt(batch: seq<Event>, events: seq<Event>, i: nat) {
    && 1 <= |batch| <= 100 && i + |batch| <= |events| && batch == events[i..i + |batch|]
    && (|batch| == 100 || i + |batch| == |events|)
  }

  /** An event on its own, after a batch that held it was refused for good. */
  predicate IsRetry(steps: seq<Step>, k: nat)
    requires k < |steps|
  {
    && steps[k].Sent? && |steps[k].batch| == 1
    && exists j :: 0 <= j < k && steps[j].Sent? && steps[k].batch[0] in steps[j].batch && ForGood(steps[j].reply)
  }

  predicate OfferedWell(events: seq<Event>, steps: seq<Step>) {
    forall k :: 0 <= k < |steps| && steps[k].Sent? ==> IsWindow(steps[k].batch, events) || IsRetry(steps, k)
  }

  lemma OfferedConcat(events: seq<Event>, n: nat, x: seq<Step>, y: seq<Step>)
    requires n <= |events| && OfferedWell(events, x) && OfferedWell(events[n..], y)
    ensures OfferedWell(events, x + y)
  {
    hide IsWindowAt, ForGood;
    var all := x + y;
    forall k | 0 <= k < |all| && all[k].Sent? ensures IsWindow(all[k].batch, events) || IsRetry(all, k) {
      if k < |x| {
        assert all[k] == x[k] && forall j :: 0 <= j < k ==> all[j] == x[j];
      } else {
        var m := k - |x|;
        assert all[k] == y[m] && forall j :: 0 <= j < m ==> all[|x| + j] == y[j];
        if IsWindow(y[m].batch, events[n..]) {
          var i: nat :| i <= |events[n..]| && IsWindowAt(y[m].batch, events[n..], i);
          ShiftWindow(y[m].batch, events, n, i);
        }
      }
    }
  }

  lemma ShiftWindow(batch: seq<Event>, events: seq<Event>, n: nat, i: nat)
    requires n <= |events| && IsWindowAt(batch, events[n..], i)
    ensures IsWindowAt(batch, events, n + i)
  {
    assert events[n..][i..i + |batch|] == events[n + i..n + i + |batch|];
  }

  lemma {:induction false} RetryEachAlone(env: Env, b: BackendId, calls: nat, ops: nat, window: seq<Event>)
    ensures forall s :: s in RetryEach(env, b, calls, ops, window).steps && s.Sent? ==>
                          |s.batch| == 1 && s.batch[0] in window
    decreases |window|
  {
    if window != [] {
      hide VerdictOn;
      assert window[0] in window;
      RetryEachAlone(env, b, calls + 1, ops + 1, window[1..]);
    }
  }

  lemma FirstIsWindow(events: seq<Event>, n: nat)
    requires events != [] && n == Window(events)
    ensures IsWindow(events[..n], events)
  {
    assert events[0..0 + |events[..n]|] == events[..n];
    assert IsWindowAt(events[..n], events, 0);
  }

  lemma WindowThen(b: BackendId, events: seq<Event>, n: nat, reply: Reply, rest: seq<Step>)
    requires events != [] && n == Window(events)
    requires (forall s :: s in rest ==> !s.Sent?)
             || (ForGood(reply) && forall s :: s in rest && s.Sent? ==> |s.batch| == 1 && s.batch[0] in events[..n])
    ensures OfferedWell(events, [Sent(b, events[..n], reply)] + rest)
  {
    FirstIsWindow(events, n);
    hide IsWindow, ForGood;
    var all := [Sent(b, events[..n], reply)] + rest;
    forall k | 0 <= k < |all| && all[k].Sent? ensures IsWindow(all[k].batch, events) || IsRetry(all, k) {
      if k > 0 {
        assert all[k] in rest && all[0].Sent?;
      }
    }
  }

  lemma OfferWindowOffered(env: Env, b: BackendId, calls: nat, ops: nat, events: seq<Event>)
    requires events != []
    ensures OfferedWell(events, OfferWindow(env, b, calls, ops, events[..Window(events)]).steps)
  {
    hide OfferedWell, VerdictOn, ForGood, ListsAll, AckEach, RetryEach, AllWellFormed;
    var n := Window(events);
    var window, reply := events[..n], env.reply(b, calls);
    VerdictMeans(window, reply);
    AckEachKinds(env, ops, window);
    RetryEachAlone(env, b, calls + 1, ops, window);
    WindowThen(b, events, n, reply, []);
    assert [Sent(b, window, reply)] + [] == [Sent(b, window, reply)];
    assert OfferedWell(events, []) by { NothingOffered(events); }
    if VerdictOn(Ids(window), reply) == Permanent {
      WindowThen(b, events, n, reply, RetryEach(env, b, calls + 1, ops, window).steps);
    } else if VerdictOn(Ids(window), reply) == Accepted {
      WindowThen(b, events, n, reply, AckEach(env, ops, window).steps);
    }
  }

  lemma NothingOffered(events: seq<Event>)
    ensures OfferedWell(events, [])
  {
  }

  lemma {:induction false} DrainGroupOffered(env: Env, b: BackendId, calls: nat, ops: nat, events: seq<Event>)
    ensures OfferedWell(events, DrainGroup(env, b, calls, ops, events).steps)
    decreases |events|
  {
    NothingOffered(events);
    if events != [] {
      hide OfferedWell, DrainGroup, OfferWindow, CallsTo, StoreOps;
      var n, first, calls', ops' := DrainGroupStep(env, b, calls, ops, events);
      OfferWindowOffered(env, b, calls, ops, events);
      if first.outcome == Drained {
        DrainGroupOffered(env, b, calls', ops', events[n..]);
        OfferedConcat(events, n, first.steps, DrainGroup(env, b, calls', ops', events[n..]).steps);
      }
    }
  }

  /** Every offer of a pass, told by the workspace of its first event. */
  predicate PassOfferedWell(snapshot: seq<Event>, steps: seq<Step>) {
    forall k :: 0 <= k < |steps| && steps[k].Sent? ==>
      && steps[k].batch != []
      && (IsWindow(steps[k].batch, Group(snapshot, steps[k].batch[0].workspace)) || IsRetry(steps, k))
  }

  lemma PassOfferedConcat(snapshot: seq<Event>, w: WorkspaceId, x: seq<Step>, y: seq<Step>)
    requires PassOfferedWell(snapshot, x) && OfferedWell(Group(snapshot, w), y)
    requires forall s :: s in y && s.Sent? ==> s.batch != [] && s.batch[0].workspace == w
    ensures PassOfferedWell(snapshot, x + y)
  {
    hide IsWindow, ForGood;
    var all := x + y;
    forall k | 0 <= k < |all| && all[k].Sent?
      ensures all[k].batch != []
      ensures IsWindow(all[k].batch, Group(snapshot, all[k].batch[0].workspace)) || IsRetry(all, k)
    {
      if k < |x| {
        assert all[k] == x[k] && forall j :: 0 <= j < k ==> all[j] == x[j];
      } else {
        var m := k - |x|;
        assert all[k] == y[m] && y[m] in y && forall j :: 0 <= j < m ==> all[|x| + j] == y[j];
      }
    }
  }

  lemma GroupOffers(env: Env, snapshot: seq<Event>, w: WorkspaceId, calls: nat, ops: nat)
    ensures var y := DrainGroup(env, env.backendOf(w), calls, ops, Group(snapshot, w)).steps;
            && OfferedWell(Group(snapshot, w), y)
            && forall s :: s in y && s.Sent? ==>
                 s.batch != [] && s.batch[0].workspace == w && s.backend == env.backendOf(w)
  {
    hide DrainGroup, Group, OfferedWell;
    var group := Group(snapshot, w);
    GroupAllOf(snapshot, w);
    forall e | e in group ensures e in snapshot {
      GroupMember(snapshot, w, e);
    }
    DrainGroupOffered(env, env.backendOf(w), calls, ops, group);
    DrainGroupOffersOwn(env, env.backendOf(w), calls, ops, w, group);
    DrainGroupSound(env, snapshot, env.backendOf(w), calls, ops, group);
    DrainGroupTarget(env, env.backendOf(w), calls, ops, group);
  }

  lemma {:induction false} DrainAllOffered(env: Env, snapshot: seq<Event>, order: seq<WorkspaceId>, p: Progress)
    requires PassOfferedWell(snapshot, p.steps)
    ensures PassOfferedWell(snapshot, DrainAll(env, snapshot, order, p).steps)
    decreases |order|
  {
    if order != [] {
      hide PassOfferedWell, OfferedWell, DrainGroup, CallsTo, StoreOps, Group;
      var w := order[0];
      var calls, ops := CallsTo(p.steps, env.backendOf(w)), StoreOps(p.steps);
      GroupOffers(env, snapshot, w, calls, ops);
      PassOfferedConcat(snapshot, w, p.steps, DrainGroup(env, env.backendOf(w), calls, ops, Group(snapshot, w)).steps);
      DrainAllOffered(env, snapshot, order[1..], Turn(env, snapshot, w, p));
    }
  }

  /** Each batch a pass offers is a hundred events of one workspace in order, or its last ones, or one
      event on its own after a batch holding it was refused for good.
   */
  lemma OffersAreWindows(env: Env, snapshot: seq<Event>)
    ensures PassOfferedWell(snapshot, FlushSnapshot(env, snapshot).steps)
  {
    hide DrainAll, Order, PassOfferedWell;
    assert PassOfferedWell(snapshot, []) by { NothingPassed(snapshot); }
    DrainAllOffered(env, snapshot, Order(env, snapshot), START);
  }

  lemma NothingPassed(snapshot: seq<Event>)
    ensures PassOfferedWell(snapshot, [])
  {
  }

  // ------------------------------------------------------------------ failing backends

  /** An offer to this backend that failed for now. */
  predicate Failed(step: Step, b: BackendId) {
    step.Sent? && step.backend == b && ForNow(step.batch, step.reply)
  }

  /** After an offer to a backend failed for now, it is offered nothing more. */
  predicate Quiet(steps: seq<Step>, b: BackendId) {
    forall i, j :: 0 <= i < j < |steps| && Failed(steps[i], b) ==> !(steps[j].Sent? && steps[j].backend == b)
  }

  predicate NoneFailed(steps: seq<Step>, b: BackendId) {
    forall s :: s in steps ==> !Failed(s, b)
  }

  predicate NotOffered(steps: seq<Step>, b: BackendId) {
    forall s :: s in steps ==> !(s.Sent? && s.backend == b)
  }

  lemma QuietConcat(x: seq<Step>, y: seq<Step>, b: BackendId)
    requires Quiet(x, b) && Quiet(y, b) && (NoneFailed(x, b) || NotOffered(y, b))
    ensures Quiet(x + y, b)
    ensures NoneFailed(x + y, b) <==> NoneFailed(x, b) && NoneFailed(y, b)
  {
    hide Failed;
    var all := x + y;
    forall i, j | 0 <= i < j < |all| && Failed(all[i], b) ensures !(all[j].Sent? && all[j].backend == b) {
      if i < |x| {
        assert all[i] == x[i] && x[i] in x;
        if j >= |x| {
          assert all[j] == y[j - |x|] && y[j - |x|] in y;
        } else {
          assert all[j] == x[j];
        }
      } else {
        assert all[i] == y[i - |x|] && all[j] == y[j - |x|];
      }
    }
    assert forall s :: s in all <==> s in x || s in y;
  }

  lemma QuietOne(b: BackendId, batch: seq<Event>, reply: Reply, rest: seq<Step>)
    requires forall s :: s in rest ==> !s.Sent?
    ensures Quiet([Sent(b, batch, reply)] + rest, b) && Quiet(rest, b) && NoneFailed(rest, b)
    ensures NoneFailed([Sent(b, batch, reply)] + rest, b) <==> !ForNow(batch, reply)
  {
    hide ForNow;
    var all := [Sent(b, batch, reply)] + rest;
    forall j | 0 < j < |all| ensures !all[j].Sent? {
      assert all[j] in rest;
    }
    assert all[0] in all;
    assert all[1..] == rest;
    forall k | 0 <= k < |all| ensures all[k] == all[0] || all[k] in rest {
      assert k > 0 ==> all[k] == rest[k - 1];
    }
  }

  lemma {:induction false} RetryEachQuiet(env: Env, b: BackendId, calls: nat, ops: nat, window: seq<Event>)
    ensures var part := RetryEach(env, b, calls, ops, window);
            Quiet(part.steps, b) && (part.done ==> NoneFailed(part.steps, b))
    decreases |window|
  {
    if window != [] && window[0].wellFormed {
      hide Quiet, NoneFailed, VerdictOn, ForNow, ListsAll, ForGood;
      var e, reply := window[0], env.reply(b, calls);
      assert Ids([e]) == [e.id];
      VerdictMeans([e], reply);
      QuietOne(b, [e], reply, []);
      QuietOne(b, [e], reply, [StoreFailed(e)]);
      QuietOne(b, [e], reply, [Acked(e)]);
      QuietOne(b, [e], reply, [Quarantined(e)]);
      assert [Sent(b, [e], reply)] + [] == [Sent(b, [e], reply)];
      assert [Sent(b, [e], reply)] + [StoreFailed(e)] == [Sent(b, [e], reply), StoreFailed(e)];
      RetryEachQuiet(env, b, calls + 1, ops + 1, window[1..]);
      var rest := RetryEach(env, b, calls + 1, ops + 1, window[1..]).steps;
      if VerdictOn([e.id], reply) != Transient && env.storeWorks(ops) {
        var settled := if VerdictOn([e.id], reply) == Permanent then Quarantined(e) else Acked(e);
        assert [Sent(b, [e], reply)] + [settled] == [Sent(b, [e], reply), settled];
        QuietConcat([Sent(b, [e], reply), settled], rest, b);
      }
    } else {
      QuietOne(b, [], env.reply(b, 0), []);
    }
  }

  lemma OfferWindowQuiet(env: Env, b: BackendId, calls: nat, ops: nat, window: seq<Event>)
    requires window != []
    ensures var d := OfferWindow(env, b, calls, ops, window);
            Quiet(d.steps, b) && (d.outcome != BackendFailed ==> NoneFailed(d.steps, b))
  {
    hide Quiet, NoneFailed, VerdictOn, ForNow, ListsAll, ForGood, AckEach, RetryEach, AllWellFormed;
    var reply := env.reply(b, calls);
    VerdictMeans(window, reply);
    QuietOne(b, window, reply, []);
    assert [Sent(b, window, reply)] + [] == [Sent(b, window, reply)];
    AckEachKinds(env, ops, window);
    QuietOne(b, window, reply, AckEach(env, ops, window).steps);
    RetryEachQuiet(env, b, calls + 1, ops, window);
    if VerdictOn(Ids(window), reply) == Permanent {
      QuietConcat([Sent(b, window, reply)], RetryEach(env, b, calls + 1, ops, window).steps, b);
    }
  }

  lemma {:induction false} DrainGroupQuiet(env: Env, b: BackendId, calls: nat, ops: nat, events: seq<Event>)
    ensures var d := DrainGroup(env, b, calls, ops, events);
            Quiet(d.steps, b) && (d.outcome != BackendFailed ==> NoneFailed(d.steps, b))
    decreases |events|
  {
    QuietOne(b, [], env.reply(b, 0), []);
    if events != [] {
      hide Quiet, NoneFailed, DrainGroup, OfferWindow, CallsTo, StoreOps;
      var n, first, calls', ops' := DrainGroupStep(env, b, calls, ops, events);
      OfferWindowQuiet(env, b, calls, ops, events[..n]);
      if first.outcome == Drained {
        DrainGroupQuiet(env, b, calls', ops', events[n..]);
        QuietConcat(first.steps, DrainGroup(env, b, calls', ops', events[n..]).steps, b);
      }
    }
  }

  /** A backend's offers so far are quiet, and if one failed the pass has given up on it. */
  predicate QuietSoFar(p: Progress, b: BackendId) {
    Quiet(p.steps, b) && (NoneFailed(p.steps, b) || b in p.failed)
  }

  lemma TurnQuiet(env: Env, snapshot: seq<Event>, w: WorkspaceId, p: Progress, b: BackendId)
    requires QuietSoFar(p, b)
    ensures QuietSoFar(Turn(env, snapshot, w, p), b)
  {
    hide Quiet, NoneFailed, DrainGroup, CallsTo, StoreOps, Group;
    var c := env.backendOf(w);
    var calls, ops, group := CallsTo(p.steps, c), StoreOps(p.steps), Group(snapshot, w);
    var steps := DrainGroup(env, c, calls, ops, group).steps;
    if c == b {
      DrainGroupQuiet(env, b, calls, ops, group);
    } else {
      DrainGroupTarget(env, c, calls, ops, group);
      ElsewhereQuiet(steps, c, b);
    }
    if b !in p.failed || c != b {
      QuietConcat(p.steps, steps, b);
    }
  }

  lemma ElsewhereQuiet(steps: seq<Step>, c: BackendId, b: BackendId)
    requires OffersOnlyTo(steps, c) && c != b
    ensures NotOffered(steps, b) && NoneFailed(steps, b) && Quiet(steps, b)
  {
    hide ForNow;
    forall i | 0 <= i < |steps| ensures !Failed(steps[i], b) && !(steps[i].Sent? && steps[i].backend == b) {
      assert steps[i] in steps;
    }
  }

  lemma {:induction false} DrainAllQuiet(env: Env, snapshot: seq<Event>, order: seq<WorkspaceId>, p: Progress,
                                        b: BackendId)
    requires QuietSoFar(p, b)
    ensures QuietSoFar(DrainAll(env, snapshot, order, p), b)
    decreases |order|
  {
    if order != [] {
      hide Turn, QuietSoFar;
      TurnQuiet(env, snapshot, order[0], p, b);
      DrainAllQuiet(env, snapshot, order[1..], Turn(env, snapshot, order[0], p), b);
    }
  }

  /** Once an offer to a backend fails for now, the pass leaves that backend alone. */
  lemma FailedBackendIsLeftAlone(env: Env, snapshot: seq<Event>, b: BackendId)
    ensures Quiet(FlushSnapshot(env, snapshot).steps, b)
  {
    QuietOne(b, [], env.reply(b, 0), []);
    hide DrainAll, Order, Quiet, NoneFailed;
    DrainAllQuiet(env, snapshot, Order(env, snapshot), START, b);
  }

  // ------------------------------------------------------------------ healthy backends

  /** The same pass, with every other backend at its best. */
  function OthersWilling(env: Env, b: BackendId, snapshot: seq<Event>): Env {
    Env(env.paused, env.backendOf, (w: WorkspaceId) => env.backendOf(w) != b || env.hasSender(w),
        (c: BackendId, n: nat) => if c == b then env.reply(b, n) else Acknowledged(Ids(snapshot), "cursor"),
        env.storeWorks)
  }

  lemma ListsSnapshot(snapshot: seq<Event>, batch: seq<Event>)
    requires forall e :: e in batch ==> e in snapshot
    ensures ListsAll(batch, Acknowledged(Ids(snapshot), "cursor"))
  {
    forall e | e in batch ensures e.id in Ids(snapshot) {
      var i :| 0 <= i < |snapshot| && snapshot[i] == e;
      assert Ids(snapshot)[i] == e.id;
    }
  }

  lemma WillingSucceeds(env: Env, b: BackendId, log: seq<Step>, snapshot: seq<Event>)
    requires Legal(log) && SnapshotOf(log, snapshot) && forall n :: env.storeWorks(n)
    requires forall e :: e in snapshot && !env.paused(e.workspace) && env.backendOf(e.workspace) == b ==>
                           env.hasSender(e.workspace)
    requires NoneFailed(FlushSnapshot(env, snapshot).steps, b)
    ensures SameFor(b, env, OthersWilling(env, b, snapshot)) && Alike(b, env, OthersWilling(env, b, snapshot), snapshot)
    ensures FlushSnapshot(OthersWilling(env, b, snapshot), snapshot).healthy
  {
    hide FlushSnapshot, Legal, SnapshotOf, ListsAll, ForGood, OnBackend;
    var right := OthersWilling(env, b, snapshot);
    BackendsDoNotInterfere(b, env, right, log, snapshot);
    SucceedsExactlyWhen(right, log, snapshot);
    RepliesAreTheBackends(right, snapshot);
    var left, steps := FlushSnapshot(env, snapshot).steps, FlushSnapshot(right, snapshot).steps;
    forall s | s in steps ensures !s.StoreFailed? && (s.Sent? ==> ListsAll(s.batch, s.reply) || ForGood(s.reply)) {
      if s.Sent? {
        if s.backend == b {
          OnBackendMember(env, b, steps, s);
          OnBackendMember(env, b, left, s);
          assert !Failed(s, b);
        } else {
          ListsSnapshot(snapshot, s.batch);
        }
      }
    }
  }

  /** Isolation: where no offer to a workspace's backend fails for now and its workspaces have senders,
      everything the workspace has waiting is settled, whatever happens to other backends.
   */
  lemma HealthyBackendDrains(env: Env, log: seq<Step>, snapshot: seq<Event>, w: WorkspaceId)
    requires Legal(log) && SnapshotOf(log, snapshot) && !env.paused(w) && forall n :: env.storeWorks(n)
    requires forall e :: e in snapshot && !env.paused(e.workspace) && env.backendOf(e.workspace) == env.backendOf(w) ==>
               env.hasSender(e.workspace)
    requires NoneFailed(FlushSnapshot(env, snapshot).steps, env.backendOf(w))
    ensures Settled(log + FlushSnapshot(env, snapshot).steps, w) == Settled(log, w) + Unsettled(log, w)
  {
    hide FlushSnapshot, Legal, SnapshotOf, NoneFailed, Settled, Unsettled, OnBackend;
    var b := env.backendOf(w);
    var right := OthersWilling(env, b, snapshot);
    WillingSucceeds(env, b, log, snapshot);
    FlushGuarantee(right, log, snapshot, w);
    ProjectionsConcat(log, FlushSnapshot(right, snapshot).steps, w);
    ProjectionsConcat(log, FlushSnapshot(env, snapshot).steps, w);
  }

  // ------------------------------------------------------------------ order of visits

  /** Workspaces are visited in the order in which the snapshot first mentions them. */
  lemma {:induction false} FirstMentionedFirst(env: Env, snapshot: seq<Event>, i: nat, j: nat) returns (p: nat)
    requires i < j < |Order(env, snapshot)|
    ensures p < |snapshot| && snapshot[p].workspace == Order(env, snapshot)[i]
    ensures forall q :: 0 <= q <= p ==> snapshot[q].workspace != Order(env, snapshot)[j]
    decreases |snapshot|
  {
    var n := |snapshot| - 1;
    var front, last := snapshot[..n], snapshot[n];
    var before := Order(env, front);
    if j < |before| {
      p := FirstMentionedFirst(env, front, i, j);
    } else {
      OrderIs(env, front);
      assert before[i] in before;
      var e :| e in front && e.workspace == before[i];
      p :| 0 <= p < |front| && front[p] == e;
      forall q | 0 <= q <= p ensures snapshot[q].workspace != Order(env, snapshot)[j] {
        assert snapshot[q] == front[q] && front[q] in front;
      }
    }
  }

  /** Offers come in the order of visits: no batch of a later workspace before one of an earlier. */
  predicate InOrder(steps: seq<Step>, order: seq<WorkspaceId>) {
    && (forall s :: s in steps && s.Sent? ==> s.batch != [] && s.batch[0].workspace in order)
    && (forall k, l, i, j ::
          0 <= k < l < |steps| && steps[k].Sent? && steps[l].Sent? && 0 <= i < |order| && 0 <= j < |order| ==>
            steps[k].batch[0].workspace == order[i] ==> steps[l].batch[0].workspace == order[j] ==> i <= j)
  }

  lemma InOrderConcat(x: seq<Step>, y: seq<Step>, done: seq<WorkspaceId>, w: WorkspaceId)
    requires InOrder(x, done) && w !in done && Distinct(done)
    requires forall s :: s in y && s.Sent? ==> s.batch != [] && s.batch[0].workspace == w
    ensures InOrder(x + y, done + [w])
  {
    var all, order := x + y, done + [w];
    forall s | s in all && s.Sent? ensures s.batch != [] && s.batch[0].workspace in order {
      assert s in x || s in y;
    }
    forall k, l, i, j | 0 <= k < l < |all| && all[k].Sent? && all[l].Sent? && 0 <= i < |order| && 0 <= j < |order|
                        && all[k].batch[0].workspace == order[i] && all[l].batch[0].workspace == order[j]
      ensures i <= j
    {
      assert all[k] in all && all[l] in all;
      if l >= |x| {
        assert all[l] == y[l - |x|] && y[l - |x|] in y;
      } else {
        assert all[k] == x[k] && all[l] == x[l] && x[k] in x && x[l] in x;
      }
    }
  }

  lemma {:induction false} DrainAllInOrder(env: Env, snapshot: seq<Event>, done: seq<WorkspaceId>,
                                           order: seq<WorkspaceId>, p: Progress)
    requires Distinct(done + order) && InOrder(p.steps, done)
    ensures InOrder(DrainAll(env, snapshot, order, p).steps, done + order)
    decreases |order|
  {
    if order == [] {
      assert done + order == done;
    } else {
      hide InOrder, DrainGroup, CallsTo, StoreOps, Group;
      var w := order[0];
      var calls, ops := CallsTo(p.steps, env.backendOf(w)), StoreOps(p.steps);
      var group := DrainGroup(env, env.backendOf(w), calls, ops, Group(snapshot, w));
      GroupOffers(env, snapshot, w, calls, ops);
      assert done + order == (done + [w]) + order[1..];
      NextIsNew(done, order);
      InOrderConcat(p.steps, group.steps, done, w);
      InOrderConcat(p.steps, [], done, w);
      assert p.steps + [] == p.steps;
      DrainAllInOrder(env, snapshot, done + [w], order[1..], Turn(env, snapshot, w, p));
    }
  }

  lemma NextIsNew(done: seq<WorkspaceId>, order: seq<WorkspaceId>)
    requires order != [] && Distinct(done + order)
    ensures order[0] !in done && Distinct(done)
  {
    assert (done + order)[|done|] == order[0];
    forall i | 0 <= i < |done| ensures done[i] != order[0] {
      assert (done + order)[i] == done[i];
    }
    forall i, j | 0 <= i < j < |done| ensures done[i] != done[j] {
      assert (done + order)[i] == done[i] && (done + order)[j] == done[j];
    }
  }

  lemma OffersInOrder(env: Env, snapshot: seq<Event>)
    ensures InOrder(FlushSnapshot(env, snapshot).steps, Order(env, snapshot))
  {
    hide DrainAll, Order;
    OrderIs(env, snapshot);
    assert [] + Order(env, snapshot) == Order(env, snapshot);
    DrainAllInOrder(env, snapshot, [], Order(env, snapshot), START);
  }
}
