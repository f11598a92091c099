/** One publish pass over a snapshot of the queue.

    A pass is the steps it appends to the log, and whether it reports success.
 */
module FlushPass {
  import opened QueueLog
  import opened Collections

  /** Everything a pass does not decide for itself.  `reply(b, n)` is the answer to the
      n-th batch this pass offers backend `b`, and `storeWorks(n)` says whether its n-th
      settlement is written; both are arbitrary.
   */
  datatype Env = Env(
    paused: WorkspaceId -> bool,
    backendOf: WorkspaceId -> BackendId,
    hasSender: WorkspaceId -> bool,
    reply: (BackendId, nat) -> Reply,
    storeWorks: nat -> bool)

  datatype Outcome = Drained | BackendFailed | Aborted

  datatype Part = Part(steps: seq<Step>, done: bool)
  datatype Drain = Drain(steps: seq<Step>, outcome: Outcome)

  predicate AllWellFormed(events: seq<Event>) {
    forall e :: e in events ==> e.wellFormed
  }

  /** Acknowledges an accepted window one row at a time. */
  function AckEach(env: Env, ops: nat, window: seq<Event>): Part
    decreases |window|
  {
    if window == [] then Part([], true)
    else if !env.storeWorks(ops) then Part([StoreFailed(window[0])], false)
    else
      var rest := AckEach(env, ops + 1, window[1..]);
      Part([Acked(window[0])] + rest.steps, rest.done)
  }

  /** Offers each event of a refused window alone, acknowledging or quarantining it. */
  function RetryEach(env: Env, b: BackendId, calls: nat, ops: nat, window: seq<Event>): Part
    decreases |window|
  {
    if window == [] then Part([], true)
    else if !window[0].wellFormed then Part([], false)
    else
      var e, reply := window[0], env.reply(b, calls);
      var sent := Sent(b, [e], reply);
      var verdict := VerdictOn([e.id], reply);
      if verdict == Transient then Part([sent], false)
      else if !env.storeWorks(ops) then Part([sent, StoreFailed(e)], false)
      else
        var settled := if verdict == Permanent then Quarantined(e) else Acked(e);
        var rest := RetryEach(env, b, calls + 1, ops + 1, window[1..]);
        Part([sent, settled] + rest.steps, rest.done)
  }

  function Window(events: seq<Event>): nat {
    if |events| < WINDOW then |events| else WINDOW
  }

  function CallsTo(steps: seq<Step>, b: BackendId): nat {
    if steps == [] then 0
    else CallsTo(Front(steps), b) + if Last(steps).Sent? && Last(steps).backend == b then 1 else 0
  }

  function StoreOps(steps: seq<Step>): nat {
    if steps == [] then 0
    else StoreOps(Front(steps)) + if Settles(Last(steps)) || Last(steps).StoreFailed? then 1 else 0
  }

  /** Offers one window, and settles what the answer allows. */
  function OfferWindow(env: Env, b: BackendId, calls: nat, ops: nat, window: seq<Event>): Drain {
    if !AllWellFormed(window) then Drain([], Aborted)
    else
      var reply := env.reply(b, calls);
      var sent := [Sent(b, window, reply)];
      match VerdictOn(Ids(window), reply)
      case Transient => Drain(sent, BackendFailed)
      case Permanent =>
        var retried := RetryEach(env, b, calls + 1, ops, window);
        Drain(sent + retried.steps, if retried.done then Drained else BackendFailed)
      case Accepted =>
        var acked := AckEach(env, ops, window);
        Drain(sent + acked.steps, if acked.done then Drained else Aborted)
  }

  /** Drains one workspace window by window. */
  function DrainGroup(env: Env, b: BackendId, calls: nat, ops: nat, events: seq<Event>): Drain
    decreases |events|
  {
    if events == [] then Drain([], Drained)
    else
      var n := Window(events);
      var first := OfferWindow(env, b, calls, ops, events[..n]);
      if first.outcome != Drained then first
      else
        var rest := DrainGroup(env, b, calls + CallsTo(first.steps, b), ops + StoreOps(first.steps), events[n..]);
        Drain(first.steps + rest.steps, rest.outcome)
  }

  /** The drain of a nonempty group, as its first window and the drain of the rest. */
  lemma DrainGroupStep(env: Env, b: BackendId, calls: nat, ops: nat, events: seq<Event>)
    returns (n: nat, first: Drain, calls': nat, ops': nat)
    requires events != []
    ensures n == Window(events) && 1 <= n <= |events| && n <= WINDOW
    ensures first == OfferWindow(env, b, calls, ops, events[..n])
    ensures calls' == calls + CallsTo(first.steps, b) && ops' == ops + StoreOps(first.steps)
    ensures first.outcome != Drained ==> DrainGroup(env, b, calls, ops, events) == first
    ensures first.outcome == Drained ==>
              var rest := DrainGroup(env, b, calls', ops', events[n..]);
              DrainGroup(env, b, calls, ops, events) == Drain(first.steps + rest.steps, rest.outcome)
  {
    hide OfferWindow, CallsTo, StoreOps;
    n := Window(events);
    first := OfferWindow(env, b, calls, ops, events[..n]);
    calls', ops' := calls + CallsTo(first.steps, b), ops + StoreOps(first.steps);
  }

  /** The snapshot's events of one workspace. */
  function Group(snapshot: seq<Event>, w: WorkspaceId): seq<Event> {
    Filter(snapshot, (e: Event) => e.workspace == w)
  }

  /** How far a pass has come: its steps, the backends it has given up on, and its verdict. */
  datatype Progress = Progress(steps: seq<Step>, failed: set<BackendId>, healthy: bool, aborted: bool)

  /** One workspace's turn. */
  function Turn(env: Env, snapshot: seq<Event>, w: WorkspaceId, p: Progress): Progress {
    var b := env.backendOf(w);
    if p.aborted || b in p.failed then p
    else if !env.hasSender(w) then p.(failed := p.failed + {b}, healthy := false)
    else
      var drain := DrainGroup(env, b, CallsTo(p.steps, b), StoreOps(p.steps), Group(snapshot, w));
      var q := p.(steps := p.steps + drain.steps);
      match drain.outcome
      case Drained => q
      case BackendFailed => q.(failed := q.failed + {b}, healthy := false)
      case Aborted => q.(healthy := false, aborted := true)
  }

  /** The remaining turns of a pass, in order. */
  function DrainAll(env: Env, snapshot: seq<Event>, order: seq<WorkspaceId>, p: Progress): Progress
    decreases |order|
  {
    if order == [] then p else DrainAll(env, snapshot, order[1..], Turn(env, snapshot, order[0], p))
  }

  /** The unpaused workspaces with something to send, in order of first appearance. */
  function Order(env: Env, snapshot: seq<Event>): seq<WorkspaceId> {
    if snapshot == [] then []
    else
      var front, w := Order(env, snapshot[..|snapshot| - 1]), snapshot[|snapshot| - 1].workspace;
      if env.paused(w) || w in front then front else front + [w]
  }

  const START := Progress([], {}, true, false)

  /** A whole pass over a snapshot. */
  function FlushSnapshot(env: Env, snapshot: seq<Event>): Progress {
    DrainAll(env, snapshot, Order(env, snapshot), START)
  }

  lemma {:induction false} AbortedStays(env: Env, snapshot: seq<Event>, order: seq<WorkspaceId>, p: Progress)
    requires p.aborted
    ensures DrainAll(env, snapshot, order, p) == p
    decreases |order|
  {
    if order != [] {
      AbortedStays(env, snapshot, order[1..], p);
    }
  }

  // ------------------------------------------------------- every step is legal

  predicate AllOf(events: seq<Event>, w: WorkspaceId) {
    forall e :: e in events ==> e.workspace == w
  }

  /** Appending one step, in terms of the projections legality reads. */
  lemma AfterStep(log: seq<Step>, step: Step, w: WorkspaceId)
    ensures Settled(log + [step], w)
         == Settled(log, w) + if Settles(step) && step.event.workspace == w then [step.event] else []
    ensures !step.Enqueued? ==> Enqueues(log + [step], w) == Enqueues(log, w)
  {
    Snoc(log, step);
  }

  /** What a piece of a pass over one workspace keeps: the log stays legal and the next
      `n` events of that workspace are settled, in order.
   */
  ghost predicate Advances(log: seq<Step>, steps: seq<Step>, w: WorkspaceId, n: nat) {
    && Legal(log + steps)
    && n <= |Unsettled(log, w)|
    && Settled(log + steps, w) == Settled(log, w) + Unsettled(log, w)[..n]
    && Unsettled(log + steps, w) == Unsettled(log, w)[n..]
  }

  lemma AdvancesMany(log: seq<Step>, first: seq<Step>, rest: seq<Step>, w: WorkspaceId, m: nat, n: nat)
    requires Advances(log, first, w, m)
    requires Advances(log + first, rest, w, n)
    ensures Advances(log, first + rest, w, m + n)
  {
    hide Legal, Settled, Unsettled;
    var waiting := Unsettled(log, w);
    assert log + (first + rest) == (log + first) + rest;
    assert waiting[..m] + waiting[m..][..n] == waiting[..m + n];
    assert waiting[m..][n..] == waiting[m + n..];
  }

  /** Settling the oldest event of a workspace. */
  lemma SettleHead(log: seq<Step>, step: Step, w: WorkspaceId)
    requires Legal(log) && Settles(step) && Justified(log, step) && step.event.workspace == w
    ensures Advances(log, [step], w, 1)
  {
    LegalSnoc(log, step);
    SettledInOrder(log, w);
    AfterStep(log, step, w);
    hide Legal, Settled, Enqueues, WasAcknowledged, WasRefusedAlone;
    assert Unsettled(log, w)[0] == step.event;
    assert Unsettled(log, w)[..1] == [step.event];
  }

  /** Offering the oldest events, or failing to write, settles nothing. */
  lemma SettleNone(log: seq<Step>, step: Step, w: WorkspaceId)
    requires Legal(log) && Justified(log, step) && (step.Sent? || step.StoreFailed?)
    ensures Advances(log, [step], w, 0)
  {
    LegalSnoc(log, step);
    AfterStep(log, step, w);
  }

  lemma NoSteps(log: seq<Step>, w: WorkspaceId)
    requires Legal(log)
    ensures Advances(log, [], w, 0)
  {
    assert log + [] == log;
  }

  predicate AcknowledgedAll(log: seq<Step>, events: seq<Event>) {
    forall e :: e in events ==> WasAcknowledged(log, e)
  }

  lemma EvidenceStays(log: seq<Step>, more: seq<Step>, e: Event)
    ensures WasAcknowledged(log, e) ==> WasAcknowledged(log + more, e)
    ensures WasRefusedAlone(log, e) ==> WasRefusedAlone(log + more, e)
  {
    assert forall i :: 0 <= i < |log| ==> (log + more)[i] == log[i];
  }

  lemma {:induction false} AckEachLegal(env: Env, ops: nat, log: seq<Step>, w: WorkspaceId, window: seq<Event>)
    returns (n: nat)
    requires Legal(log) && AllOf(window, w) && window <= Unsettled(log, w) && AcknowledgedAll(log, window)
    decreases |window|
    ensures n <= |window| && Advances(log, AckEach(env, ops, window).steps, w, n)
    ensures AckEach(env, ops, window).done ==> n == |window|
  {
    hide Legal, Settled, Unsettled, WasAcknowledged, WasRefusedAlone;
    n := 0;
    if window == [] {
      NoSteps(log, w);
    } else if !env.storeWorks(ops) {
      SettleNone(log, StoreFailed(window[0]), w);
    } else {
      var step := Acked(window[0]);
      assert window[0] in window;
      SettleHead(log, step, w);
      forall e | e in window[1..] ensures WasAcknowledged(log + [step], e) {
        EvidenceStays(log, [step], e);
      }
      var k := AckEachLegal(env, ops + 1, log + [step], w, window[1..]);
      AdvancesMany(log, [step], AckEach(env, ops + 1, window[1..]).steps, w, 1, k);
      n := k + 1;
    }
  }

  lemma OfferIsJustified(log: seq<Step>, b: BackendId, batch: seq<Event>, reply: Reply, w: WorkspaceId)
    requires AllOf(batch, w) && batch <= Unsettled(log, w) && 1 <= |batch| <= WINDOW
    ensures Justified(log, Sent(b, batch, reply))
  {
    assert batch[0] in batch;
  }

  lemma AcceptanceIsEvidence(log: seq<Step>, b: BackendId, batch: seq<Event>, reply: Reply)
    requires VerdictOn(Ids(batch), reply) == Accepted
    ensures AcknowledgedAll(log + [Sent(b, batch, reply)], batch)
  {
    assert (log + [Sent(b, batch, reply)])[|log|] == Sent(b, batch, reply);
  }

  lemma RetryHeadLegal(b: BackendId, log: seq<Step>, w: WorkspaceId, e: Event, reply: Reply, settled: Step)
    requires Legal(log) && e.workspace == w && [e] <= Unsettled(log, w)
    requires (VerdictOn([e.id], reply) == Accepted && settled == Acked(e))
          || (VerdictOn([e.id], reply) == Permanent && settled == Quarantined(e))
    ensures Advances(log, [Sent(b, [e], reply), settled], w, 1)
  {
    hide Legal, Unsettled, Settled, WasAcknowledged, WasRefusedAlone, VerdictOn, AllOf;
    var sent := Sent(b, [e], reply);
    AloneIsAll(e);
    OfferIsJustified(log, b, [e], reply, w);
    SettleNone(log, sent, w);
    RetryEvidence(log, b, e, reply);
    assert Unsettled(log, w)[0..] == Unsettled(log, w);
    SettleHead(log + [sent], settled, w);
    AdvancesMany(log, [sent], [settled], w, 0, 1);
    assert [sent] + [settled] == [sent, settled];
  }

  lemma AloneIsAll(e: Event)
    ensures AllOf([e], e.workspace)
  {
  }

  lemma RetryEvidence(log: seq<Step>, b: BackendId, e: Event, reply: Reply)
    ensures VerdictOn([e.id], reply) == Accepted ==> WasAcknowledged(log + [Sent(b, [e], reply)], e)
    ensures VerdictOn([e.id], reply) == Permanent ==> WasRefusedAlone(log + [Sent(b, [e], reply)], e)
  {
    hide VerdictOn;
    var sent := Sent(b, [e], reply);
    assert (log + [sent])[|log|] == sent;
    assert Ids([e]) == [e.id];
  }

  lemma RetryStopLegal(b: BackendId, log: seq<Step>, w: WorkspaceId, e: Event, reply: Reply)
    requires Legal(log) && e.workspace == w && [e] <= Unsettled(log, w)
    ensures Advances(log, [Sent(b, [e], reply)], w, 0)
    ensures Advances(log, [Sent(b, [e], reply), StoreFailed(e)], w, 0)
  {
    hide Legal, Settled, Unsettled;
    var sent := Sent(b, [e], reply);
    OfferIsJustified(log, b, [e], reply, w);
    SettleNone(log, sent, w);
    SettleNone(log + [sent], StoreFailed(e), w);
    AdvancesMany(log, [sent], [StoreFailed(e)], w, 0, 0);
    assert [sent] + [StoreFailed(e)] == [sent, StoreFailed(e)];
  }

  lemma {:induction false} RetryEachLegal(env: Env, b: BackendId, calls: nat, ops: nat, log: seq<Step>, w: WorkspaceId,
                                          window: seq<Event>)
    returns (n: nat)
    requires Legal(log) && AllOf(window, w) && window <= Unsettled(log, w)
    ensures n <= |window| && Advances(log, RetryEach(env, b, calls, ops, window).steps, w, n)
    ensures RetryEach(env, b, calls, ops, window).done ==> n == |window|
    decreases |window|
  {
    hide Legal, Settled, Unsettled, Justified;
    n := 0;
    if window == [] || !window[0].wellFormed {
      NoSteps(log, w);
    } else {
      var e, reply := window[0], env.reply(b, calls);
      var verdict := VerdictOn([e.id], reply);
      assert [e] <= Unsettled(log, w);
      if verdict == Transient || !env.storeWorks(ops) {
        RetryStopLegal(b, log, w, e, reply);
      } else {
        var settled := if verdict == Permanent then Quarantined(e) else Acked(e);
        var first := [Sent(b, [e], reply), settled];
        RetryHeadLegal(b, log, w, e, reply, settled);
        var k := RetryEachLegal(env, b, calls + 1, ops + 1, log + first, w, window[1..]);
        AdvancesMany(log, first, RetryEach(env, b, calls + 1, ops + 1, window[1..]).steps, w, 1, k);
        n := k + 1;
      }
    }
  }

  lemma OfferWindowLegal(env: Env, b: BackendId, calls: nat, ops: nat, log: seq<Step>, w: WorkspaceId,
                         window: seq<Event>)
    returns (n: nat)
    requires Legal(log) && AllOf(window, w) && window <= Unsettled(log, w) && 1 <= |window| <= WINDOW
    ensures n <= |window| && Advances(log, OfferWindow(env, b, calls, ops, window).steps, w, n)
    ensures OfferWindow(env, b, calls, ops, window).outcome == Drained ==> n == |window|
  {
    hide Legal, Settled, Unsettled, Justified, RetryEach, AckEach;
    n := 0;
    NoSteps(log, w);
    if AllWellFormed(window) {
      var reply := env.reply(b, calls);
      var sent, verdict := Sent(b, window, reply), VerdictOn(Ids(window), reply);
      OfferIsJustified(log, b, window, reply, w);
      SettleNone(log, sent, w);
      if verdict == Permanent {
        n := RetryEachLegal(env, b, calls + 1, ops, log + [sent], w, window);
        AdvancesMany(log, [sent], RetryEach(env, b, calls + 1, ops, window).steps, w, 0, n);
      } else if verdict == Accepted {
        AcceptanceIsEvidence(log, b, window, reply);
        n := AckEachLegal(env, ops, log + [sent], w, window);
        AdvancesMany(log, [sent], AckEach(env, ops, window).steps, w, 0, n);
      }
    }
  }

  lemma {:induction false} DrainGroupLegal(env: Env, b: BackendId, calls: nat, ops: nat, log: seq<Step>,
                                           w: WorkspaceId, events: seq<Event>)
    returns (n: nat)
    requires Legal(log) && AllOf(events, w) && events <= Unsettled(log, w)
    ensures n <= |events| && Advances(log, DrainGroup(env, b, calls, ops, events).steps, w, n)
    ensures DrainGroup(env, b, calls, ops, events).outcome == Drained ==> n == |events|
    decreases |events|
  {
    hide Legal, Settled, Unsettled, StoreOps, CallsTo, OfferWindow;
    n := 0;
    if events == [] {
      NoSteps(log, w);
    } else {
      hide DrainGroup;
      var m, first, calls', ops' := DrainGroupStep(env, b, calls, ops, events);
      n := OfferWindowLegal(env, b, calls, ops, log, w, events[..m]);
      if first.outcome == Drained {
        var r := DrainGroupLegal(env, b, calls', ops', log + first.steps, w, events[m..]);
        AdvancesMany(log, first.steps, DrainGroup(env, b, calls', ops', events[m..]).steps, w, m, r);
        n := m + r;
      }
    }
  }

  // --------------------------------------------- a whole pass over a legal log

  /** No step of a pass enqueues, and a piece run for `w` concerns `w` alone. */
  predicate OnlyFor(steps: seq<Step>, w: WorkspaceId) {
    forall s :: s in steps ==> !s.Enqueued? && (s.Sent? ==> AllOf(s.batch, w)) && (!s.Sent? ==> s.event.workspace == w)
  }

  lemma {:induction false} AckEachOnlyFor(env: Env, ops: nat, w: WorkspaceId, window: seq<Event>)
    requires AllOf(window, w)
    ensures OnlyFor(AckEach(env, ops, window).steps, w)
    decreases |window|
  {
    if window != [] {
      AckEachOnlyFor(env, ops + 1, w, window[1..]);
    }
  }

  lemma {:induction false} RetryEachOnlyFor(env: Env, b: BackendId, calls: nat, ops: nat, w: WorkspaceId,
                                            window: seq<Event>)
    requires AllOf(window, w)
    ensures OnlyFor(RetryEach(env, b, calls, ops, window).steps, w)
    decreases |window|
  {
    if window != [] {
      RetryEachOnlyFor(env, b, calls + 1, ops + 1, w, window[1..]);
    }
  }

  lemma OfferWindowOnlyFor(env: Env, b: BackendId, calls: nat, ops: nat, w: WorkspaceId, window: seq<Event>)
    requires AllOf(window, w)
    ensures OnlyFor(OfferWindow(env, b, calls, ops, window).steps, w)
  {
    hide AckEach, RetryEach, VerdictOn, AllWellFormed;
    AckEachOnlyFor(env, ops, w, window);
    RetryEachOnlyFor(env, b, calls + 1, ops, w, window);
  }

  lemma {:induction false} DrainGroupOnlyFor(env: Env, b: BackendId, calls: nat, ops: nat, w: WorkspaceId,
                                             events: seq<Event>)
    requires AllOf(events, w)
    ensures OnlyFor(DrainGroup(env, b, calls, ops, events).steps, w)
    decreases |events|
  {
    if events != [] {
      hide DrainGroup, OfferWindow, CallsTo, StoreOps;
      var n, first, calls', ops' := DrainGroupStep(env, b, calls, ops, events);
      OfferWindowOnlyFor(env, b, calls, ops, w, events[..n]);
      if first.outcome == Drained {
        DrainGroupOnlyFor(env, b, calls', ops', w, events[n..]);
      }
    }
  }

  lemma {:induction false} OthersUntouched(steps: seq<Step>, w: WorkspaceId, v: WorkspaceId)
    requires OnlyFor(steps, w)
    ensures Enqueues(steps, v) == []
    ensures v != w ==> Settled(steps, v) == []
  {
    if steps != [] {
      assert Last(steps) in steps;
      assert OnlyFor(Front(steps), w);
      OthersUntouched(Front(steps), w, v);
    }
  }

  lemma GroupMember(snapshot: seq<Event>, w: WorkspaceId, e: Event)
    ensures e in Group(snapshot, w) <==> e in snapshot && e.workspace == w
  {
    FilterIs(snapshot, (d: Event) => d.workspace == w, e);
  }

  lemma GroupAllOf(snapshot: seq<Event>, w: WorkspaceId)
    ensures AllOf(Group(snapshot, w), w)
  {
    forall e | e in Group(snapshot, w) ensures e.workspace == w {
      GroupMember(snapshot, w, e);
    }
  }

  lemma UntouchedAfter(log: seq<Step>, steps: seq<Step>, w: WorkspaceId, v: WorkspaceId)
    requires OnlyFor(steps, w) && v != w
    ensures Settled(log + steps, v) == Settled(log, v) && Unsettled(log + steps, v) == Unsettled(log, v)
  {
    OthersUntouched(steps, w, v);
    ProjectionsConcat(log, steps, v);
  }

  predicate Distinct(order: seq<WorkspaceId>) {
    forall i, j :: 0 <= i < j < |order| ==> order[i] != order[j]
  }

  /** A pass may go on when its log is legal, its flags agree, and the groups still to be
      visited are the oldest unsettled events of their workspaces.
   */
  ghost predicate Ready(log: seq<Step>, p: Progress, snapshot: seq<Event>, order: seq<WorkspaceId>) {
    && Legal(log + p.steps)
    && Distinct(order)
    && (p.healthy ==> p.failed == {} && !p.aborted)
    && forall w :: w in order ==>
         Group(snapshot, w) <= Unsettled(log + p.steps, w) && Settled(log + p.steps, w) == Settled(log, w)
  }

  /** One turn keeps the pass ready and settles a prefix of that workspace's group only. */
  lemma TurnIsLegal(env: Env, snapshot: seq<Event>, log: seq<Step>, p: Progress, order: seq<WorkspaceId>)
    returns (n: nat)
    requires order != [] && Ready(log, p, snapshot, order)
    ensures var q, w := Turn(env, snapshot, order[0], p), order[0];
            && Ready(log, q, snapshot, order[1..])
            && n <= |Group(snapshot, w)|
            && Settled(log + q.steps, w) == Settled(log, w) + Group(snapshot, w)[..n]
            && (q.healthy ==> n == |Group(snapshot, w)|)
            && forall v :: v != w ==> Settled(log + q.steps, v) == Settled(log + p.steps, v)
  {
    hide Legal, Settled, Unsettled, Enqueues, StoreOps, CallsTo, DrainGroup, Group;
    n := 0;
    var w := order[0];
    var b, group := env.backendOf(w), Group(snapshot, w);
    assert group[..0] == [];
    if !(p.aborted || b in p.failed || !env.hasSender(w)) {
      var calls, ops := CallsTo(p.steps, b), StoreOps(p.steps);
      var steps := DrainGroup(env, b, calls, ops, group).steps;
      var now, next := log + p.steps, log + (p.steps + steps);
      assert next == now + steps;
      GroupAllOf(snapshot, w);
      DrainGroupOnlyFor(env, b, calls, ops, w, group);
      n := DrainGroupLegal(env, b, calls, ops, now, w, group);
      assert group[..n] == Unsettled(now, w)[..n];
      forall v | v != w
        ensures Settled(next, v) == Settled(now, v) && Unsettled(next, v) == Unsettled(now, v)
      {
        UntouchedAfter(now, steps, w, v);
      }
    }
  }

  /** Every step of a pass is justified when it happens, and each visited workspace has a
      prefix of its group settled: the whole of it, if the pass reports healthy.
   */
  lemma {:induction false} DrainAllLegal(env: Env, snapshot: seq<Event>, order: seq<WorkspaceId>, log: seq<Step>,
                                         p: Progress)
    requires Ready(log, p, snapshot, order)
    ensures var q := DrainAll(env, snapshot, order, p);
            && Legal(log + q.steps)
            && (q.healthy ==> p.healthy)
            && (forall w :: w in order ==>
                  (&& Settled(log, w) <= Settled(log + q.steps, w) <= Settled(log, w) + Group(snapshot, w)
                   && (q.healthy ==> Settled(log + q.steps, w) == Settled(log, w) + Group(snapshot, w))))
            && (forall w :: w !in order ==> Settled(log + q.steps, w) == Settled(log + p.steps, w))
    decreases |order|
  {
    hide Legal, Settled, Unsettled, Enqueues, StoreOps, CallsTo, DrainGroup, Group;
    if order != [] {
      var n := TurnIsLegal(env, snapshot, log, p, order);
      assert order == [order[0]] + order[1..] && order[0] !in order[1..];
      DrainAllLegal(env, snapshot, order[1..], log, Turn(env, snapshot, order[0], p));
    }
  }

  /** A snapshot is what the queue holds unsettled, workspace by workspace. */
  ghost predicate SnapshotOf(log: seq<Step>, snapshot: seq<Event>) {
    forall w :: Group(snapshot, w) == Unsettled(log, w)
  }

  lemma {:induction false} OrderIs(env: Env, snapshot: seq<Event>)
    ensures Distinct(Order(env, snapshot))
    ensures forall w :: w in Order(env, snapshot) <==> !env.paused(w) && exists e :: e in snapshot && e.workspace == w
  {
    if snapshot != [] {
      var front, last := snapshot[..|snapshot| - 1], snapshot[|snapshot| - 1];
      OrderIs(env, front);
      assert snapshot == front + [last];
      assert forall e :: e in snapshot <==> e in front || e == last;
    }
  }

  /** The guarantee of one pass.  It keeps the log legal; a workspace paused in the snapshot
      has nothing settled; any other has a prefix of its waiting events settled; and a pass that
      reports success settled every waiting event of every unpaused workspace.
   */
  lemma FlushGuarantee(env: Env, log: seq<Step>, snapshot: seq<Event>, w: WorkspaceId)
    requires Legal(log) && SnapshotOf(log, snapshot)
    ensures var pass := FlushSnapshot(env, snapshot);
            var after := log + pass.steps;
            && Legal(after)
            && (env.paused(w) ==> Settled(after, w) == Settled(log, w))
            && Settled(log, w) <= Settled(after, w) <= Settled(log, w) + Unsettled(log, w)
            && (pass.healthy && !env.paused(w) ==> Settled(after, w) == Settled(log, w) + Unsettled(log, w))
  {
    hide Legal, Settled, Unsettled, Enqueues, DrainAll, Group, Order;
    var order := Order(env, snapshot);
    OrderIs(env, snapshot);
    assert log + [] == log;
    DrainAllLegal(env, snapshot, order, log, START);
    if w !in order && !env.paused(w) {
      if Group(snapshot, w) != [] {
        GroupMember(snapshot, w, Group(snapshot, w)[0]);
        assert false;
      }
    }
  }
}
