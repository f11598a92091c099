/** When exactly a pass succeeds, and how often it offers an event. */
module FlushLaws {
  import opened QueueLog
  import opened FlushPass

  // --------------------------------------------------- when a pass reports success

  predicate TransientStep(step: Step) {
    step.Sent? && VerdictOn(Ids(step.batch), step.reply) == Transient
  }

  /** Nothing in these steps was worth retrying later. */
  predicate Clean(steps: seq<Step>) {
    forall s :: s in steps ==> !TransientStep(s) && !s.StoreFailed?
  }

  lemma CleanConcat(a: seq<Step>, b: seq<Step>)
    ensures Clean(a + b) <==> Clean(a) && Clean(b)
  {
    assert forall s :: s in a + b <==> s in a || s in b;
  }

  lemma {:induction false} AckEachDone(env: Env, ops: nat, window: seq<Event>)
    ensures AckEach(env, ops, window).done <==> Clean(AckEach(env, ops, window).steps)
    decreases |window|
  {
    if window != [] {
      if env.storeWorks(ops) {
        AckEachDone(env, ops + 1, window[1..]);
        CleanConcat([Acked(window[0])], AckEach(env, ops + 1, window[1..]).steps);
      } else {
        assert StoreFailed(window[0]) in AckEach(env, ops, window).steps;
      }
    }
  }

  lemma {:induction false} RetryEachDone(env: Env, b: BackendId, calls: nat, ops: nat, window: seq<Event>)
    requires AllWellFormed(window)
    ensures RetryEach(env, b, calls, ops, window).done <==> Clean(RetryEach(env, b, calls, ops, window).steps)
    decreases |window|
  {
    if window != [] {
      var e, reply := window[0], env.reply(b, calls);
      var sent := Sent(b, [e], reply);
      assert e in window;
      assert Ids([e]) == [e.id];
      var steps := RetryEach(env, b, calls, ops, window).steps;
      if VerdictOn([e.id], reply) == Transient {
        assert sent in steps && TransientStep(sent);
      } else if !env.storeWorks(ops) {
        assert StoreFailed(e) in steps;
      } else {
        RetryEachDone(env, b, calls + 1, ops + 1, window[1..]);
        CleanConcat(steps[..2], RetryEach(env, b, calls + 1, ops + 1, window[1..]).steps);
      }
    }
  }

  /** A window refused as a whole is retried one by one, so a permanent refusal never stops a pass. */
  lemma OfferWindowDrains(env: Env, b: BackendId, calls: nat, ops: nat, window: seq<Event>)
    ensures var d := OfferWindow(env, b, calls, ops, window);
            d.outcome == Drained <==> AllWellFormed(window) && Clean(d.steps)
  {
    if AllWellFormed(window) {
      var sent := Sent(b, window, env.reply(b, calls));
      RetryEachDone(env, b, calls + 1, ops, window);
      AckEachDone(env, ops, window);
      CleanConcat([sent], RetryEach(env, b, calls + 1, ops, window).steps);
      CleanConcat([sent], AckEach(env, ops, window).steps);
      assert Clean([sent]) <==> !TransientStep(sent) by {
        assert sent in [sent];
      }
    }
  }

  lemma SplitWellFormed(events: seq<Event>, n: nat)
    requires n <= |events|
    ensures AllWellFormed(events) <==> AllWellFormed(events[..n]) && AllWellFormed(events[n..])
  {
    assert events == events[..n] + events[n..];
    assert forall e :: e in events <==> e in events[..n] || e in events[n..];
  }

  lemma {:induction false} DrainGroupDrains(env: Env, b: BackendId, calls: nat, ops: nat, events: seq<Event>)
    ensures var d := DrainGroup(env, b, calls, ops, events);
            d.outcome == Drained <==> AllWellFormed(events) && Clean(d.steps)
    decreases |events|
  {
    if events != [] {
      hide DrainGroup, OfferWindow, CallsTo, StoreOps, AllWellFormed, Clean;
      var n, first, calls', ops' := DrainGroupStep(env, b, calls, ops, events);
      OfferWindowDrains(env, b, calls, ops, events[..n]);
      SplitWellFormed(events, n);
      if first.outcome == Drained {
        DrainGroupDrains(env, b, calls', ops', events[n..]);
        CleanConcat(first.steps, DrainGroup(env, b, calls', ops', events[n..]).steps);
      }
    }
  }

  predicate Publishable(env: Env, snapshot: seq<Event>, w: WorkspaceId) {
    env.hasSender(w) && AllWellFormed(Group(snapshot, w))
  }

  lemma {:induction false} StepsGrow(env: Env, snapshot: seq<Event>, order: seq<WorkspaceId>, p: Progress)
    ensures p.steps <= DrainAll(env, snapshot, order, p).steps
    ensures !p.healthy ==> !DrainAll(env, snapshot, order, p).healthy
    decreases |order|
  {
    if order != [] {
      StepsGrow(env, snapshot, order[1..], Turn(env, snapshot, order[0], p));
    }
  }

  lemma TurnVerdict(env: Env, snapshot: seq<Event>, w: WorkspaceId, p: Progress)
    requires p.healthy && p.failed == {} && !p.aborted && Clean(p.steps)
    ensures var q := Turn(env, snapshot, w, p);
            && (q.healthy <==> Publishable(env, snapshot, w) && Clean(q.steps))
            && (q.healthy ==> q.failed == {} && !q.aborted)
  {
    hide DrainGroup, CallsTo, StoreOps, Group, TransientStep;
    var b := env.backendOf(w);
    if env.hasSender(w) {
      var calls, ops, group := CallsTo(p.steps, b), StoreOps(p.steps), Group(snapshot, w);
      DrainGroupDrains(env, b, calls, ops, group);
      CleanConcat(p.steps, DrainGroup(env, b, calls, ops, group).steps);
    }
  }

  lemma {:induction false} DrainAllVerdict(env: Env, snapshot: seq<Event>, order: seq<WorkspaceId>, p: Progress)
    requires p.healthy && p.failed == {} && !p.aborted && Clean(p.steps)
    ensures var q := DrainAll(env, snapshot, order, p);
            q.healthy <==> (forall w :: w in order ==> Publishable(env, snapshot, w)) && Clean(q.steps)
    decreases |order|
  {
    if order != [] {
      hide Turn, Publishable, TransientStep;
      var w := order[0];
      var next := Turn(env, snapshot, w, p);
      TurnVerdict(env, snapshot, w, p);
      StepsGrow(env, snapshot, order[1..], next);
      assert order == [w] + order[1..];
      if next.healthy {
        DrainAllVerdict(env, snapshot, order[1..], next);
      } else if Publishable(env, snapshot, w) {
        var end := DrainAll(env, snapshot, order[1..], next).steps;
        assert end == next.steps + end[|next.steps|..];
        CleanConcat(next.steps, end[|next.steps|..]);
      }
    }
  }

  /** A pass over any snapshot succeeds exactly when every unpaused workspace with work has a sender
      and payloads that can be batched, no offer failed for a passing reason, and every settlement
      was written.
   */
  lemma PassSucceedsExactlyWhen(env: Env, snapshot: seq<Event>)
    ensures var pass := FlushSnapshot(env, snapshot);
            pass.healthy <==>
              && (forall e :: e in snapshot && !env.paused(e.workspace) ==> env.hasSender(e.workspace) && e.wellFormed)
              && Clean(pass.steps)
  {
    hide DrainAll, Order, Group, TransientStep;
    var order := Order(env, snapshot);
    OrderIs(env, snapshot);
    DrainAllVerdict(env, snapshot, order, START);
    forall w, e | w in order && e in Group(snapshot, w)
      ensures e in snapshot && e.workspace == w && !env.paused(w)
    {
      GroupMember(snapshot, w, e);
    }
    forall e | e in snapshot && !env.paused(e.workspace)
      ensures e.workspace in order && e in Group(snapshot, e.workspace)
    {
      GroupMember(snapshot, e.workspace, e);
    }
  }

  /** Every payload the pending query returns can be batched. */
  lemma SnapshotWellFormed(log: seq<Step>, snapshot: seq<Event>)
    requires Legal(log) && SnapshotOf(log, snapshot)
    ensures AllWellFormed(snapshot)
  {
    hide Legal, Group, Enqueues, Settled;
    forall e | e in snapshot ensures e.wellFormed {
      GroupMember(snapshot, e.workspace, e);
      EnqueuedWhere(log, e.workspace, e);
      EnqueuedWellFormed(log, e);
    }
  }

  /** A pass over what a legal log has pending succeeds exactly when every unpaused workspace with
      work has a sender, no offer failed for a passing reason, and every settlement was written.
      Permanent refusals do not appear: a refused event never blocks the ones behind it.
   */
  lemma FlushSucceedsExactlyWhen(env: Env, log: seq<Step>, snapshot: seq<Event>)
    requires Legal(log) && SnapshotOf(log, snapshot)
    ensures var pass := FlushSnapshot(env, snapshot);
            pass.healthy <==>
              && (forall e :: e in snapshot && !env.paused(e.workspace) ==> env.hasSender(e.workspace))
              && Clean(pass.steps)
  {
    hide FlushSnapshot, Legal, SnapshotOf, Clean;
    PassSucceedsExactlyWhen(env, snapshot);
    SnapshotWellFormed(log, snapshot);
  }

  // ------------------------------------------------- how often an event is offered

  function Offers(steps: seq<Step>, e: Event): nat {
    if steps == [] then 0
    else (if steps[0].Sent? && e in steps[0].batch then 1 else 0) + Offers(steps[1..], e)
  }

  lemma {:induction false} OffersConcat(a: seq<Step>, b: seq<Step>, e: Event)
    ensures Offers(a + b, e) == Offers(a, e) + Offers(b, e)
  {
    if a == [] {
      assert a + b == b;
    } else {
      assert (a + b)[1..] == a[1..] + b;
      OffersConcat(a[1..], b, e);
    }
  }

  predicate NoRepeats(events: seq<Event>) {
    forall i, j :: 0 <= i < j < |events| ==> events[i] != events[j]
  }

  function Allowance(events: seq<Event>, e: Event): nat {
    if e in events then 2 else 0
  }

  lemma SplitNoRepeats(events: seq<Event>, n: nat, e: Event)
    requires NoRepeats(events) && n <= |events|
    ensures NoRepeats(events[..n]) && NoRepeats(events[n..])
    ensures Allowance(events, e) == Allowance(events[..n], e) + Allowance(events[n..], e)
  {
    assert events == events[..n] + events[n..];
  }

  lemma {:induction false} AckEachOffers(env: Env, ops: nat, window: seq<Event>, e: Event)
    ensures Offers(AckEach(env, ops, window).steps, e) == 0
    decreases |window|
  {
    if window != [] && env.storeWorks(ops) {
      AckEachOffers(env, ops + 1, window[1..], e);
      assert AckEach(env, ops, window).steps[1..] == AckEach(env, ops + 1, window[1..]).steps;
    }
  }

  lemma {:induction false} RetryEachOffers(env: Env, b: BackendId, calls: nat, ops: nat, window: seq<Event>, e: Event)
    requires NoRepeats(window)
    ensures Offers(RetryEach(env, b, calls, ops, window).steps, e) <= if e in window then 1 else 0
    decreases |window|
  {
    if window != [] && window[0].wellFormed {
      var head := Sent(b, [window[0]], env.reply(b, calls));
      var rest := RetryEach(env, b, calls + 1, ops + 1, window[1..]).steps;
      RetryEachOffers(env, b, calls + 1, ops + 1, window[1..], e);
      var steps := RetryEach(env, b, calls, ops, window).steps;
      assert Offers([head], e) == if e == window[0] then 1 else 0;
      OffersConcat([head], steps[1..], e);
      assert steps == [head] + steps[1..];
      if |steps| > 1 {
        OffersConcat([steps[1]], steps[2..], e);
        assert steps[1..] == [steps[1]] + steps[2..];
        assert Offers([steps[1]], e) == 0;
        assert steps[2..] == [] || steps[2..] == rest;
      }
      assert window == [window[0]] + window[1..] && window[0] !in window[1..];
    }
  }

  lemma OfferWindowOffers(env: Env, b: BackendId, calls: nat, ops: nat, window: seq<Event>, e: Event)
    requires NoRepeats(window)
    ensures Offers(OfferWindow(env, b, calls, ops, window).steps, e) <= Allowance(window, e)
  {
    hide RetryEach, AckEach, VerdictOn;
    if AllWellFormed(window) {
      var sent := [Sent(b, window, env.reply(b, calls))];
      AckEachOffers(env, ops, window, e);
      RetryEachOffers(env, b, calls + 1, ops, window, e);
      OffersConcat(sent, RetryEach(env, b, calls + 1, ops, window).steps, e);
      OffersConcat(sent, AckEach(env, ops, window).steps, e);
    }
  }

  lemma {:induction false} DrainGroupOffers(env: Env, b: BackendId, calls: nat, ops: nat, events: seq<Event>, e: Event)
    requires NoRepeats(events)
    ensures Offers(DrainGroup(env, b, calls, ops, events).steps, e) <= Allowance(events, e)
    decreases |events|
  {
    if events != [] {
      hide DrainGroup, OfferWindow, CallsTo, StoreOps, Offers, NoRepeats, Allowance;
      var n, first, calls', ops' := DrainGroupStep(env, b, calls, ops, events);
      SplitNoRepeats(events, n, e);
      OfferWindowOffers(env, b, calls, ops, events[..n], e);
      if first.outcome == Drained {
        DrainGroupOffers(env, b, calls', ops', events[n..], e);
        OffersConcat(first.steps, DrainGroup(env, b, calls', ops', events[n..]).steps, e);
      }
    }
  }

  lemma {:induction false} DrainAllOffers(env: Env, snapshot: seq<Event>, order: seq<WorkspaceId>, p: Progress,
                                          e: Event)
    requires Distinct(order)
    requires forall w :: w in order ==> NoRepeats(Group(snapshot, w))
    requires Offers(p.steps, e) <= if e.workspace in order then 0 else 2
    ensures Offers(DrainAll(env, snapshot, order, p).steps, e) <= 2
    decreases |order|
  {
    if order != [] {
      hide DrainGroup, CallsTo, StoreOps, Offers, Group;
      var w := order[0];
      var b, group := env.backendOf(w), Group(snapshot, w);
      var calls, ops := CallsTo(p.steps, b), StoreOps(p.steps);
      assert order == [w] + order[1..] && w !in order[1..];
      DrainGroupOffers(env, b, calls, ops, group, e);
      GroupMember(snapshot, w, e);
      OffersConcat(p.steps, DrainGroup(env, b, calls, ops, group).steps, e);
      DrainAllOffers(env, snapshot, order[1..], Turn(env, snapshot, w, p), e);
    }
  }

  lemma UnsettledNoRepeats(log: seq<Step>, w: WorkspaceId)
    requires Legal(log)
    ensures NoRepeats(Unsettled(log, w))
  {
    hide Legal, Settled, Enqueues;
    SettledInOrder(log, w);
    var n := |Settled(log, w)|;
    forall i, j | 0 <= i < j < |Unsettled(log, w)|
      ensures Unsettled(log, w)[i] != Unsettled(log, w)[j]
    {
      if Enqueues(log, w)[n + i] == Enqueues(log, w)[n + j] {
        EnqueuesDistinct(log, w, n + i, n + j);
      }
    }
  }

  /** No event is offered more than twice in one pass, windowing and one-by-one retry included. */
  lemma OfferedAtMostTwice(env: Env, log: seq<Step>, snapshot: seq<Event>, e: Event)
    requires Legal(log) && SnapshotOf(log, snapshot)
    ensures Offers(FlushSnapshot(env, snapshot).steps, e) <= 2
  {
    hide DrainAll, Order, Legal, Unsettled, Group, NoRepeats;
    OrderIs(env, snapshot);
    forall w ensures NoRepeats(Group(snapshot, w)) {
      UnsettledNoRepeats(log, w);
    }
    DrainAllOffers(env, snapshot, Order(env, snapshot), START, e);
  }
}
