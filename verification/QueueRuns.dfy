/** Whole runs of the queue: enqueues and passes interleaved, whatever backends and store do. */
module QueueRuns {
  import opened QueueLog
  import opened FlushPass
  import opened Collections

  // ------------------------------------------------------ the tables the log implies

  /** Inserts a row at its place in the order the pending query reads: by workspace, then sequence. */
  function Insert(table: seq<Event>, e: Event): seq<Event> {
    if table == [] || table[|table| - 1].workspace <= e.workspace then table + [e]
    else Insert(table[..|table| - 1], e) + [table[|table| - 1]]
  }

  function Table(log: seq<Step>): seq<Event> {
    if log == [] then []
    else if Last(log).Enqueued? then Insert(Table(Front(log)), Last(log).event)
    else Table(Front(log))
  }

  function AckedIds(log: seq<Step>): set<EventId> {
    if log == [] then {}
    else AckedIds(Front(log)) + if Last(log).Acked? then {Last(log).event.id} else {}
  }

  /** Quarantining leaves an acknowledged row alone. */
  function QuarantinedIds(log: seq<Step>): set<EventId> {
    if log == [] then {}
    else if Last(log).Quarantined? && Last(log).event.id !in AckedIds(Front(log))
    then QuarantinedIds(Front(log)) + {Last(log).event.id}
    else QuarantinedIds(Front(log))
  }

  function Waiting(table: seq<Event>, settled: set<EventId>): seq<Event> {
    Filter(table, (e: Event) => e.id !in settled)
  }

  /** What the pending query returns. */
  function Snapshot(log: seq<Step>): seq<Event> {
    Waiting(Table(log), AckedIds(log) + QuarantinedIds(log))
  }

  lemma GroupSnoc(x: seq<Event>, e: Event, w: WorkspaceId)
    ensures Group(x + [e], w) == Group(x, w) + if e.workspace == w then [e] else []
  {
    FilterLast(x, e, (d: Event) => d.workspace == w);
  }

  lemma {:induction false} InsertSorts(table: seq<Event>, e: Event)
    requires forall i, j :: 0 <= i < j < |table| ==> table[i].workspace <= table[j].workspace
    ensures forall d :: d in Insert(table, e) <==> d == e || d in table
    ensures forall i, j :: 0 <= i < j < |Insert(table, e)| ==>
        Insert(table, e)[i].workspace <= Insert(table, e)[j].workspace
  {
    if table != [] && table[|table| - 1].workspace > e.workspace {
      var front, last := table[..|table| - 1], table[|table| - 1];
      InsertSorts(front, e);
      assert table == front + [last];
      forall d | d in Insert(front, e) ensures d.workspace <= last.workspace {
        if d in front {
          var i :| 0 <= i < |front| && front[i] == d;
          assert table[i] == d;
        }
      }
    }
  }

  lemma {:induction false} InsertGroup(table: seq<Event>, e: Event, w: WorkspaceId)
    requires forall i, j :: 0 <= i < j < |table| ==> table[i].workspace <= table[j].workspace
    ensures Group(Insert(table, e), w) == Group(table, w) + if e.workspace == w then [e] else []
  {
    if table == [] || table[|table| - 1].workspace <= e.workspace {
      GroupSnoc(table, e, w);
    } else {
      var front, last := table[..|table| - 1], table[|table| - 1];
      InsertGroup(front, e, w);
      GroupSnoc(front, last, w);
      GroupSnoc(Insert(front, e), last, w);
      assert table == front + [last];
    }
  }

  /** The table is ordered, and each workspace's rows are its enqueues in order. */
  lemma {:induction false} TableIs(log: seq<Step>, w: WorkspaceId)
    ensures forall i, j :: 0 <= i < j < |Table(log)| ==> Table(log)[i].workspace <= Table(log)[j].workspace
    ensures Group(Table(log), w) == Enqueues(log, w)
  {
    if log != [] {
      TableIs(Front(log), w);
      if Last(log).Enqueued? {
        InsertSorts(Table(Front(log)), Last(log).event);
        InsertGroup(Table(Front(log)), Last(log).event, w);
      }
    }
  }

  lemma {:induction false} SettledIdsWhere(log: seq<Step>, id: EventId)
    ensures id in AckedIds(log) + QuarantinedIds(log) <==>
            exists i :: 0 <= i < |log| && Settles(log[i]) && log[i].event.id == id
  {
    if log != [] {
      SettledIdsWhere(Front(log), id);
      assert forall i :: 0 <= i < |log| - 1 ==> Front(log)[i] == log[i];
    }
  }

  lemma SettledIdOf(log: seq<Step>, e: Event)
    requires Legal(log) && Enqueued(e) in log
    ensures e.id in AckedIds(log) + QuarantinedIds(log) <==> Acked(e) in log || Quarantined(e) in log
  {
    SettledIdsWhere(log, e.id);
    if e.id in AckedIds(log) + QuarantinedIds(log) {
      var i :| 0 <= i < |log| && Settles(log[i]) && log[i].event.id == e.id;
      var d := log[i].event;
      assert log[i] in log;
      ExactlyOneState(log, d);
      EnqueuedIdUnique(log, d, e);
    }
  }

  lemma WaitingSnoc(table: seq<Event>, i: nat, settled: set<EventId>)
    requires i < |table|
    ensures Waiting(table[..i + 1], settled)
         == Waiting(table[..i], settled) + if table[i].id in settled then [] else [table[i]]
  {
    FilterSnoc(table, i, (e: Event) => e.id !in settled);
  }

  lemma WaitingRest(gone: seq<Event>, left: seq<Event>, ids: set<EventId>)
    requires forall e :: e in gone ==> e.id in ids
    requires forall e :: e in left ==> e.id !in ids
    ensures Waiting(gone + left, ids) == left
  {
    var keep := (e: Event) => e.id !in ids;
    FilterConcat(gone, left, keep);
    FilterAll(gone, keep);
    FilterAll(left, keep);
  }

  /** The pending query of a legal log lists exactly the unsettled events, in order. */
  lemma SnapshotIs(log: seq<Step>)
    requires Legal(log)
    ensures SnapshotOf(log, Snapshot(log))
  {
    hide Legal, Enqueues, Settled, Table, AckedIds, QuarantinedIds, Filter;
    var ids := AckedIds(log) + QuarantinedIds(log);
    forall w ensures Group(Snapshot(log), w) == Unsettled(log, w) {
      TableIs(log, w);
      FilterCommutes(Table(log), (e: Event) => e.id !in ids, (e: Event) => e.workspace == w);
      SettledInOrder(log, w);
      forall e | e in Enqueues(log, w)
        ensures e in Settled(log, w) ==> e.id in ids
        ensures e in Unsettled(log, w) ==> e.id !in ids
      {
        EnqueuedWhere(log, w, e);
        SettledWhere(log, w, e);
        SettledIdOf(log, e);
        ExactlyOneState(log, e);
      }
      WaitingRest(Settled(log, w), Unsettled(log, w), ids);
    }
  }

  // --------------------------------------------------------------------------- runs

  /** A request to queue something; `encodes` says whether it can be written as JSON at all. */
  datatype Request = Request(id: EventId, workspace: WorkspaceId, encodes: bool)

  /** What encodes is stored in that encoding under the next sequence number, unless the id is taken. */
  function Enqueue(log: seq<Step>, r: Request): seq<Step> {
    if !r.encodes || Known(log, r.id) then log
    else log + [Enqueued(Event(r.id, r.workspace, |Enqueues(log, r.workspace)| + 1, true))]
  }

  /** An enqueue adds its event exactly when the payload encodes and no event had that id, and numbers it
      one more than the workspace's last.
   */
  lemma EnqueuedExactlyWhen(log: seq<Step>, r: Request)
    requires Legal(log)
    ensures var queued := Enqueues(log, r.workspace);
            var isNew := r.encodes && forall s :: s in log && s.Enqueued? ==> s.event.id != r.id;
            var last := if queued == [] then 0 else queued[|queued| - 1].sequence;
            Enqueue(log, r) == log + (if isNew then [Enqueued(Event(r.id, r.workspace, last + 1, true))] else [])
  {
    var queued := Enqueues(log, r.workspace);
    if queued != [] {
      SequenceIsPosition(log, r.workspace, |queued| - 1);
    }
    assert log + [] == log;
  }

  function EnqueueAll(log: seq<Step>, rs: seq<Request>): seq<Step>
    decreases |rs|
  {
    if rs == [] then log else EnqueueAll(Enqueue(log, rs[0]), rs[1..])
  }

  /** The steps of a pass with enqueues landing before each of them and after the last. */
  function Weave(log: seq<Step>, steps: seq<Step>, arrivals: nat -> seq<Request>, i: nat): seq<Step>
    requires i <= |steps|
    decreases |steps| - i
  {
    var now := EnqueueAll(log, arrivals(i));
    if i == |steps| then now else Weave(now + [steps[i]], steps, arrivals, i + 1)
  }

  datatype Action = Arrive(request: Request) | Flush(env: Env, arrivals: nat -> seq<Request>)

  function Run(actions: seq<Action>): seq<Step> {
    if actions == [] then []
    else
      var log := Run(actions[..|actions| - 1]);
      match actions[|actions| - 1]
      case Arrive(r) => Enqueue(log, r)
      case Flush(env, arrivals) => Weave(log, FlushSnapshot(env, Snapshot(log)).steps, arrivals, 0)
  }

  /** The actual log has at least the enqueues and offers of the undisturbed one, and the same settlements. */
  ghost predicate Covers(actual: seq<Step>, plain: seq<Step>) {
    && (forall w :: Settled(actual, w) == Settled(plain, w))
    && (forall w :: Enqueues(plain, w) <= Enqueues(actual, w))
    && (forall s :: s in plain ==> s in actual)
  }

  /** A justified step stays justified when more events have been enqueued meanwhile. */
  lemma CoversJustifies(actual: seq<Step>, plain: seq<Step>, step: Step)
    requires Legal(actual) && Legal(plain) && Covers(actual, plain) && !step.Enqueued? && Justified(plain, step)
    ensures Justified(actual, step)
  {
    hide Legal, Settled, Enqueues;
    forall w ensures Unsettled(plain, w) <= Unsettled(actual, w) {
      SettledInOrder(plain, w);
      SettledInOrder(actual, w);
    }
    if step.Acked? {
      var i :| 0 <= i < |plain| && plain[i].Sent? && step.event in plain[i].batch
            && VerdictOn(Ids(plain[i].batch), plain[i].reply) == Accepted;
      assert plain[i] in actual;
    } else if step.Quarantined? {
      var i :| 0 <= i < |plain| && plain[i].Sent? && plain[i].batch == [step.event]
            && VerdictOn([step.event.id], plain[i].reply) == Permanent;
      assert plain[i] in actual;
    }
  }

  lemma CoversStep(actual: seq<Step>, plain: seq<Step>, step: Step)
    requires Covers(actual, plain) && !step.Enqueued?
    ensures Covers(actual + [step], plain + [step])
  {
    forall w ensures Settled(actual + [step], w) == Settled(plain + [step], w)
             ensures Enqueues(plain + [step], w) <= Enqueues(actual + [step], w)
    {
      AfterStep(actual, step, w);
      AfterStep(plain, step, w);
    }
  }

  lemma {:induction false} EnqueueAllLegal(actual: seq<Step>, plain: seq<Step>, rs: seq<Request>)
    requires Legal(actual) && Covers(actual, plain)
    ensures Legal(EnqueueAll(actual, rs)) && Covers(EnqueueAll(actual, rs), plain)
    decreases |rs|
  {
    if rs != [] {
      var r := rs[0];
      var next := Enqueue(actual, r);
      EnqueueLegal(actual, r);
      forall w ensures Settled(next, w) == Settled(plain, w) && Enqueues(plain, w) <= Enqueues(next, w) {
        EnqueueAdds(actual, r, w);
      }
      assert Covers(next, plain);
      EnqueueAllLegal(next, plain, rs[1..]);
    }
  }

  lemma EnqueueLegal(log: seq<Step>, r: Request)
    requires Legal(log)
    ensures Legal(Enqueue(log, r))
  {
    if r.encodes && !Known(log, r.id) {
      LegalSnoc(log, Enqueue(log, r)[|log|]);
    }
  }

  lemma EnqueueAdds(log: seq<Step>, r: Request, w: WorkspaceId)
    ensures log <= Enqueue(log, r)
    ensures Settled(Enqueue(log, r), w) == Settled(log, w)
    ensures Enqueues(log, w) <= Enqueues(Enqueue(log, r), w)
  {
    if r.encodes && !Known(log, r.id) {
      var e := Enqueue(log, r)[|log|..];
      assert Enqueue(log, r) == log + e;
      ProjectionsConcat(log, e, w);
      assert Front(e) == [] && Last(e).Enqueued?;
    }
  }

  lemma WeaveStep(log: seq<Step>, steps: seq<Step>, arrivals: nat -> seq<Request>, i: nat)
    requires i <= |steps|
    ensures var now := EnqueueAll(log, arrivals(i));
            Weave(log, steps, arrivals, i)
            == if i == |steps| then now else Weave(now + [steps[i]], steps, arrivals, i + 1)
  {
    hide EnqueueAll;
  }

  lemma WeaveAt(plain: seq<Step>, steps: seq<Step>, i: nat)
    requires i < |steps|
    ensures steps[i] in steps
    ensures (plain + steps)[..|plain| + i] == plain + steps[..i] && (plain + steps)[|plain| + i] == steps[i]
    ensures plain + steps[..i] + [steps[i]] == plain + steps[..i + 1]
  {
  }

  lemma {:induction false} WeaveLegal(actual: seq<Step>, plain: seq<Step>, steps: seq<Step>,
                                      arrivals: nat -> seq<Request>, i: nat)
    requires i <= |steps| && Legal(actual) && Legal(plain + steps)
    requires Covers(actual, plain + steps[..i])
    requires forall s :: s in steps ==> !s.Enqueued?
    ensures Legal(Weave(actual, steps, arrivals, i))
    ensures Covers(Weave(actual, steps, arrivals, i), plain + steps)
    decreases |steps| - i
  {
    hide Legal, Covers, Justified, Weave, EnqueueAll;
    var now := EnqueueAll(actual, arrivals(i));
    WeaveStep(actual, steps, arrivals, i);
    EnqueueAllLegal(actual, plain + steps[..i], arrivals(i));
    if i == |steps| {
      assert steps[..i] == steps;
    } else {
      var before, step := plain + steps[..i], steps[i];
      WeaveAt(plain, steps, i);
      LegalAt(plain + steps, |plain| + i);
      CoversJustifies(now, before, step);
      LegalSnoc(now, step);
      CoversStep(now, before, step);
      WeaveLegal(now + [step], plain, steps, arrivals, i + 1);
    }
  }

  lemma LegalAt(log: seq<Step>, k: nat)
    requires Legal(log) && k < |log|
    ensures Legal(log[..k]) && Justified(log[..k], log[k])
  {
    LegalPrefix(log, k);
    LegalPrefix(log, k + 1);
    assert Front(log[..k + 1]) == log[..k] && Last(log[..k + 1]) == log[k];
  }

  lemma {:induction false} PassEnqueuesNothing(env: Env, snapshot: seq<Event>, order: seq<WorkspaceId>, p: Progress)
    requires forall s :: s in p.steps ==> !s.Enqueued?
    ensures forall s :: s in DrainAll(env, snapshot, order, p).steps ==> !s.Enqueued?
    decreases |order|
  {
    if order != [] {
      hide DrainGroup, CallsTo, StoreOps, Group;
      var w := order[0];
      var b := env.backendOf(w);
      GroupAllOf(snapshot, w);
      DrainGroupOnlyFor(env, b, CallsTo(p.steps, b), StoreOps(p.steps), w, Group(snapshot, w));
      PassEnqueuesNothing(env, snapshot, order[1..], Turn(env, snapshot, w, p));
    }
  }

  /** Safety of every run.  With `ExactlyOneState`, `SettlementsEvidenced` and `NoOvertaking`
      this says what holds of every event at every moment of every run.
   */
  lemma {:induction false} EveryRunIsLegal(actions: seq<Action>)
    ensures Legal(Run(actions))
  {
    if actions != [] {
      var log := Run(actions[..|actions| - 1]);
      EveryRunIsLegal(actions[..|actions| - 1]);
      match actions[|actions| - 1] {
        case Arrive(r) =>
          EnqueueLegal(log, r);
        case Flush(env, arrivals) =>
          PassAmidArrivals(log, env, arrivals);
      }
    }
  }

  /** What a pass settles does not depend on the enqueues that land while it runs. */
  lemma PassAmidArrivals(log: seq<Step>, env: Env, arrivals: nat -> seq<Request>)
    requires Legal(log)
    ensures var steps := FlushSnapshot(env, Snapshot(log)).steps;
            var after := Weave(log, steps, arrivals, 0);
            Legal(after) && Covers(after, log + steps)
  {
    hide Legal, Covers, SnapshotOf, DrainAll, Order, Snapshot;
    var snapshot := Snapshot(log);
    var steps := FlushSnapshot(env, snapshot).steps;
    SnapshotIs(log);
    FlushGuarantee(env, log, snapshot, 0);
    PassEnqueuesNothing(env, snapshot, Order(env, snapshot), START);
    CoversItself(log);
    assert log + steps[..0] == log;
    WeaveLegal(log, log, steps, arrivals, 0);
  }

  lemma CoversItself(log: seq<Step>)
    ensures Covers(log, log)
  {
  }
}
