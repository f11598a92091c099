/** The service itself.

    It holds the queue's tables and the loops of a pass, which take the steps `FlushPass` describes.
 */
module PublishService {
  import opened QueueLog
  import opened FlushPass
  import opened QueueRuns
  import opened Collections

  datatype Workspace = Workspace(id: WorkspaceId, paused: bool, backend: BackendId)

  /** The last row with this id; ids are unique in the table. */
  function Lookup(workspaces: seq<Workspace>, w: WorkspaceId): Option<Workspace> {
    if workspaces == [] then None
    else if workspaces[|workspaces| - 1].id == w then Some(workspaces[|workspaces| - 1])
    else Lookup(workspaces[..|workspaces| - 1], w)
  }

  /** A workspace the table does not list is not paused and has the empty backend id. */
  function EnvOf(workspaces: seq<Workspace>, hasSender: WorkspaceId -> bool,
                 reply: (BackendId, nat) -> Reply, storeWorks: nat -> bool): Env
  {
    Env((w: WorkspaceId) => Lookup(workspaces, w).Some? && Lookup(workspaces, w).value.paused,
        (w: WorkspaceId) => if Lookup(workspaces, w).Some? then Lookup(workspaces, w).value.backend else "",
        hasSender, reply, storeWorks)
  }

  /** A listed workspace is paused, and bound to a backend, as its row says; an unlisted one is neither. */
  lemma EnvTold(workspaces: seq<Workspace>, env: Env, i: nat, w: WorkspaceId)
    requires env == EnvOf(workspaces, env.hasSender, env.reply, env.storeWorks)
    requires forall j, k :: 0 <= j < k < |workspaces| ==> workspaces[j].id != workspaces[k].id
    ensures i < |workspaces| ==>
              && env.paused(workspaces[i].id) == workspaces[i].paused
              && env.backendOf(workspaces[i].id) == workspaces[i].backend
    ensures (forall row :: row in workspaces ==> row.id != w) ==> !env.paused(w) && env.backendOf(w) == ""
  {
    if i < |workspaces| {
      LookupTold(workspaces, i);
    }
    if forall row :: row in workspaces ==> row.id != w {
      NotListed(workspaces, w);
    }
  }

  lemma {:induction false} LookupTold(workspaces: seq<Workspace>, i: nat)
    requires i < |workspaces| && forall j, k :: 0 <= j < k < |workspaces| ==> workspaces[j].id != workspaces[k].id
    ensures Lookup(workspaces, workspaces[i].id) == Some(workspaces[i])
  {
    if i < |workspaces| - 1 {
      LookupTold(workspaces[..|workspaces| - 1], i);
    }
  }

  lemma {:induction false} NotListed(workspaces: seq<Workspace>, w: WorkspaceId)
    requires forall row :: row in workspaces ==> row.id != w
    ensures Lookup(workspaces, w) == None
  {
    if workspaces != [] {
      NotListed(workspaces[..|workspaces| - 1], w);
    }
  }

  /** Publishes one batch and reads the acknowledgement: no error exactly when the batch is
      nonempty and the reply lists every event of it together with a cursor.
   */
  method Send(batch: seq<EventId>, reply: Reply) returns (error: Option<SendError>)
    ensures error.None? <==> FullyAcknowledged(batch, reply)
    ensures error.None? <==> batch != [] && reply.Acknowledged? && reply.cursor != ""
                             && forall id :: id in batch ==> id in reply.accepted
    ensures batch != [] && reply.Refused? ==> error == Some(reply.error)
    ensures error.Some? && !(batch != [] && reply.Refused?) ==> error.value == OtherError
  {
    if batch == [] {
      return Some(OtherError);
    }
    if reply.Refused? {
      return Some(reply.error);
    }
    var accepted := {};
    for i := 0 to |reply.accepted|
      invariant forall id :: id in accepted <==> id in reply.accepted[..i]
    {
      assert reply.accepted[..i + 1] == reply.accepted[..i] + [reply.accepted[i]];
      accepted := accepted + {reply.accepted[i]};
    }
    assert reply.accepted[..|reply.accepted|] == reply.accepted;
    for i := 0 to |batch|
      invariant forall j :: 0 <= j < i ==> batch[j] in reply.accepted
    {
      if batch[i] !in accepted {
        assert batch[i] in batch;
        return Some(OtherError);
      }
    }
    if reply.cursor == "" {
      return Some(OtherError);
    }
    return None;
  }

  lemma {:induction false} CallsConcat(a: seq<Step>, b: seq<Step>, target: BackendId)
    ensures CallsTo(a + b, target) == CallsTo(a, target) + CallsTo(b, target)
  {
    if b == [] {
      assert a + b == a;
    } else {
      assert Front(a + b) == a + Front(b);
      CallsConcat(a, Front(b), target);
    }
  }

  lemma {:induction false} OpsConcat(a: seq<Step>, b: seq<Step>)
    ensures StoreOps(a + b) == StoreOps(a) + StoreOps(b)
  {
    if b == [] {
      assert a + b == a;
    } else {
      assert Front(a + b) == a + Front(b);
      OpsConcat(a, Front(b));
    }
  }

  lemma CountStep(log: seq<Step>, mark: nat, step: Step, b: BackendId)
    requires mark <= |log|
    ensures CallsTo((log + [step])[mark..], b)
         == CallsTo(log[mark..], b) + if step.Sent? && step.backend == b then 1 else 0
    ensures StoreOps((log + [step])[mark..])
         == StoreOps(log[mark..]) + if Settles(step) || step.StoreFailed? then 1 else 0
  {
    assert (log + [step])[mark..] == log[mark..] + [step];
    Snoc(log[mark..], step);
  }

  lemma CountMany(log: seq<Step>, mark: nat, steps: seq<Step>, b: BackendId)
    requires mark <= |log|
    ensures (log + steps)[mark..] == log[mark..] + steps
    ensures CallsTo((log + steps)[mark..], b) == CallsTo(log[mark..], b) + CallsTo(steps, b)
    ensures StoreOps((log + steps)[mark..]) == StoreOps(log[mark..]) + StoreOps(steps)
  {
    assert (log + steps)[mark..] == log[mark..] + steps;
    CallsConcat(log[mark..], steps, b);
    OpsConcat(log[mark..], steps);
  }

  lemma Regroup(a: seq<Step>, b: seq<Step>, c: seq<Step>, d: seq<Step>)
    ensures (a + b) + c == a + (b + c)
    ensures (b + c) + d == b + (c + d)
  {
  }

  lemma AckEachStep(env: Env, ops: nat, window: seq<Event>, i: nat)
    requires i < |window|
    ensures var now, rest := AckEach(env, ops, window[i..]), AckEach(env, ops + 1, window[i + 1..]);
            now == if env.storeWorks(ops) then Part([Acked(window[i])] + rest.steps, rest.done)
                   else Part([StoreFailed(window[i])], false)
  {
    assert window[i..][1..] == window[i + 1..];
  }

  /** One event's turn in the one-by-one retry. */
  function RetryHead(env: Env, b: BackendId, calls: nat, ops: nat, e: Event): Part {
    var reply := env.reply(b, calls);
    var verdict := VerdictOn([e.id], reply);
    if !e.wellFormed then Part([], false)
    else if verdict == Transient then Part([Sent(b, [e], reply)], false)
    else if !env.storeWorks(ops) then Part([Sent(b, [e], reply)] + [StoreFailed(e)], false)
    else Part([Sent(b, [e], reply)] + [if verdict == Permanent then Quarantined(e) else Acked(e)], true)
  }

  lemma RetryEachStep(env: Env, b: BackendId, calls: nat, ops: nat, window: seq<Event>, i: nat)
    requires i < |window|
    ensures var head := RetryHead(env, b, calls, ops, window[i]);
            var rest := RetryEach(env, b, calls + 1, ops + 1, window[i + 1..]);
            RetryEach(env, b, calls, ops, window[i..])
            == if head.done then Part(head.steps + rest.steps, rest.done) else head
  {
    assert window[i..][1..] == window[i + 1..];
  }

  lemma NothingLeft(env: Env, b: BackendId, calls: nat, ops: nat)
    ensures AckEach(env, ops, []) == Part([], true)
    ensures RetryEach(env, b, calls, ops, []) == Part([], true)
    ensures DrainGroup(env, b, calls, ops, []) == Drain([], Drained)
  {
  }

  class PublishQueue {
    var table: seq<Event>
    var sequences: map<WorkspaceId, nat>
    var acked: set<EventId>
    var quarantined: set<EventId>
    var log: seq<Step>

    /** The tables are what the log implies. */
    ghost predicate Consistent()
      reads this
    {
      && table == Table(log)
      && acked == AckedIds(log)
      && quarantined == QuarantinedIds(log)
      && forall w :: |Enqueues(log, w)| == if w in sequences then sequences[w] else 0
    }

    ghost predicate Valid()
      reads this
    {
      Consistent() && Legal(log)
    }

    constructor ()
      ensures Valid() && log == []
    {
      table, sequences, acked, quarantined, log := [], map[], {}, {}, [];
    }

    method Enqueue(r: Request)
      requires Valid()
      modifies this
      ensures Valid() && log == QueueRuns.Enqueue(old(log), r)
    {
      hide Legal, Table, AckedIds, QuarantinedIds, Enqueues, Known, Insert;
      var taken := exists i :: 0 <= i < |table| && table[i].id == r.id;
      TableKnows(log, r.id);
      EnqueueLegal(log, r);
      if r.encodes && !taken {
        var last := if r.workspace in sequences then sequences[r.workspace] else 0;
        var e := Event(r.id, r.workspace, last + 1, true);
        EnqueuedTables(log, e);
        table := Insert(table, e);
        sequences := sequences[r.workspace := last + 1];
        log := log + [Enqueued(e)];
      }
    }

    method Pending() returns (events: seq<Event>)
      requires Consistent()
      ensures events == Snapshot(log)
    {
      events := [];
      for i := 0 to |table|
        invariant events == Waiting(table[..i], acked + quarantined)
      {
        WaitingSnoc(table, i, acked + quarantined);
        if table[i].id !in acked + quarantined {
          events := events + [table[i]];
        }
      }
      assert table[..|table|] == table;
    }

    /** Appends a step that leaves the tables alone. */
    method Record(step: Step)
      requires Consistent() && (step.Sent? || step.StoreFailed?)
      modifies this
      ensures Consistent() && log == old(log) + [step]
    {
      Snoc(log, step);
      log := log + [step];
    }

    /** Writes the acknowledgement of one event, if the store works. */
    method Ack(e: Event, works: bool)
      requires Consistent()
      modifies this
      ensures Consistent() && log == old(log) + [if works then Acked(e) else StoreFailed(e)]
    {
      if works {
        Snoc(log, Acked(e));
        acked := acked + {e.id};
        log := log + [Acked(e)];
      } else {
        Record(StoreFailed(e));
      }
    }

    /** Sets one event aside, unless it is already acknowledged. */
    method Quarantine(e: Event, works: bool)
      requires Consistent()
      modifies this
      ensures Consistent() && log == old(log) + [if works then Quarantined(e) else StoreFailed(e)]
    {
      if works {
        Snoc(log, Quarantined(e));
        if e.id !in acked {
          quarantined := quarantined + {e.id};
        }
        log := log + [Quarantined(e)];
      } else {
        Record(StoreFailed(e));
      }
    }

    method AckWindow(env: Env, mark: nat, window: seq<Event>) returns (done: bool)
      requires Consistent() && mark <= |log|
      modifies this
      ensures Consistent()
      ensures var part := AckEach(env, StoreOps(old(log[mark..])), window);
              log == old(log) + part.steps && done == part.done
    {
      hide Consistent, AckEach, StoreOps, CallsTo;
      ghost var ops := StoreOps(log[mark..]);
      ghost var steps := [];
      var i := 0;
      assert window[0..] == window;
      while i < |window|
        invariant Consistent() && i <= |window| && log == old(log) + steps
        invariant StoreOps(log[mark..]) == ops + i
        invariant var rest := AckEach(env, ops + i, window[i..]);
                  AckEach(env, ops, window) == Part(steps + rest.steps, rest.done)
      {
        var works := env.storeWorks(StoreOps(log[mark..]));
        ghost var step := if works then Acked(window[i]) else StoreFailed(window[i]);
        CountStep(log, mark, step, "");
        AckEachStep(env, ops + i, window, i);
        Ack(window[i], works);
        steps := steps + [step];
        if !works {
          return false;
        }
        i := i + 1;
      }
      assert window[i..] == [];
      NothingLeft(env, "", 0, ops + i);
      return true;
    }

    method RetryOne(env: Env, mark: nat, b: BackendId, e: Event) returns (done: bool)
      requires Consistent() && mark <= |log|
      modifies this
      ensures Consistent() && mark <= |log|
      ensures var head := RetryHead(env, b, CallsTo(old(log[mark..]), b), StoreOps(old(log[mark..])), e);
              log == old(log) + head.steps && done == head.done
      ensures done ==> CallsTo(log[mark..], b) == CallsTo(old(log[mark..]), b) + 1
      ensures done ==> StoreOps(log[mark..]) == StoreOps(old(log[mark..])) + 1
    {
      hide Consistent, StoreOps, CallsTo;
      if !e.wellFormed {
        return false;
      }
      var reply := env.reply(b, CallsTo(log[mark..], b));
      var error := Send([e.id], reply);
      CountStep(log, mark, Sent(b, [e], reply), b);
      Record(Sent(b, [e], reply));
      if error.Some? && !PermanentRejection(error.value) {
        return false;
      }
      done := env.storeWorks(StoreOps(log[mark..]));
      if error.Some? {
        CountStep(log, mark, Quarantined(e), b);
        Quarantine(e, done);
      } else {
        CountStep(log, mark, Acked(e), b);
        Ack(e, done);
      }
    }

    /** Resends a refused window one event at a time. */
    method RetryIndividually(env: Env, mark: nat, b: BackendId, window: seq<Event>) returns (done: bool)
      requires Consistent() && mark <= |log|
      modifies this
      ensures Consistent()
      ensures var part := RetryEach(env, b, CallsTo(old(log[mark..]), b), StoreOps(old(log[mark..])), window);
              log == old(log) + part.steps && done == part.done
    {
      hide Consistent, RetryEach, RetryHead, StoreOps, CallsTo;
      ghost var calls, ops := CallsTo(log[mark..], b), StoreOps(log[mark..]);
      ghost var steps := [];
      var i := 0;
      assert window[0..] == window;
      while i < |window|
        invariant Consistent() && i <= |window| && mark <= |log| && log == old(log) + steps
        invariant CallsTo(log[mark..], b) == calls + i && StoreOps(log[mark..]) == ops + i
        invariant var rest := RetryEach(env, b, calls + i, ops + i, window[i..]);
                  RetryEach(env, b, calls, ops, window) == Part(steps + rest.steps, rest.done)
      {
        RetryEachStep(env, b, calls + i, ops + i, window, i);
        ghost var head := RetryHead(env, b, calls + i, ops + i, window[i]);
        done := RetryOne(env, mark, b, window[i]);
        ghost var rest := RetryEach(env, b, calls + i + 1, ops + i + 1, window[i + 1..]);
        assert steps + (head.steps + rest.steps) == (steps + head.steps) + rest.steps;
        steps := steps + head.steps;
        if !done {
          return false;
        }
        i := i + 1;
      }
      assert window[i..] == [];
      NothingLeft(env, b, calls + i, ops + i);
      return true;
    }

    method Offer(env: Env, mark: nat, b: BackendId, window: seq<Event>) returns (outcome: Outcome)
      requires Consistent() && mark <= |log| && window != []
      modifies this
      ensures Consistent()
      ensures var drain := OfferWindow(env, b, CallsTo(old(log[mark..]), b), StoreOps(old(log[mark..])), window);
              log == old(log) + drain.steps && outcome == drain.outcome
    {
      hide Consistent, AckEach, RetryEach, CallsTo, StoreOps;
      if !AllWellFormed(window) {
        return Aborted;
      }
      var reply := env.reply(b, CallsTo(log[mark..], b));
      var error := Send(Ids(window), reply);
      CountStep(log, mark, Sent(b, window, reply), b);
      Record(Sent(b, window, reply));
      if error.Some? {
        if !PermanentRejection(error.value) {
          return BackendFailed;
        }
        var retried := RetryIndividually(env, mark, b, window);
        return if retried then Drained else BackendFailed;
      }
      var done := AckWindow(env, mark, window);
      return if done then Drained else Aborted;
    }

    method DrainWorkspace(env: Env, mark: nat, b: BackendId, group: seq<Event>) returns (outcome: Outcome)
      requires Consistent() && mark <= |log|
      modifies this
      ensures Consistent()
      ensures var drain := DrainGroup(env, b, CallsTo(old(log[mark..]), b), StoreOps(old(log[mark..])), group);
              log == old(log) + drain.steps && outcome == drain.outcome
    {
      hide Consistent, DrainGroup, OfferWindow, CallsTo, StoreOps, Window;
      ghost var calls, ops := CallsTo(log[mark..], b), StoreOps(log[mark..]);
      ghost var whole := DrainGroup(env, b, calls, ops, group);
      ghost var steps: seq<Step> := [];
      var events := group;
      while events != []
        invariant Consistent() && log == old(log) + steps && mark <= |log|
        invariant calls == CallsTo(log[mark..], b) && ops == StoreOps(log[mark..])
        invariant whole.steps == steps + DrainGroup(env, b, calls, ops, events).steps
        invariant whole.outcome == DrainGroup(env, b, calls, ops, events).outcome
        decreases |events|
      {
        ghost var n, first, calls', ops' := DrainGroupStep(env, b, calls, ops, events);
        var size := Window(events);
        ghost var before := log;
        outcome := Offer(env, mark, b, events[..size]);
        assert log == before + first.steps;
        CountMany(before, mark, first.steps, b);
        Regroup(old(log), steps, first.steps, DrainGroup(env, b, calls', ops', events[size..]).steps);
        steps := steps + first.steps;
        if outcome != Drained {
          return outcome;
        }
        events, calls, ops := events[size..], calls', ops';
      }
      NothingLeft(env, b, calls, ops);
      return Drained;
    }

    /** One publish pass: exactly the steps of `FlushSnapshot` over what was pending when it
        started, and its verdict.
     */
    method Flush(workspaces: seq<Workspace>, hasSender: WorkspaceId -> bool, reply: (BackendId, nat) -> Reply,
                 storeWorks: nat -> bool, queueLoads: bool, workspacesLoad: bool) returns (ok: bool)
      requires Valid()
      modifies this
      ensures Valid()
      ensures var env, snapshot := EnvOf(workspaces, hasSender, reply, storeWorks), Snapshot(old(log));
              if queueLoads && snapshot != [] && workspacesLoad then
                var pass := FlushSnapshot(env, snapshot);
                log == old(log) + pass.steps && ok == pass.healthy
              else
                log == old(log) && ok == (queueLoads && snapshot == [])
    {
      hide Consistent, Legal, Snapshot, Lookup, DrainGroup, Order, Group, CallsTo, StoreOps, SnapshotOf;
      if !queueLoads {
        return false;
      }
      var pending := Pending();
      if pending == [] {
        return true;
      }
      if !workspacesLoad {
        return false;
      }
      ghost var env := EnvOf(workspaces, hasSender, reply, storeWorks);
      SnapshotIs(log);
      FlushGuarantee(env, log, pending, 0);
      var paused, backendOf := IndexWorkspaces(workspaces, env);
      var groups, order := GroupPending(pending, paused, env);
      ok := DrainOrder(EnvOf(workspaces, hasSender, reply, storeWorks), pending, groups, order, backendOf);
    }

    /** Drains each workspace in turn; a backend that fails loses the rest of its turns. */
    method DrainOrder(env: Env, ghost snapshot: seq<Event>, groups: map<WorkspaceId, seq<Event>>,
                      order: seq<WorkspaceId>, backendOf: map<WorkspaceId, BackendId>) returns (healthy: bool)
      requires Consistent()
      requires forall w :: w in order ==> w in groups && groups[w] == Group(snapshot, w)
      requires forall w :: env.backendOf(w) == if w in backendOf then backendOf[w] else ""
      modifies this
      ensures Consistent()
      ensures var pass := DrainAll(env, snapshot, order, START);
              log == old(log) + pass.steps && healthy == pass.healthy
    {
      hide Consistent, DrainGroup, Group, CallsTo, StoreOps, DrainAll;
      var mark := |log|;
      var failed := {};
      healthy := true;
      ghost var steps: seq<Step> := [];
      assert order[0..] == order && log[mark..] == [];
      var i := 0;
      while i < |order|
        invariant Consistent() && i <= |order| && mark <= |log| && log == old(log) + steps && log[mark..] == steps
        invariant DrainAll(env, snapshot, order[i..], Progress(steps, failed, healthy, false))
            == DrainAll(env, snapshot, order, START)
      {
        var w := order[i];
        assert w in order;
        var b := if w in backendOf then backendOf[w] else "";
        ghost var before := log;
        ghost var p := Progress(steps, failed, healthy, false);
        OneTurn(env, snapshot, order, i, p);
        if b !in failed {
          if !env.hasSender(w) {
            failed := failed + {b};
            healthy := false;
          } else {
            var outcome := DrainWorkspace(env, mark, b, groups[w]);
            ghost var drained := DrainGroup(env, b, CallsTo(steps, b), StoreOps(steps), groups[w]).steps;
            CountMany(before, mark, drained, b);
            assert log == old(log) + (steps + drained);
            steps := steps + drained;
            if outcome == BackendFailed {
              failed := failed + {b};
              healthy := false;
            } else if outcome == Aborted {
              AbortedStays(env, snapshot, order[i + 1..], Turn(env, snapshot, w, p));
              return false;
            }
          }
        }
        i := i + 1;
      }
      assert order[i..] == [];
      NoTurns(env, snapshot, Progress(steps, failed, healthy, false));
    }
  }

  lemma OneTurn(env: Env, snapshot: seq<Event>, order: seq<WorkspaceId>, i: nat, p: Progress)
    requires i < |order|
    ensures DrainAll(env, snapshot, order[i..], p)
        == DrainAll(env, snapshot, order[i + 1..], Turn(env, snapshot, order[i], p))
  {
    assert order[i..][1..] == order[i + 1..];
  }

  lemma NoTurns(env: Env, snapshot: seq<Event>, p: Progress)
    ensures DrainAll(env, snapshot, [], p) == p
  {
  }

  /** Collects the pause switch and the backend of every listed workspace. */
  method IndexWorkspaces(workspaces: seq<Workspace>, ghost env: Env)
    returns (paused: map<WorkspaceId, bool>, backendOf: map<WorkspaceId, BackendId>)
    requires env == EnvOf(workspaces, env.hasSender, env.reply, env.storeWorks)
    ensures forall w :: env.paused(w) == if w in paused then paused[w] else false
    ensures forall w :: env.backendOf(w) == if w in backendOf then backendOf[w] else ""
  {
    paused, backendOf := map[], map[];
    for i := 0 to |workspaces|
      invariant forall w :: w in paused <==> Lookup(workspaces[..i], w).Some?
      invariant forall w :: w in backendOf <==> Lookup(workspaces[..i], w).Some?
      invariant forall w :: w in paused ==> paused[w] == Lookup(workspaces[..i], w).value.paused
      invariant forall w :: w in backendOf ==> backendOf[w] == Lookup(workspaces[..i], w).value.backend
    {
      assert workspaces[..i + 1][..i] == workspaces[..i];
      paused := paused[workspaces[i].id := workspaces[i].paused];
      backendOf := backendOf[workspaces[i].id := workspaces[i].backend];
    }
    assert workspaces[..|workspaces|] == workspaces;
  }

  /** Groups the unpaused events by workspace, in order of first appearance. */
  method GroupPending(pending: seq<Event>, paused: map<WorkspaceId, bool>, ghost env: Env)
    returns (groups: map<WorkspaceId, seq<Event>>, order: seq<WorkspaceId>)
    requires forall w :: env.paused(w) == if w in paused then paused[w] else false
    ensures order == Order(env, pending)
    ensures forall w :: w in order ==> w in groups && groups[w] == Group(pending, w)
  {
    hide Group, Order;
    groups, order := map[], [];
    GroupStep(env, [], 0);
    for i := 0 to |pending|
      invariant order == Order(env, pending[..i])
      invariant forall w :: w in order <==> w in groups
      invariant forall w :: w in groups ==> groups[w] == Group(pending[..i], w)
    {
      var e := pending[i];
      var w := e.workspace;
      GroupStep(env, pending, i);
      if !(w in paused && paused[w]) {
        if w !in groups {
          NotYetSeen(env, pending[..i], w);
          order := order + [w];
          groups := groups[w := []];
        }
        groups := groups[w := groups[w] + [e]];
      }
    }
    assert pending[..|pending|] == pending;
  }

  lemma GroupStep(env: Env, pending: seq<Event>, i: nat)
    requires i <= |pending|
    ensures Order(env, []) == []
    ensures forall w :: w in Order(env, pending[..i]) ==> !env.paused(w)
    ensures i < |pending| ==>
              var before, w := Order(env, pending[..i]), pending[i].workspace;
              Order(env, pending[..i + 1]) == if env.paused(w) || w in before then before else before + [w]
    ensures i < |pending| ==>
              forall v ::
                Group(pending[..i + 1], v)
                == Group(pending[..i], v) + if v == pending[i].workspace then [pending[i]] else []
  {
    OrderIs(env, pending[..i]);
    if i < |pending| {
      var e := pending[i];
      assert pending[..i + 1][..i] == pending[..i];
      assert pending[..i + 1] == pending[..i] + [e];
      forall v ensures Group(pending[..i + 1], v) == Group(pending[..i], v) + if v == e.workspace then [e] else [] {
        GroupSnoc(pending[..i], e, v);
      }
    }
  }

  lemma NotYetSeen(env: Env, events: seq<Event>, w: WorkspaceId)
    requires w !in Order(env, events) && !env.paused(w)
    ensures Group(events, w) == []
  {
    OrderIs(env, events);
    if Group(events, w) != [] {
      GroupMember(events, w, Group(events, w)[0]);
      assert false;
    }
  }

  lemma EnqueuedTables(log: seq<Step>, e: Event)
    ensures var next := log + [Enqueued(e)];
            && Table(next) == Insert(Table(log), e)
            && AckedIds(next) == AckedIds(log)
            && QuarantinedIds(next) == QuarantinedIds(log)
            && forall w :: |Enqueues(next, w)| == |Enqueues(log, w)| + if w == e.workspace then 1 else 0
  {
    Snoc(log, Enqueued(e));
  }

  lemma {:induction false} TableKnows(log: seq<Step>, id: EventId)
    ensures Known(log, id) <==> exists i :: 0 <= i < |Table(log)| && Table(log)[i].id == id
  {
    if log != [] {
      var front, last := Front(log), Last(log);
      TableKnows(front, id);
      TableIs(front, 0);
      assert Known(log, id) <==> Known(front, id) || (last.Enqueued? && last.event.id == id) by {
        assert forall i :: 0 <= i < |front| ==> front[i] == log[i];
      }
      if last.Enqueued? {
        var rows, e := Table(front), last.event;
        assert Table(log) == Insert(rows, e);
        InsertSorts(rows, e);
        HasId(rows, id);
        HasId(Insert(rows, e), id);
      } else {
        assert Table(log) == Table(front);
      }
    }
  }

  lemma HasId(events: seq<Event>, id: EventId)
    ensures (exists i :: 0 <= i < |events| && events[i].id == id) <==> exists e :: e in events && e.id == id
  {
    if i :| 0 <= i < |events| && events[i].id == id {
      assert events[i] in events;
    }
  }
}
