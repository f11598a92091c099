/** What a publish pass does, told from the backends' replies themselves. */
module FlushEvidence {
  import opened QueueLog
  import opened FlushPass
  import opened FlushLaws
  import opened FlushInterference
  import opened Collections

  // ------------------------------------------------------------------ what a reply means

  /** A client error that no retry can change: neither the credential (401), nor a timeout (408), nor
      the rate (429).
   */
  predicate ForGood(reply: Reply) {
    && reply.Refused? && reply.error.ApiError? && !reply.error.retryable
    && 400 <= reply.error.status <= 499
    && reply.error.status != 401 && reply.error.status != 408 && reply.error.status != 429
  }

  /** An acknowledgement that carries a cursor and lists the id of every event of the batch. */
  predicate ListsAll(batch: seq<Event>, reply: Reply) {
    reply.Acknowledged? && |reply.cursor| > 0 && forall e :: e in batch ==> e.id in reply.accepted
  }

  /** Anything else is worth another try: credentials, timeouts, rates, server and transport errors. */
  predicate ForNow(batch: seq<Event>, reply: Reply) {
    !ForGood(reply) && !ListsAll(batch, reply)
  }

  lemma VerdictMeans(batch: seq<Event>, reply: Reply)
    requires batch != []
    ensures VerdictOn(Ids(batch), reply) == Accepted <==> ListsAll(batch, reply)
    ensures VerdictOn(Ids(batch), reply) == Permanent <==> ForGood(reply)
    ensures VerdictOn(Ids(batch), reply) == Transient <==> ForNow(batch, reply)
  {
    var ids := Ids(batch);
    assert ids[0] == batch[0].id;
    forall e | e in batch ensures e.id in ids {
      var i :| 0 <= i < |batch| && batch[i] == e;
      assert ids[i] == e.id;
    }
    forall id | id in ids ensures exists e :: e in batch && e.id == id {
      var i :| 0 <= i < |ids| && ids[i] == id;
      assert batch[i] in batch;
    }
  }

  // ------------------------------------------------------------------ evidence

  /** What the step at k needs to have happened before it. */
  predicate Evidenced(steps: seq<Step>, k: nat)
    requires k < |steps|
  {
    && (steps[k].Acked? ==>
          exists i :: 0 <= i < k && steps[i].Sent? && steps[k].event in steps[i].batch
                   && ListsAll(steps[i].batch, steps[i].reply))
    && (steps[k].Quarantined? ==>
          exists i :: 0 <= i < k && steps[i].Sent? && steps[i].batch == [steps[k].event] && ForGood(steps[i].reply))
  }

  predicate AllEvidenced(steps: seq<Step>) {
    forall k :: 0 <= k < |steps| ==> Evidenced(steps, k)
  }

  /** In every legal log an acknowledgement of the event's batch precedes its settlement as
      acknowledged, and a refusal for good of the event alone its quarantine.
   */
  lemma LegalEvidence(log: seq<Step>)
    requires Legal(log)
    ensures AllEvidenced(log)
  {
    hide Legal, VerdictOn, ListsAll, ForGood;
    forall k | 0 <= k < |log| ensures Evidenced(log, k) {
      SettlementsEvidenced(log, k);
      if log[k].Acked? {
        var i :| 0 <= i < |log[..k]| && log[..k][i].Sent? && log[k].event in log[..k][i].batch
                 && VerdictOn(Ids(log[..k][i].batch), log[..k][i].reply) == Accepted;
        VerdictMeans(log[i].batch, log[i].reply);
      } else if log[k].Quarantined? {
        var e := log[k].event;
        var i :| 0 <= i < |log[..k]| && log[..k][i].Sent? && log[..k][i].batch == [e]
                 && VerdictOn([e.id], log[..k][i].reply) == Permanent;
        assert Ids([e]) == [e.id];
        VerdictMeans(log[i].batch, log[i].reply);
      }
    }
  }

  lemma EvidencedConcat(x: seq<Step>, y: seq<Step>)
    requires AllEvidenced(x) && AllEvidenced(y)
    ensures AllEvidenced(x + y)
  {
    hide ListsAll, ForGood;
    var all := x + y;
    forall k | 0 <= k < |all| ensures Evidenced(all, k) {
      if k < |x| {
        assert Evidenced(x, k);
        assert forall i :: 0 <= i < k ==> all[i] == x[i];
      } else {
        var j := k - |x|;
        assert Evidenced(y, j) && all[k] == y[j];
        assert forall i :: 0 <= i < j ==> all[|x| + i] == y[i];
      }
    }
  }

  lemma {:induction false} AckEachSteps(env: Env, ops: nat, window: seq<Event>)
    ensures forall s :: s in AckEach(env, ops, window).steps ==> (s.Acked? || s.StoreFailed?) && s.event in window
    decreases |window|
  {
    if window != [] {
      AckEachSteps(env, ops + 1, window[1..]);
    }
  }

  lemma SentThenAcked(b: BackendId, window: seq<Event>, reply: Reply, acks: seq<Step>)
    requires ListsAll(window, reply)
    requires forall s :: s in acks ==> (s.Acked? || s.StoreFailed?) && s.event in window
    ensures AllEvidenced([Sent(b, window, reply)] + acks)
  {
    hide ListsAll;
    var all := [Sent(b, window, reply)] + acks;
    forall k | 0 <= k < |all| ensures Evidenced(all, k) {
      if k > 0 {
        assert all[k] in acks && all[0] == Sent(b, window, reply);
      }
    }
  }

  lemma PairEvidenced(b: BackendId, e: Event, reply: Reply, settled: Step)
    requires settled == StoreFailed(e) || (settled == Acked(e) && ListsAll([e], reply))
             || (settled == Quarantined(e) && ForGood(reply))
    ensures AllEvidenced([Sent(b, [e], reply), settled])
  {
    var all := [Sent(b, [e], reply), settled];
    assert e in all[0].batch;
    forall k | 0 <= k < |all| ensures Evidenced(all, k) {
      assert k == 0 || all[k] == settled;
    }
  }

  lemma {:induction false} RetryEachEvidenced(env: Env, b: BackendId, calls: nat, ops: nat, window: seq<Event>)
    ensures AllEvidenced(RetryEach(env, b, calls, ops, window).steps)
    decreases |window|
  {
    if window != [] && window[0].wellFormed {
      hide AllEvidenced, VerdictOn, ListsAll, ForGood;
      var e, reply := window[0], env.reply(b, calls);
      assert Ids([e]) == [e.id];
      VerdictMeans([e], reply);
      var steps := RetryEach(env, b, calls, ops, window).steps;
      if VerdictOn([e.id], reply) == Transient {
        OnlySent(b, [e], reply);
      } else if !env.storeWorks(ops) {
        PairEvidenced(b, e, reply, StoreFailed(e));
      } else {
        var settled := if VerdictOn([e.id], reply) == Permanent then Quarantined(e) else Acked(e);
        PairEvidenced(b, e, reply, settled);
        RetryEachEvidenced(env, b, calls + 1, ops + 1, window[1..]);
        EvidencedConcat([Sent(b, [e], reply), settled], RetryEach(env, b, calls + 1, ops + 1, window[1..]).steps);
      }
    }
  }

  lemma OnlySent(b: BackendId, batch: seq<Event>, reply: Reply)
    ensures AllEvidenced([Sent(b, batch, reply)]) && AllEvidenced([])
  {
  }

  lemma OfferWindowEvidenced(env: Env, b: BackendId, calls: nat, ops: nat, window: seq<Event>)
    requires window != []
    ensures AllEvidenced(OfferWindow(env, b, calls, ops, window).steps)
  {
    hide AllEvidenced, VerdictOn, ListsAll, ForGood, AckEach, RetryEach, AllWellFormed;
    var reply := env.reply(b, calls);
    OnlySent(b, window, reply);
    VerdictMeans(window, reply);
    if VerdictOn(Ids(window), reply) == Permanent {
      RetryEachEvidenced(env, b, calls + 1, ops, window);
      EvidencedConcat([Sent(b, window, reply)], RetryEach(env, b, calls + 1, ops, window).steps);
    } else if VerdictOn(Ids(window), reply) == Accepted {
      AckEachSteps(env, ops, window);
      SentThenAcked(b, window, reply, AckEach(env, ops, window).steps);
    }
  }

  lemma {:induction false} DrainGroupEvidenced(env: Env, b: BackendId, calls: nat, ops: nat, events: seq<Event>)
    ensures AllEvidenced(DrainGroup(env, b, calls, ops, events).steps)
    decreases |events|
  {
    OnlySent(b, [], env.reply(b, 0));
    if events != [] {
      hide AllEvidenced, DrainGroup, OfferWindow, CallsTo, StoreOps;
      var n, first, calls', ops' := DrainGroupStep(env, b, calls, ops, events);
      OfferWindowEvidenced(env, b, calls, ops, events[..n]);
      if first.outcome == Drained {
        DrainGroupEvidenced(env, b, calls', ops', events[n..]);
        EvidencedConcat(first.steps, DrainGroup(env, b, calls', ops', events[n..]).steps);
      }
    }
  }

  lemma {:induction false} DrainAllEvidenced(env: Env, snapshot: seq<Event>, order: seq<WorkspaceId>, p: Progress)
    requires AllEvidenced(p.steps)
    ensures AllEvidenced(DrainAll(env, snapshot, order, p).steps)
    decreases |order|
  {
    if order != [] {
      hide AllEvidenced, DrainGroup, CallsTo, StoreOps, Group;
      var w := order[0];
      var b, group := env.backendOf(w), Group(snapshot, w);
      DrainGroupEvidenced(env, b, CallsTo(p.steps, b), StoreOps(p.steps), group);
      EvidencedConcat(p.steps, DrainGroup(env, b, CallsTo(p.steps, b), StoreOps(p.steps), group).steps);
      DrainAllEvidenced(env, snapshot, order[1..], Turn(env, snapshot, w, p));
    }
  }

  /** The evidence for every settlement of a pass is a reply within that pass. */
  lemma PassEvidence(env: Env, snapshot: seq<Event>)
    ensures AllEvidenced(FlushSnapshot(env, snapshot).steps)
  {
    hide AllEvidenced, DrainAll, Order;
    OnlySent("", [], Acknowledged([], ""));
    DrainAllEvidenced(env, snapshot, Order(env, snapshot), START);
  }

  /** So a pass that meets nothing but expired credentials, timeouts, rate limits, server errors,
      retryable refusals and transport errors settles nothing, and is no success if there was work.
   */
  lemma TemporaryFailuresSettleNothing(env: Env, log: seq<Step>, snapshot: seq<Event>)
    requires Legal(log) && SnapshotOf(log, snapshot)
    requires forall b: BackendId, n: nat :: var r := env.reply(b, n);
               r.Refused? && (r.error.ApiError? ==>
                                r.error.retryable || r.error.status in {401, 408, 429} || r.error.status >= 500)
    ensures var pass := FlushSnapshot(env, snapshot);
            && (forall s :: s in pass.steps ==> !s.Acked? && !s.Quarantined?)
            && ((exists e :: e in snapshot && !env.paused(e.workspace)) ==> !pass.healthy)
  {
    var pass := FlushSnapshot(env, snapshot);
    PassEvidence(env, snapshot);
    RepliesAreTheBackends(env, snapshot);
    hide FlushSnapshot, Legal;
    forall s | s in pass.steps && s.Sent? ensures !ListsAll(s.batch, s.reply) && !ForGood(s.reply) {
      var n: nat :| s.reply == env.reply(s.backend, n);
    }
    forall k | 0 <= k < |pass.steps| ensures !pass.steps[k].Acked? && !pass.steps[k].Quarantined? {
      assert Evidenced(pass.steps, k);
    }
    if e :| pass.healthy && e in snapshot && !env.paused(e.workspace) {
      var w := e.workspace;
      assert Settled(log, w) + [] == Settled(log, w);
      FlushGuarantee(env, log, snapshot, w);
      NoneSettled(pass.steps, w);
      ProjectionsConcat(log, pass.steps, w);
      GroupMember(snapshot, w, e);
    }
  }

  lemma {:induction false} NoneSettled(steps: seq<Step>, w: WorkspaceId)
    requires forall s :: s in steps ==> !s.Acked? && !s.Quarantined?
    ensures Settled(steps, w) == []
  {
    if steps != [] {
      assert Last(steps) in steps;
      NoneSettled(Front(steps), w);
    }
  }

  // ------------------------------------------------------------------ who is offered what

  /** Every offer carries a reply the environment gave that backend, and events of the snapshot; a
      write fails only where the store does.
   */
  ghost predicate Sound(env: Env, snapshot: seq<Event>, steps: seq<Step>) {
    forall s :: s in steps ==>
      && (s.Sent? ==> s.batch != [] && (forall e :: e in s.batch ==> e in snapshot)
                      && exists n: nat :: s.reply == env.reply(s.backend, n))
      && (s.StoreFailed? ==> exists n: nat :: !env.storeWorks(n))
  }

  lemma SoundConcat(env: Env, snapshot: seq<Event>, x: seq<Step>, y: seq<Step>)
    requires Sound(env, snapshot, x) && Sound(env, snapshot, y)
    ensures Sound(env, snapshot, x + y)
  {
  }

  lemma {:induction false} AckEachSound(env: Env, snapshot: seq<Event>, ops: nat, window: seq<Event>)
    ensures Sound(env, snapshot, AckEach(env, ops, window).steps)
    decreases |window|
  {
    if window != [] {
      AckEachSound(env, snapshot, ops + 1, window[1..]);
    }
  }

  lemma {:induction false} RetryEachSound(env: Env, snapshot: seq<Event>, b: BackendId, calls: nat, ops: nat,
                                          window: seq<Event>)
    requires forall e :: e in window ==> e in snapshot
    ensures Sound(env, snapshot, RetryEach(env, b, calls, ops, window).steps)
    decreases |window|
  {
    if window != [] {
      hide VerdictOn;
      assert window[0] in window;
      RetryEachSound(env, snapshot, b, calls + 1, ops + 1, window[1..]);
    }
  }

  lemma OfferWindowSound(env: Env, snapshot: seq<Event>, b: BackendId, calls: nat, ops: nat, window: seq<Event>)
    requires window != [] && forall e :: e in window ==> e in snapshot
    ensures Sound(env, snapshot, OfferWindow(env, b, calls, ops, window).steps)
  {
    var sent := [Sent(b, window, env.reply(b, calls))];
    assert Sound(env, snapshot, sent) && Sound(env, snapshot, []);
    hide Sound, AckEach, RetryEach, VerdictOn, AllWellFormed;
    AckEachSound(env, snapshot, ops, window);
    RetryEachSound(env, snapshot, b, calls + 1, ops, window);
    SoundConcat(env, snapshot, sent, AckEach(env, ops, window).steps);
    SoundConcat(env, snapshot, sent, RetryEach(env, b, calls + 1, ops, window).steps);
  }

  lemma {:induction false} DrainGroupSound(env: Env, snapshot: seq<Event>, b: BackendId, calls: nat, ops: nat,
                                           events: seq<Event>)
    requires forall e :: e in events ==> e in snapshot
    ensures Sound(env, snapshot, DrainGroup(env, b, calls, ops, events).steps)
    decreases |events|
  {
    if events != [] {
      hide Sound, DrainGroup, OfferWindow, CallsTo, StoreOps;
      var n, first, calls', ops' := DrainGroupStep(env, b, calls, ops, events);
      OfferWindowSound(env, snapshot, b, calls, ops, events[..n]);
      if first.outcome == Drained {
        DrainGroupSound(env, snapshot, b, calls', ops', events[n..]);
        SoundConcat(env, snapshot, first.steps, DrainGroup(env, b, calls', ops', events[n..]).steps);
      }
    }
  }

  lemma {:induction false} DrainAllSound(env: Env, snapshot: seq<Event>, order: seq<WorkspaceId>, p: Progress)
    requires Sound(env, snapshot, p.steps)
    ensures Sound(env, snapshot, DrainAll(env, snapshot, order, p).steps)
    decreases |order|
  {
    if order != [] {
      hide Sound, DrainGroup, CallsTo, StoreOps, Group;
      var w := order[0];
      var b, group := env.backendOf(w), Group(snapshot, w);
      forall e | e in group ensures e in snapshot {
        GroupMember(snapshot, w, e);
      }
      DrainGroupSound(env, snapshot, b, CallsTo(p.steps, b), StoreOps(p.steps), group);
      SoundConcat(env, snapshot, p.steps, DrainGroup(env, b, CallsTo(p.steps, b), StoreOps(p.steps), group).steps);
      DrainAllSound(env, snapshot, order[1..], Turn(env, snapshot, w, p));
    }
  }

  lemma RepliesAreTheBackends(env: Env, snapshot: seq<Event>)
    ensures Sound(env, snapshot, FlushSnapshot(env, snapshot).steps)
  {
    hide DrainAll, Order;
    DrainAllSound(env, snapshot, Order(env, snapshot), START);
  }

  /** Success told from the replies: every unpaused workspace with work has a sender, every write
      worked, and every offer was acknowledged in full or refused for good.
   */
  lemma SucceedsExactlyWhen(env: Env, log: seq<Step>, snapshot: seq<Event>)
    requires Legal(log) && SnapshotOf(log, snapshot)
    ensures var pass := FlushSnapshot(env, snapshot);
            pass.healthy <==>
              && (forall e :: e in snapshot && !env.paused(e.workspace) ==> env.hasSender(e.workspace))
              && (forall s :: s in pass.steps ==>
                    !s.StoreFailed? && (s.Sent? ==> ListsAll(s.batch, s.reply) || ForGood(s.reply)))
  {
    FlushSucceedsExactlyWhen(env, log, snapshot);
    RepliesAreTheBackends(env, snapshot);
    hide FlushSnapshot, Legal, VerdictOn, ListsAll, ForGood;
    forall s | s in FlushSnapshot(env, snapshot).steps && s.Sent?
      ensures TransientStep(s) <==> ForNow(s.batch, s.reply)
    {
      VerdictMeans(s.batch, s.reply);
    }
  }
}
