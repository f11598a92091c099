/** The publish queue as an append-only log, and what makes such a log legal. */
module QueueLog {
  // The log records events enqueued, batches offered to a backend with the reply, and events
  // settled (acknowledged or quarantined). The durable tables are projections of this log, and a
  // log is legal when every step was justified by the steps before it.

  type EventId = string
  type BackendId = string

  /** Workspace ids are opaque; numbers keep the order in which the database lists them. */
  type WorkspaceId = nat

  /** A queued event.  `wellFormed` records whether the stored payload is valid JSON. */
  datatype Event = Event(id: EventId, workspace: WorkspaceId, sequence: nat, wellFormed: bool)

  datatype SendError = ApiError(status: int, retryable: bool) | OtherError

  /** What one publish call came back with. */
  datatype Reply = Refused(error: SendError) | Acknowledged(accepted: seq<EventId>, cursor: string)

  datatype Verdict = Accepted | Transient | Permanent

  datatype Step =
    | Enqueued(event: Event)
    | Sent(backend: BackendId, batch: seq<Event>, reply: Reply)
    | Acked(event: Event)
    | Quarantined(event: Event)
    | StoreFailed(event: Event)

  const WINDOW := 100

  /** A verdict on the content which no retry can change. */
  predicate PermanentRejection(error: SendError) {
    error.ApiError? && !error.retryable
    && 400 <= error.status < 500 && error.status != 401 && error.status != 408 && error.status != 429
  }

  function Ids(events: seq<Event>): (ids: seq<EventId>)
    ensures |ids| == |events|
    ensures forall i :: 0 <= i < |ids| ==> ids[i] == events[i].id
  {
    seq(|events|, i requires 0 <= i < |events| => events[i].id)
  }

  /** A batch is accepted only by an acknowledgement that lists every event and carries a cursor. */
  predicate FullyAcknowledged(batch: seq<EventId>, reply: Reply) {
    && batch != []
    && reply.Acknowledged?
    && reply.cursor != ""
    && forall id :: id in batch ==> id in reply.accepted
  }

  function VerdictOn(batch: seq<EventId>, reply: Reply): Verdict {
    if FullyAcknowledged(batch, reply) then Accepted
    else if batch != [] && reply.Refused? && PermanentRejection(reply.error) then Permanent
    else Transient
  }

  // ---------------------------------------------------------------- projections

  function Last(log: seq<Step>): Step
    requires log != []
  {
    log[|log| - 1]
  }

  function Front(log: seq<Step>): seq<Step>
    requires log != []
  {
    log[..|log| - 1]
  }

  predicate Settles(step: Step) {
    step.Acked? || step.Quarantined?
  }

  /** The events enqueued for one workspace, oldest first. */
  function Enqueues(log: seq<Step>, w: WorkspaceId): seq<Event> {
    if log == [] then []
    else Enqueues(Front(log), w)
         + (if Last(log).Enqueued? && Last(log).event.workspace == w then [Last(log).event] else [])
  }

  /** The events of one workspace that were acknowledged or quarantined, in the order that happened. */
  function Settled(log: seq<Step>, w: WorkspaceId): seq<Event> {
    if log == [] then []
    else Settled(Front(log), w)
         + (if Settles(Last(log)) && Last(log).event.workspace == w then [Last(log).event] else [])
  }

  /** What the last step adds to each projection. */
  lemma LastAdds(log: seq<Step>, w: WorkspaceId)
    requires log != []
    ensures Enqueues(log, w)
         == Enqueues(Front(log), w)
            + if Last(log).Enqueued? && Last(log).event.workspace == w then [Last(log).event] else []
    ensures Settled(log, w)
         == Settled(Front(log), w)
            + if Settles(Last(log)) && Last(log).event.workspace == w then [Last(log).event] else []
  {
  }

  lemma FrontConcat(a: seq<Step>, b: seq<Step>)
    requires b != []
    ensures a + b != [] && Front(a + b) == a + Front(b) && Last(a + b) == Last(b)
  {
  }

  lemma NothingLogged(w: WorkspaceId)
    ensures Enqueues([], w) == [] && Settled([], w) == []
  {
  }

  lemma {:induction false} ProjectionsConcat(a: seq<Step>, b: seq<Step>, w: WorkspaceId)
    ensures Enqueues(a + b, w) == Enqueues(a, w) + Enqueues(b, w)
    ensures Settled(a + b, w) == Settled(a, w) + Settled(b, w)
    decreases |b|
  {
    hide Enqueues, Settled, Settles, Front, Last;
    if b == [] {
      assert a + b == a;
      NothingLogged(w);
    } else {
      FrontConcat(a, b);
      ShorterFront(b);
      ProjectionsConcat(a, Front(b), w);
      LastAdds(a + b, w);
      LastAdds(b, w);
    }
  }

  lemma ShorterFront(log: seq<Step>)
    requires log != []
    ensures |Front(log)| < |log| && log == Front(log) + [Last(log)]
  {
  }

  lemma Snoc(log: seq<Step>, step: Step)
    ensures Front(log + [step]) == log && Last(log + [step]) == step
  {
  }

  lemma {:induction false} EnqueuedWhere(log: seq<Step>, w: WorkspaceId, e: Event)
    ensures e in Enqueues(log, w) <==> Enqueued(e) in log && e.workspace == w
  {
    if log != [] {
      EnqueuedWhere(Front(log), w, e);
      assert log == Front(log) + [Last(log)];
    }
  }

  lemma {:induction false} SettledWhere(log: seq<Step>, w: WorkspaceId, e: Event)
    ensures e in Settled(log, w) <==> (Acked(e) in log || Quarantined(e) in log) && e.workspace == w
  {
    if log != [] {
      SettledWhere(Front(log), w, e);
      assert log == Front(log) + [Last(log)];
    }
  }

  // ------------------------------------------------------------------- legality

  /** The events of one workspace still waiting, oldest first.  Meaningful on a legal log. */
  function Unsettled(log: seq<Step>, w: WorkspaceId): seq<Event> {
    if |Settled(log, w)| <= |Enqueues(log, w)| then Enqueues(log, w)[|Settled(log, w)|..] else []
  }

  predicate Known(log: seq<Step>, id: EventId) {
    exists i :: 0 <= i < |log| && log[i].Enqueued? && log[i].event.id == id
  }

  /** Some backend acknowledged a batch holding this event, naming its id. */
  predicate WasAcknowledged(log: seq<Step>, e: Event) {
    exists i :: 0 <= i < |log| && log[i].Sent? && e in log[i].batch
             && VerdictOn(Ids(log[i].batch), log[i].reply) == Accepted
  }

  /** Some backend was offered this event alone and refused it for good. */
  predicate WasRefusedAlone(log: seq<Step>, e: Event) {
    exists i :: 0 <= i < |log| && log[i].Sent? && log[i].batch == [e]
             && VerdictOn([e.id], log[i].reply) == Permanent
  }

  /** What each step needs from the steps before it. */
  predicate Justified(log: seq<Step>, step: Step) {
    match step
    case Enqueued(e) => !Known(log, e.id) && e.sequence == |Enqueues(log, e.workspace)| + 1 && e.wellFormed
    case Sent(b, batch, _) =>
      && 1 <= |batch| <= WINDOW
      && batch <= Unsettled(log, batch[0].workspace)
    case Acked(e) => [e] <= Unsettled(log, e.workspace) && WasAcknowledged(log, e)
    case Quarantined(e) => [e] <= Unsettled(log, e.workspace) && WasRefusedAlone(log, e)
    case StoreFailed(e) => true
  }

  predicate Legal(log: seq<Step>) {
    log == [] || (Legal(Front(log)) && Justified(Front(log), Last(log)))
  }

  lemma LegalSnoc(log: seq<Step>, step: Step)
    requires Legal(log) && Justified(log, step)
    ensures Legal(log + [step])
  {
    Snoc(log, step);
  }

  /** Every prefix of a legal log is legal: whatever legality implies holds at every moment. */
  lemma {:induction false} LegalPrefix(log: seq<Step>, k: nat)
    requires Legal(log) && k <= |log|
    ensures Legal(log[..k])
  {
    if k < |log| {
      assert log[..k] == Front(log)[..k];
      LegalPrefix(Front(log), k);
    } else {
      assert log[..k] == log;
    }
  }

  /** Order: what a workspace has had settled is a prefix of what it enqueued. */
  lemma {:induction false} SettledInOrder(log: seq<Step>, w: WorkspaceId)
    requires Legal(log)
    ensures Settled(log, w) <= Enqueues(log, w)
    ensures Settled(log, w) + Unsettled(log, w) == Enqueues(log, w)
  {
    if log == [] {
      NothingLogged(w);
    } else {
      var front, step := Front(log), Last(log);
      SettledInOrder(front, w);
      LastAdds(log, w);
      hide Enqueues, Settled, Legal, WasAcknowledged, WasRefusedAlone, Known;
      if !step.Sent? && step.event.workspace == w {
        OneMore(Settled(front, w), Enqueues(front, w), step.event);
      }
      PrefixAndRest(Settled(log, w), Enqueues(log, w));
    }
  }

  /** A prefix stays one when its next element joins it, or the whole grows. */
  lemma OneMore(settled: seq<Event>, all: seq<Event>, e: Event)
    requires settled <= all
    ensures [e] <= all[|settled|..] ==> settled + [e] <= all
    ensures settled <= all + [e]
  {
    if [e] <= all[|settled|..] {
      assert all[|settled|] == all[|settled|..][0] == e;
    }
  }

  lemma PrefixAndRest(prefix: seq<Event>, all: seq<Event>)
    requires prefix <= all
    ensures prefix + all[|prefix|..] == all
  {
  }

  lemma {:induction false} SequenceIsPosition(log: seq<Step>, w: WorkspaceId, i: nat)
    requires Legal(log) && i < |Enqueues(log, w)|
    ensures Enqueues(log, w)[i].sequence == i + 1 && Enqueues(log, w)[i].workspace == w
  {
    if i < |Enqueues(Front(log), w)| {
      SequenceIsPosition(Front(log), w, i);
    }
  }

  lemma EnqueuedKnown(log: seq<Step>, e: Event)
    ensures Enqueued(e) in log ==> Known(log, e.id)
  {
  }

  lemma {:induction false} EnqueuedIdUnique(log: seq<Step>, d: Event, e: Event)
    requires Legal(log) && Enqueued(d) in log && Enqueued(e) in log && d.id == e.id
    ensures d == e
  {
    var front, step := Front(log), Last(log);
    assert log == front + [step];
    if step.Enqueued? && step.event.id == d.id {
      EnqueuedKnown(front, d);
      EnqueuedKnown(front, e);
    } else {
      EnqueuedIdUnique(front, d, e);
    }
  }

  lemma EnqueuesDistinct(log: seq<Step>, w: WorkspaceId, i: nat, j: nat)
    requires Legal(log) && i < |Enqueues(log, w)| && j < |Enqueues(log, w)|
    requires Enqueues(log, w)[i].id == Enqueues(log, w)[j].id
    ensures i == j
  {
    var d, e := Enqueues(log, w)[i], Enqueues(log, w)[j];
    EnqueuedWhere(log, w, d);
    EnqueuedWhere(log, w, e);
    EnqueuedIdUnique(log, d, e);
    SequenceIsPosition(log, w, i);
    SequenceIsPosition(log, w, j);
  }

  lemma PendingIsNotSettled(log: seq<Step>, e: Event)
    requires Legal(log) && e in Unsettled(log, e.workspace)
    ensures Acked(e) !in log && Quarantined(e) !in log
  {
    hide Legal, Settled, Enqueues;
    var w := e.workspace;
    SettledInOrder(log, w);
    SettledWhere(log, w, e);
    var settled, all := Settled(log, w), Enqueues(log, w);
    var j :| 0 <= j < |Unsettled(log, w)| && Unsettled(log, w)[j] == e;
    assert all[|settled| + j] == e;
    forall i | 0 <= i < |settled| ensures settled[i] != e {
      if settled[i] == e {
        EnqueuesDistinct(log, w, i, |settled| + j);
      }
    }
  }

  lemma {:induction false} NeverBoth(log: seq<Step>, e: Event)
    requires Legal(log)
    ensures !(Acked(e) in log && Quarantined(e) in log)
  {
    if log != [] {
      var front, step := Front(log), Last(log);
      assert log == front + [step];
      NeverBoth(front, e);
      if Settles(step) && step.event == e {
        assert Unsettled(front, e.workspace)[0] == e;
        PendingIsNotSettled(front, e);
      }
    }
  }

  /** Conservation: an enqueued event is in exactly one of pending, acknowledged and quarantined. */
  lemma ExactlyOneState(log: seq<Step>, e: Event)
    requires Legal(log)
    ensures Enqueued(e) in log <==>
            (e in Unsettled(log, e.workspace) || Acked(e) in log || Quarantined(e) in log)
    ensures !(Acked(e) in log && Quarantined(e) in log)
    ensures e in Unsettled(log, e.workspace) ==> Acked(e) !in log && Quarantined(e) !in log
  {
    var w := e.workspace;
    SettledInOrder(log, w);
    EnqueuedWhere(log, w, e);
    SettledWhere(log, w, e);
    assert e in Enqueues(log, w) <==> e in Settled(log, w) || e in Unsettled(log, w);
    if e in Unsettled(log, w) {
      PendingIsNotSettled(log, e);
    }
    NeverBoth(log, e);
  }

  /** Every settlement in a legal log carries its evidence, strictly earlier in the log. */
  lemma {:induction false} SettlementsEvidenced(log: seq<Step>, k: nat)
    requires Legal(log) && k < |log|
    ensures log[k].Acked? ==> WasAcknowledged(log[..k], log[k].event)
    ensures log[k].Quarantined? ==> WasRefusedAlone(log[..k], log[k].event)
    ensures Settles(log[k]) ==> [log[k].event] <= Unsettled(log[..k], log[k].event.workspace)
  {
    LegalPrefix(log, k + 1);
    assert Front(log[..k + 1]) == log[..k];
  }

  lemma OldestIsNext(log: seq<Step>, e: Event)
    requires Legal(log) && [e] <= Unsettled(log, e.workspace)
    ensures |Settled(log, e.workspace)| < |Enqueues(log, e.workspace)|
    ensures Enqueues(log, e.workspace)[|Settled(log, e.workspace)|] == e
    ensures e.sequence == |Settled(log, e.workspace)| + 1
  {
    SettledInOrder(log, e.workspace);
    assert Unsettled(log, e.workspace)[0] == e;
    SequenceIsPosition(log, e.workspace, |Settled(log, e.workspace)|);
  }

  /** Only encoded payloads are ever queued, so every queued payload can be batched. */
  lemma {:induction false} EnqueuedWellFormed(log: seq<Step>, e: Event)
    requires Legal(log) && Enqueued(e) in log
    ensures e.wellFormed
  {
    if Last(log) != Enqueued(e) {
      assert log == Front(log) + [Last(log)];
      EnqueuedWellFormed(Front(log), e);
    }
  }

  lemma PositionOf(log: seq<Step>, e: Event) returns (i: nat)
    requires Legal(log) && Enqueued(e) in log
    ensures i < |Enqueues(log, e.workspace)| && Enqueues(log, e.workspace)[i] == e && e.sequence == i + 1
  {
    EnqueuedWhere(log, e.workspace, e);
    i :| 0 <= i < |Enqueues(log, e.workspace)| && Enqueues(log, e.workspace)[i] == e;
    SequenceIsPosition(log, e.workspace, i);
  }

  /** No event is settled before an earlier event of its workspace was. */
  lemma NoOvertaking(log: seq<Step>, k: nat, earlier: Event)
    requires Legal(log) && k < |log| && Settles(log[k])
    requires Enqueued(earlier) in log && earlier.workspace == log[k].event.workspace
    requires earlier.sequence < log[k].event.sequence
    ensures Acked(earlier) in log[..k] || Quarantined(earlier) in log[..k]
  {
    var before, after, w := log[..k], log[k..], earlier.workspace;
    assert log == before + after;
    SettlementsEvidenced(log, k);
    LegalPrefix(log, k);
    OldestIsNext(before, log[k].event);
    var i := PositionOf(log, earlier);
    ProjectionsConcat(before, after, w);
    SettledInOrder(before, w);
    assert Settled(before, w)[i] == earlier;
    SettledWhere(before, w, earlier);
  }
}
