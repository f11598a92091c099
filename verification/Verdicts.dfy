/** Revision-guarded verdicts: late adjudications compare and set. */
module Verdicts {
  import opened Collections

  datatype Finding = Finding(state: string, severity: string, reason: string, delivery: Option<string>,
                             provider: Option<string>, revision: nat, lastSeenAt: int)

  datatype Verdict = Verdict(expectedRevision: nat, provider: string, severity: string, reason: string,
                             delivery: string, now: int)

  function DeliveryOf(f: Finding): string {
    if f.delivery.Some? then f.delivery.value else "dashboard"
  }

  /** The delivery a verdict leads to: silence is never taken from it. */
  function Delivered(f: Finding, v: Verdict): string {
    if v.delivery == "silent" then DeliveryOf(f) else v.delivery
  }

  predicate TakesEffect(f: Finding, v: Verdict) {
    && f.state == "open"
    && f.revision == v.expectedRevision
    && !(f.severity == v.severity && f.reason == v.reason && DeliveryOf(f) == Delivered(f, v))
  }

  function Judged(f: Finding, v: Verdict): Finding {
    if TakesEffect(f, v) then
      f.(severity := v.severity, reason := v.reason, delivery := Some(Delivered(f, v)), provider := Some(v.provider),
         revision := f.revision + 1, lastSeenAt := v.now)
    else f
  }

  /** What happens to a finding: a verdict arrives, or the service rewrites it, never lowering its revision. */
  datatype Happening = Judge(verdict: Verdict) | Rewrite(finding: Finding)

  function After(f: Finding, h: Happening): Finding {
    match h
    case Judge(v) => Judged(f, v)
    case Rewrite(g) => if g.revision >= f.revision then g else f
  }

  function Run(f: Finding, hs: seq<Happening>): Finding {
    if hs == [] then f else After(Run(f, hs[..|hs| - 1]), hs[|hs| - 1])
  }

  /** Whether step k of a run is a verdict that takes effect. */
  predicate EffectiveAt(f: Finding, hs: seq<Happening>, k: nat)
    requires k < |hs|
  {
    hs[k].Judge? && TakesEffect(Run(f, hs[..k]), hs[k].verdict)
  }

  lemma {:induction false} RevisionNeverDecreases(f: Finding, hs: seq<Happening>, i: nat, j: nat)
    requires i <= j <= |hs|
    ensures Run(f, hs[..i]).revision <= Run(f, hs[..j]).revision
    decreases j - i
  {
    if i < j {
      RevisionNeverDecreases(f, hs, i, j - 1);
      assert hs[..j][..j - 1] == hs[..j - 1];
    }
  }

  /** At most one verdict takes effect per expected revision, whatever the order of arrival. */
  lemma OneVerdictPerRevision(f: Finding, hs: seq<Happening>, i: nat, j: nat)
    requires i < j < |hs| && EffectiveAt(f, hs, i) && EffectiveAt(f, hs, j)
    ensures hs[i].verdict.expectedRevision < hs[j].verdict.expectedRevision
  {
    assert hs[..i + 1][..i] == hs[..i];
    RevisionNeverDecreases(f, hs, i + 1, j);
  }

  /** A finding that is no longer open is untouched, and one shown is never made silent, by any
      number of verdicts.
   */
  lemma {:induction false} VerdictsOnlyRefine(f: Finding, hs: seq<Happening>)
    requires forall i :: 0 <= i < |hs| ==> hs[i].Judge?
    ensures f.state != "open" ==> Run(f, hs) == f
    ensures Run(f, hs).state == f.state
    ensures DeliveryOf(f) != "silent" ==> DeliveryOf(Run(f, hs)) != "silent"
    ensures Run(f, hs).revision <= f.revision + |hs|
  {
    if hs != [] {
      VerdictsOnlyRefine(f, hs[..|hs| - 1]);
    }
  }

  /** Of any number of verdicts that read the same revision, the first that changes something
      settles the finding; the rest are discarded.
   */
  lemma {:induction false} FirstVerdictWins(f: Finding, vs: seq<Verdict>, first: nat)
    requires first < |vs| && TakesEffect(f, vs[first])
    requires forall i :: 0 <= i < |vs| ==> vs[i].expectedRevision == f.revision
    requires forall i :: 0 <= i < first ==> !TakesEffect(f, vs[i])
    ensures Run(f, Judges(vs)) == Judged(f, vs[first])
  {
    var last := |vs| - 1;
    assert Judges(vs)[..last] == Judges(vs[..last]);
    if first < last {
      FirstVerdictWins(f, vs[..last], first);
    } else {
      NoEffect(f, vs[..last]);
    }
  }

  // ------------------------------------------------------------------ what a verdict leaves

  /** The verdict was reached on this very revision, and the finding is still open. */
  predicate Meets(f: Finding, v: Verdict) {
    f.state == "open" && f.revision == v.expectedRevision
  }

  /** A finding with no delivery of its own is shown on the dashboard. */
  predicate ShownAs(f: Finding, delivery: string) {
    f.delivery == Some(delivery) || (f.delivery == None && delivery == "dashboard")
  }

  predicate AlreadySays(f: Finding, v: Verdict) {
    && v.severity == f.severity && v.reason == f.reason
    && (v.delivery == "silent" || ShownAs(f, v.delivery))
  }

  /** The finding says what the verdict said; where that was to be silent, it is shown as before. */
  predicate Carries(f: Finding, v: Verdict, before: Finding) {
    && f.state == "open" && f.severity == v.severity && f.reason == v.reason && f.provider == Some(v.provider)
    && f.lastSeenAt == v.now && f.revision == v.expectedRevision + 1
    && f.delivery.Some? && if v.delivery == "silent" then ShownAs(before, f.delivery.value)
                           else f.delivery.value == v.delivery
  }

  lemma VerdictTold(f: Finding, v: Verdict)
    ensures TakesEffect(f, v) <==> Meets(f, v) && !AlreadySays(f, v)
    ensures if TakesEffect(f, v) then Carries(Judged(f, v), v, f) else Judged(f, v) == f
  {
  }

  predicate SaysNew(f: Finding, v: Verdict) {
    Meets(f, v) && !AlreadySays(f, v)
  }

  /** Verdict k said something new, the finding became g by it, and no later one says g anything new. */
  predicate LastToChange(f: Finding, vs: seq<Verdict>, k: nat, g: Finding) {
    && k < |vs| && SaysNew(Run(f, Judges(vs[..k])), vs[k]) && Carries(g, vs[k], Run(f, Judges(vs[..k])))
    && forall j :: k < j < |vs| ==> !SaysNew(g, vs[j])
  }

  /** After any number of verdicts a finding carries what the last one to meet its revision with
      something new said, and is as it was if there was none.
   */
  lemma {:induction false} LastVerdictShows(f: Finding, vs: seq<Verdict>)
    ensures var g := Run(f, Judges(vs));
            || (g == f && forall k :: 0 <= k < |vs| ==> !SaysNew(f, vs[k]))
            || exists k :: LastToChange(f, vs, k, g)
  {
    if vs != [] {
      hide Judged, TakesEffect, SaysNew, Carries, LastToChange, Run;
      var last := |vs| - 1;
      var before, g := Run(f, Judges(vs[..last])), Run(f, Judges(vs));
      RunSnoc(f, vs);
      VerdictTold(before, vs[last]);
      SaysNewIs(before, vs[last]);
      LastVerdictShows(f, vs[..last]);
      if TakesEffect(before, vs[last]) {
        JustChanged(f, vs);
      } else if k :| LastToChange(f, vs[..last], k, g) {
        ChangedBefore(f, vs, k, g);
      }
    }
  }

  lemma SaysNewIs(f: Finding, v: Verdict)
    ensures SaysNew(f, v) <==> TakesEffect(f, v)
  {
    VerdictTold(f, v);
  }

  lemma RunSnoc(f: Finding, vs: seq<Verdict>)
    requires vs != []
    ensures Run(f, Judges(vs)) == Judged(Run(f, Judges(vs[..|vs| - 1])), vs[|vs| - 1])
  {
    assert Judges(vs)[..|vs| - 1] == Judges(vs[..|vs| - 1]);
  }

  lemma JustChanged(f: Finding, vs: seq<Verdict>)
    requires vs != []
    requires var before := Run(f, Judges(vs[..|vs| - 1])); SaysNew(before, vs[|vs| - 1])
    ensures LastToChange(f, vs, |vs| - 1, Run(f, Judges(vs)))
  {
    hide Judged, TakesEffect, Run, SaysNew, Carries;
    var before := Run(f, Judges(vs[..|vs| - 1]));
    RunSnoc(f, vs);
    SaysNewIs(before, vs[|vs| - 1]);
    VerdictTold(before, vs[|vs| - 1]);
  }

  lemma ChangedBefore(f: Finding, vs: seq<Verdict>, k: nat, g: Finding)
    requires vs != [] && LastToChange(f, vs[..|vs| - 1], k, g) && !SaysNew(g, vs[|vs| - 1])
    ensures LastToChange(f, vs, k, g)
  {
    hide Judged, TakesEffect, Run, SaysNew, Carries;
    assert vs[..|vs| - 1][..k] == vs[..k] && vs[..|vs| - 1][k] == vs[k];
    forall j | k < j < |vs| ensures !SaysNew(g, vs[j]) {
      assert j < |vs| - 1 ==> vs[..|vs| - 1][j] == vs[j];
    }
  }

  function Judges(vs: seq<Verdict>): (hs: seq<Happening>)
    ensures |hs| == |vs|
  {
    seq(|vs|, i requires 0 <= i < |vs| => Judge(vs[i]))
  }

  lemma {:induction false} NoEffect(f: Finding, vs: seq<Verdict>)
    requires forall i :: 0 <= i < |vs| ==> !TakesEffect(f, vs[i])
    ensures Run(f, Judges(vs)) == f
  {
    if vs != [] {
      var last := |vs| - 1;
      assert Judges(vs)[..last] == Judges(vs[..last]);
      NoEffect(f, vs[..last]);
    }
  }

  class Findings {
    var rows: map<string, Finding>

    constructor ()
      ensures rows == map[]
    {
      rows := map[];
    }

    /** What an adjudication starts from, if the finding is still open at that revision. */
    method JudgmentInput(id: string, expectedRevision: nat) returns (input: Option<(string, string)>)
      ensures input.Some? <==> id in rows && rows[id].state == "open" && rows[id].revision == expectedRevision
      ensures input.Some? ==>
                var f := rows[id];
                input.value == (f.severity, if f.delivery == None then "dashboard" else f.delivery.value)
    {
      if id !in rows || rows[id].state != "open" || rows[id].revision != expectedRevision {
        return None;
      }
      return Some((rows[id].severity, DeliveryOf(rows[id])));
    }

    method ApplyJudgmentVerdict(id: string, v: Verdict) returns (applied: bool)
      modifies this
      ensures applied <==> id in old(rows) && TakesEffect(old(rows)[id], v)
      ensures rows == if id in old(rows) then old(rows)[id := Judged(old(rows)[id], v)] else old(rows)
      ensures applied <==> id in old(rows) && Meets(old(rows)[id], v) && !AlreadySays(old(rows)[id], v)
      ensures applied ==> Carries(rows[id], v, old(rows)[id]) && rows.Keys == old(rows).Keys
    {
      if id !in rows {
        return false;
      }
      var f := rows[id];
      VerdictTold(f, v);
      assert rows == rows[id := f];
      if f.state != "open" || f.revision != v.expectedRevision {
        return false;
      }
      var delivery := if v.delivery == "silent" then DeliveryOf(f) else v.delivery;
      if f.severity == v.severity && f.reason == v.reason && DeliveryOf(f) == delivery {
        return false;
      }
      rows := rows[id := f.(severity := v.severity, reason := v.reason, delivery := Some(delivery),
                            provider := Some(v.provider), revision := f.revision + 1, lastSeenAt := v.now)];
      return true;
    }
  }
}
