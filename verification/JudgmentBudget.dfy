/** The fixed-window budget of managed adjudications, one window per project. */
module JudgmentBudget {
  import opened Collections

  const WINDOW := 3_600_000
  const BUDGET := 60

  /** A project's rate-limit row. */
  datatype Limit = Limit(startedAt: int, count: nat, expiresAt: int)

  datatype Claim = Claim(limit: Option<Limit>, claimed: bool, recoversAt: int)

  /** One claim at time `now`: a lapsed or missing window starts a new one. */
  function Claimed(limit: Option<Limit>, active: bool, now: int): Claim {
    if !active then Claim(limit, false, now)
    else if limit.None? || limit.value.startedAt + WINDOW <= now then
      Claim(Some(Limit(now, 1, now + 2 * WINDOW)), true, now + WINDOW)
    else if limit.value.count >= BUDGET then Claim(limit, false, limit.value.startedAt + WINDOW)
    else Claim(Some(limit.value.(count := limit.value.count + 1)), true, limit.value.startedAt + WINDOW)
  }

  /** Expired rows may be swept at any time from their expiry on. */
  function Swept(limit: Option<Limit>, now: int): Option<Limit> {
    if limit.Some? && limit.value.expiresAt <= now then None else limit
  }

  datatype Op = Ask(now: int, active: bool) | Sweep(now: int)

  /** A grant, with the window it fell in and its place there. */
  datatype Grant = Grant(time: int, window: int, place: nat)

  datatype History = History(limit: Option<Limit>, grants: seq<Grant>)

  function Apply(h: History, op: Op): History {
    match op
    case Sweep(now) => h.(limit := Swept(h.limit, now))
    case Ask(now, active) =>
      var c := Claimed(h.limit, active, now);
      History(c.limit,
              if c.claimed then h.grants + [Grant(now, c.limit.value.startedAt, c.limit.value.count)]
              else h.grants)
  }

  function Run(h: History, ops: seq<Op>): History {
    if ops == [] then h else Apply(Run(h, ops[..|ops| - 1]), ops[|ops| - 1])
  }

  const FRESH := History(None, [])

  predicate Nondecreasing(ops: seq<Op>) {
    forall i, j :: 0 <= i < j < |ops| ==> ops[i].now <= ops[j].now
  }

  // ------------------------------------------------------------ the shape of grants

  /** Consecutive grants share a window or the later one opens a new window in time. */
  predicate Follows(a: Grant, b: Grant) {
    && a.time <= b.time
    && ((b.window == a.window && b.place == a.place + 1)
         || (b.window == b.time && b.place == 1 && b.window >= a.window + WINDOW))
  }

  /** A grant falls in its window, at one of its places, and the first place opens it. */
  predicate WellPlaced(g: Grant) {
    1 <= g.place <= BUDGET && g.window <= g.time && (g.place == 1 ==> g.window == g.time)
  }

  predicate Chained(grants: seq<Grant>) {
    && (forall i :: 0 <= i < |grants| ==> WellPlaced(grants[i]))
    && (forall i :: 1 <= i < |grants| ==> Follows(grants[i - 1], grants[i]))
  }

  /** The row agrees with the last grant, or was swept when the window was long over. */
  predicate InStep(h: History, now: int) {
    && Chained(h.grants)
    && (h.limit.Some? ==>
          (&& h.grants != []
           && var last := h.grants[|h.grants| - 1];
              h.limit.value == Limit(last.window, last.place, last.window + 2 * WINDOW)))
    && (h.grants != [] ==>
          (&& h.grants[|h.grants| - 1].time <= now
           && (h.limit.None? ==> h.grants[|h.grants| - 1].window + 2 * WINDOW <= now)))
  }

  lemma ApplyInStep(h: History, op: Op, before: int)
    requires InStep(h, before) && before <= op.now
    ensures InStep(Apply(h, op), op.now)
  {
    var next := Apply(h, op);
    if |next.grants| > |h.grants| && h.grants != [] {
      var a, b := h.grants[|h.grants| - 1], next.grants[|h.grants|];
      assert Follows(a, b);
      forall i | 1 <= i < |next.grants| ensures Follows(next.grants[i - 1], next.grants[i]) {
        if i < |h.grants| {
          assert next.grants[i - 1] == h.grants[i - 1] && next.grants[i] == h.grants[i];
        }
      }
    }
  }

  lemma {:induction false} RunInStep(ops: seq<Op>, now: int)
    requires Nondecreasing(ops) && forall i :: 0 <= i < |ops| ==> ops[i].now <= now
    ensures InStep(Run(FRESH, ops), now)
  {
    if ops != [] {
      var last := ops[|ops| - 1];
      RunInStep(ops[..|ops| - 1], last.now);
      ApplyInStep(Run(FRESH, ops[..|ops| - 1]), last, last.now);
    }
  }

  lemma {:induction false} TimesGrow(g: seq<Grant>, i: nat, j: nat)
    requires Chained(g) && i <= j < |g|
    ensures g[i].time <= g[j].time && g[i].window <= g[j].window
    decreases j - i
  {
    if i < j {
      TimesGrow(g, i, j - 1);
      assert Follows(g[j - 1], g[j]);
    }
  }

  /** Either two grants share a window, and their places count the distance, or a whole window lies
      between their starts.
   */
  lemma {:induction false} SameOrLater(g: seq<Grant>, i: nat, j: nat)
    requires Chained(g) && i <= j < |g|
    ensures (g[j].window == g[i].window && g[j].place == g[i].place + (j - i)) || g[j].window >= g[i].window + WINDOW
    decreases j - i
  {
    if i < j {
      SameOrLater(g, i, j - 1);
      assert Follows(g[j - 1], g[j]);
    }
  }

  /** Soon after any grant a new window opens, at the time of the grant that opens it. */
  lemma NextWindow(g: seq<Grant>, i: nat, j: nat) returns (m: nat)
    requires Chained(g) && i < j < |g| && i + BUDGET - g[i].place + 1 <= j
    ensures i < m <= i + BUDGET - g[i].place + 1 && g[m].window == g[m].time && g[m].place == 1
    ensures g[m].window >= g[i].window + WINDOW
  {
    m := i + 1;
    while g[m].window == g[i].window
      invariant i < m <= i + BUDGET - g[i].place + 1
      invariant g[m - 1].window == g[i].window
      decreases j - m
    {
      SameOrLater(g, i, m);
      m := m + 1;
    }
    SameOrLater(g, i, m);
    assert Follows(g[m - 1], g[m]);
  }

  /** Any grant and the one 119 later are a whole window apart. */
  lemma Spread(g: seq<Grant>, i: nat, j: nat)
    requires Chained(g) && i + 2 * BUDGET - 1 <= j < |g|
    ensures g[j].time >= g[i].time + WINDOW
  {
    var m := NextWindow(g, i, j);
    TimesGrow(g, i, m);
    TimesGrow(g, m, j);
    if g[i].place > 1 {
      SameOrLater(g, m, j);
    }
  }

  // --------------------------------------------------------------------- the bound

  function GrantsWithin(g: seq<Grant>, from: int): set<nat> {
    set i: nat | i < |g| && from <= g[i].time < from + 3_600_000
  }

  function Range(lo: nat, hi: nat): (r: set<nat>)
    requires lo <= hi
    ensures |r| == hi - lo && forall i :: i in r <==> lo <= i < hi
    decreases hi - lo
  {
    if lo == hi then {} else Range(lo, hi - 1) + {hi - 1}
  }

  lemma {:induction false} Smallest(s: set<nat>) returns (m: nat)
    requires s != {}
    ensures m in s && forall i :: i in s ==> m <= i
  {
    var x :| x in s;
    var rest := s - {x};
    assert forall i :: i in s <==> i == x || i in rest;
    if rest == {} {
      m := x;
    } else {
      var k := Smallest(rest);
      m := if k < x then k else x;
    }
  }

  /** No half-open hour ever holds more than one grant short of twice the hourly budget, under any
      mix of claims and sweeps with clocks that do not run backwards.
   */
  lemma LessThanTwiceTheBudget(ops: seq<Op>, from: int)
    requires Nondecreasing(ops)
    ensures |GrantsWithin(Run(FRESH, ops).grants, from)| <= 119
  {
    var now := if ops == [] then 0 else ops[|ops| - 1].now;
    RunInStep(ops, now);
    var g := Run(FRESH, ops).grants;
    var within := GrantsWithin(g, from);
    if within != {} {
      var lo := Smallest(within);
      forall i | i in within ensures lo <= i < lo + 2 * BUDGET - 1 {
        if i >= lo + 2 * BUDGET - 1 {
          Spread(g, lo, i);
        }
      }
      SubsetSize(within, Range(lo, lo + 2 * BUDGET - 1));
    }
  }

  /** Repeated claims at one time. */
  function Asks(now: int, n: nat): seq<Op> {
    seq(n, _ => Ask(now, true))
  }

  lemma RunLast(h: History, ops: seq<Op>, op: Op)
    ensures Run(h, ops + [op]) == Apply(Run(h, ops), op)
  {
    assert (ops + [op])[..|ops|] == ops;
  }

  lemma {:induction false} RunConcat(h: History, x: seq<Op>, y: seq<Op>)
    ensures Run(h, x + y) == Run(Run(h, x), y)
  {
    if y == [] {
      assert x + y == x;
    } else {
      hide Apply;
      var front, last := y[..|y| - 1], y[|y| - 1];
      assert y == front + [last] && x + y == (x + front) + [last];
      RunConcat(h, x, front);
      RunLast(h, x + front, last);
      RunLast(Run(h, x), front, last);
    }
  }

  /** As long as the window has room, each claim is granted. */
  lemma {:induction false} AsksGranted(h: History, now: int, n: nat)
    requires h.limit.Some? && h.limit.value.startedAt <= now < h.limit.value.startedAt + WINDOW
    requires h.limit.value.count + n <= BUDGET
    ensures var t := Run(h, Asks(now, n));
            && t.limit == Some(h.limit.value.(count := h.limit.value.count + n))
            && |t.grants| == |h.grants| + n && h.grants <= t.grants
            && forall i :: |h.grants| <= i < |t.grants| ==> t.grants[i].time == now
    decreases n
  {
    hide Asks, Run;
    if n == 0 {
      NoAsks(h, now);
    } else {
      AsksGranted(h, now, n - 1);
      AsksLast(h, now, n);
    }
  }

  lemma NoAsks(h: History, now: int)
    ensures Run(h, Asks(now, 0)) == h
  {
  }

  lemma AsksLast(h: History, now: int, n: nat)
    requires n > 0
    ensures Run(h, Asks(now, n)) == Apply(Run(h, Asks(now, n - 1)), Ask(now, true))
  {
    hide Run, Apply;
    assert Asks(now, n) == Asks(now, n - 1) + [Ask(now, true)];
    RunLast(h, Asks(now, n - 1), Ask(now, true));
  }

  /** A run that reaches the bound: one claim opens a window, the rest of its budget goes in its last
      instant, and a whole budget in the first instant of the next.
   */
  function Busiest(): seq<Op> {
    Asks(0, 1) + Asks(WINDOW - 1, BUDGET - 1) + Asks(WINDOW, 1) + Asks(WINDOW, BUDGET - 1)
  }

  /** A claim when no window is running opens one. */
  lemma AskOpens(h: History, now: int)
    requires h.limit.None? || h.limit.value.startedAt + WINDOW <= now
    ensures var t := Run(h, Asks(now, 1));
            t.limit == Some(Limit(now, 1, now + 2 * WINDOW)) && t.grants == h.grants + [Grant(now, now, 1)]
  {
    assert Asks(now, 1) == [] + [Ask(now, true)];
    RunLast(h, [], Ask(now, true));
  }

  lemma BusiestIsOrdered()
    ensures Nondecreasing(Busiest())
  {
  }

  lemma BoundIsReached()
    ensures Nondecreasing(Busiest())
    ensures |GrantsWithin(Run(FRESH, Busiest()).grants, 3_599_999)| == 119
  {
    BusiestIsOrdered();
    hide Run, Asks, Nondecreasing;
    var one, rest := Asks(0, 1), Asks(WINDOW - 1, BUDGET - 1);
    var begun := Run(FRESH, one);
    AskOpens(FRESH, 0);
    AsksGranted(begun, WINDOW - 1, BUDGET - 1);
    RunConcat(FRESH, one, rest);
    var spent := Run(FRESH, one + rest);
    var again := Run(spent, Asks(WINDOW, 1));
    AskOpens(spent, WINDOW);
    AsksGranted(again, WINDOW, BUDGET - 1);
    RunConcat(FRESH, one + rest, Asks(WINDOW, 1));
    RunConcat(FRESH, one + rest + Asks(WINDOW, 1), Asks(WINDOW, BUDGET - 1));
    var g := Run(FRESH, Busiest()).grants;
    assert GrantsWithin(g, WINDOW - 1) == Range(1, 2 * BUDGET);
  }

  function WithoutSweeps(ops: seq<Op>): seq<Op> {
    if ops == [] then []
    else WithoutSweeps(ops[..|ops| - 1]) + if ops[|ops| - 1].Sweep? then [] else [ops[|ops| - 1]]
  }

  /** Two histories that will answer alike from `now` on: the rows agree, or one was swept after its window. */
  predicate Alike(g: History, h: History, now: int) {
    && g.grants == h.grants
    && WellFormed(h.limit)
    && (g.limit == h.limit || (g.limit.None? && h.limit.Some? && h.limit.value.startedAt + WINDOW <= now))
  }

  /** Sweeping expired rows never changes which claims are granted. */
  lemma {:induction false} SweepsAreInvisible(ops: seq<Op>, now: int)
    requires Nondecreasing(ops) && forall i :: 0 <= i < |ops| ==> ops[i].now <= now
    ensures Alike(Run(FRESH, ops), Run(FRESH, WithoutSweeps(ops)), now)
  {
    if ops != [] {
      var front, last := ops[..|ops| - 1], ops[|ops| - 1];
      SweepsAreInvisible(front, last.now);
      if last.Ask? {
        var kept := WithoutSweeps(front);
        assert (kept + [last])[..|kept|] == kept;
        assert Run(FRESH, WithoutSweeps(ops)) == Apply(Run(FRESH, kept), last);
      } else {
        assert WithoutSweeps(ops) == WithoutSweeps(front);
      }
    }
  }

  // -------------------------------------------------------------------- recovery

  predicate BudgetRefusal(limit: Option<Limit>, now: int) {
    limit.Some? && !Claimed(limit, true, now).claimed
  }

  predicate WellFormed(limit: Option<Limit>) {
    limit.Some? ==> limit.value.expiresAt == limit.value.startedAt + 2 * WINDOW
  }

  /** While nothing is granted the row stays, or has been swept after its window was over. */
  lemma {:induction false} NothingGranted(h: History, ops: seq<Op>)
    requires WellFormed(h.limit) && Run(h, ops).grants == h.grants
    ensures Run(h, ops).limit == h.limit || Run(h, ops).limit == None
    ensures forall k :: 0 <= k <= |ops| ==> Run(h, ops[..k]).grants == h.grants
  {
    if ops != [] {
      var front := ops[..|ops| - 1];
      GrantsGrow(h, front);
      assert Run(h, front).grants == h.grants;
      NothingGranted(h, front);
      forall k | 0 <= k <= |ops| ensures Run(h, ops[..k]).grants == h.grants {
        if k < |ops| {
          assert ops[..k] == front[..k];
        } else {
          assert ops[..k] == ops;
        }
      }
    } else {
      assert ops[..0] == ops;
    }
  }

  lemma {:induction false} GrantsGrow(h: History, ops: seq<Op>)
    ensures h.grants <= Run(h, ops).grants
  {
    if ops != [] {
      GrantsGrow(h, ops[..|ops| - 1]);
    }
  }

  /** A refusal is lifted at the reported time: the first active claim from then on is granted. */
  lemma RefusalIsLifted(h: History, now: int, ops: seq<Op>, later: int)
    requires WellFormed(h.limit) && BudgetRefusal(h.limit, now)
    requires Run(h, ops).grants == h.grants
    requires later >= Claimed(h.limit, true, now).recoversAt
    ensures Claimed(Run(h, ops).limit, true, later).claimed
  {
    NothingGranted(h, ops);
  }

  /** And not before: until then every claim is refused, and no sweep can reopen the window early. */
  lemma {:induction false} RefusedUntilThen(h: History, now: int, ops: seq<Op>)
    requires WellFormed(h.limit) && BudgetRefusal(h.limit, now)
    requires forall i :: 0 <= i < |ops| ==> ops[i].now < Claimed(h.limit, true, now).recoversAt
    ensures Run(h, ops) == h
  {
    if ops != [] {
      RefusedUntilThen(h, now, ops[..|ops| - 1]);
    }
  }

  // -------------------------------------------------------------------- the rule

  /** The last grant's window still runs: an hour from its start. */
  predicate Running(grants: seq<Grant>, now: int) {
    grants != [] && now < grants[|grants| - 1].window + 3_600_000
  }

  /** The rule, told from the grants so far: a claim is granted exactly when no window runs, which opens
      one, or the running one has granted fewer than sixty; either way it reports the end of the window it
      fell in. A claim for an inactive project is refused and changes nothing.
   */
  predicate ByTheRule(h: History, now: int) {
    var c := Claimed(h.limit, true, now);
    var runs := Running(h.grants, now);
    var place := if runs then h.grants[|h.grants| - 1].place else 0;
    var window := if runs then h.grants[|h.grants| - 1].window else now;
    && (c.claimed <==> place < 60) && c.recoversAt == window + 3_600_000
    && Apply(h, Ask(now, true)).grants == h.grants + (if place < 60 then [Grant(now, window, place + 1)] else [])
    && (c.claimed ==> c.limit == Some(Limit(window, place + 1, window + 7_200_000)))
    && Claimed(h.limit, false, now) == Claim(h.limit, false, now)
  }

  /** After every run of claims and sweeps the next claim is decided by the rule. */
  lemma ClaimedByTheRule(ops: seq<Op>, now: int)
    requires Nondecreasing(ops) && forall i :: 0 <= i < |ops| ==> ops[i].now <= now
    ensures ByTheRule(Run(FRESH, ops), now)
  {
    hide Run, InStep, ByTheRule;
    RunInStep(ops, now);
    StepByTheRule(Run(FRESH, ops), now);
  }

  lemma StepByTheRule(h: History, now: int)
    requires InStep(h, now)
    ensures ByTheRule(h, now)
  {
    LimitTold(h, now);
    ClaimOf(h.limit, Running(h.grants, now), now);
    hide InStep, Claimed;
  }

  /** One claim, told whether the row's window runs. */
  lemma ClaimOf(limit: Option<Limit>, runs: bool, now: int)
    requires if runs then limit.Some? && now < limit.value.startedAt + WINDOW && limit.value.count <= 60
                          && limit.value.expiresAt == limit.value.startedAt + 2 * WINDOW
             else limit.None? || limit.value.startedAt + WINDOW <= now
    ensures var c := Claimed(limit, true, now);
            var place := if runs then limit.value.count else 0;
            var window := if runs then limit.value.startedAt else now;
            && (c.claimed <==> place < 60) && c.recoversAt == window + 3_600_000
            && (c.claimed ==> c.limit == Some(Limit(window, place + 1, window + 7_200_000)))
    ensures Claimed(limit, false, now) == Claim(limit, false, now)
  {
  }

  lemma LimitTold(h: History, now: int)
    requires InStep(h, now)
    ensures Running(h.grants, now) ==>
      var last := h.grants[|h.grants| - 1];
      h.limit == Some(Limit(last.window, last.place, last.window + 2 * WINDOW)) && last.place <= 60
    ensures !Running(h.grants, now) ==> h.limit.None? || h.limit.value.startedAt + WINDOW <= now
  {
    if h.grants != [] {
      assert WellPlaced(h.grants[|h.grants| - 1]);
    }
  }

  // ------------------------------------------------------------------- the table

  class RateLimits {
    var rows: map<string, Limit>

    constructor ()
      ensures rows == map[]
    {
      rows := map[];
    }

    /** Claims one adjudication for a project; `status` is absent when there is no such project. */
    method ClaimJudgmentBudget(project: string, status: Option<string>, now: int)
      returns (claimed: bool, recoversAt: int)
      modifies this
      ensures var before := if project in old(rows) then Some(old(rows)[project]) else None;
              var c := Claimed(before, status == Some("active"), now);
              && claimed == c.claimed && recoversAt == c.recoversAt
              && (c.limit.Some? ==> rows == old(rows)[project := c.limit.value])
              && (c.limit.None? ==> rows == old(rows))
    {
      if status.None? || status.value != "active" {
        assert project in rows ==> rows == rows[project := rows[project]];
        return false, now;
      }
      if project !in rows || rows[project].startedAt + WINDOW <= now {
        rows := rows[project := Limit(now, 1, now + 2 * WINDOW)];
        return true, now + WINDOW;
      }
      var existing := rows[project];
      recoversAt := existing.startedAt + WINDOW;
      if existing.count >= BUDGET {
        assert rows == rows[project := existing];
        return false, recoversAt;
      }
      rows := rows[project := existing.(count := existing.count + 1)];
      return true, recoversAt;
    }
  }
}
