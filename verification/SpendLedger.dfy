/**
 The spend ledger shared by all runs. A run that has settled a handler call with a cost
 checks both caps and appends its row with no await in between, so the settlements of
 concurrent runs form one sequence; this module reasons about every such sequence.
 Each settlement reads the clock twice, once for the day of the check and once for the
 timestamp of the row.
*/
module SpendLedgers {
  import opened Runs

  type RunId = string

  datatype SpendRow = SpendRow(timestamp: nat, reference: RunId, amount: real)

  const MILLIS_PER_DAY: nat := 86_400_000

  function Day(t: nat): nat {
    t / MILLIS_PER_DAY
  }

  function Total(rows: seq<SpendRow>): real {
    if rows == [] then 0.0 else Total(rows[..|rows|-1]) + rows[|rows|-1].amount
  }

  function OfRun(rows: seq<SpendRow>, run: RunId): seq<SpendRow> {
    if rows == [] then []
    else
      var last := rows[|rows|-1];
      OfRun(rows[..|rows|-1], run) + if last.reference == run then [last] else []
  }

  function OfDay(rows: seq<SpendRow>, day: nat): seq<SpendRow> {
    if rows == [] then []
    else
      var last := rows[|rows|-1];
      OfDay(rows[..|rows|-1], day) + if Day(last.timestamp) == day then [last] else []
  }

  function TaskSpend(rows: seq<SpendRow>, run: RunId): real {
    Total(OfRun(rows, run))
  }

  function DaySpend(rows: seq<SpendRow>, day: nat): real {
    Total(OfDay(rows, day))
  }

  /** One settlement with a positive cost by some run. */
  datatype Settlement = Settlement(run: RunId, cost: real, checkedAt: nat, stampedAt: nat)

  predicate Affordable(p: Policy, rows: seq<SpendRow>, e: Settlement) {
    WithinBudget(p, TaskSpend(rows, e.run), DaySpend(rows, Day(e.checkedAt)), e.cost)
  }

  function Charged(p: Policy, rows: seq<SpendRow>, e: Settlement): seq<SpendRow> {
    if Affordable(p, rows, e) then rows + [SpendRow(e.stampedAt, e.run, e.cost)] else rows
  }

  function Ledger(p: Policy, events: seq<Settlement>): seq<SpendRow> {
    if events == [] then [] else Charged(p, Ledger(p, events[..|events|-1]), events[|events|-1])
  }

  ghost predicate PositiveCosts(events: seq<Settlement>) {
    forall i :: 0 <= i < |events| ==> events[i].cost > 0.0
  }

  /** The clock never goes back, within a settlement or between settlements, whichever runs
      they belong to. */
  ghost predicate Monotone(events: seq<Settlement>) {
    && (forall i :: 0 <= i < |events| ==> events[i].checkedAt <= events[i].stampedAt)
    && forall i, j :: 0 <= i < j < |events| ==> events[i].stampedAt <= events[j].checkedAt
  }

  function Cap(x: real): real {
    if x < 0.0 then 0.0 else x
  }

  class SpendLedger {
    var rows: seq<SpendRow>

    constructor ()
      ensures rows == []
    {
      rows := [];
    }

    /** withinBudget, reading the totals from the rows. The day is not looked at when the
        task cap already refuses. */
    method WithinBudget(p: Policy, run: RunId, cost: real, now: nat) returns (ok: bool)
      ensures ok <==> Affordable(p, rows, Settlement(run, cost, now, now))
    {
      var taskSpend := SumTask(run);
      if taskSpend + cost > p.maxTask {
        return false;
      }
      var daySpend := SumDay(now);
      return daySpend + cost <= p.maxDay;
    }

    method SumTask(run: RunId) returns (total: real)
      ensures total == TaskSpend(rows, run)
    {
      total := 0.0;
      for i := 0 to |rows|
        invariant total == TaskSpend(rows[..i], run)
      {
        assert rows[..i+1][..i] == rows[..i];
        TotalAppend(OfRun(rows[..i], run), rows[i]);
        if rows[i].reference == run {
          total := total + rows[i].amount;
        }
      }
      assert rows[..|rows|] == rows;
    }

    method SumDay(now: nat) returns (total: real)
      ensures total == DaySpend(rows, Day(now))
    {
      total := 0.0;
      for i := 0 to |rows|
        invariant total == DaySpend(rows[..i], Day(now))
      {
        assert rows[..i+1][..i] == rows[..i];
        TotalAppend(OfDay(rows[..i], Day(now)), rows[i]);
        if Day(rows[i].timestamp) == Day(now) {
          total := total + rows[i].amount;
        }
      }
      assert rows[..|rows|] == rows;
    }

    /** The step a run takes, without interruption, once a handler call has settled. */
    method Settle(p: Policy, e: Settlement) returns (ok: bool)
      modifies this
      ensures ok <==> Affordable(p, old(rows), e)
      ensures rows == Charged(p, old(rows), e)
    {
      ok := WithinBudget(p, e.run, e.cost, e.checkedAt);
      if ok {
        rows := rows + [SpendRow(e.stampedAt, e.run, e.cost)];
      }
    }
  }

  lemma TotalAppend(rows: seq<SpendRow>, r: SpendRow)
    ensures Total(rows + [r]) == Total(rows) + r.amount
    ensures Total(rows + []) == Total(rows)
  {
    assert (rows + [r])[..|rows|] == rows;
    assert rows + [] == rows;
  }

  lemma SpendAppend(rows: seq<SpendRow>, r: SpendRow, run: RunId, day: nat)
    ensures TaskSpend(rows + [r], run) == TaskSpend(rows, run) + if r.reference == run then r.amount else 0.0
    ensures DaySpend(rows + [r], day) == DaySpend(rows, day) + if Day(r.timestamp) == day then r.amount else 0.0
  {
    assert (rows + [r])[..|rows|] == rows;
    TotalAppend(OfRun(rows, run), r);
    TotalAppend(OfDay(rows, day), r);
  }

  /** A day is an interval of so many milliseconds, and the days follow each other. */
  lemma DayIsInterval(t: nat)
    ensures Day(t) * 86_400_000 <= t < (Day(t) + 1) * 86_400_000
  {
  }

  // ---- What is refused ----

  function RowOf(e: Settlement): SpendRow {
    SpendRow(e.stampedAt, e.run, e.cost)
  }

  /** Adding the cost at the time of the check would leave both totals within their caps. */
  ghost predicate Fits(p: Policy, rows: seq<SpendRow>, e: Settlement) {
    var more := rows + [SpendRow(e.checkedAt, e.run, e.cost)];
    TaskSpend(more, e.run) <= p.maxTask && DaySpend(more, Day(e.checkedAt)) <= p.maxDay
  }

  /** A settlement is refused exactly when its cost would put the run above the task cap or the
      checked day above the day cap; otherwise it adds its row. */
  lemma RefusedExactlyWhenOverCap(p: Policy, rows: seq<SpendRow>, e: Settlement)
    ensures Charged(p, rows, e) == if Fits(p, rows, e) then rows + [RowOf(e)] else rows
  {
    hide TaskSpend, DaySpend;
    SpendAppend(rows, SpendRow(e.checkedAt, e.run, e.cost), e.run, Day(e.checkedAt));
  }

  /** The rows if every settlement were charged. */
  function AllRows(events: seq<Settlement>): (rows: seq<SpendRow>)
    ensures |rows| == |events|
  {
    if events == [] then [] else AllRows(events[..|events|-1]) + [RowOf(events[|events|-1])]
  }

  lemma {:induction false} LedgerIsShorter(p: Policy, events: seq<Settlement>)
    ensures |Ledger(p, events)| <= |events|
  {
    hide Affordable;
    if events != [] {
      LedgerIsShorter(p, events[..|events|-1]);
    }
  }

  ghost predicate AllFit(p: Policy, events: seq<Settlement>) {
    forall n :: 0 <= n < |events| ==> Fits(p, AllRows(events[..n]), events[n])
  }

  /** Nothing is refused exactly when each settlement fits on top of all before it. */
  lemma {:induction false} LedgerHoldsEverything(p: Policy, events: seq<Settlement>)
    ensures Ledger(p, events) == AllRows(events) <==> AllFit(p, events)
  {
    hide Fits, Charged, RowOf, AllFit;
    AllFitStep(p, events);
    if events != [] {
      var front, e := events[..|events|-1], events[|events|-1];
      LedgerHoldsEverything(p, front);
      LedgerIsShorter(p, front);
      RefusedExactlyWhenOverCap(p, Ledger(p, front), e);
      SameAfterAppend(Ledger(p, front), AllRows(front), RowOf(e));
    }
  }

  lemma AllFitStep(p: Policy, events: seq<Settlement>)
    ensures events == [] ==> AllFit(p, events)
    ensures events != [] ==>
      var front := events[..|events|-1];
      AllFit(p, events) <==> AllFit(p, front) && Fits(p, AllRows(front), events[|events|-1])
  {
    hide Fits;
    if events != [] {
      var front := events[..|events|-1];
      assert forall n :: 0 <= n < |front| ==> front[..n] == events[..n];
    }
  }

  lemma SameAfterAppend(some: seq<SpendRow>, all: seq<SpendRow>, r: SpendRow)
    requires |some| <= |all|
    ensures some + [r] == all + [r] <==> some == all
    ensures some != all + [r]
  {
    assert (some + [r])[..|some|] == some && (all + [r])[..|all|] == all;
  }

  /** Every run and every day of the events is within its cap when all of them are charged. */
  ghost predicate TotalsWithin(p: Policy, events: seq<Settlement>) {
    forall i :: 0 <= i < |events| ==>
      && TaskSpend(AllRows(events), events[i].run) <= p.maxTask
      && DaySpend(AllRows(events), Day(events[i].stampedAt)) <= p.maxDay
  }

  ghost predicate ReadOneDay(events: seq<Settlement>) {
    forall i :: 0 <= i < |events| ==> Day(events[i].checkedAt) == Day(events[i].stampedAt)
  }

  lemma {:induction false} AllSpendGrows(events: seq<Settlement>, n: nat, run: RunId, day: nat)
    requires PositiveCosts(events) && n <= |events|
    ensures TaskSpend(AllRows(events[..n]), run) <= TaskSpend(AllRows(events), run)
    ensures DaySpend(AllRows(events[..n]), day) <= DaySpend(AllRows(events), day)
  {
    hide TaskSpend, DaySpend, Day;
    if n == |events| {
      assert events[..n] == events;
    } else {
      var front := events[..|events|-1];
      AllSpendGrows(front, n, run, day);
      assert front[..n] == events[..n];
      SpendAppend(AllRows(front), RowOf(events[|events|-1]), run, day);
    }
  }

  /** With both readings of each settlement on one day, nothing is refused exactly when charging
      everything keeps every run and every day within its cap. */
  lemma NothingRefusedExactlyWithinCaps(p: Policy, events: seq<Settlement>)
    requires PositiveCosts(events) && ReadOneDay(events)
    ensures Ledger(p, events) == AllRows(events) <==> TotalsWithin(p, events)
  {
    hide TaskSpend, DaySpend, Ledger, Day;
    LedgerHoldsEverything(p, events);
    if TotalsWithin(p, events) {
      forall n | 0 <= n < |events|
        ensures Fits(p, AllRows(events[..n]), events[n])
      {
        var e := events[n];
        assert events[..n+1][..n] == events[..n];
        AllSpendGrows(events, n + 1, e.run, Day(e.stampedAt));
        SpendAppend(AllRows(events[..n]), RowOf(e), e.run, Day(e.stampedAt));
        SpendAppend(AllRows(events[..n]), SpendRow(e.checkedAt, e.run, e.cost), e.run, Day(e.checkedAt));
      }
    }
    if AllFit(p, events) {
      forall i | 0 <= i < |events|
        ensures TaskSpend(AllRows(events), events[i].run) <= p.maxTask
        ensures DaySpend(AllRows(events), Day(events[i].stampedAt)) <= p.maxDay
      {
        TaskCapHolds(p, events, events[i].run);
        OneDayIsSafe(events);
        DayCapHolds(p, events, Day(events[i].stampedAt));
        CapsArePositive(p, events, i);
      }
    }
  }

  lemma OneDayIsSafe(events: seq<Settlement>)
    requires ReadOneDay(events)
    ensures ClockSafe(events)
  {
  }

  /** A settlement that fits shows that neither cap is negative. */
  lemma CapsArePositive(p: Policy, events: seq<Settlement>, i: nat)
    requires PositiveCosts(events) && AllFit(p, events) && i < |events|
    ensures p.maxTask > 0.0 && p.maxDay > 0.0
  {
    hide TaskSpend, DaySpend, Day;
    var e := events[i];
    NothingSpent(p, e.run, Day(e.checkedAt));
    AllSpendGrows(events[..i], 0, e.run, Day(e.checkedAt));
    assert events[..i][..0] == [];
    SpendAppend(AllRows(events[..i]), SpendRow(e.checkedAt, e.run, e.cost), e.run, Day(e.checkedAt));
  }

  // ---- The task cap ----

  /** One settlement keeps the task cap of every run. */
  lemma TaskCapKept(p: Policy, rows: seq<SpendRow>, e: Settlement, run: RunId)
    requires TaskSpend(rows, run) <= Cap(p.maxTask)
    ensures TaskSpend(Charged(p, rows, e), run) <= Cap(p.maxTask)
  {
    hide TaskSpend, DaySpend;
    SpendAppend(rows, SpendRow(e.stampedAt, e.run, e.cost), run, 0);
  }

  /** The task cap needs nothing of the clock. */
  lemma {:induction false} TaskCapHolds(p: Policy, events: seq<Settlement>, run: RunId)
    ensures TaskSpend(Ledger(p, events), run) <= Cap(p.maxTask)
  {
    hide TaskSpend, Charged, Cap;
    if events == [] {
      NothingSpent(p, run, 0);
    } else {
      var front := events[..|events|-1];
      TaskCapHolds(p, front, run);
      TaskCapKept(p, Ledger(p, front), events[|events|-1], run);
    }
  }

  // ---- The day cap ----

  /** Rows carry positive amounts, and only days on which some event was stamped have any. */
  ghost predicate Stamped(rows: seq<SpendRow>, events: seq<Settlement>) {
    forall i :: 0 <= i < |rows| ==> rows[i].amount > 0.0 && StampedOn(events, Day(rows[i].timestamp))
  }

  ghost predicate StampedOn(events: seq<Settlement>, day: nat) {
    exists j :: 0 <= j < |events| && Day(events[j].stampedAt) == day
  }

  lemma {:induction false} DaySpendOfStamped(rows: seq<SpendRow>, events: seq<Settlement>, day: nat)
    requires Stamped(rows, events)
    ensures DaySpend(rows, day) >= 0.0
    ensures !StampedOn(events, day) ==> DaySpend(rows, day) == 0.0
  {
    hide Day, StampedOn;
    if rows != [] {
      var front, last := rows[..|rows|-1], rows[|rows|-1];
      DaySpendOfStamped(front, events, day);
      SpendAppend(front, last, "", day);
      assert front + [last] == rows;
    }
  }

  /** A settlement is dated safely if both its readings fall on one day, or if nothing was
      stamped before on the day of its row. */
  ghost predicate SafelyDated(before: seq<Settlement>, e: Settlement) {
    Day(e.checkedAt) == Day(e.stampedAt) || !StampedOn(before, Day(e.stampedAt))
  }

  /** A condition on the clock readings alone: every settlement is dated safely. */
  ghost predicate ClockSafe(events: seq<Settlement>) {
    forall i :: 0 <= i < |events| ==> SafelyDated(events[..i], events[i])
  }

  /** One safely dated settlement keeps the cap of every day. */
  lemma DayCapKept(p: Policy, rows: seq<SpendRow>, before: seq<Settlement>, e: Settlement, day: nat)
    requires Stamped(rows, before) && SafelyDated(before, e)
    requires DaySpend(rows, day) <= Cap(p.maxDay)
    ensures DaySpend(Charged(p, rows, e), day) <= Cap(p.maxDay)
  {
    hide TaskSpend, DaySpend, Day, Stamped, StampedOn;
    SpendAppend(rows, SpendRow(e.stampedAt, e.run, e.cost), e.run, day);
    DaySpendOfStamped(rows, before, Day(e.checkedAt));
    DaySpendOfStamped(rows, before, day);
  }

  lemma {:induction false} LedgerStamped(p: Policy, events: seq<Settlement>)
    requires PositiveCosts(events)
    ensures Stamped(Ledger(p, events), events)
  {
    hide Affordable, Day;
    if events != [] {
      var front, e := events[..|events|-1], events[|events|-1];
      LedgerStamped(p, front);
      assert events[|events|-1] == e;
      assert forall day :: StampedOn(front, day) ==> StampedOn(events, day);
      assert StampedOn(events, Day(e.stampedAt));
    }
  }

  lemma {:induction false} DayCapHolds(p: Policy, events: seq<Settlement>, day: nat)
    requires PositiveCosts(events) && ClockSafe(events)
    ensures DaySpend(Ledger(p, events), day) <= Cap(p.maxDay)
  {
    hide DaySpend, Charged, Cap, SafelyDated, Stamped;
    if events == [] {
      NothingSpent(p, "", day);
    } else {
      var front, e := events[..|events|-1], events[|events|-1];
      assert forall i :: 0 <= i < |front| ==> front[..i] == events[..i];
      DayCapHolds(p, front, day);
      LedgerStamped(p, front);
      DayCapKept(p, Ledger(p, front), front, e, day);
    }
  }

  lemma NothingSpent(p: Policy, run: RunId, day: nat)
    ensures TaskSpend([], run) == 0.0 <= Cap(p.maxTask) && DaySpend([], day) == 0.0 <= Cap(p.maxDay)
  {
  }

  // ---- Readings that are not safely dated break the day cap ----

  /** The same clock readings with other runs and costs. */
  ghost predicate SameReadings(a: seq<Settlement>, b: seq<Settlement>) {
    |a| == |b| && forall i :: 0 <= i < |a| ==> SameReading(a[i], b[i])
  }

  ghost predicate SameReading(a: Settlement, b: Settlement) {
    a.checkedAt == b.checkedAt && a.stampedAt == b.stampedAt
  }

  /** Whatever the runs, the costs and the policy, no day passes its cap. */
  ghost predicate DayCapSafe(readings: seq<Settlement>) {
    forall p: Policy, events: seq<Settlement>, day: nat ::
      SameReadings(events, readings) && PositiveCosts(events) ==> DaySpend(Ledger(p, events), day) <= Cap(p.maxDay)
  }

  const TIGHT := Policy(100.0, 5.0)

  /** Settlements i and j cost the day cap of five, all others more than a day may cost. */
  function Overcharging(readings: seq<Settlement>, i: int, j: int): (events: seq<Settlement>)
    ensures |events| == |readings|
  {
    seq(|readings|, k requires 0 <= k < |readings| =>
      Settlement("", if k == i || k == j then 5.0 else 6.0, readings[k].checkedAt, readings[k].stampedAt))
  }

  /** Only j and i are charged, and both on the day on which j was stamped. */
  lemma {:induction false} OverchargedLedger(events: seq<Settlement>, i: nat, j: nat, n: nat)
    requires j < i < |events| && n <= |events|
    requires forall k :: 0 <= k < |events| ==>
               events[k].run == "" && events[k].cost == if k == i || k == j then 5.0 else 6.0
    requires Day(events[j].stampedAt) == Day(events[i].stampedAt) != Day(events[i].checkedAt)
    ensures Ledger(TIGHT, events[..n])
         == (if n > j then [RowOf(events[j])] else []) + (if n > i then [RowOf(events[i])] else [])
  {
    hide Day, TaskSpend, DaySpend;
    if n > 0 {
      OverchargedLedger(events, i, j, n - 1);
      assert events[..n][..n-1] == events[..n-1];
      var e, first := events[n-1], [RowOf(events[j])];
      TwoRows(events[j], events[i], Day(e.checkedAt));
      NothingSpent(TIGHT, "", Day(e.checkedAt));
      assert first + [] == first == [] + first;
      assert events[..n][n-1] == e;
    }
  }

  lemma TwoRows(a: Settlement, b: Settlement, day: nat)
    requires a.run == b.run == "" && a.cost == b.cost == 5.0
    ensures TaskSpend([RowOf(a)], "") == 5.0
    ensures DaySpend([RowOf(a)], day) == if Day(a.stampedAt) == day then 5.0 else 0.0
    ensures DaySpend([RowOf(a)] + [RowOf(b)], day) >= 0.0
    ensures Day(a.stampedAt) == Day(b.stampedAt) == day ==> DaySpend([RowOf(a)] + [RowOf(b)], day) == 10.0
  {
    hide Day, TaskSpend, DaySpend;
    NothingSpent(TIGHT, "", day);
    SpendAppend([], RowOf(a), "", day);
    SpendAppend([RowOf(a)], RowOf(b), "", day);
    assert [] + [RowOf(a)] == [RowOf(a)];
  }

  /** Unsafe readings break the day cap: with some costs, under some policy, a day is charged
      twice its cap. */
  lemma UnsafeClockBreaksDayCap(readings: seq<Settlement>)
    requires !ClockSafe(readings)
    ensures exists events: seq<Settlement>, day: nat ::
      SameReadings(events, readings) && PositiveCosts(events)
      && DaySpend(Ledger(TIGHT, events), day) == 2.0 * Cap(TIGHT.maxDay)
  {
    hide Day, Ledger, DaySpend;
    var i :| 0 <= i < |readings| && !SafelyDated(readings[..i], readings[i]);
    var j :| 0 <= j < i && Day(readings[..i][j].stampedAt) == Day(readings[i].stampedAt);
    var events := Overcharging(readings, i, j);
    OverchargedLedger(events, i, j, |events|);
    TwoRows(events[j], events[i], Day(events[i].stampedAt));
    assert events[..|events|] == events;
    assert SameReadings(events, readings) && PositiveCosts(events);
  }

  /** The exact condition for the day cap, in terms of the clock readings alone: no costs, runs
      and policy can pass it exactly when every settlement is dated safely. A clock may step
      back as long as both readings of each settlement fall on one day. */
  lemma DayCapExactlyWhenClockSafe(readings: seq<Settlement>)
    ensures DayCapSafe(readings) <==> ClockSafe(readings)
  {
    hide Ledger, DaySpend, SafelyDated, PositiveCosts, SameReadings;
    if ClockSafe(readings) {
      forall p: Policy, events: seq<Settlement>, day: nat | SameReadings(events, readings) && PositiveCosts(events)
        ensures DaySpend(Ledger(p, events), day) <= Cap(p.maxDay)
      {
        SafetyOfReadings(events, readings);
        DayCapHolds(p, events, day);
      }
    } else {
      UnsafeClockBreaksDayCap(readings);
    }
  }

  lemma SafetyOfReadings(events: seq<Settlement>, readings: seq<Settlement>)
    requires SameReadings(events, readings) && ClockSafe(readings)
    ensures ClockSafe(events)
  {
    hide Day;
    forall i | 0 <= i < |events|
      ensures SafelyDated(events[..i], events[i])
    {
      assert SafelyDated(readings[..i], readings[i]) && SameReading(events[i], readings[i]);
      if StampedOn(events[..i], Day(events[i].stampedAt)) {
        var j :| 0 <= j < i && Day(events[..i][j].stampedAt) == Day(events[i].stampedAt);
        assert SameReading(events[j], readings[j]) && readings[..i][j] == readings[j];
        assert StampedOn(readings[..i], Day(readings[i].stampedAt));
      }
    }
  }

  // ---- Every interleaving ----

  lemma DayMonotone(s: nat, t: nat)
    requires s <= t
    ensures Day(s) <= Day(t)
  {
  }

  /** A clock that never steps back is safe, also over a midnight between the two readings. */
  lemma MonotoneIsSafe(events: seq<Settlement>)
    requires Monotone(events)
    ensures ClockSafe(events)
  {
    hide Day;
    forall i | 0 <= i < |events|
      ensures SafelyDated(events[..i], events[i])
    {
      DayMonotone(events[i].checkedAt, events[i].stampedAt);
      forall j | 0 <= j < i
        ensures Day(events[..i][j].stampedAt) <= Day(events[i].checkedAt)
      {
        DayMonotone(events[j].stampedAt, events[i].checkedAt);
      }
    }
  }

  /** Budget caps over every interleaving of settlements of any number of runs, at every
      moment: no run's total passes the task cap and no day's total passes the day cap. */
  lemma CapsHoldInEveryInterleaving(p: Policy, events: seq<Settlement>, n: nat)
    requires PositiveCosts(events) && Monotone(events) && n <= |events|
    ensures forall run :: TaskSpend(Ledger(p, events[..n]), run) <= Cap(p.maxTask)
    ensures forall day :: DaySpend(Ledger(p, events[..n]), day) <= Cap(p.maxDay)
  {
    hide TaskSpend, DaySpend, Ledger, ClockSafe, Cap;
    MonotoneIsSafe(events[..n]);
    DayCapExactlyWhenClockSafe(events[..n]);
    assert SameReadings(events[..n], events[..n]);
    forall run
      ensures TaskSpend(Ledger(p, events[..n]), run) <= Cap(p.maxTask)
    {
      TaskCapHolds(p, events[..n], run);
    }
  }
}
