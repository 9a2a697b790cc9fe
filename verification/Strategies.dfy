/**
 The strategy lifecycle: the threshold policy of the strategic store, fed by the ranker
 with the close rate and the Wilson lower bound of each group of outcomes.
*/
module Strategies {
  import opened Optional
  import opened WilsonIntervals

  datatype Status = New | Testing | Active | Champion | Deprecated

  datatype Strategy = Strategy(sampleSize: nat, closeRate: Option<real>, lower: Option<real>,
                               upper: Option<real>, status: Status)

  /** What `upsert` is given; a missing status leaves the choice to the policy. */
  datatype Update = Update(sampleSize: nat, closeRate: Option<real>, lower: Option<real>,
                           upper: Option<real>, status: Option<Status>)

  function OrZero(x: Option<real>): real {
    if x.Some? then x.value else 0.0
  }

  /** transition: the deprecation test comes first. */
  function Transition(existing: Status, update: Update): Status {
    var n, rate, lower := update.sampleSize, OrZero(update.closeRate), OrZero(update.lower);
    if n >= 20 && rate < 0.15 then Deprecated
    else if n >= 50 && lower >= 0.4 then Champion
    else if n >= 20 && lower >= 0.2 then Active
    else if n >= 5 then Testing
    else if existing == Deprecated then Deprecated else New
  }

  /** The same tests with deprecation tried only after champion and active. */
  function TransitionDeprecatingLast(existing: Status, update: Update): Status {
    var n, rate, lower := update.sampleSize, OrZero(update.closeRate), OrZero(update.lower);
    if n >= 50 && lower >= 0.4 then Champion
    else if n >= 20 && lower >= 0.2 then Active
    else if n >= 20 && rate < 0.15 then Deprecated
    else if n >= 5 then Testing
    else if existing == Deprecated then Deprecated else New
  }

  /** The order deprecated < testing < active < champion; new lies with testing's lower side. */
  function Rank(s: Status): nat {
    match s
    case Deprecated => 0
    case New => 1
    case Testing => 2
    case Active => 3
    case Champion => 4
  }

  /** What the ranker hands to the store for a group of closed and rejected outcomes. */
  function Report(closed: nat, rejected: nat, root: real): Update {
    var total := closed + rejected;
    var w := Wilson(closed, total, root);
    Update(total, if total > 0 then Some(Rate(closed, total)) else None, Some(w.lower), Some(w.upper), None)
  }

  predicate RootFor(root: real, closed: nat, total: nat) {
    total > 0 ==> IsRoot(root, Radicand(closed, total))
  }

  /** Since the lower bound never exceeds the rate, testing for deprecation first never hides
      an active or champion strategy. */
  lemma DeprecationHidesNothing(existing: Status, closed: nat, rejected: nat, root: real)
    requires RootFor(root, closed, closed + rejected)
    ensures Transition(existing, Report(closed, rejected, root))
         == TransitionDeprecatingLast(existing, Report(closed, rejected, root))
  {
    hide Wilson, Rate, Radicand;
    if closed + rejected > 0 {
      WilsonIsScoreInterval(closed, closed + rejected, root);
    }
  }

  /** Every rate that the score test accepts for the outcomes is at least this. */
  ghost predicate SurelyAtLeast(closed: nat, total: nat, rate: real)
    requires total > 0
  {
    forall x: real :: 0.0 <= x <= 1.0 && Accepts(total, Rate(closed, total), x) ==> x >= rate
  }

  /** The lifecycle in terms of the outcomes: deprecated with 20 outcomes of which fewer than 15
      percent closed, or below 5 if it was before; champion with 50 and surely 40 percent; active
      with 20 and surely 20 percent; otherwise testing from 5 on and new below. */
  lemma StatusOfOutcomes(existing: Status, closed: nat, rejected: nat, root: real)
    requires RootFor(root, closed, closed + rejected)
    ensures var status, n := Transition(existing, Report(closed, rejected, root)), closed + rejected;
      && (status.Deprecated? <==> (n >= 20 && 100 * closed < 15 * n) || (n < 5 && existing.Deprecated?))
      && (status.Champion? <==> n >= 50 && SurelyAtLeast(closed, n, 0.4))
      && (status.Active? <==> n >= 20 && SurelyAtLeast(closed, n, 0.2) && !status.Champion?)
      && (status.New? <==> n < 5 && !existing.Deprecated?)
  {
    hide Wilson, Rate, Radicand, SurelyAtLeast;
    var n := closed + rejected;
    if n > 0 {
      DeprecationHidesNothing(existing, closed, rejected, root);
      SurelyIsLower(closed, n, root, 0.4);
      SurelyIsLower(closed, n, root, 0.2);
      RateBelow(closed, n);
    }
  }

  lemma SurelyIsLower(closed: nat, total: nat, root: real, rate: real)
    requires total > 0 && closed <= total && IsRoot(root, Radicand(closed, total))
    ensures SurelyAtLeast(closed, total, rate) <==> Wilson(closed, total, root).lower >= rate
  {
    hide Wilson, Rate, Radicand, Accepts;
    WilsonIsScoreInterval(closed, total, root);
    var lower := Wilson(closed, total, root).lower;
    assert 0.0 <= lower <= 1.0 && Accepts(total, Rate(closed, total), lower);
  }

  lemma RateBelow(closed: nat, total: nat)
    requires total > 0 && closed <= total
    ensures Rate(closed, total) < 0.15 <==> 100 * closed < 15 * total
  {
    hide Rate;
    RateInUnit(closed, total);
    BelowBound(Rate(closed, total), total as real, closed as real);
    AsPercent(closed, total);
  }

  lemma BelowBound(r: real, n: real, c: real)
    requires n > 0.0 && r * n == c
    ensures r < 0.15 <==> c < 0.15 * n
  {
  }

  lemma AsPercent(closed: nat, total: nat)
    ensures closed as real < 0.15 * total as real <==> 100 * closed < 15 * total
  {
    var c, n := closed as real, total as real;
    assert c < 0.15 * n <==> 100.0 * c < 15.0 * n;
    assert (100 * closed) as real == 100.0 * c && (15 * total) as real == 15.0 * n;
  }

  /** Lifecycle monotonicity: at a fixed sample size of at least 5, turning rejected outcomes
      into closed ones never lowers the status, whatever the status was before. */
  lemma MoreClosedNeverLowers(before1: Status, before2: Status, c1: nat, c2: nat, total: nat, r1: real, r2: real)
    requires 5 <= total && c1 <= c2 <= total
    requires RootFor(r1, c1, total) && RootFor(r2, c2, total)
    ensures Rank(Transition(before1, Report(c1, total - c1, r1)))
         <= Rank(Transition(before2, Report(c2, total - c2, r2)))
  {
    hide Wilson, Rate, Radicand;
    DeprecationHidesNothing(before1, c1, total - c1, r1);
    RateOrder(c1, c2, total);
    LowerIsMonotone(c1, c2, total, r1, r2);
  }

  /** Below sample size 5 the policy keeps a deprecated strategy deprecated and calls every
      other one new. */
  lemma SmallSamplesKeepDeprecation(existing: Status, u: Update)
    requires u.sampleSize < 5
    ensures Transition(existing, u).Deprecated? <==> existing.Deprecated?
    ensures Transition(existing, u) in {Deprecated, New}
  {
  }

  /** JSON text of the design parameters that identify a strategy. */
  type Params = string

  /** The columns that identify a row; a missing region is a null column. */
  datatype Key = Key(vertical: string, region: Option<string>, params: Params)

  /** The row an upsert looks for: an empty region is looked up as a missing one. */
  function LookedUp(key: Key): Key {
    if key.region == Some("") then key.(region := None) else key
  }

  /** The unique index of the table, where a missing region counts as an empty one. */
  predicate Clash(k: Key, l: Key) {
    && k.vertical == l.vertical && k.params == l.params
    && (if k.region.Some? then k.region.value else "") == (if l.region.Some? then l.region.value else "")
  }

  ghost predicate Indexed(rows: map<Key, Strategy>) {
    forall k, l :: k in rows && l in rows && Clash(k, l) ==> k == l
  }

  /** The row is inserted with the region as given, unless the index refuses it. */
  ghost predicate Refuses(rows: map<Key, Strategy>, key: Key) {
    LookedUp(key) !in rows && exists k :: k in rows && Clash(k, key)
  }

  /** The row that an upsert which is not refused writes. */
  function Written(rows: map<Key, Strategy>, key: Key): Key {
    if LookedUp(key) in rows then LookedUp(key) else key
  }

  function StatusBefore(rows: map<Key, Strategy>, key: Key): Status {
    if LookedUp(key) in rows then rows[LookedUp(key)].status else New
  }

  /** The bounds enclose exactly what the score test accepts; without outcomes both are zero. */
  ghost predicate ShowsInterval(lower: Option<real>, upper: Option<real>, closed: nat, total: nat) {
    && lower.Some? && upper.Some?
    && if total == 0 then lower.value == upper.value == 0.0
       else forall x: real :: lower.value <= x <= upper.value <==>
                                0.0 <= x <= 1.0 && Accepts(total, Rate(closed, total), x)
  }

  datatype Ranked = Skipped | Refused | Upserted(row: Strategy)

  class StrategicStore {
    var rows: map<Key, Strategy>

    ghost predicate Valid()
      reads this
    {
      Indexed(rows)
    }

    constructor ()
      ensures Valid() && rows == map[]
    {
      rows := map[];
    }

    /** upsert: a status given by the caller wins; otherwise the policy decides, on the first
        insert too, where the row counts as new. An insert that the index refuses is an error
        that changes nothing. */
    method Upsert(key: Key, update: Update) returns (row: Option<Strategy>)
      requires Valid()
      modifies this
      ensures Valid()
      ensures row.None? <==> Refuses(old(rows), key)
      ensures row.None? ==> rows == old(rows)
      ensures row.Some? ==>
                && rows == old(rows)[Written(old(rows), key) := row.value]
                && row.value == Strategy(update.sampleSize, update.closeRate, update.lower, update.upper,
                                         row.value.status)
                && row.value.status == (if update.status.Some? then update.status.value
                                        else Transition(StatusBefore(old(rows), key), update))
    {
      hide Clash;
      SameRegion(key);
      var found := LookedUp(key);
      if found in rows {
        var status := if update.status.Some? then update.status.value else Transition(rows[found].status, update);
        row := Some(Strategy(update.sampleSize, update.closeRate, update.lower, update.upper, status));
        rows := rows[found := row.value];
        return;
      }
      if exists k :: k in rows && Clash(k, key) {
        return None;
      }
      var status := if update.status.Some? then update.status.value else Transition(New, update);
      row := Some(Strategy(update.sampleSize, update.closeRate, update.lower, update.upper, status));
      rows := rows[key := row.value];
    }

    /** The part of runOnce that feeds the store with one group of outcomes. Groups below
        the minimum sample size are skipped; the ranker gives no region. */
    method RankGroup(vertical: string, params: Params, closed: nat, rejected: nat, root: real, minSampleSize: int)
      returns (r: Ranked)
      requires Valid() && RootFor(root, closed, closed + rejected)
      modifies this
      ensures Valid()
      ensures var key, total := Key(vertical, None, params), closed + rejected;
        && (r.Skipped? <==> total < minSampleSize)
        && (r.Refused? <==> total >= minSampleSize && Refuses(old(rows), key))
        && (!r.Upserted? ==> rows == old(rows))
        && (r.Upserted? ==>
              && rows == old(rows)[key := r.row]
              && r.row.sampleSize == total
              && r.row.closeRate == (if total > 0 then Some(Rate(closed, total)) else None)
              && ShowsInterval(r.row.lower, r.row.upper, closed, total)
              && r.row.status == TransitionDeprecatingLast(StatusBefore(old(rows), key), Report(closed, rejected, root)))
    {
      hide Wilson, Rate, Radicand, ShowsInterval, Transition, TransitionDeprecatingLast, Clash;
      var total, key := closed + rejected, Key(vertical, None, params);
      if total < minSampleSize {
        return Skipped;
      }
      DeprecationHidesNothing(StatusBefore(rows, key), closed, rejected, root);
      ReportIsInterval(closed, rejected, root);
      var after := Upsert(key, Report(closed, rejected, root));
      return if after.None? then Refused else Upserted(after.value);
    }
  }

  lemma SameRegion(key: Key)
    ensures Clash(key, key) && Clash(LookedUp(key), key) && Clash(key, LookedUp(key))
    ensures forall k, l :: Clash(k, l) <==> Clash(l, k)
  {
  }

  /** What the ranker reports of a group: its size, its rate, and its score interval. */
  lemma ReportIsInterval(closed: nat, rejected: nat, root: real)
    requires RootFor(root, closed, closed + rejected)
    ensures var u, total := Report(closed, rejected, root), closed + rejected;
      && u.sampleSize == total && u.status == None
      && u.closeRate == (if total > 0 then Some(Rate(closed, total)) else None)
      && ShowsInterval(u.lower, u.upper, closed, total)
  {
    hide Rate, Radicand, Accepts;
    if closed + rejected > 0 {
      WilsonIsScoreInterval(closed, closed + rejected, root);
    }
  }

  /** Once a key was upserted it can be upserted again, with one exception: a row inserted with
      an empty region is never found by its own key, so every later upsert of it is refused. */
  lemma UpsertedAgain(rows: map<Key, Strategy>, key: Key, row: Strategy)
    requires Indexed(rows) && !Refuses(rows, key)
    ensures Refuses(rows[Written(rows, key) := row], key) <==> key.region == Some("") && LookedUp(key) !in rows
  {
    var now := rows[Written(rows, key) := row];
    if key.region == Some("") && LookedUp(key) !in rows {
      assert key in now && Clash(key, key) && LookedUp(key) !in now;
    } else {
      assert LookedUp(key) in now;
    }
  }

  /** Running the ranker again on unchanged outcomes changes no status. */
  lemma RankingIsIdempotent(existing: Status, closed: nat, rejected: nat, root: real)
    ensures var u := Report(closed, rejected, root);
            Transition(Transition(existing, u), u) == Transition(existing, u)
  {
  }
}
