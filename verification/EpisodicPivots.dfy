/**
 The pivot table over episodes. The rows are those the tag filter let through; the table
 groups them by the values of tag prefixes and counts outcomes per group.
*/
module EpisodicPivots {
  import opened Optional

  datatype Row = Row(tags: seq<string>, outcome: Option<string>)

  /** A group's key: the value found for each prefix, under the prefix without its colon.
      All keys of one call have the same names in the same order, so the JSON text of a key
      tells them apart just as the map does. */
  type Key = map<string, string>

  datatype Group = Group(key: Key, sampleSize: nat, closed: nat, rejected: nat, pending: nat, closeRate: real)

  function Name(prefix: string): string {
    if |prefix| > 0 && prefix[|prefix|-1] == ':' then prefix[..|prefix|-1] else prefix
  }

  /** The rest of the first tag that starts with the prefix. */
  function Value(tags: seq<string>, prefix: string): string {
    if tags == [] then "_"
    else if prefix <= tags[0] then (if tags[0] == "" then "_" else tags[0][|prefix|..])
    else Value(tags[1..], prefix)
  }

  /** Tag i is the first one that starts with the prefix. */
  ghost predicate FirstTag(tags: seq<string>, prefix: string, i: nat) {
    i < |tags| && prefix <= tags[i] && forall j :: 0 <= j < i ==> !(prefix <= tags[j])
  }

  /** The first tag that starts with the prefix is the prefix followed by the value; without one,
      or when it is empty, the value is an underscore. */
  lemma {:induction false} ValueCompletesTag(tags: seq<string>, prefix: string)
    ensures forall i: nat :: FirstTag(tags, prefix, i) ==>
              if tags[i] == "" then Value(tags, prefix) == "_" else tags[i] == prefix + Value(tags, prefix)
    ensures (forall i :: 0 <= i < |tags| ==> !(prefix <= tags[i])) ==> Value(tags, prefix) == "_"
  {
    if tags != [] && !(prefix <= tags[0]) {
      ValueCompletesTag(tags[1..], prefix);
      forall i: nat | FirstTag(tags, prefix, i)
        ensures i > 0 && FirstTag(tags[1..], prefix, i - 1) && tags[i] == tags[1..][i - 1]
      {
        assert forall j :: 0 <= j < i - 1 ==> tags[1..][j] == tags[j + 1];
      }
    }
  }

  function KeyOf(prefixes: seq<string>, tags: seq<string>): Key {
    if prefixes == [] then map[]
    else
      var last := prefixes[|prefixes|-1];
      KeyOf(prefixes[..|prefixes|-1], tags)[Name(last) := Value(tags, last)]
  }

  // ---- What the table should say, row by row ----

  datatype Tally = Tally(size: nat, closed: nat, rejected: nat, pending: nat)

  const NOTHING := Tally(0, 0, 0, 0)

  function Add(a: Tally, b: Tally): Tally {
    Tally(a.size + b.size, a.closed + b.closed, a.rejected + b.rejected, a.pending + b.pending)
  }

  function One(outcome: Option<string>): Tally {
    if outcome == Some("closed") then Tally(1, 1, 0, 0)
    else if outcome == Some("rejected") then Tally(1, 0, 1, 0)
    else Tally(1, 0, 0, 1)
  }

  /** The rows with the given key, counted one by one. */
  function TallyOf(rows: seq<Row>, prefixes: seq<string>, key: Key): Tally {
    if rows == [] then NOTHING
    else
      var rest, row := TallyOf(rows[..|rows|-1], prefixes, key), rows[|rows|-1];
      if KeyOf(prefixes, row.tags) == key then Add(rest, One(row.outcome)) else rest
  }

  function Counts(g: Group): Tally {
    Tally(g.sampleSize, g.closed, g.rejected, g.pending)
  }

  function Rate(t: Tally): real {
    if t.size > 0 then t.closed as real / t.size as real else 0.0
  }

  // ---- The insertion-ordered map of groups ----

  function Bumped(g: Group, outcome: Option<string>): Group {
    var t := Add(Counts(g), One(outcome));
    Group(g.key, t.size, t.closed, t.rejected, t.pending, Rate(t))
  }

  function Opened(key: Key): Group {
    Group(key, 0, 0, 0, 0, 0.0)
  }

  function Counted(groups: seq<Group>, key: Key, outcome: Option<string>): seq<Group> {
    if groups == [] then [Bumped(Opened(key), outcome)]
    else if groups[0].key == key then [Bumped(groups[0], outcome)] + groups[1..]
    else [groups[0]] + Counted(groups[1..], key, outcome)
  }

  /** The groups after all rows, in the order in which their first rows appeared. */
  function Groups(rows: seq<Row>, prefixes: seq<string>): seq<Group> {
    if rows == [] then []
    else
      var row := rows[|rows|-1];
      Counted(Groups(rows[..|rows|-1], prefixes), KeyOf(prefixes, row.tags), row.outcome)
  }

  ghost predicate DistinctKeys(groups: seq<Group>) {
    forall i, j :: 0 <= i < j < |groups| ==> groups[i].key != groups[j].key
  }

  function Lookup(groups: seq<Group>, key: Key): Tally {
    if groups == [] then NOTHING
    else if groups[0].key == key then Counts(groups[0])
    else Lookup(groups[1..], key)
  }

  lemma {:induction false} CountedLookup(groups: seq<Group>, key: Key, outcome: Option<string>, k: Key)
    ensures Lookup(Counted(groups, key, outcome), k)
         == if k == key then Add(Lookup(groups, k), One(outcome)) else Lookup(groups, k)
  {
    if groups != [] && groups[0].key != key {
      CountedLookup(groups[1..], key, outcome, k);
    }
  }

  /** A group's rate and its four counts agree with each other. */
  ghost predicate Coherent(g: Group) {
    && g.sampleSize == g.closed + g.rejected + g.pending > 0
    && g.closeRate == g.closed as real / g.sampleSize as real
  }

  lemma BumpedCounts(g: Group, outcome: Option<string>)
    ensures Bumped(g, outcome).key == g.key
    ensures Counts(Bumped(g, outcome)) == Add(Counts(g), One(outcome))
    ensures g.sampleSize == g.closed + g.rejected + g.pending ==> Coherent(Bumped(g, outcome))
  {
  }

  lemma {:induction false} CountedCoherent(groups: seq<Group>, key: Key, outcome: Option<string>)
    requires forall i :: 0 <= i < |groups| ==> Coherent(groups[i])
    ensures forall i :: 0 <= i < |Counted(groups, key, outcome)| ==> Coherent(Counted(groups, key, outcome)[i])
  {
    BumpedCounts(if groups == [] then Opened(key) else groups[0], outcome);
    hide Bumped, Coherent;
    if groups != [] && groups[0].key != key {
      CountedCoherent(groups[1..], key, outcome);
    }
  }

  /** Counting a row leaves the keys as they are, or appends the row's key if it is new. */
  lemma {:induction false} CountedKeys(groups: seq<Group>, key: Key, outcome: Option<string>)
    ensures var c, n := Counted(groups, key, outcome), |groups|;
      && n <= |c| <= n + 1
      && (forall i :: 0 <= i < n ==> c[i].key == groups[i].key)
      && (|c| == n + 1 ==> c[n].key == key && forall i :: 0 <= i < n ==> groups[i].key != key)
  {
    hide Bumped;
    BumpedCounts(if groups == [] then Opened(key) else groups[0], outcome);
    if groups != [] && groups[0].key != key {
      CountedKeys(groups[1..], key, outcome);
    }
  }

  function TotalSize(groups: seq<Group>): nat {
    if groups == [] then 0 else groups[0].sampleSize + TotalSize(groups[1..])
  }

  lemma {:induction false} GroupsCountRows(rows: seq<Row>, prefixes: seq<string>)
    ensures DistinctKeys(Groups(rows, prefixes))
    ensures forall i :: 0 <= i < |Groups(rows, prefixes)| ==> Coherent(Groups(rows, prefixes)[i])
  {
    hide Counted, Coherent, KeyOf;
    if rows != [] {
      var front, row := rows[..|rows|-1], rows[|rows|-1];
      GroupsCountRows(front, prefixes);
      CountedKeys(Groups(front, prefixes), KeyOf(prefixes, row.tags), row.outcome);
      CountedCoherent(Groups(front, prefixes), KeyOf(prefixes, row.tags), row.outcome);
    }
  }

  lemma {:induction false} LookupIsTally(rows: seq<Row>, prefixes: seq<string>, key: Key)
    ensures Lookup(Groups(rows, prefixes), key) == TallyOf(rows, prefixes, key)
  {
    if rows != [] {
      var front, row := rows[..|rows|-1], rows[|rows|-1];
      LookupIsTally(front, prefixes, key);
      CountedLookup(Groups(front, prefixes), KeyOf(prefixes, row.tags), row.outcome, key);
    }
  }

  // ---- Roll-up ----

  function Restrict(key: Key, names: set<string>): Key {
    map n | n in key && n in names :: key[n]
  }

  /** The groups whose keys agree with `key` on the names, added up. */
  function RollUp(groups: seq<Group>, names: set<string>, key: Key): Tally {
    if groups == [] then NOTHING
    else
      var rest := RollUp(groups[1..], names, key);
      if Restrict(groups[0].key, names) == key then Add(Counts(groups[0]), rest) else rest
  }

  function Names(prefixes: seq<string>): set<string> {
    set p | p in prefixes :: Name(p)
  }

  ghost predicate ColonEnded(prefixes: seq<string>) {
    && (forall i :: 0 <= i < |prefixes| ==> prefixes[i] != "" && prefixes[i][|prefixes[i]|-1] == ':')
    && forall i, j :: 0 <= i < j < |prefixes| ==> prefixes[i] != prefixes[j]
  }

  lemma NamesDiffer(p: string, q: string)
    requires p != "" && p[|p|-1] == ':' && q != "" && q[|q|-1] == ':' && p != q
    ensures Name(p) != Name(q)
  {
    assert p == Name(p) + ":" && q == Name(q) + ":";
  }

  lemma LastNameIsNew(prefixes: seq<string>)
    requires ColonEnded(prefixes) && prefixes != []
    ensures ColonEnded(prefixes[..|prefixes|-1])
    ensures forall p :: p in prefixes[..|prefixes|-1] ==> Name(p) != Name(prefixes[|prefixes|-1])
  {
    forall p | p in prefixes[..|prefixes|-1]
      ensures Name(p) != Name(prefixes[|prefixes|-1])
    {
      NamesDiffer(p, prefixes[|prefixes|-1]);
    }
  }

  /** With distinct colon-ended prefixes every prefix keeps its own entry in the key. */
  lemma {:induction false} KeyEntries(prefixes: seq<string>, tags: seq<string>)
    requires ColonEnded(prefixes)
    ensures forall n :: n in KeyOf(prefixes, tags) <==> n in Names(prefixes)
    ensures forall p :: p in prefixes ==>
      Name(p) in KeyOf(prefixes, tags) && KeyOf(prefixes, tags)[Name(p)] == Value(tags, p)
  {
    hide Value, Name, ColonEnded;
    if prefixes != [] {
      var front, last := prefixes[..|prefixes|-1], prefixes[|prefixes|-1];
      LastNameIsNew(prefixes);
      KeyEntries(front, tags);
      assert forall p :: p in prefixes <==> p in front || p == last by {
        assert prefixes == front + [last];
      }
    }
  }

  lemma RestrictedKey(fine: seq<string>, coarse: seq<string>, tags: seq<string>)
    requires ColonEnded(fine) && ColonEnded(coarse) && forall p :: p in coarse ==> p in fine
    ensures Restrict(KeyOf(fine, tags), Names(coarse)) == KeyOf(coarse, tags)
  {
    hide KeyOf, ColonEnded, Name, Value;
    KeyEntries(fine, tags);
    KeyEntries(coarse, tags);
    var a, b := Restrict(KeyOf(fine, tags), Names(coarse)), KeyOf(coarse, tags);
    forall n | n in Names(coarse)
      ensures n in a && n in b && a[n] == b[n]
    {
      var p :| p in coarse && Name(p) == n;
      assert Name(p) in KeyOf(fine, tags) && Name(p) in KeyOf(coarse, tags);
    }
  }

  lemma RollUpCons(g: Group, rest: seq<Group>, names: set<string>, k: Key)
    ensures RollUp([g] + rest, names, k)
         == if Restrict(g.key, names) == k then Add(Counts(g), RollUp(rest, names, k)) else RollUp(rest, names, k)
  {
    assert ([g] + rest)[1..] == rest;
  }

  lemma AddInAnyOrder(a: Tally, b: Tally, c: Tally)
    ensures Add(Add(a, b), c) == Add(Add(a, c), b) == Add(a, Add(b, c))
  {
  }

  lemma {:induction false} CountedRollUp(groups: seq<Group>, key: Key, outcome: Option<string>,
                                         names: set<string>, k: Key)
    ensures RollUp(Counted(groups, key, outcome), names, k)
         == if Restrict(key, names) == k then Add(RollUp(groups, names, k), One(outcome)) else RollUp(groups, names, k)
  {
    hide Restrict, Bumped, RollUp, Add, Counts, One, Opened;
    if groups == [] {
      RollUpOpened(key, outcome, names, k);
    } else {
      var g, rest := groups[0], groups[1..];
      assert groups == [g] + rest;
      RollUpCons(g, rest, names, k);
      AddInAnyOrder(Counts(g), One(outcome), RollUp(rest, names, k));
      if g.key == key {
        BumpedCounts(g, outcome);
        RollUpCons(Bumped(g, outcome), rest, names, k);
      } else {
        CountedRollUp(rest, key, outcome, names, k);
        RollUpCons(g, Counted(rest, key, outcome), names, k);
        AddInAnyOrder(Counts(g), RollUp(rest, names, k), One(outcome));
      }
    }
  }

  lemma RollUpOpened(key: Key, outcome: Option<string>, names: set<string>, k: Key)
    ensures RollUp([], names, k) == NOTHING
    ensures RollUp([Bumped(Opened(key), outcome)], names, k)
         == if Restrict(key, names) == k then Add(NOTHING, One(outcome)) else NOTHING
  {
    hide Restrict, Bumped, One, Add;
    BumpedCounts(Opened(key), outcome);
    var g := Bumped(Opened(key), outcome);
    RollUpCons(g, [], names, k);
    NothingAdds(One(outcome));
    assert [g] + [] == [g];
  }

  lemma NothingAdds(a: Tally)
    ensures Add(NOTHING, a) == a == Add(a, NOTHING)
  {
  }

  /** Roll-up: for distinct colon-ended prefixes, adding up the finer table's groups that
      agree on a subset of the prefixes gives the coarser table. */
  lemma {:induction false} RollUpIsCoarser(rows: seq<Row>, fine: seq<string>, coarse: seq<string>, key: Key)
    requires ColonEnded(fine) && ColonEnded(coarse) && forall p :: p in coarse ==> p in fine
    ensures RollUp(Groups(rows, fine), Names(coarse), key) == Lookup(Groups(rows, coarse), key)
  {
    hide Restrict, Counted, KeyOf, ColonEnded, Names;
    if rows != [] {
      var front, row := rows[..|rows|-1], rows[|rows|-1];
      RollUpIsCoarser(front, fine, coarse, key);
      RestrictedKey(fine, coarse, row.tags);
      CountedRollUp(Groups(front, fine), KeyOf(fine, row.tags), row.outcome, Names(coarse), key);
      CountedLookup(Groups(front, coarse), KeyOf(coarse, row.tags), row.outcome, key);
    }
  }

  // ---- The stable sort, largest group first ----

  function Inserted(sorted: seq<Group>, g: Group): seq<Group> {
    if sorted == [] then [g]
    else if g.sampleSize > sorted[|sorted|-1].sampleSize then Inserted(sorted[..|sorted|-1], g) + [sorted[|sorted|-1]]
    else sorted + [g]
  }

  function BySize(groups: seq<Group>): seq<Group> {
    if groups == [] then [] else Inserted(BySize(groups[..|groups|-1]), groups[|groups|-1])
  }

  ghost predicate Descending(groups: seq<Group>) {
    forall i, j :: 0 <= i < j < |groups| ==> groups[i].sampleSize >= groups[j].sampleSize
  }

  function OfSize(groups: seq<Group>, n: nat): seq<Group> {
    if groups == [] then []
    else OfSize(groups[..|groups|-1], n) + if groups[|groups|-1].sampleSize == n then [groups[|groups|-1]] else []
  }

  lemma {:induction false} InsertedKeepsAll(sorted: seq<Group>, g: Group)
    ensures multiset(Inserted(sorted, g)) == multiset(sorted) + multiset{g}
  {
    if sorted != [] && g.sampleSize > sorted[|sorted|-1].sampleSize {
      InsertedKeepsAll(sorted[..|sorted|-1], g);
      assert sorted == sorted[..|sorted|-1] + [sorted[|sorted|-1]];
    }
  }

  lemma {:induction false} InsertedDescends(sorted: seq<Group>, g: Group)
    requires Descending(sorted)
    ensures Descending(Inserted(sorted, g))
    ensures |Inserted(sorted, g)| > 0
    ensures var r := Inserted(sorted, g);
      r[|r|-1].sampleSize == if sorted == [] || sorted[|sorted|-1].sampleSize >= g.sampleSize then g.sampleSize
                             else sorted[|sorted|-1].sampleSize
  {
    if sorted != [] && g.sampleSize > sorted[|sorted|-1].sampleSize {
      InsertedDescends(sorted[..|sorted|-1], g);
    }
  }

  lemma {:induction false} InsertedIsStable(sorted: seq<Group>, g: Group, n: nat)
    ensures OfSize(Inserted(sorted, g), n) == OfSize(sorted, n) + if g.sampleSize == n then [g] else []
  {
    if sorted == [] {
      assert [g][..0] == [];
    } else if g.sampleSize > sorted[|sorted|-1].sampleSize {
      var front, last := sorted[..|sorted|-1], sorted[|sorted|-1];
      InsertedIsStable(front, g, n);
      var more := Inserted(front, g);
      assert (more + [last])[..|more|] == more;
    } else {
      assert (sorted + [g])[..|sorted|] == sorted;
    }
  }

  /** The sort keeps every group, puts larger groups first, and leaves groups of one size in
      the order in which they first appeared. */
  lemma {:induction false} BySizeIsStableSort(groups: seq<Group>, n: nat)
    ensures Descending(BySize(groups))
    ensures multiset(BySize(groups)) == multiset(groups)
    ensures OfSize(BySize(groups), n) == OfSize(groups, n)
  {
    hide Inserted, Descending, OfSize;
    if groups == [] {
      SortedWhenEmpty();
    } else {
      var front, g := groups[..|groups|-1], groups[|groups|-1];
      BySizeIsStableSort(front, n);
      InsertedKeepsAll(BySize(front), g);
      InsertedDescends(BySize(front), g);
      InsertedIsStable(BySize(front), g, n);
      OfSizeSplit(groups, n);
      assert multiset(groups) == multiset(front) + multiset{g} by {
        assert groups == front + [g];
      }
    }
  }

  lemma OfSizeSplit(groups: seq<Group>, n: nat)
    requires groups != []
    ensures var front, g := groups[..|groups|-1], groups[|groups|-1];
      OfSize(groups, n) == OfSize(front, n) + if g.sampleSize == n then [g] else []
  {
  }

  lemma SortedWhenEmpty()
    ensures Descending([])
  {
  }

  lemma {:induction false} InsertedDistinct(sorted: seq<Group>, g: Group)
    requires DistinctKeys(sorted) && forall x :: x in sorted ==> x.key != g.key
    ensures DistinctKeys(Inserted(sorted, g))
  {
    if sorted != [] && g.sampleSize > sorted[|sorted|-1].sampleSize {
      var front, last := sorted[..|sorted|-1], sorted[|sorted|-1];
      InsertedDistinct(front, g);
      InsertedKeepsAll(front, g);
      var more := Inserted(front, g);
      forall i | 0 <= i < |more|
        ensures more[i].key != last.key
      {
        assert more[i] in multiset(front) + multiset{g};
      }
    }
  }

  lemma {:induction false} BySizeDistinct(groups: seq<Group>)
    requires DistinctKeys(groups)
    ensures DistinctKeys(BySize(groups))
  {
    hide Inserted;
    if groups != [] {
      var front, g := groups[..|groups|-1], groups[|groups|-1];
      BySizeDistinct(front);
      BySizeIsStableSort(front, 0);
      forall x | x in BySize(front)
        ensures x.key != g.key
      {
        assert x in multiset(BySize(front)) && x in multiset(front);
      }
      InsertedDistinct(BySize(front), g);
    }
  }

  function Part(g: Group, names: set<string>, k: Key): Tally {
    if Restrict(g.key, names) == k then Counts(g) else NOTHING
  }

  lemma RollUpParts(g: Group, rest: seq<Group>, names: set<string>, k: Key)
    ensures RollUp([g] + rest, names, k) == Add(Part(g, names, k), RollUp(rest, names, k))
  {
    hide RollUp, Restrict;
    RollUpCons(g, rest, names, k);
    NothingAdds(RollUp(rest, names, k));
  }

  lemma {:induction false} RollUpSnoc(groups: seq<Group>, g: Group, names: set<string>, k: Key)
    ensures RollUp(groups + [g], names, k) == Add(RollUp(groups, names, k), Part(g, names, k))
  {
    hide RollUp, Part, Add;
    if groups == [] {
      RollUpParts(g, [], names, k);
      EmptyRollUp(names, k);
      NothingAdds(Part(g, names, k));
      assert [g] + [] == [g] == [] + [g];
    } else {
      var first, rest := groups[0], groups[1..];
      RollUpSnoc(rest, g, names, k);
      RollUpParts(first, rest, names, k);
      RollUpParts(first, rest + [g], names, k);
      AddInAnyOrder(Part(first, names, k), RollUp(rest, names, k), Part(g, names, k));
      assert [first] + rest == groups && [first] + (rest + [g]) == groups + [g];
    }
  }

  lemma {:induction false} InsertedRollUp(sorted: seq<Group>, g: Group, names: set<string>, k: Key)
    ensures RollUp(Inserted(sorted, g), names, k) == Add(RollUp(sorted, names, k), Part(g, names, k))
  {
    hide RollUp, Restrict, Counts, Part;
    RollUpSnoc(sorted, g, names, k);
    if sorted == [] {
      assert sorted + [g] == [g];
    } else if g.sampleSize > sorted[|sorted|-1].sampleSize {
      var front, last := sorted[..|sorted|-1], sorted[|sorted|-1];
      InsertedRollUp(front, g, names, k);
      RollUpSnoc(Inserted(front, g), last, names, k);
      RollUpSnoc(front, last, names, k);
      assert front + [last] == sorted;
    }
  }

  lemma {:induction false} BySizeRollUp(groups: seq<Group>, names: set<string>, k: Key)
    ensures RollUp(BySize(groups), names, k) == RollUp(groups, names, k)
  {
    hide RollUp, Restrict, Counts, Inserted, Part;
    if groups != [] {
      var front, g := groups[..|groups|-1], groups[|groups|-1];
      BySizeRollUp(front, names, k);
      InsertedRollUp(BySize(front), g, names, k);
      RollUpSnoc(front, g, names, k);
      assert front + [g] == groups;
    }
  }

  /** The sizes of all groups are the roll-up to no prefix at all. */
  lemma {:induction false} TotalIsRollUp(groups: seq<Group>)
    ensures TotalSize(groups) == RollUp(groups, {}, map[]).size
  {
    if groups != [] {
      assert Restrict(groups[0].key, {}) == map[];
      TotalIsRollUp(groups[1..]);
    }
  }

  lemma {:induction false} RowsRollUp(rows: seq<Row>, prefixes: seq<string>)
    ensures RollUp(Groups(rows, prefixes), {}, map[]).size == |rows|
  {
    hide RollUp, Counted, KeyOf;
    if rows == [] {
      EmptyRollUp({}, map[]);
    } else {
      var front, row := rows[..|rows|-1], rows[|rows|-1];
      RowsRollUp(front, prefixes);
      assert Restrict(KeyOf(prefixes, row.tags), {}) == map[];
      CountedRollUp(Groups(front, prefixes), KeyOf(prefixes, row.tags), row.outcome, {}, map[]);
    }
  }

  lemma EmptyRollUp(names: set<string>, k: Key)
    ensures RollUp([], names, k) == NOTHING
  {
  }

  /** The entry of a key does not depend on the order of groups with distinct keys. */
  lemma {:induction false} LookupByMember(groups: seq<Group>, g: Group)
    requires DistinctKeys(groups) && g in groups
    ensures Lookup(groups, g.key) == Counts(g)
  {
    if groups[0] != g {
      LookupByMember(groups[1..], g);
    }
  }

  /** The positions of the rows that pass the test. */
  ghost function Where(rows: seq<Row>, test: Row -> bool): set<nat> {
    set i: nat | i < |rows| && test(rows[i])
  }

  function HasKey(prefixes: seq<string>, key: Key): Row -> bool {
    (row: Row) => KeyOf(prefixes, row.tags) == key
  }

  function Ended(prefixes: seq<string>, key: Key, outcome: string): Row -> bool {
    (row: Row) => KeyOf(prefixes, row.tags) == key && row.outcome == Some(outcome)
  }

  lemma WhereStep(rows: seq<Row>, test: Row -> bool)
    ensures rows == [] ==> Where(rows, test) == {}
    ensures rows != [] ==>
      |Where(rows, test)| == |Where(rows[..|rows|-1], test)| + if test(rows[|rows|-1]) then 1 else 0
  {
    if rows != [] {
      var n := |rows| - 1;
      assert Where(rows, test) == Where(rows[..n], test) + if test(rows[n]) then {n} else {};
    }
  }

  /** The counts are numbers of rows: all of the key, the closed ones and the rejected ones; what
      is neither is pending. */
  lemma {:induction false} TallyCountsRows(rows: seq<Row>, prefixes: seq<string>, key: Key)
    ensures var t := TallyOf(rows, prefixes, key);
      && t.size == |Where(rows, HasKey(prefixes, key))| == t.closed + t.rejected + t.pending
      && t.closed == |Where(rows, Ended(prefixes, key, "closed"))|
      && t.rejected == |Where(rows, Ended(prefixes, key, "rejected"))|
  {
    hide KeyOf, Where;
    WhereStep(rows, HasKey(prefixes, key));
    WhereStep(rows, Ended(prefixes, key, "closed"));
    WhereStep(rows, Ended(prefixes, key, "rejected"));
    if rows != [] {
      TallyCountsRows(rows[..|rows|-1], prefixes, key);
    }
  }

  function Pivot(rows: seq<Row>, prefixes: seq<string>): seq<Group> {
    BySize(Groups(rows, prefixes))
  }

  /** The group's numbers are those of the rows with its key. */
  ghost predicate CountsRows(g: Group, rows: seq<Row>, prefixes: seq<string>) {
    && g.sampleSize == |Where(rows, HasKey(prefixes, g.key))|
    && g.closed == |Where(rows, Ended(prefixes, g.key, "closed"))|
    && g.rejected == |Where(rows, Ended(prefixes, g.key, "rejected"))|
    && g.pending == g.sampleSize - g.closed - g.rejected
    && Counts(g) == TallyOf(rows, prefixes, g.key)
  }

  lemma CountsAreRows(g: Group, rows: seq<Row>, prefixes: seq<string>)
    requires Counts(g) == TallyOf(rows, prefixes, g.key)
    ensures CountsRows(g, rows, prefixes)
  {
    hide TallyOf, Where, HasKey, Ended;
    TallyCountsRows(rows, prefixes, g.key);
  }

  /** The table lists each key once; each group counts exactly the rows with its key, split by
      outcome, with the rate that follows; every row is counted exactly once; larger groups
      come first, and groups of one size in the order of their first rows. */
  lemma PivotIsExact(rows: seq<Row>, prefixes: seq<string>, n: nat)
    ensures var table := Pivot(rows, prefixes);
      && DistinctKeys(table)
      && (forall g :: g in table ==> Coherent(g) && CountsRows(g, rows, prefixes))
      && TotalSize(table) == |rows|
      && Descending(table)
      && OfSize(table, n) == OfSize(Groups(rows, prefixes), n)
  {
    hide Counted, BySize, RollUp, Coherent, Descending, OfSize, TotalSize, Groups, TallyOf, Lookup, Counts, CountsRows;
    var groups := Groups(rows, prefixes);
    GroupsCountRows(rows, prefixes);
    BySizeIsStableSort(groups, n);
    BySizeDistinct(groups);
    BySizeRollUp(groups, {}, map[]);
    RowsRollUp(rows, prefixes);
    TotalIsRollUp(BySize(groups));
    forall g | g in BySize(groups)
      ensures Coherent(g) && CountsRows(g, rows, prefixes)
    {
      assert g in multiset(BySize(groups)) && g in multiset(groups);
      LookupByMember(groups, g);
      LookupIsTally(rows, prefixes, g.key);
      CountsAreRows(g, rows, prefixes);
    }
  }

  /** Roll-up of the returned tables: for distinct colon-ended prefixes, the groups of the
      finer table that agree on the coarser prefixes add up to the coarser table's groups,
      and to nothing for a key that the coarser table does not list. */
  lemma PivotRollsUp(rows: seq<Row>, fine: seq<string>, coarse: seq<string>, key: Key)
    requires ColonEnded(fine) && ColonEnded(coarse) && forall p :: p in coarse ==> p in fine
    ensures var sum := RollUp(Pivot(rows, fine), Names(coarse), key);
      && sum == TallyOf(rows, coarse, key)
      && (forall g :: g in Pivot(rows, coarse) && g.key == key ==> sum == Counts(g))
      && ((forall g :: g in Pivot(rows, coarse) ==> g.key != key) ==> sum == NOTHING)
  {
    hide Groups, BySize, RollUp, ColonEnded, Lookup, Counts, DistinctKeys, TallyOf;
    var groups, table := Groups(rows, coarse), Pivot(rows, coarse);
    BySizeRollUp(Groups(rows, fine), Names(coarse), key);
    RollUpIsCoarser(rows, fine, coarse, key);
    LookupIsTally(rows, coarse, key);
    PivotIsExact(rows, coarse, 0);
    BySizeIsStableSort(groups, 0);
    if forall g :: g in table ==> g.key != key {
      assert forall g :: g in groups ==> g in multiset(groups) && g in multiset(table);
      LookupAbsent(groups, key);
    }
  }

  lemma {:induction false} LookupAbsent(groups: seq<Group>, key: Key)
    requires forall g :: g in groups ==> g.key != key
    ensures Lookup(groups, key) == NOTHING
  {
    if groups != [] {
      LookupAbsent(groups[1..], key);
    }
  }

  // ---- The loop ----

  function IndexOf(groups: seq<Group>, key: Key): (i: nat)
    ensures i <= |groups|
    ensures i < |groups| ==> groups[i].key == key
    ensures forall j :: 0 <= j < i ==> groups[j].key != key
  {
    if groups == [] || groups[0].key == key then 0 else 1 + IndexOf(groups[1..], key)
  }

  /** Setting the entry that was read: in place if the key was there, at the end if not. */
  lemma {:induction false} CountedIsSet(groups: seq<Group>, key: Key, outcome: Option<string>)
    ensures var i := IndexOf(groups, key);
      Counted(groups, key, outcome)
      == if i < |groups| then groups[i := Bumped(groups[i], outcome)] else groups + [Bumped(Opened(key), outcome)]
  {
    hide Bumped, Opened;
    if groups != [] && groups[0].key != key {
      var rest, j := groups[1..], IndexOf(groups[1..], key);
      CountedIsSet(rest, key, outcome);
      assert groups == [groups[0]] + rest && IndexOf(groups, key) == 1 + j;
    }
  }

  method FindValue(tags: seq<string>, prefix: string) returns (value: string)
    ensures value == Value(tags, prefix)
  {
    for i := 0 to |tags|
      invariant Value(tags, prefix) == Value(tags[i..], prefix)
    {
      if prefix <= tags[i] {
        return if tags[i] == "" then "_" else tags[i][|prefix|..];
      }
    }
    return "_";
  }

  method PivotByTags(rows: seq<Row>, prefixes: seq<string>) returns (table: seq<Group>)
    ensures table == Pivot(rows, prefixes)
  {
    hide Counted, Value, Name, BySize;
    var groups: seq<Group> := [];
    for r := 0 to |rows|
      invariant groups == Groups(rows[..r], prefixes)
    {
      var key: Key := map[];
      for p := 0 to |prefixes|
        invariant key == KeyOf(prefixes[..p], rows[r].tags)
      {
        var value := FindValue(rows[r].tags, prefixes[p]);
        key := key[Name(prefixes[p]) := value];
        assert prefixes[..p+1][..p] == prefixes[..p];
      }
      assert prefixes[..|prefixes|] == prefixes;
      var i := IndexOf(groups, key);
      var cur := if i < |groups| then groups[i] else Opened(key);
      CountedIsSet(groups, key, rows[r].outcome);
      cur := Count(cur, rows[r].outcome);
      groups := if i < |groups| then groups[i := cur] else groups + [cur];
      assert rows[..r+1][..r] == rows[..r];
    }
    assert rows[..|rows|] == rows;
    table := BySize(groups);
  }

  /** The body of the loop on one group's counters. */
  method Count(g: Group, outcome: Option<string>) returns (cur: Group)
    ensures cur == Bumped(g, outcome)
  {
    cur := g.(sampleSize := g.sampleSize + 1);
    if outcome == Some("closed") {
      cur := cur.(closed := cur.closed + 1);
    } else if outcome == Some("rejected") {
      cur := cur.(rejected := cur.rejected + 1);
    } else {
      cur := cur.(pending := cur.pending + 1);
    }
    cur := cur.(closeRate := if cur.sampleSize > 0 then cur.closed as real / cur.sampleSize as real else 0.0);
  }
}
