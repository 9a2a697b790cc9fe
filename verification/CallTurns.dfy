/**
 Turn tracking of one voice call. A final transcript starts a turn, a newer turn or an
 interrupt makes the turn in flight stale, and a stale turn's output is suppressed when its
 handler returns. The code between two awaits is one step: starting a turn, interrupting,
 and finishing one (with its check and its cache write).
*/
module CallTurns {
  import opened Optional

  /** What has happened to the call, oldest first. */
  datatype Event = Start | Interrupt | Finish(turn: nat)

  type Outbound = seq<string>

  datatype Response = Response(turn: nat, interrupted: bool, outbound: Outbound, retry: bool)

  // ---- What the bookkeeping is supposed to know, in terms of the history alone ----

  function Started(events: seq<Event>): nat {
    if events == [] then 0
    else Started(events[..|events|-1]) + if events[|events|-1].Start? then 1 else 0
  }

  predicate InFlight(events: seq<Event>, t: nat) {
    1 <= t <= Started(events) && Finish(t) !in events
  }

  /** Turn t had started when a newer turn started or somebody interrupted. */
  ghost predicate Disturbed(events: seq<Event>, t: nat) {
    exists i :: 0 <= i < |events| && !events[i].Finish? && Started(events[..i]) >= t
  }

  /** The turn's own output went out: it came to its end undisturbed. */
  ghost predicate Delivered(events: seq<Event>, t: nat) {
    exists i :: DeliveredAt(events, t, i)
  }

  ghost predicate DeliveredAt(events: seq<Event>, t: nat, i: int) {
    0 <= i < |events| && events[i] == Finish(t) && !Disturbed(events[..i], t)
  }

  ghost predicate OnlyStartedFinish(events: seq<Event>) {
    forall i :: 0 <= i < |events| && events[i].Finish? ==> InFlight(events[..i], events[i].turn)
  }

  lemma DisturbedGrows(events: seq<Event>, e: Event, t: nat)
    ensures Disturbed(events + [e], t) <==> Disturbed(events, t) || (!e.Finish? && Started(events) >= t)
  {
    var longer := events + [e];
    assert forall i :: 0 <= i <= |events| ==> longer[..i] == events[..i];
    assert events[..|events|] == events;
    if Disturbed(events, t) {
      var i :| 0 <= i < |events| && !events[i].Finish? && Started(events[..i]) >= t;
      assert longer[i] == events[i] && longer[..i] == events[..i];
    }
    if !e.Finish? && Started(events) >= t {
      assert longer[|events|] == e && longer[..|events|] == events;
    }
  }

  lemma {:induction false} PrefixStartsNoMore(events: seq<Event>, i: nat)
    requires i <= |events|
    ensures Started(events[..i]) <= Started(events)
  {
    if i == |events| {
      assert events[..i] == events;
    } else {
      PrefixStartsNoMore(events[..|events|-1], i);
      assert events[..|events|-1][..i] == events[..i];
    }
  }

  lemma UnstartedIsUndisturbed(events: seq<Event>, t: nat)
    requires t > Started(events)
    ensures !Disturbed(events, t)
  {
    forall i | 0 <= i < |events|
      ensures Started(events[..i]) < t
    {
      PrefixStartsNoMore(events, i);
    }
  }

  /** Every turn but the newest has been superseded. */
  lemma {:induction false} SupersededIsDisturbed(events: seq<Event>, t: nat)
    requires t < Started(events)
    ensures Disturbed(events, t)
  {
    if events != [] {
      var front, e := events[..|events|-1], events[|events|-1];
      assert events == front + [e];
      DisturbedGrows(front, e, t);
      if t < Started(front) {
        SupersededIsDisturbed(front, t);
      }
    }
  }

  lemma {:induction false} DisturbedStays(events: seq<Event>, i: nat, t: nat)
    requires i <= |events| && Disturbed(events[..i], t)
    ensures Disturbed(events, t)
  {
    if i == |events| {
      assert events[..i] == events;
    } else {
      var front := events[..|events|-1];
      assert front[..i] == events[..i] && events == front + [events[|events|-1]];
      DisturbedStays(front, i, t);
      DisturbedGrows(front, events[|events|-1], t);
    }
  }

  /** In every interleaving, the turns whose output is delivered come in strictly increasing
      order: whatever finishes after a delivered turn and is older has been superseded. */
  lemma DeliveriesAscend(events: seq<Event>, t: nat, i: nat, u: nat, j: nat)
    requires OnlyStartedFinish(events)
    requires i < j && DeliveredAt(events, t, i) && DeliveredAt(events, u, j)
    ensures t < u
  {
    var at := events[..j];
    assert at[i] == Finish(t);
    assert u != t by {
      assert InFlight(at, u);
    }
    assert t <= Started(events[..i]) by {
      assert InFlight(events[..i], t);
    }
    assert at[..i] == events[..i];
    PrefixStartsNoMore(at, i);
    if u < t {
      SupersededIsDisturbed(at, u);
      assert false;
    }
  }

  /** A superseded or interrupted turn is never delivered, now or later. */
  lemma DisturbedIsNeverDelivered(events: seq<Event>, t: nat, i: nat)
    requires OnlyStartedFinish(events)
    requires i <= |events| && InFlight(events[..i], t) && Disturbed(events[..i], t)
    ensures !Delivered(events, t)
  {
    forall j | 0 <= j < i
      ensures events[j] != Finish(t)
    {
      assert events[..i][j] == events[j];
    }
    forall j
      ensures !DeliveredAt(events, t, j)
    {
      if 0 <= j < |events| && events[j] == Finish(t) {
        assert events[..j][..i] == events[..i];
        DisturbedStays(events[..j], i, t);
      }
    }
  }

  // ---- The retry cache: an insertion-ordered map ----

  datatype Entry = Entry(key: string, response: Response)

  const FINAL_RETRY_CACHE_LIMIT := 32

  ghost predicate DistinctKeys(cache: seq<Entry>) {
    forall i, j :: 0 <= i < j < |cache| ==> cache[i].key != cache[j].key
  }

  function Lookup(cache: seq<Entry>, key: string): Option<Response> {
    if cache == [] then None
    else if cache[0].key == key then Some(cache[0].response)
    else Lookup(cache[1..], key)
  }

  /** Setting a key: a known key keeps its place, a new one goes to the end. */
  function Put(cache: seq<Entry>, e: Entry): seq<Entry> {
    if cache == [] then [e]
    else if cache[0].key == e.key then [e] + cache[1..]
    else [cache[0]] + Put(cache[1..], e)
  }

  /** The oldest entry, if its key is not the empty string, makes room in a full cache. */
  function Trimmed(cache: seq<Entry>): seq<Entry> {
    if |cache| >= FINAL_RETRY_CACHE_LIMIT && cache[0].key != "" then cache[1..] else cache
  }

  function CacheAfter(stores: seq<Entry>): seq<Entry> {
    if stores == [] then []
    else Put(Trimmed(CacheAfter(stores[..|stores|-1])), stores[|stores|-1])
  }

  /** The response stored last under a key. */
  function Latest(stores: seq<Entry>, key: string): Option<Response> {
    if stores == [] then None
    else if stores[|stores|-1].key == key then Some(stores[|stores|-1].response)
    else Latest(stores[..|stores|-1], key)
  }

  ghost predicate Keyed(stores: seq<Entry>) {
    forall e :: e in stores ==> e.key != ""
  }

  lemma {:induction false} PutLookup(cache: seq<Entry>, e: Entry, key: string)
    ensures Lookup(Put(cache, e), key) == if key == e.key then Some(e.response) else Lookup(cache, key)
  {
    if cache != [] && cache[0].key != e.key {
      PutLookup(cache[1..], e, key);
    }
  }

  lemma {:induction false} PutEntries(cache: seq<Entry>, e: Entry, x: Entry)
    requires x in Put(cache, e)
    ensures x in cache || x == e
  {
    if cache != [] && cache[0].key != e.key && x != cache[0] {
      PutEntries(cache[1..], e, x);
    }
  }

  lemma {:induction false} PutKeepsDistinct(cache: seq<Entry>, e: Entry)
    requires DistinctKeys(cache)
    ensures DistinctKeys(Put(cache, e))
    ensures |cache| <= |Put(cache, e)| <= |cache| + 1
    ensures (forall i :: 0 <= i < |cache| ==> cache[i].key != e.key) ==> Put(cache, e) == cache + [e]
  {
    if cache != [] && cache[0].key != e.key {
      var rest := Put(cache[1..], e);
      PutKeepsDistinct(cache[1..], e);
      forall j | 0 <= j < |rest|
        ensures rest[j].key != cache[0].key
      {
        PutEntries(cache[1..], e, rest[j]);
      }
      assert cache == [cache[0]] + cache[1..];
    }
  }

  lemma {:induction false} AbsentKey(cache: seq<Entry>, key: string)
    requires forall i :: 0 <= i < |cache| ==> cache[i].key != key
    ensures Lookup(cache, key) == None
  {
    if cache != [] {
      AbsentKey(cache[1..], key);
    }
  }

  /** However responses are stored, the cache holds at most 32 of them, under distinct
      non-empty keys, and all of them were stored. */
  lemma {:induction false} CacheStaysSmall(stores: seq<Entry>)
    requires Keyed(stores)
    ensures |CacheAfter(stores)| <= 32
    ensures DistinctKeys(CacheAfter(stores))
    ensures forall e :: e in CacheAfter(stores) ==> e in stores
  {
    if stores != [] {
      var front, e := stores[..|stores|-1], stores[|stores|-1];
      CacheStaysSmall(front);
      PutKeepsDistinct(Trimmed(CacheAfter(front)), e);
      forall x | x in CacheAfter(stores)
        ensures x in stores
      {
        PutEntries(Trimmed(CacheAfter(front)), e, x);
      }
    }
  }

  /** What a lookup finds is the response stored last under that key. */
  lemma {:induction false} LookupIsLatest(stores: seq<Entry>, key: string)
    requires Keyed(stores)
    ensures Lookup(CacheAfter(stores), key) in {None, Latest(stores, key)}
  {
    if stores != [] {
      var front, e := stores[..|stores|-1], stores[|stores|-1];
      var cache := CacheAfter(front);
      LookupIsLatest(front, key);
      CacheStaysSmall(front);
      PutLookup(Trimmed(cache), e, key);
      if Trimmed(cache) != cache && cache[0].key == key {
        AbsentKey(cache[1..], key);
      }
    }
  }

  function Max(a: int, b: int): int {
    if a < b then b else a
  }

  lemma CacheUnfold(stores: seq<Entry>)
    requires stores != []
    ensures CacheAfter(stores) == Put(Trimmed(CacheAfter(stores[..|stores|-1])), stores[|stores|-1])
  {
  }

  /** Storing a new key drops at most the oldest entry and appends. */
  lemma StoreFresh(cache: seq<Entry>, e: Entry)
    requires DistinctKeys(cache + [e]) && Keyed(cache + [e])
    ensures Put(Trimmed(cache), e) == cache[if |cache| >= FINAL_RETRY_CACHE_LIMIT then 1 else 0..] + [e]
  {
    hide Put;
    var kept, all := Trimmed(cache), cache + [e];
    forall i | 0 <= i < |cache|
      ensures cache[i] == all[i] && cache[i].key != e.key && cache[i].key != ""
    {
      assert all[i].key != all[|cache|].key && all[i] in all;
    }
    assert forall i, j :: 0 <= i < j < |cache| ==> all[i].key != all[j].key;
    PutKeepsDistinct(kept, e);
  }

  function LastStores(stores: seq<Entry>): seq<Entry> {
    if |stores| <= 32 then stores else stores[|stores| - 32..]
  }

  /** With a fresh key per request, the cache is exactly the last 32 responses. */
  lemma {:induction false} CacheIsLastStores(stores: seq<Entry>)
    requires Keyed(stores) && DistinctKeys(stores)
    ensures CacheAfter(stores) == LastStores(stores)
  {
    hide CacheAfter, Put, Trimmed;
    if stores == [] {
      EmptyCache();
    } else {
      var n := |stores|;
      var front, e := stores[..n-1], stores[n-1];
      CacheIsLastStores(front);
      CacheUnfold(stores);
      var cache := LastStores(front);
      assert cache + [e] == stores[n - 1 - |cache|..];
      StoreFresh(cache, e);
    }
  }

  lemma EmptyCache()
    ensures CacheAfter([]) == []
  {
  }

  // ---- The call's state is its history ----

  /** The three variables that track turns hold exactly this about the history: how many
      turns started, the newest turn while it is in flight, and the turns in flight whose
      output is stale. */
  ghost predicate Explains(nextTurn: nat, processing: Option<nat>, interrupted: set<nat>, past: seq<Event>) {
    && OnlyStartedFinish(past)
    && nextTurn == Started(past)
    && processing == (if InFlight(past, nextTurn) then Some(nextTurn) else None)
    && (forall t :: t in interrupted <==> InFlight(past, t) && Disturbed(past, t))
    && (forall t: nat :: Finish(t) in past ==> 1 <= t <= nextTurn)
  }

  function Marked(processing: Option<nat>, interrupted: set<nat>): set<nat> {
    if processing.Some? then interrupted + {processing.value} else interrupted
  }

  lemma StartExplained(nextTurn: nat, processing: Option<nat>, interrupted: set<nat>, past: seq<Event>)
    requires Explains(nextTurn, processing, interrupted, past)
    ensures Explains(nextTurn + 1, Some(nextTurn + 1), Marked(processing, interrupted), past + [Start])
    ensures OnlyStartedFinish(past + [Start])
    ensures nextTurn + 1 == Started(past + [Start]) && InFlight(past + [Start], nextTurn + 1)
  {
    hide Disturbed, Started, OnlyStartedFinish;
    var now := past + [Start];
    PrefixesKept(past, Start);
    UnstartedIsUndisturbed(past, nextTurn + 1);
    forall t: nat
      ensures t in Marked(processing, interrupted) <==> InFlight(now, t) && Disturbed(now, t)
    {
      DisturbedGrows(past, Start, t);
      if t < nextTurn {
        SupersededIsDisturbed(past, t);
      }
    }
  }

  lemma InterruptExplained(nextTurn: nat, processing: Option<nat>, interrupted: set<nat>, past: seq<Event>)
    requires Explains(nextTurn, processing, interrupted, past)
    ensures Explains(nextTurn, processing, Marked(processing, interrupted), past + [Interrupt])
    ensures OnlyStartedFinish(past + [Interrupt])
    ensures processing == if InFlight(past, Started(past)) then Some(Started(past)) else None
  {
    hide Disturbed, Started, OnlyStartedFinish;
    var now := past + [Interrupt];
    PrefixesKept(past, Interrupt);
    forall t: nat
      ensures t in Marked(processing, interrupted) <==> InFlight(now, t) && Disturbed(now, t)
    {
      DisturbedGrows(past, Interrupt, t);
      if t < nextTurn {
        SupersededIsDisturbed(past, t);
      }
    }
  }

  lemma FinishExplained(nextTurn: nat, processing: Option<nat>, interrupted: set<nat>, past: seq<Event>, turn: nat)
    requires Explains(nextTurn, processing, interrupted, past) && InFlight(past, turn)
    ensures Explains(nextTurn, if processing == Some(turn) then None else processing,
                     interrupted - {turn}, past + [Finish(turn)])
    ensures OnlyStartedFinish(past + [Finish(turn)])
  {
    hide Disturbed, Started, OnlyStartedFinish;
    var now := past + [Finish(turn)];
    PrefixesKept(past, Finish(turn));
    forall t: nat
      ensures t in interrupted - {turn} <==> InFlight(now, t) && Disturbed(now, t)
    {
      DisturbedGrows(past, Finish(turn), t);
    }
  }

  lemma PrefixesKept(past: seq<Event>, e: Event)
    requires OnlyStartedFinish(past) && (e.Finish? ==> InFlight(past, e.turn))
    ensures OnlyStartedFinish(past + [e])
    ensures Started(past + [e]) == Started(past) + if e.Start? then 1 else 0
    ensures forall t: nat :: Finish(t) in past + [e] <==> Finish(t) in past || e == Finish(t)
  {
    assert (past + [e])[..|past|] == past;
    forall i | 0 <= i < |past| && past[i].Finish?
      ensures InFlight((past + [e])[..i], (past + [e])[i].turn)
    {
      assert (past + [e])[..i] == past[..i];
    }
  }

  /** The test that the route makes is exactly: superseded or interrupted since its start. */
  lemma TestIsDisturbed(nextTurn: nat, processing: Option<nat>, interrupted: set<nat>, past: seq<Event>, turn: nat)
    requires Explains(nextTurn, processing, interrupted, past) && InFlight(past, turn)
    ensures turn in interrupted || processing != Some(turn) <==> Disturbed(past, turn)
  {
    if turn < nextTurn {
      SupersededIsDisturbed(past, turn);
    }
  }

  /** Every cached response was once sent as fresh; if it carries output, its turn came to
      its end undisturbed. */
  ghost predicate Honest(past: seq<Event>, e: Entry) {
    && e.key != ""
    && !e.response.retry
    && (e.response.interrupted ==> e.response.outbound == [])
    && (e.response.interrupted <==> !Delivered(past, e.response.turn))
    && Finish(e.response.turn) in past
  }

  lemma HonestLater(past: seq<Event>, e: Event, x: Entry)
    requires Honest(past, x) && OnlyStartedFinish(past + [e])
    ensures Honest(past + [e], x)
  {
    var now, t := past + [e], x.response.turn;
    if Delivered(past, t) {
      var i :| DeliveredAt(past, t, i);
      assert now[..i] == past[..i] && DeliveredAt(now, t, i);
    }
    if Delivered(now, t) {
      var i :| DeliveredAt(now, t, i);
      assert now[..|past|] == past;
      assert i < |past| by {
        assert e == Finish(t) ==> InFlight(past, t);
      }
      assert now[..i] == past[..i] && DeliveredAt(past, t, i);
    }
  }

  lemma FreshIsHonest(past: seq<Event>, turn: nat, key: string, outbound: Outbound)
    requires OnlyStartedFinish(past + [Finish(turn)]) && InFlight(past, turn) && key != ""
    ensures var late := Disturbed(past, turn);
      Honest(past + [Finish(turn)], Entry(key, Response(turn, late, if late then [] else outbound, false)))
  {
    var now := past + [Finish(turn)];
    assert now[..|past|] == past && now[|past|] == Finish(turn);
    if Disturbed(past, turn) {
      DisturbedIsNeverDelivered(now, turn, |past|);
    } else {
      assert DeliveredAt(now, turn, |past|);
    }
  }

  // ---- What the client was sent, replays included ----

  ghost predicate FreshOutput(r: Response) {
    !r.retry && r.outbound != []
  }

  /** The responses sent so far: fresh output is that of delivered turns, in ascending order; a
      replay repeats an earlier fresh response; what is stored was sent. */
  ghost predicate Faithful(past: seq<Event>, stores: seq<Entry>, sent: seq<Response>) {
    && (forall r :: r in sent && FreshOutput(r) ==> Delivered(past, r.turn))
    && (forall i, j :: 0 <= i < j < |sent| && FreshOutput(sent[i]) && FreshOutput(sent[j]) ==>
          sent[i].turn < sent[j].turn)
    && (forall j :: 0 <= j < |sent| && sent[j].retry ==> RepeatsEarlier(sent, j))
    && (forall e :: e in stores ==> e.response in sent && !e.response.retry)
  }

  ghost predicate RepeatsEarlier(sent: seq<Response>, j: int)
    requires 0 <= j < |sent|
  {
    exists i :: 0 <= i < j && sent[i] == sent[j].(retry := false)
  }

  ghost predicate OutputsAscend(sent: seq<Response>) {
    forall i, j :: 0 <= i < j < |sent| && sent[i].outbound != [] && sent[j].outbound != [] ==>
      sent[i].turn < sent[j].turn
  }

  /** Counting replays, the turns whose output the client gets ascend strictly exactly when no
      replay carries output. */
  lemma OutputsAscendWithoutReplays(past: seq<Event>, stores: seq<Entry>, sent: seq<Response>)
    requires Faithful(past, stores, sent)
    ensures OutputsAscend(sent) <==> forall r :: r in sent && r.retry ==> r.outbound == []
  {
    forall j | 0 <= j < |sent| && sent[j].retry && sent[j].outbound != []
      ensures !OutputsAscend(sent)
    {
      assert RepeatsEarlier(sent, j);
      var i :| 0 <= i < j && sent[i] == sent[j].(retry := false);
      assert sent[i].turn == sent[j].turn && sent[i].outbound != [];
    }
    if forall r :: r in sent && r.retry ==> r.outbound == [] {
      assert forall i :: 0 <= i < |sent| && sent[i].outbound != [] ==> FreshOutput(sent[i]);
    }
  }

  lemma DeliveredStays(past: seq<Event>, e: Event, t: nat)
    requires Delivered(past, t)
    ensures Delivered(past + [e], t)
  {
    var i :| DeliveredAt(past, t, i);
    assert (past + [e])[..i] == past[..i] && DeliveredAt(past + [e], t, i);
  }

  lemma FaithfulLater(past: seq<Event>, e: Event, stores: seq<Entry>, sent: seq<Response>)
    requires Faithful(past, stores, sent)
    ensures Faithful(past + [e], stores, sent)
  {
    hide Delivered, RepeatsEarlier;
    forall r | r in sent && FreshOutput(r)
      ensures Delivered(past + [e], r.turn)
    {
      DeliveredStays(past, e, r.turn);
    }
  }

  lemma RepeatsStay(sent: seq<Response>, r: Response)
    requires forall j :: 0 <= j < |sent| && sent[j].retry ==> RepeatsEarlier(sent, j)
    requires r.retry ==> r.(retry := false) in sent
    ensures forall j :: 0 <= j < |sent| + 1 && (sent + [r])[j].retry ==> RepeatsEarlier(sent + [r], j)
  {
    var more := sent + [r];
    forall j | 0 <= j < |more| && more[j].retry
      ensures RepeatsEarlier(more, j)
    {
      if j < |sent| {
        assert RepeatsEarlier(sent, j);
        var i :| 0 <= i < j && sent[i] == sent[j].(retry := false);
        assert more[i] == more[j].(retry := false);
      } else {
        var i :| 0 <= i < |sent| && sent[i] == r.(retry := false);
        assert more[i] == more[j].(retry := false);
      }
    }
  }

  /** A turn that ends is younger than every turn delivered before. */
  lemma DeliveredIsOlder(past: seq<Event>, t: nat, turn: nat)
    requires OnlyStartedFinish(past + [Finish(turn)]) && Delivered(past, t) && !Disturbed(past, turn)
    ensures t < turn
  {
    var now := past + [Finish(turn)];
    var i :| DeliveredAt(past, t, i);
    assert now[..i] == past[..i] && now[..|past|] == past && now[|past|] == Finish(turn);
    DeliveriesAscend(now, t, i, turn, |past|);
  }

  lemma SendsFresh(past: seq<Event>, stores: seq<Entry>, sent: seq<Response>, turn: nat, outbound: Outbound)
    requires Faithful(past, stores, sent) && OnlyStartedFinish(past + [Finish(turn)])
    ensures var late := Disturbed(past, turn);
      Faithful(past + [Finish(turn)], stores, sent + [Response(turn, late, if late then [] else outbound, false)])
  {
    var late, now := Disturbed(past, turn), past + [Finish(turn)];
    var r := Response(turn, late, if late then [] else outbound, false);
    hide Disturbed, OnlyStartedFinish, RepeatsEarlier;
    FaithfulLater(past, Finish(turn), stores, sent);
    RepeatsStay(sent, r);
    if !late {
      assert now[..|past|] == past && now[|past|] == Finish(turn);
      assert DeliveredAt(now, turn, |past|);
      forall i | 0 <= i < |sent| && FreshOutput(sent[i])
        ensures sent[i].turn < turn
      {
        assert sent[i] in sent;
        DeliveredIsOlder(past, sent[i].turn, turn);
      }
    }
  }

  lemma SendsReplay(past: seq<Event>, stores: seq<Entry>, sent: seq<Response>, e: Entry)
    requires Faithful(past, stores, sent) && e in stores
    ensures Faithful(past, stores, sent + [e.response.(retry := true)])
  {
    hide Delivered, RepeatsEarlier;
    assert e.response.(retry := true).(retry := false) == e.response;
    RepeatsStay(sent, e.response.(retry := true));
  }

  /** A replay can follow the output of a newer turn: with two turns delivered and their
      responses cached, the first key brings back turn 1 after turn 2. */
  lemma ReplayOfOlderTurn(a: string, b: string, out: Outbound)
    requires a != "" && b != "" && a != b && out != []
    ensures var past := [Start, Finish(1), Start, Finish(2)];
      var first, second := Response(1, false, out, false), Response(2, false, out, false);
      var stores := [Entry(a, first), Entry(b, second)];
      && Delivered(past, 1) && Delivered(past, 2)
      && (forall e :: e in stores ==> Honest(past, e))
      && Lookup(CacheAfter(stores), a) == Some(first)
      && Faithful(past, stores, [first, second, first.(retry := true)])
  {
    var past := [Start, Finish(1), Start, Finish(2)];
    var first, second := Response(1, false, out, false), Response(2, false, out, false);
    var stores := [Entry(a, first), Entry(b, second)];
    TwoTurns();
    assert stores[..1] == [Entry(a, first)] && stores[..1][..0] == [];
    assert CacheAfter(stores[..1]) == [Entry(a, first)];
    assert Put([Entry(a, first)], Entry(b, second)) == [Entry(a, first)] + Put([], Entry(b, second));
    hide Delivered, Disturbed;
    var sent := [first, second, first.(retry := true)];
    assert sent[0] == sent[2].(retry := false) && RepeatsEarlier(sent, 2);
  }

  lemma TwoTurns()
    ensures var past := [Start, Finish(1), Start, Finish(2)];
      Delivered(past, 1) && Delivered(past, 2)
  {
    var past := [Start, Finish(1), Start, Finish(2)];
    assert past[..1] == [Start] && past[..3] == [Start, Finish(1), Start] && past[..2] == [Start, Finish(1)];
    assert past[..1][..0] == [] && past[..3][..2] == past[..2] && past[..2][..1] == past[..1];
    assert Started([]) == 0 && Started(past[..1]) == 1 && Started(past[..2]) == 1 && Started(past[..3]) == 2;
    forall i | 0 <= i < 1
      ensures Started(past[..1][..i]) < 1
    {
    }
    forall i | 0 <= i < 3 && !past[..3][i].Finish?
      ensures Started(past[..3][..i]) < 2
    {
      assert past[..3][..i] == past[..i];
    }
    assert DeliveredAt(past, 1, 1) && DeliveredAt(past, 2, 3);
  }

  class Call {
    var nextTurn: nat
    var processingTurn: Option<nat>
    var interruptedTurns: set<nat>
    var finalRetryCache: seq<Entry>
    ghost var past: seq<Event>
    ghost var stores: seq<Entry>
    ghost var sent: seq<Response>

    ghost predicate Valid()
      reads this
    {
      && Explains(nextTurn, processingTurn, interruptedTurns, past)
      && finalRetryCache == CacheAfter(stores)
      && (forall e :: e in stores ==> Honest(past, e))
      && Faithful(past, stores, sent)
    }

    constructor ()
      ensures Valid() && past == [] && stores == [] && sent == []
    {
      nextTurn, processingTurn, interruptedTurns, finalRetryCache := 0, None, {}, [];
      past, stores, sent := [], [], [];
    }

    method StartTurn() returns (turn: nat)
      requires Valid()
      modifies this`nextTurn, this`processingTurn, this`interruptedTurns, this`past
      ensures Valid() && past == old(past) + [Start]
      ensures turn == Started(past) && InFlight(past, turn)
    {
      hide Explains, OnlyStartedFinish, CacheAfter, Honest, Faithful;
      StartExplained(nextTurn, processingTurn, interruptedTurns, past);
      StoresStayHonest(past, Start, stores);
      FaithfulLater(past, Start, stores, sent);
      if processingTurn.Some? {
        interruptedTurns := interruptedTurns + {processingTurn.value};
      }
      nextTurn := nextTurn + 1;
      processingTurn := Some(nextTurn);
      past := past + [Start];
      turn := nextTurn;
    }

    method InterruptActiveTurn() returns (turn: Option<nat>)
      requires Valid()
      modifies this`interruptedTurns, this`past
      ensures Valid() && past == old(past) + [Interrupt]
      ensures turn == if InFlight(old(past), Started(old(past))) then Some(Started(old(past))) else None
    {
      hide Explains, OnlyStartedFinish, CacheAfter, Honest, Faithful;
      InterruptExplained(nextTurn, processingTurn, interruptedTurns, past);
      StoresStayHonest(past, Interrupt, stores);
      FaithfulLater(past, Interrupt, stores, sent);
      turn := processingTurn;
      past := past + [Interrupt];
      if processingTurn.Some? {
        interruptedTurns := interruptedTurns + {processingTurn.value};
      }
    }

    method IsTurnInterrupted(turn: nat) returns (late: bool)
      requires Valid() && InFlight(past, turn)
      ensures late <==> Disturbed(past, turn)
    {
      TestIsDisturbed(nextTurn, processingTurn, interruptedTurns, past, turn);
      late := turn in interruptedTurns || processingTurn != Some(turn);
    }

    method FinishTurn(turn: nat)
      requires Valid() && InFlight(past, turn)
      modifies this`processingTurn, this`interruptedTurns, this`past
      ensures Valid() && past == old(past) + [Finish(turn)]
    {
      hide Explains, OnlyStartedFinish, CacheAfter, Honest, Faithful;
      FinishExplained(nextTurn, processingTurn, interruptedTurns, past, turn);
      StoresStayHonest(past, Finish(turn), stores);
      FaithfulLater(past, Finish(turn), stores, sent);
      if processingTurn == Some(turn) {
        processingTurn := None;
      }
      interruptedTurns := interruptedTurns - {turn};
      past := past + [Finish(turn)];
    }

    method StoreFinalRetryResponse(key: string, response: Response)
      requires Valid() && Honest(past, Entry(key, response)) && response in sent
      modifies this`finalRetryCache, this`stores
      ensures Valid() && stores == old(stores) + [Entry(key, response)]
    {
      hide Explains, Put, Delivered, FreshOutput, RepeatsEarlier;
      var e := Entry(key, response);
      finalRetryCache := Put(Trimmed(finalRetryCache), e);
      assert (stores + [e])[..|stores|] == stores;
      stores := stores + [e];
    }

    /** A final transcript arrives: a known client turn id is answered from the cache, with
        the output of a turn that was delivered or with none; otherwise a turn starts. */
    method BeginFinal(clientTurnId: string) returns (replay: Option<Response>, turn: nat)
      requires Valid()
      modifies this`nextTurn, this`processingTurn, this`interruptedTurns, this`past, this`sent
      ensures Valid()
      ensures sent == if replay.Some? then old(sent) + [replay.value] else old(sent)
      ensures replay.Some? <==> clientTurnId != "" && Lookup(CacheAfter(stores), clientTurnId).Some?
      ensures replay.Some? ==>
        && past == old(past)
        && Latest(stores, clientTurnId).Some?
        && replay.value == Latest(stores, clientTurnId).value.(retry := true)
        && (replay.value.outbound != [] ==> Delivered(past, replay.value.turn))
      ensures replay.None? ==> past == old(past) + [Start] && turn == Started(past) && InFlight(past, turn)
    {
      hide Explains, CacheAfter, Disturbed, Delivered, Started, InFlight, Faithful;
      replay, turn := None, 0;
      if clientTurnId != "" && Lookup(finalRetryCache, clientTurnId).Some? {
        LookupIsLatest(stores, clientTurnId);
        LatestIsStored(stores, clientTurnId);
        SendsReplay(past, stores, sent, Entry(clientTurnId, Latest(stores, clientTurnId).value));
        sent := sent + [Latest(stores, clientTurnId).value.(retry := true)];
        return Some(Lookup(finalRetryCache, clientTurnId).value.(retry := true)), 0;
      }
      turn := StartTurn();
    }

    /** The handler of a turn returns: its output goes out exactly if the turn was neither
        superseded nor interrupted since it started. */
    method EndFinal(turn: nat, clientTurnId: string, outbound: Outbound) returns (response: Response)
      requires Valid() && InFlight(past, turn)
      modifies this`processingTurn, this`interruptedTurns, this`past, this`finalRetryCache, this`stores, this`sent
      ensures Valid() && past == old(past) + [Finish(turn)] && sent == old(sent) + [response]
      ensures var late := Disturbed(old(past), turn);
        response == Response(turn, late, if late then [] else outbound, false)
      ensures stores == if clientTurnId == "" then old(stores) else old(stores) + [Entry(clientTurnId, response)]
    {
      hide Explains, CacheAfter, Disturbed, Honest, InFlight, Faithful;
      var late := IsTurnInterrupted(turn);
      ghost var before := past;
      FinishTurn(turn);
      response := Response(turn, late, if late then [] else outbound, false);
      ExplainsLegal(nextTurn, processingTurn, interruptedTurns, past);
      SendsFresh(before, stores, sent, turn, outbound);
      sent := sent + [response];
      if clientTurnId != "" {
        FreshIsHonest(before, turn, clientTurnId, outbound);
        StoreFinalRetryResponse(clientTurnId, response);
      }
    }
  }

  lemma ExplainsLegal(nextTurn: nat, processing: Option<nat>, interrupted: set<nat>, past: seq<Event>)
    requires Explains(nextTurn, processing, interrupted, past)
    ensures OnlyStartedFinish(past)
  {
  }

  lemma {:induction false} LatestIsStored(stores: seq<Entry>, key: string)
    ensures Latest(stores, key).Some? ==> Entry(key, Latest(stores, key).value) in stores
  {
    if stores != [] {
      LatestIsStored(stores[..|stores|-1], key);
    }
  }

  lemma StoresStayHonest(past: seq<Event>, e: Event, stores: seq<Entry>)
    requires forall x :: x in stores ==> Honest(past, x)
    requires OnlyStartedFinish(past + [e])
    ensures forall x :: x in stores ==> Honest(past + [e], x)
  {
    forall x | x in stores
      ensures Honest(past + [e], x)
    {
      HonestLater(past, e, x);
    }
  }
}
