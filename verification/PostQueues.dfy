/**
 The dispatch queue: approval, delivery through an adapter, bounded retries, dead letters.
 One dispatch is one step; dispatches of one item do not overlap, and what the adapter
 answers is arbitrary.
*/
module PostQueues {
  import opened Optional

  type Id = string

  datatype Status = PendingApproval | Approved | Dispatched | Failed | DeadLetter

  datatype Reason = ApprovalRequired | MissingAdapter | Adapter(code: string)

  /** `sentOnce` stands for a dispatch time that is set. */
  datatype Item = Item(id: Id, status: Status, attempts: nat, approvedBy: Option<string>,
                       sentOnce: bool, lastError: Option<Reason>)

  /** What the platform's adapter answers, or that there is none. */
  datatype Reply = NoAdapter | Delivered | Refused(retryable: bool, code: string)

  const MAX_ATTEMPTS := 3

  const NEWEST := 500

  datatype Answer = NotFound | Answer(status: Status, reason: Option<Reason>, retryAfterMs: Option<nat>, attempts: nat)

  /** Milliseconds to wait after the given attempt. */
  function Backoff(attempts: nat): nat {
    [3000, 15000, 60000][if attempts <= 1 then 0 else if attempts - 1 > 2 then 2 else attempts - 1]
  }

  predicate Unapproved(item: Item, approvedBy: string) {
    item.status.PendingApproval? && approvedBy == ""
  }

  /** The adapter is asked to deliver. */
  predicate Sends(item: Item, approvedBy: string, reply: Reply) {
    !item.status.DeadLetter? && !Unapproved(item, approvedBy) && !reply.NoAdapter?
  }

  function AfterDispatch(item: Item, approvedBy: string, reply: Reply): Item {
    if item.status.DeadLetter? then item
    else
      var attempts := item.attempts + 1;
      if Unapproved(item, approvedBy) then
        item.(status := DeadLetter, attempts := attempts, lastError := Some(ApprovalRequired))
      else
        var active := if !item.status.PendingApproval? then item
                      else item.(status := Approved, approvedBy := Some(approvedBy));
        match reply
        case NoAdapter =>
          active.(status := if attempts >= MAX_ATTEMPTS then DeadLetter else Failed, attempts := attempts,
                  lastError := Some(MissingAdapter))
        case Delivered =>
          active.(status := Dispatched, attempts := attempts, sentOnce := true)
        case Refused(retryable, code) =>
          active.(status := if !retryable || attempts >= MAX_ATTEMPTS then DeadLetter else Failed, attempts := attempts,
                  lastError := Some(Adapter(code)))
  }

  /** The delay that is reported: after a refusal that may be retried, whatever became of the
      item, and after a missing adapter while attempts are left. */
  function Delay(item: Item, approvedBy: string, reply: Reply): Option<nat> {
    var attempts := item.attempts + 1;
    if item.status.DeadLetter? || Unapproved(item, approvedBy) || reply.Delivered? then None
    else if reply.NoAdapter? then (if attempts < MAX_ATTEMPTS then Some(Backoff(attempts)) else None)
    else if reply.retryable then Some(Backoff(attempts)) else None
  }

  /** The reported delay misleads exactly when a retryable refusal uses up the last attempt: the
      item is then dead, and in every other case a delay comes with an item that can be retried. */
  lemma DelayOfDeadLetter(item: Item, approvedBy: string, reply: Reply)
    ensures Delay(item, approvedBy, reply).Some? ==> AfterDispatch(item, approvedBy, reply).status in {Failed, DeadLetter}
    ensures Delay(item, approvedBy, reply).Some? && AfterDispatch(item, approvedBy, reply).status.DeadLetter?
       <==> Sends(item, approvedBy, reply) && reply.Refused? && reply.retryable && item.attempts + 1 >= MAX_ATTEMPTS
    ensures AfterDispatch(item, approvedBy, reply).status.Failed? ==> Delay(item, approvedBy, reply).Some?
  {
  }

  /** Where one dispatch leaves an item that was not dead: dead at once without an approval it
      needs, or after a refusal for good, or after any other failure of the third attempt; dispatched
      after a delivery; otherwise failed. The reason says which. */
  lemma DispatchOutcome(item: Item, approvedBy: string, reply: Reply)
    requires !item.status.DeadLetter?
    ensures var now, lacking := AfterDispatch(item, approvedBy, reply), item.status.PendingApproval? && approvedBy == "";
      && now.attempts == item.attempts + 1
      && (now.status.DeadLetter? <==>
            || lacking
            || (reply.Refused? && !reply.retryable)
            || (!reply.Delivered? && item.attempts >= 2))
      && (now.status.Dispatched? <==> !lacking && reply.Delivered?)
      && now.status in {DeadLetter, Dispatched, Failed}
      && (lacking ==> now.lastError == Some(ApprovalRequired))
      && (!lacking && reply.NoAdapter? ==> now.lastError == Some(MissingAdapter))
      && (!lacking && reply.Refused? ==> now.lastError == Some(Adapter(reply.code)))
      && (!lacking && reply.Delivered? ==> now.lastError == item.lastError && now.sentOnce)
      && now.approvedBy == if item.status.PendingApproval? && !lacking then Some(approvedBy) else item.approvedBy
  {
  }

  /** The waiting times after the first, second and any later refusal. */
  lemma WaitingTimes(item: Item, approvedBy: string, code: string)
    requires Sends(item, approvedBy, Refused(true, code))
    ensures Delay(item, approvedBy, Refused(true, code))
         == Some(if item.attempts == 0 then 3_000 else if item.attempts == 1 then 15_000 else 60_000)
  {
  }

  // ---- Whole histories of one item ----

  datatype Call = Call(approvedBy: string, reply: Reply)

  function After(item: Item, calls: seq<Call>): Item {
    if calls == [] then item
    else
      var last := calls[|calls|-1];
      AfterDispatch(After(item, calls[..|calls|-1]), last.approvedBy, last.reply)
  }

  /** The attempt numbers that went into idempotency keys, in order. */
  function Attempted(item: Item, calls: seq<Call>): seq<nat> {
    if calls == [] then []
    else
      var front, last := calls[..|calls|-1], calls[|calls|-1];
      var before := After(item, front);
      Attempted(item, front) + if Sends(before, last.approvedBy, last.reply) then [before.attempts + 1] else []
  }

  /** Nothing revives a dead letter, and it is never sent. */
  lemma {:induction false} DeadLettersRest(item: Item, calls: seq<Call>)
    requires item.status.DeadLetter?
    ensures After(item, calls) == item && Attempted(item, calls) == []
  {
    if calls != [] {
      DeadLettersRest(item, calls[..|calls|-1]);
    }
  }

  /** No idempotency key is used twice: attempt numbers ascend strictly. */
  lemma {:induction false} AttemptsAscend(item: Item, calls: seq<Call>)
    ensures item.attempts <= After(item, calls).attempts
    ensures forall i :: 0 <= i < |Attempted(item, calls)| ==>
      item.attempts < Attempted(item, calls)[i] <= After(item, calls).attempts
    ensures forall i, j :: 0 <= i < j < |Attempted(item, calls)| ==> Attempted(item, calls)[i] < Attempted(item, calls)[j]
  {
    if calls != [] {
      AttemptsAscend(item, calls[..|calls|-1]);
    }
  }

  /** Nothing waiting for approval is ever sent without one: if its first dispatch brings none, it
      is dead for good and never sent; otherwise it is recorded who approved it, and stays so. */
  lemma {:induction false} FirstCallDecidesApproval(item: Item, calls: seq<Call>)
    requires item.status.PendingApproval? && calls != []
    ensures calls[0].approvedBy == "" ==>
      && After(item, calls).status.DeadLetter? && Attempted(item, calls) == []
      && After(item, calls).attempts == item.attempts + 1 && After(item, calls).lastError == Some(ApprovalRequired)
    ensures calls[0].approvedBy != "" ==>
      && After(item, calls).approvedBy == Some(calls[0].approvedBy) && !After(item, calls).status.PendingApproval?
  {
    var front := calls[..|calls|-1];
    if front != [] {
      FirstCallDecidesApproval(item, front);
    }
  }

  ghost predicate Fresh(item: Item) {
    item.attempts == 0 && !item.sentOnce && !item.status.DeadLetter? && !item.status.Dispatched?
  }

  /** Until an item is delivered or dead, every call costs one attempt; so three calls settle
      it, and it is never sent more than three times without success. */
  lemma {:induction false} ThreeCallsSettle(item: Item, calls: seq<Call>)
    requires Fresh(item)
    ensures var now := After(item, calls);
      && (!now.sentOnce ==> now.attempts <= 3 && |Attempted(item, calls)| <= now.attempts)
      && (!now.sentOnce && !now.status.DeadLetter? ==> now.attempts == |calls| < 3 && !now.status.Dispatched?)
      && (|calls| >= 3 ==> now.sentOnce || now.status.DeadLetter?)
  {
    if calls != [] {
      ThreeCallsSettle(item, calls[..|calls|-1]);
    }
  }

  function Deliveries(item: Item, calls: seq<Call>): nat {
    if calls == [] then 0
    else
      var front, last := calls[..|calls|-1], calls[|calls|-1];
      Deliveries(item, front)
      + if Sends(After(item, front), last.approvedBy, last.reply) && last.reply.Delivered? then 1 else 0
  }

  /** If callers never dispatch an item that was already dispatched, a fresh item is
      delivered at most once and sent at most three times. */
  lemma {:induction false} GuardedDeliversOnce(item: Item, calls: seq<Call>)
    requires Fresh(item)
    requires NeverOnDispatched(item, calls)
    ensures Deliveries(item, calls) == if After(item, calls).sentOnce then 1 else 0
    ensures After(item, calls).sentOnce ==> After(item, calls).status.Dispatched?
    ensures |Attempted(item, calls)| <= 3
  {
    if calls != [] {
      var front := calls[..|calls|-1];
      assert forall i :: 0 <= i < |front| ==> front[..i] == calls[..i];
      GuardedDeliversOnce(item, front);
      ThreeCallsSettle(item, front);
    }
  }

  /** An item that became dispatched was delivered. */
  lemma {:induction false} DispatchedMeansDelivered(item: Item, calls: seq<Call>)
    requires !item.status.Dispatched? && After(item, calls).status.Dispatched?
    ensures Deliveries(item, calls) > 0
  {
    if calls != [] && After(item, calls[..|calls|-1]).status.Dispatched? {
      DispatchedMeansDelivered(item, calls[..|calls|-1]);
    }
  }

  /** Who decides, from what happened so far, whether to dispatch again and with whose approval. */
  type Caller = seq<Call> -> Option<string>

  /** A history in which the caller made every call; the replies are arbitrary. */
  ghost predicate MadeBy(caller: Caller, calls: seq<Call>) {
    forall i :: 0 <= i < |calls| ==> caller(calls[..i]) == Some(calls[i].approvedBy)
  }

  ghost predicate NeverOnDispatched(item: Item, calls: seq<Call>) {
    forall i :: 0 <= i < |calls| ==> !After(item, calls[..i]).status.Dispatched?
  }

  /** The exact condition: whatever adapters reply, a caller gets at most one delivery of a fresh
      item exactly when it never dispatches an item that is already dispatched. */
  lemma DeliversOnceExactlyWhenGuarded(item: Item, caller: Caller)
    requires Fresh(item)
    ensures (forall calls: seq<Call> :: MadeBy(caller, calls) ==> Deliveries(item, calls) <= 1)
       <==> (forall calls: seq<Call> :: MadeBy(caller, calls) ==> NeverOnDispatched(item, calls))
  {
    hide AfterDispatch, Deliveries, MadeBy, NeverOnDispatched, Fresh;
    forall calls: seq<Call> | MadeBy(caller, calls) && NeverOnDispatched(item, calls)
      ensures Deliveries(item, calls) <= 1
    {
      GuardedDeliversOnce(item, calls);
    }
    forall calls: seq<Call> | MadeBy(caller, calls) && !NeverOnDispatched(item, calls)
      ensures exists more :: MadeBy(caller, more) && Deliveries(item, more) > 1
    {
      var more := DeliveredTwice(item, caller, calls);
    }
  }

  /** At the call on a dispatched item the adapter may deliver once more. */
  lemma DeliveredTwice(item: Item, caller: Caller, calls: seq<Call>) returns (more: seq<Call>)
    requires Fresh(item) && MadeBy(caller, calls) && !NeverOnDispatched(item, calls)
    ensures MadeBy(caller, more) && Deliveries(item, more) > 1
  {
    hide AfterDispatch, Deliveries, After;
    var i :| 0 <= i < |calls| && After(item, calls[..i]).status.Dispatched?;
    more := calls[..i] + [Call(calls[i].approvedBy, Delivered)];
    forall j | 0 <= j < |more|
      ensures caller(more[..j]) == Some(more[j].approvedBy)
    {
      assert more[..j] == calls[..j] && more[j].approvedBy == calls[j].approvedBy;
    }
    DispatchedMeansDelivered(item, calls[..i]);
    DeliversAgain(item, calls[..i], calls[i].approvedBy);
  }

  lemma DeliversAgain(item: Item, calls: seq<Call>, approvedBy: string)
    requires After(item, calls).status.Dispatched?
    ensures Deliveries(item, calls + [Call(approvedBy, Delivered)]) == Deliveries(item, calls) + 1
  {
    assert (calls + [Call(approvedBy, Delivered)])[..|calls|] == calls;
  }

  /** Without that care there is no bound: dispatching a dispatched item delivers it again,
      each time under a new idempotency key. */
  lemma {:induction false} RedispatchDelivers(item: Item, calls: seq<Call>)
    requires item.status.Dispatched? && forall i :: 0 <= i < |calls| ==> calls[i].reply.Delivered?
    ensures After(item, calls).status.Dispatched?
    ensures Deliveries(item, calls) == |Attempted(item, calls)| == |calls|
  {
    if calls != [] {
      RedispatchDelivers(item, calls[..|calls|-1]);
    }
  }

  /** The call moved item k, and only it, and reported what it did. */
  ghost predicate DispatchesAt(before: seq<Item>, after: seq<Item>, k: int, id: Id, approvedBy: string, reply: Reply,
                               a: Answer, sent: Option<nat>)
    requires a.Answer?
  {
    && 0 <= k < |before| && before[k].id == id && k + 500 >= |before|
    && after == before[k := AfterDispatch(before[k], approvedBy, reply)]
    && a.status == after[k].status && a.attempts == after[k].attempts
    && (a.reason.Some? ==> a.reason == after[k].lastError)
    && a.retryAfterMs == Delay(before[k], approvedBy, reply)
    && sent == if Sends(before[k], approvedBy, reply) then Some(a.attempts) else None
  }

  class PostQueue {
    /** In the order of insertion; ids are distinct. */
    var items: seq<Item>

    ghost predicate Valid()
      reads this
    {
      forall i, j :: 0 <= i < j < |items| ==> items[i].id != items[j].id
    }

    constructor ()
      ensures Valid() && items == []
    {
      items := [];
    }

    method EnqueuePost(id: Id, status: Status, approvedBy: Option<string>)
      requires Valid() && forall i :: 0 <= i < |items| ==> items[i].id != id
      modifies this
      ensures Valid() && items == old(items) + [Item(id, status, 0, approvedBy, false, None)]
    {
      items := items + [Item(id, status, 0, approvedBy, false, None)];
    }

    /** Only the newest 500 items are found. */
    method Find(id: Id) returns (k: nat)
      requires Valid()
      ensures k <= |items|
      ensures k < |items| ==> items[k].id == id && k + NEWEST >= |items|
      ensures k == |items| ==> forall i :: 0 <= i < |items| && i + NEWEST >= |items| ==> items[i].id != id
    {
      k := if |items| > NEWEST then |items| - NEWEST else 0;
      while k < |items| && items[k].id != id
        invariant k <= |items| && k + NEWEST >= |items|
        invariant forall i :: 0 <= i < k && i + NEWEST >= |items| ==> items[i].id != id
      {
        k := k + 1;
      }
    }

    method DispatchPostQueueItem(id: Id, approvedBy: string, reply: Reply) returns (a: Answer, sent: Option<nat>)
      requires Valid()
      modifies this
      ensures Valid() && |items| == |old(items)|
      ensures a.NotFound? ==> items == old(items) && sent.None?
      ensures a.NotFound? ==> forall i :: 0 <= i < |items| && i + 500 >= |items| ==> items[i].id != id
      ensures a.Answer? ==> exists k :: DispatchesAt(old(items), items, k, id, approvedBy, reply, a, sent)
    {
      sent := None;
      var k := Find(id);
      if k == |items| {
        return NotFound, None;
      }
      var item := items[k];
      if item.status.DeadLetter? {
        a := Answer(DeadLetter, None, None, item.attempts);
        assert DispatchesAt(items, items, k, id, approvedBy, reply, a, None);
        return a, None;
      }
      var attempts := item.attempts + 1;
      if item.status.PendingApproval? {
        if approvedBy == "" {
          items := items[k := item.(status := DeadLetter, attempts := attempts, lastError := Some(ApprovalRequired))];
          a := Answer(DeadLetter, Some(ApprovalRequired), None, attempts);
          assert DispatchesAt(old(items), items, k, id, approvedBy, reply, a, None);
          return a, None;
        }
        item := item.(status := Approved, approvedBy := Some(approvedBy));
        items := items[k := item];
      }
      if reply.NoAdapter? {
        var status := if attempts >= MAX_ATTEMPTS then DeadLetter else Failed;
        items := items[k := item.(status := status, attempts := attempts, lastError := Some(MissingAdapter))];
        var wait := if attempts < MAX_ATTEMPTS then Some(Backoff(attempts)) else None;
        a := Answer(status, Some(MissingAdapter), wait, attempts);
        assert DispatchesAt(old(items), items, k, id, approvedBy, reply, a, None);
        return a, None;
      }
      sent := Some(attempts);
      if reply.Refused? {
        var wait := if reply.retryable then Some(Backoff(attempts)) else None;
        var status := if !reply.retryable || attempts >= MAX_ATTEMPTS then DeadLetter else Failed;
        items := items[k := item.(status := status, attempts := attempts, lastError := Some(Adapter(reply.code)))];
        a := Answer(status, Some(Adapter(reply.code)), wait, attempts);
        assert DispatchesAt(old(items), items, k, id, approvedBy, reply, a, sent);
        return a, sent;
      }
      items := items[k := item.(status := Dispatched, attempts := attempts, sentOnce := true)];
      a := Answer(Dispatched, None, None, attempts);
      assert DispatchesAt(old(items), items, k, id, approvedBy, reply, a, sent);
    }
  }
}
