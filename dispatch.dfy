/**
 * The selection rule of `callNextTicket` (services/mockDb.ts:101-120): the GENERATED tickets,
 * sorted stably by the comparator that puts every non-NORMAL ticket before every NORMAL one and
 * otherwise orders by `createdAt`; the head of that order is called.
 */
module Dispatch {
  import opened Wrappers
  import opened Types
  import opened Lists
  import opened Sorting
  import opened Lifecycle

  /** `t.status === TicketStatus.GENERATED`: the ticket is waiting. */
  predicate IsWaiting(t: Ticket) {
    t.status == Generated
  }

  /** The comparator's key: preferential tier first, then creation time. */
  function WaitKey(t: Ticket): (int, int) {
    (if t.priority.IsPreferential() then 0 else 1, t.createdAt)
  }

  /** The comparator of services/mockDb.ts:106-112, with creation times in milliseconds. */
  function WaitCompare(a: Ticket, b: Ticket): int {
    var aPref := a.priority != Normal;
    var bPref := b.priority != Normal;
    if aPref && !bPref then -1
    else if !aPref && bPref then 1
    else a.createdAt - b.createdAt
  }

  /**
   * The key orders tickets as the comparator does: one sorts strictly before the other exactly
   * when the comparator is negative, and two keys tie exactly when the comparator returns 0.
   */
  lemma WaitKeyIsComparator(a: Ticket, b: Ticket)
    ensures Before(WaitKey(a), WaitKey(b)) <==> WaitCompare(a, b) < 0
    ensures WaitKey(a) == WaitKey(b) <==> WaitCompare(a, b) == 0
  {
  }

  /**
   * The sorted waiting list: exactly the GENERATED tickets, every preferential ticket ahead of
   * every NORMAL one, and creation times non-decreasing within a tier.
   */
  function WaitingQueue(ts: seq<Ticket>): (q: seq<Ticket>)
    ensures multiset(q) == multiset(Filter(ts, IsWaiting))
    ensures forall i :: 0 <= i < |q| ==> q[i].status == Generated
    ensures forall i, j :: 0 <= i < j < |q| && q[j].priority.IsPreferential() ==> q[i].priority.IsPreferential()
    ensures forall i, j :: 0 <= i < j < |q| && q[i].priority.IsPreferential() == q[j].priority.IsPreferential() ==>
              q[i].createdAt <= q[j].createdAt
  {
    var q := SortBy(Filter(ts, IsWaiting), WaitKey);
    WaitingOrder(q);
    forall i | 0 <= i < |q| ensures q[i].status == Generated {
      assert q[i] in multiset(Filter(ts, IsWaiting));
    }
    q
  }

  /** Sorted by WaitKey is the two-tier order of the comparator. */
  lemma WaitingOrder(q: seq<Ticket>)
    requires Sorted(q, WaitKey)
    ensures forall i, j :: 0 <= i < j < |q| && q[j].priority.IsPreferential() ==> q[i].priority.IsPreferential()
    ensures forall i, j :: 0 <= i < j < |q| && q[i].priority.IsPreferential() == q[j].priority.IsPreferential() ==>
              q[i].createdAt <= q[j].createdAt
  {
    forall i, j | 0 <= i < j < |q|
      ensures q[j].priority.IsPreferential() ==> q[i].priority.IsPreferential()
      ensures q[i].priority.IsPreferential() == q[j].priority.IsPreferential() ==> q[i].createdAt <= q[j].createdAt
    {
      assert !Before(WaitKey(q[j]), WaitKey(q[i]));
    }
  }

  /** The store position of the ticket the rule selects (FirstMin of the waiting tickets). */
  function NextIndex(ts: seq<Ticket>): (r: Option<nat>)
    ensures r.None? <==> forall i :: 0 <= i < |ts| ==> ts[i].status != Generated
    ensures r.Some? ==> r.value < |ts| && ts[r.value].status == Generated
  {
    var r := FirstMin(ts, IsWaiting, WaitKey);
    assert r.None? <==> forall i :: 0 <= i < |ts| ==> !IsWaiting(ts[i]);
    r
  }

  /** Both preferential or both NORMAL. */
  predicate SameTier(a: Ticket, b: Ticket) {
    a.priority.IsPreferential() == b.priority.IsPreferential()
  }

  /**
   * The selection in the rule's own terms: a GENERATED ticket; a NORMAL one only when no
   * non-NORMAL ticket waits; the earliest `createdAt` of its tier; and, among its tier, strictly
   * earlier than every waiting ticket stored before it (ties go to store order).
   */
  lemma NextIsBest(ts: seq<Ticket>)
    ensures NextIndex(ts).None? <==> forall i :: 0 <= i < |ts| ==> ts[i].status != Generated
    ensures NextIndex(ts).Some? ==>
      var k := NextIndex(ts).value;
      && k < |ts| && ts[k].status == Generated
      && (ts[k].priority == Normal ==>
            forall j :: 0 <= j < |ts| && ts[j].status == Generated ==> ts[j].priority == Normal)
      && (forall j :: 0 <= j < |ts| && ts[j].status == Generated && SameTier(ts[j], ts[k]) ==>
            ts[k].createdAt <= ts[j].createdAt)
      && (forall j :: 0 <= j < k && ts[j].status == Generated && SameTier(ts[j], ts[k]) ==>
            ts[k].createdAt < ts[j].createdAt)
  {
    if NextIndex(ts).Some? {
      var k := NextIndex(ts).value;
      forall j | 0 <= j < |ts| && ts[j].status == Generated
        ensures !Before(WaitKey(ts[j]), WaitKey(ts[k]))
      {
        assert IsWaiting(ts[j]);
      }
      forall j | 0 <= j < k && ts[j].status == Generated
        ensures Before(WaitKey(ts[k]), WaitKey(ts[j]))
      {
        assert IsWaiting(ts[j]);
      }
    }
  }

  /** The head of the sorted waiting list is the ticket at NextIndex. */
  lemma WaitingHead(ts: seq<Ticket>)
    ensures WaitingQueue(ts) == [] <==> NextIndex(ts).None?
    ensures NextIndex(ts).Some? ==> WaitingQueue(ts)[0] == ts[NextIndex(ts).value]
  {
    FilterEmpty(ts, IsWaiting);
    if NextIndex(ts).Some? {
      HeadOfSortedFilter(ts, IsWaiting, WaitKey);
    } else {
      assert Filter(ts, IsWaiting) == [];
    }
  }

  /**
   * The ticket `callNextTicket` returns: none when nothing waits, otherwise the selected ticket
   * marked as called to `mesaNumber` at `now`.
   */
  function NextCall(ts: seq<Ticket>, mesaNumber: int, now: int): (r: Option<Ticket>)
    ensures r.None? <==> forall i :: 0 <= i < |ts| ==> ts[i].status != Generated
    ensures r.Some? ==> NextIndex(ts).Some? && r.value == Called(ts[NextIndex(ts).value], mesaNumber, now)
  {
    WaitingHead(ts);
    NextIsBest(ts);
    var q := WaitingQueue(ts);
    if q == [] then None else Some(Called(q[0], mesaNumber, now))
  }

  /**
   * The stored tickets after `callNextTicket`: the called record written back by id. Nothing
   * changes when nothing waits, and any entry that changes becomes the called ticket.
   */
  function AfterCall(ts: seq<Ticket>, mesaNumber: int, now: int): (r: seq<Ticket>)
    ensures |r| == |ts|
    ensures NextIndex(ts).None? ==> r == ts
    ensures forall i :: 0 <= i < |r| && r[i] != ts[i] ==>
              NextIndex(ts).Some? && r[i] == Called(ts[NextIndex(ts).value], mesaNumber, now)
  {
    match NextCall(ts, mesaNumber, now)
    case None => ts
    case Some(t) => ReplaceById(ts, TicketId, t)
  }

  /**
   * The whole waiting order, not only its head: the ticket NextIndex selects, followed by the
   * waiting order of the other tickets in store order. Tickets the comparator ties therefore
   * keep their store order.
   */
  lemma WaitingQueueTakesNext(ts: seq<Ticket>)
    ensures NextIndex(ts).None? ==> WaitingQueue(ts) == []
    ensures NextIndex(ts).Some? ==>
              WaitingQueue(ts) == [ts[NextIndex(ts).value]]
                + WaitingQueue(ts[..NextIndex(ts).value] + ts[NextIndex(ts).value + 1..])
  {
    if NextIndex(ts).Some? {
      WaitingQueueAt(ts, NextIndex(ts).value);
    } else {
      NothingWaiting(ts);
    }
  }

  /** With no GENERATED ticket the waiting queue is empty. */
  lemma NothingWaiting(ts: seq<Ticket>)
    requires forall i :: 0 <= i < |ts| ==> ts[i].status != Generated
    ensures WaitingQueue(ts) == []
  {
    FilterEmpty(ts, IsWaiting);
    assert Filter(ts, IsWaiting) == [];
  }

  /** WaitingQueueTakesNext, with the selected position given. */
  lemma WaitingQueueAt(ts: seq<Ticket>, k: nat)
    requires NextIndex(ts) == Some(k)
    ensures k < |ts| && WaitingQueue(ts) == [ts[k]] + WaitingQueue(ts[..k] + ts[k + 1..])
  {
    SortedFilterTakesFirstMin(ts, IsWaiting, WaitKey);
  }

  /** A call keeps every stored ticket's optional fields consistent with its status. */
  lemma CallKeepsStamped(ts: seq<Ticket>, mesaNumber: int, now: int)
    requires AllStamped(ts)
    ensures AllStamped(AfterCall(ts, mesaNumber, now))
  {
    if NextIndex(ts).Some? {
      var k := NextIndex(ts).value;
      CallIsStep(ts[k], mesaNumber, now);
      WriteBackKeepsStamped(ts, Called(ts[k], mesaNumber, now));
    }
  }

  /**
   * With unique ids, calling changes exactly the selected position: it becomes CALLING at this
   * mesa and time, and every other ticket is as it was. With nothing waiting, nothing changes.
   */
  lemma AfterCallChangesOnlySelected(ts: seq<Ticket>, mesaNumber: int, now: int)
    requires UniqueIds(ts, TicketId)
    ensures NextIndex(ts).None? ==> AfterCall(ts, mesaNumber, now) == ts
    ensures NextIndex(ts).Some? ==>
      var k := NextIndex(ts).value;
      AfterCall(ts, mesaNumber, now) == ts[k := Called(ts[k], mesaNumber, now)]
  {
    NextIsBest(ts);
    if NextIndex(ts).Some? {
      var k := NextIndex(ts).value;
      ReplaceByUniqueId(ts, TicketId, k, Called(ts[k], mesaNumber, now));
    }
  }
}
