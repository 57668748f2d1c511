/**
 * The public panel, pages/TVPanelPage.tsx `fetchData`: every ticket that has been called
 * (CALLING, IN_SERVICE or FINISHED) sorted by call time, latest first; the latest is shown as
 * the current call and announced when it differs from the one shown before, and the next five
 * form the history.
 */
module TVPanel {
  import opened Wrappers
  import opened Types
  import opened Lists
  import opened Sorting
  import opened Lifecycle
  import opened MockDb
  import opened Attendant

  /** The filter of `fetchData`. */
  predicate IsShown(t: Ticket) {
    t.status.IsCalled()
  }

  /**
   * The comparator `calledAt(b) - calledAt(a)`: later calls first. The source asserts that
   * every shown ticket has a call time (`calledAt!`); the engine never stores one without it.
   */
  function CallKey(t: Ticket): (int, int) {
    (-t.calledAt.GetOr(0), 0)
  }

  /** The comparator of pages/TVPanelPage.tsx:53, on call times in milliseconds. */
  function CallCompare(a: Ticket, b: Ticket): int
    requires a.calledAt.Some? && b.calledAt.Some?
  {
    b.calledAt.value - a.calledAt.value
  }

  /** On tickets that carry a call time, sorting by CallKey is sorting by that comparator. */
  lemma CallKeyIsComparator(a: Ticket, b: Ticket)
    requires a.calledAt.Some? && b.calledAt.Some?
    ensures Before(CallKey(a), CallKey(b)) <==> CallCompare(a, b) < 0
    ensures CallKey(a) == CallKey(b) <==> CallCompare(a, b) == 0
  {
  }

  /** Every shown ticket carries a call time. */
  ghost predicate CallStamped(ts: seq<Ticket>) {
    forall i :: 0 <= i < |ts| && ts[i].status.IsCalled() ==> ts[i].calledAt.Some?
  }

  /** The called list: exactly the shown tickets, call times non-increasing. */
  function CalledTickets(ts: seq<Ticket>): (r: seq<Ticket>)
    ensures multiset(r) == multiset(Filter(ts, IsShown))
    ensures forall i :: 0 <= i < |r| ==> r[i].status.IsCalled()
    ensures forall i, j :: 0 <= i < j < |r| ==> r[j].calledAt.GetOr(0) <= r[i].calledAt.GetOr(0)
  {
    var r := SortBy(Filter(ts, IsShown), CallKey);
    forall i | 0 <= i < |r| ensures r[i].status.IsCalled() {
      assert r[i] in multiset(Filter(ts, IsShown));
    }
    forall i, j | 0 <= i < j < |r| ensures r[j].calledAt.GetOr(0) <= r[i].calledAt.GetOr(0) {
      assert !Before(CallKey(r[j]), CallKey(r[i]));
    }
    r
  }

  /**
   * The current call is the head of the called list: empty exactly when nothing was called,
   * otherwise a stored, called ticket whose call time no called ticket exceeds.
   */
  lemma CurrentIsLatest(ts: seq<Ticket>)
    requires CallStamped(ts)
    ensures CalledTickets(ts) == [] <==> forall i :: 0 <= i < |ts| ==> !ts[i].status.IsCalled()
    ensures CalledTickets(ts) != [] ==>
      var m := FirstMin(ts, IsShown, CallKey);
      && m.Some? && CalledTickets(ts)[0] == ts[m.value]
      && forall i :: 0 <= i < |ts| && ts[i].status.IsCalled() ==>
           ts[i].calledAt.value <= CalledTickets(ts)[0].calledAt.value
  {
    FilterEmpty(ts, IsShown);
    var m := FirstMin(ts, IsShown, CallKey);
    if m.Some? {
      HeadOfSortedFilter(ts, IsShown, CallKey);
      forall i | 0 <= i < |ts| && ts[i].status.IsCalled()
        ensures ts[i].calledAt.value <= CalledTickets(ts)[0].calledAt.value
      {
        assert IsShown(ts[i]);
      }
    } else {
      assert Filter(ts, IsShown) == [];
    }
  }

  /**
   * The whole called list, not only its head: the ticket with the latest call (the earliest
   * stored one on a tie), followed by the called list of the other tickets. Tickets called at
   * the same time therefore keep their store order.
   */
  lemma CalledTicketsTakesLatest(ts: seq<Ticket>)
    ensures FirstMin(ts, IsShown, CallKey).None? ==> CalledTickets(ts) == []
    ensures FirstMin(ts, IsShown, CallKey).Some? ==>
              var m := FirstMin(ts, IsShown, CallKey).value;
              CalledTickets(ts) == [ts[m]] + CalledTickets(ts[..m] + ts[m + 1..])
  {
    FilterEmpty(ts, IsShown);
    if FirstMin(ts, IsShown, CallKey).Some? {
      SortedFilterTakesFirstMin(ts, IsShown, CallKey);
    }
  }

  /** `current` is `shown` with at most its status, mesa or finish time changed. */
  predicate ReshownCall(shown: Ticket, current: Ticket) {
    current == shown.(status := current.status, mesaNumber := current.mesaNumber, finishedAt := current.finishedAt)
  }

  /**
   * The announcement test: nothing shown before, another ticket, or a new call time. Showing the
   * same call again is never new, while any later change of status or mesa is ignored; a new
   * call time always is.
   */
  predicate IsNewCall(prev: Option<Ticket>, current: Ticket): (r: bool)
    ensures prev.None? ==> r
    ensures prev == Some(current) ==> !r
    ensures prev.Some? && prev.value.calledAt != current.calledAt ==> r
    ensures prev.Some? && ReshownCall(prev.value, current) ==> !r
  {
    prev.None? || prev.value.id != current.id || prev.value.calledAt != current.calledAt
  }

  /** `calledTickets.slice(1, 6)`: the five calls after the current one, or fewer. */
  function History(called: seq<Ticket>): (h: seq<Ticket>)
    ensures |h| <= 5
    ensures |called| <= 1 ==> h == []
    ensures |called| >= 1 ==> |h| == if |called| >= 6 then 5 else |called| - 1
    ensures forall i :: 0 <= i < |h| ==> h[i] == called[i + 1]
  {
    if |called| <= 1 then [] else called[1..if |called| >= 6 then 6 else |called|]
  }

  /**
   * With unique ids the history never repeats the current call, and every entry in it was
   * called no later than the current one.
   */
  lemma HistoryExcludesCurrent(ts: seq<Ticket>)
    requires UniqueIds(ts, TicketId)
    requires CalledTickets(ts) != []
    ensures CalledTickets(ts)[0] !in History(CalledTickets(ts))
    ensures forall i :: 0 <= i < |History(CalledTickets(ts))| ==>
              History(CalledTickets(ts))[i].calledAt.GetOr(0) <= CalledTickets(ts)[0].calledAt.GetOr(0)
  {
    var called := CalledTickets(ts);
    UniqueIdsNoRepeats(ts, TicketId, called[0]);
    assert multiset(called)[called[0]] <= 1;
    HeadNotRepeated(called);
  }

  /** A head that occurs once is not in the tail. */
  lemma HeadNotRepeated(s: seq<Ticket>)
    requires s != [] && multiset(s)[s[0]] <= 1
    ensures s[0] !in s[1..]
  {
    assert s == [s[0]] + s[1..];
  }

  /**
   * A recall is announced. When the active ticket of mesa `n` is recalled at a time later than
   * every stored call, it becomes the panel's current call, and a panel that was showing that
   * very ticket sees a new call (same id, new call time).
   */
  lemma RecallIsAnnounced(ts: seq<Ticket>, n: int, now: int)
    requires UniqueIds(ts, TicketId) && CallStamped(ts)
    requires ActiveTicket(ts, n).Some?
    requires forall i :: 0 <= i < |ts| && ts[i].calledAt.Some? ==> ts[i].calledAt.value < now
    ensures
      var t := ActiveTicket(ts, n).value;
      var called := CalledTickets(ReplaceById(ts, TicketId, Recalled(t, now)));
      called != [] && called[0] == Recalled(t, now) && IsNewCall(Some(t), called[0])
  {
    var k := ActiveIndex(ts, n).value;
    var r := Recalled(ts[k], now);
    ReplaceByUniqueId(ts, TicketId, k, r);
    var us := ts[k := r];
    assert CallStamped(us);
    assert us[k].status.IsCalled();
    CurrentIsLatest(us);
    var m := FirstMin(us, IsShown, CallKey).value;
    assert now <= us[m].calledAt.value;
  }

  /** The panel's state: the call on display and the history under it. */
  class Panel {
    var lastCalled: Option<Ticket>
    var history: seq<Ticket>

    constructor ()
      ensures lastCalled == None && history == []
    {
      lastCalled := None;
      history := [];
    }

    /**
     * One poll of `fetchData`. With nothing called the panel is left as it was. Otherwise the
     * latest call replaces the one on display, and the audio is played, exactly when it is a
     * new call; the history becomes the next five calls.
     */
    method FetchData(db: MockService) returns (playAudio: bool)
      modifies this
      ensures CalledTickets(db.GetTickets()) == [] ==>
                !playAudio && lastCalled == old(lastCalled) && history == old(history)
      ensures CalledTickets(db.GetTickets()) != [] ==>
                var current := CalledTickets(db.GetTickets())[0];
                && playAudio == IsNewCall(old(lastCalled), current)
                && lastCalled == (if playAudio then Some(current) else old(lastCalled))
                && history == History(CalledTickets(db.GetTickets()))
      ensures CalledTickets(db.GetTickets()) != [] ==>
                lastCalled.Some? && !IsNewCall(lastCalled, CalledTickets(db.GetTickets())[0])
    {
      var allTickets := db.GetTickets();
      var calledTickets := CalledTickets(allTickets);
      playAudio := false;
      if |calledTickets| > 0 {
        var current := calledTickets[0];
        var isNewCall := lastCalled.None? || lastCalled.value.id != current.id ||
                         lastCalled.value.calledAt != current.calledAt;
        if isNewCall {
          playAudio := true;
          lastCalled := Some(current);
        }
        history := History(calledTickets);
      }
    }
  }

  /** A store whose tickets are stamped consistently gives every shown ticket a call time. */
  lemma StampedIsCallStamped(ts: seq<Ticket>)
    requires AllStamped(ts)
    ensures CallStamped(ts)
  {
    forall i | 0 <= i < |ts| && ts[i].status.IsCalled() ensures ts[i].calledAt.Some? {
      assert Stamped(ts[i]);
    }
  }
}
