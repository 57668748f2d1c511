/**
 * The ticket lifecycle as the core writes it: the record changes made by `callNextTicket`
 * (services/mockDb.ts:115-117) and by the attendant's `recall`, `startService` and
 * `finishService` (pages/AttendantPage.tsx:64-84), and which of those the attendant console
 * offers for the ticket on display (pages/AttendantPage.tsx:136-166).
 */
module Lifecycle {
  import opened Wrappers
  import opened Types
  import opened Lists

  /** `callNextTicket`: the chosen ticket is being called to `mesaNumber` at `now`. */
  function Called(t: Ticket, mesaNumber: int, now: int): (r: Ticket)
    ensures r.status == Calling && r.calledAt == Some(now) && r.mesaNumber == Some(mesaNumber)
    ensures r.(status := t.status, calledAt := t.calledAt, mesaNumber := t.mesaNumber) == t
  {
    t.(status := Calling, calledAt := Some(now), mesaNumber := Some(mesaNumber))
  }

  /** `recall`: only the call time moves. */
  function Recalled(t: Ticket, now: int): (r: Ticket)
    ensures r.calledAt == Some(now)
    ensures r.(calledAt := t.calledAt) == t
  {
    t.(calledAt := Some(now))
  }

  /** `startService`: only the status moves, to IN_SERVICE; no time is stamped. */
  function Started(t: Ticket): (r: Ticket)
    ensures r.status == InService
    ensures r.(status := t.status) == t
  {
    t.(status := InService)
  }

  /** `finishService`: the status becomes FINISHED and the finish time is stamped. */
  function FinishedAt(t: Ticket, now: int): (r: Ticket)
    ensures r.status == Finished && r.finishedAt == Some(now)
    ensures r.(status := t.status, finishedAt := t.finishedAt) == t
  {
    t.(status := Finished, finishedAt := Some(now))
  }

  /**
   * The optional fields agree with the status: a ticket carries a call time and a mesa exactly
   * when it has been called, and a finish time exactly when it is finished.
   */
  ghost predicate Stamped(t: Ticket) {
    && (t.status.IsCalled() <==> t.calledAt.Some?)
    && (t.status.IsCalled() <==> t.mesaNumber.Some?)
    && (t.status == Finished <==> t.finishedAt.Some?)
  }

  /** Every stored ticket is stamped consistently with its status. */
  ghost predicate AllStamped(ts: seq<Ticket>) {
    forall i :: 0 <= i < |ts| ==> Stamped(ts[i])
  }

  /** Writing back a consistently stamped record keeps the whole store stamped. */
  lemma WriteBackKeepsStamped(ts: seq<Ticket>, t: Ticket)
    requires AllStamped(ts) && Stamped(t)
    ensures AllStamped(ReplaceById(ts, TicketId, t))
  {
  }

  /** Appending a consistently stamped record keeps the whole store stamped. */
  lemma AppendKeepsStamped(ts: seq<Ticket>, t: Ticket)
    requires AllStamped(ts) && Stamped(t)
    ensures AllStamped(ts + [t])
  {
    var us := ts + [t];
    forall i | 0 <= i < |us| ensures Stamped(us[i]) {
      if i < |ts| {
        assert us[i] == ts[i];
      }
    }
  }

  /** The moves the lifecycle allows: issued to calling, calling to in service, in service to finished, and staying put while active. */
  predicate Step(from: TicketStatus, to: TicketStatus) {
    || (from == Generated && to == Calling)
    || (from == Calling && to == InService)
    || (from == InService && to == Finished)
    || (from.IsActive() && to == from)
  }

  /** What the console lets the attendant do: the buttons of pages/AttendantPage.tsx:136-166. */
  datatype Action = CallNextAction | RecallAction | StartAction | FinishAction

  /**
   * With no current ticket only "call next" is on screen; with one, "recall" and either
   * "start" (while it is CALLING) or "finish" (otherwise).
   */
  predicate Offered(current: Option<Ticket>, a: Action) {
    match current
    case None => a == CallNextAction
    case Some(t) =>
      a == RecallAction || (a == StartAction && t.status == Calling) || (a == FinishAction && t.status != Calling)
  }

  /** The record an offered lifecycle action writes back for the current ticket. */
  function Apply(a: Action, t: Ticket, now: int): Ticket {
    match a
    case RecallAction => Recalled(t, now)
    case StartAction => Started(t)
    case FinishAction => FinishedAt(t, now)
    case CallNextAction => t
  }

  /** Calling a waiting ticket is a lifecycle step and stamps it consistently. */
  lemma CallIsStep(t: Ticket, mesaNumber: int, now: int)
    requires t.status == Generated && Stamped(t)
    ensures Step(t.status, Called(t, mesaNumber, now).status)
    ensures Stamped(Called(t, mesaNumber, now))
  {
  }

  /**
   * Every action the console offers on an active ticket is a lifecycle step, and keeps the
   * record stamped: statuses only move forward along issued, calling, in service, finished.
   */
  lemma OfferedActionIsStep(t: Ticket, a: Action, now: int)
    requires t.status.IsActive() && Stamped(t)
    requires Offered(Some(t), a) && a != CallNextAction
    ensures Step(t.status, Apply(a, t, now).status)
    ensures Stamped(Apply(a, t, now))
    ensures Apply(a, t, now).id == t.id && Apply(a, t, now).code == t.code
    ensures Apply(a, t, now).mesaNumber == t.mesaNumber
  {
  }

  /**
   * The console's buttons: "call next" exactly when there is no current ticket; with one,
   * "recall" always and exactly one of "start" and "finish".
   */
  lemma OfferedButtons(current: Option<Ticket>)
    ensures Offered(current, CallNextAction) <==> current.None?
    ensures current.Some? ==> Offered(current, RecallAction)
    ensures current.Some? ==> (Offered(current, StartAction) <==> !Offered(current, FinishAction))
    ensures current.None? ==> !Offered(current, StartAction) && !Offered(current, FinishAction)
  {
  }
}
