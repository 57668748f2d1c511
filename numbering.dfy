/**
 * Code numbering across issuance (services/mockDb.ts:75-93). Every stored ticket's code is the
 * code of its sector and priority for the number of tickets of the same sector stored before
 * it, so it reads back as one more than that number. Issuance keeps this, lifecycle updates keep it (they never
 * touch code, sector or priority), and reset restarts it from the empty list; within a sector
 * the numbers therefore grow strictly with store position and no code repeats.
 */
module Numbering {
  import opened Wrappers
  import opened Types
  import opened Lists
  import opened Codes
  import opened MockDb
  import opened Attendant
  import opened Dispatch
  import opened Lifecycle

  /** The number the code of `t` carries when read back. */
  function CodeNumber(t: Ticket): Option<nat> {
    match ParseCode(t.code)
    case None => None
    case Some(p) => Some(p.1)
  }

  /** `t` carries the code issuance gives it when `before` are the tickets stored ahead of it. */
  ghost predicate NumberedAfter(before: seq<Ticket>, t: Ticket) {
    t.code == CodeFor(PrefixFor(t.sectorId), t.priority, SectorCount(before, t.sectorId))
  }

  /** Every stored ticket carries the code issuance gives it at its position. */
  ghost predicate Numbered(ts: seq<Ticket>) {
    forall i :: 0 <= i < |ts| ==> NumberedAfter(ts[..i], ts[i])
  }

  /** Issuing a ticket keeps every stored ticket numbered and numbers the new one. */
  lemma IssueKeepsNumbered(ts: seq<Ticket>, sectorId: string, priority: PriorityType, id: string, now: int)
    requires Numbered(ts)
    ensures Numbered(ts + [NewTicket(ts, sectorId, priority, id, now)])
  {
    AppendKeepsNumbered(ts, NewTicket(ts, sectorId, priority, id, now));
  }

  /** Appending a ticket that carries the code of its sector's count keeps the store numbered. */
  lemma AppendKeepsNumbered(ts: seq<Ticket>, t: Ticket)
    requires Numbered(ts)
    requires t.code == CodeFor(PrefixFor(t.sectorId), t.priority, SectorCount(ts, t.sectorId))
    ensures Numbered(ts + [t])
  {
    forall i | 0 <= i < |ts| + 1 ensures NumberedAfter((ts + [t])[..i], (ts + [t])[i]) {
      AppendPrefix(ts, t, i);
    }
  }

  /** The prefixes of `ts + [t]` up to `|ts|` are those of `ts`, and the last one is `ts`. */
  lemma AppendPrefix(ts: seq<Ticket>, t: Ticket, i: nat)
    requires i <= |ts|
    ensures i < |ts| ==> (ts + [t])[..i] == ts[..i] && (ts + [t])[i] == ts[i]
    ensures i == |ts| ==> (ts + [t])[..i] == ts && (ts + [t])[i] == t
  {
  }

  /** Counting a sector looks only at the sector ids. */
  lemma {:induction false} SectorCountBySectors(a: seq<Ticket>, b: seq<Ticket>, sectorId: string)
    requires |a| == |b|
    requires forall i :: 0 <= i < |a| ==> a[i].sectorId == b[i].sectorId
    ensures SectorCount(a, sectorId) == SectorCount(b, sectorId)
  {
    if a != [] {
      SectorCountBySectors(a[..|a| - 1], b[..|b| - 1], sectorId);
    }
  }

  /** Overwriting one position with a record of the same code, sector and priority keeps the numbering. */
  lemma {:induction false} OverwriteKeepsNumbered(ts: seq<Ticket>, k: nat, t: Ticket)
    requires Numbered(ts) && k < |ts|
    requires t.code == ts[k].code && t.sectorId == ts[k].sectorId && t.priority == ts[k].priority
    ensures Numbered(ts[k := t])
  {
    var us := ts[k := t];
    forall i | 0 <= i < |us| ensures NumberedAfter(us[..i], us[i]) {
      OverwriteKeepsNumberedAt(ts, k, t, i);
    }
  }

  /** The step of OverwriteKeepsNumbered at one position `i`. */
  lemma OverwriteKeepsNumberedAt(ts: seq<Ticket>, k: nat, t: Ticket, i: nat)
    requires k < |ts| && i < |ts| && NumberedAfter(ts[..i], ts[i])
    requires t.code == ts[k].code && t.sectorId == ts[k].sectorId && t.priority == ts[k].priority
    ensures NumberedAfter(ts[k := t][..i], ts[k := t][i])
  {
    var us := ts[k := t];
    OverwriteSectorCount(ts, k, t, i);
    NumberedAfterByFields(ts[..i], us[..i], ts[i], us[i]);
  }

  /** Overwriting a record with one of the same sector leaves every prefix's sector count alone. */
  lemma OverwriteSectorCount(ts: seq<Ticket>, k: nat, t: Ticket, i: nat)
    requires k < |ts| && i < |ts| && t.sectorId == ts[k].sectorId
    ensures SectorCount(ts[k := t][..i], ts[i].sectorId) == SectorCount(ts[..i], ts[i].sectorId)
  {
    var a, b := ts[k := t][..i], ts[..i];
    forall j | 0 <= j < |a| ensures a[j].sectorId == b[j].sectorId {
      if j == k {
        assert a[j] == t && b[j] == ts[k];
      } else {
        assert a[j] == b[j];
      }
    }
    SectorCountBySectors(a, b, ts[i].sectorId);
  }

  /** Numbering depends only on the code, sector and priority, and on the sector's count before. */
  lemma NumberedAfterByFields(a: seq<Ticket>, b: seq<Ticket>, x: Ticket, y: Ticket)
    requires x.code == y.code && x.sectorId == y.sectorId && x.priority == y.priority
    requires SectorCount(a, x.sectorId) == SectorCount(b, y.sectorId)
    ensures NumberedAfter(a, x) ==> NumberedAfter(b, y)
  {
  }

  /** `updateTicket` with a record that keeps the code, sector and priority keeps the numbering. */
  lemma UpdateKeepsNumbered(ts: seq<Ticket>, t: Ticket)
    requires Numbered(ts)
    requires forall i :: 0 <= i < |ts| && ts[i].id == t.id ==>
               t.code == ts[i].code && t.sectorId == ts[i].sectorId && t.priority == ts[i].priority
    ensures Numbered(ReplaceById(ts, TicketId, t))
  {
    match IndexOfId(ts, TicketId, t.id)
    case None =>
    case Some(k) => OverwriteKeepsNumbered(ts, k, t);
  }

  /** A longer prefix never holds fewer tickets of a sector, and one more when it adds one. */
  lemma {:induction false} SectorCountGrows(ts: seq<Ticket>, i: nat, j: nat)
    requires i < j <= |ts|
    ensures SectorCount(ts[..j], ts[i].sectorId) >= SectorCount(ts[..i], ts[i].sectorId) + 1
  {
    var sid := ts[i].sectorId;
    assert ts[..j][..j - 1] == ts[..j - 1];
    if j == i + 1 {
      assert ts[..j][j - 1] == ts[i];
    } else {
      SectorCountGrows(ts, i, j - 1);
    }
  }

  /**
   * Within one sector the numbers of a numbered store strictly increase with store position,
   * so no two tickets of a sector share a code.
   */
  lemma NumbersIncreaseInSector(ts: seq<Ticket>, i: nat, j: nat)
    requires Numbered(ts) && i < j < |ts| && ts[i].sectorId == ts[j].sectorId
    ensures CodeNumber(ts[i]).Some? && CodeNumber(ts[j]).Some?
    ensures CodeNumber(ts[i]).value < CodeNumber(ts[j]).value
    ensures ts[i].code != ts[j].code
  {
    assert NumberedAfter(ts[..i], ts[i]) && NumberedAfter(ts[..j], ts[j]);
    SectorCountGrows(ts, i, j);
  }

  /** The first ticket of a sector after a reset (or on a fresh store) is number 1. */
  lemma FirstAfterResetIsOne(sectorId: string, priority: PriorityType, id: string, now: int)
    ensures CodeNumber(NewTicket([], sectorId, priority, id, now)) == Some(1)
    ensures Numbered([NewTicket([], sectorId, priority, id, now)])
  {
    IssueKeepsNumbered([], sectorId, priority, id, now);
    assert [] + [NewTicket([], sectorId, priority, id, now)] == [NewTicket([], sectorId, priority, id, now)];
  }

  /** Calling the next ticket keeps the numbering: the call changes no code, sector or priority. */
  lemma CallKeepsNumbered(ts: seq<Ticket>, mesaNumber: int, now: int)
    requires UniqueIds(ts, TicketId) && Numbered(ts)
    ensures Numbered(AfterCall(ts, mesaNumber, now))
  {
    AfterCallChangesOnlySelected(ts, mesaNumber, now);
    if NextIndex(ts).Some? {
      var k := NextIndex(ts).value;
      OverwriteKeepsNumbered(ts, k, Called(ts[k], mesaNumber, now));
    }
  }

  /** Recall, start and finish on the current ticket of mesa `n` keep the numbering. */
  lemma ActionKeepsNumbered(ts: seq<Ticket>, n: int, a: Action, now: int)
    requires UniqueIds(ts, TicketId) && Numbered(ts) && ActiveTicket(ts, n).Some?
    ensures Numbered(ReplaceById(ts, TicketId, Apply(a, ActiveTicket(ts, n).value, now)))
  {
    var k := ActiveIndex(ts, n).value;
    var t := Apply(a, ts[k], now);
    ReplaceByUniqueId(ts, TicketId, k, t);
    OverwriteKeepsNumbered(ts, k, t);
  }
}
