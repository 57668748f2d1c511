/**
 * The ticket and mesa store of services/mockDb.ts. The browser's localStorage holds two items,
 * `sga_tickets` and `sga_mesas`; an item that was never written (or was removed) reads as the
 * default: no tickets, the four configured mesas. Each operation is one atomic step; the
 * storage event that notifies other tabs is not modelled.
 */
module MockDb {
  import opened Wrappers
  import opened Types
  import opened Lists
  import opened Codes
  import opened Lifecycle
  import opened Dispatch

  /** The four fixed mesas, services/mockDb.ts:10-15. */
  const DefaultMesas: seq<Mesa> := [
    Mesa("m1", 1, "Atendente 1"),
    Mesa("m2", 2, "Atendente 2"),
    Mesa("m3", 3, "Atendente 3"),
    Mesa("m4", 4, "Atendente 4")
  ]

  /** How many stored tickets belong to the sector, whatever their status or priority. */
  function SectorCount(ts: seq<Ticket>, sectorId: string): (n: nat)
    ensures n <= |ts|
  {
    if ts == [] then 0
    else SectorCount(ts[..|ts| - 1], sectorId) + (if ts[|ts| - 1].sectorId == sectorId then 1 else 0)
  }

  /** The tickets of a sector. */
  predicate InSector(sectorId: string, t: Ticket) {
    t.sectorId == sectorId
  }

  /** SectorCount is the length of the `filter` on the sector id. */
  lemma {:induction false} SectorCountIsFilterLength(ts: seq<Ticket>, sectorId: string)
    ensures SectorCount(ts, sectorId) == |Filter(ts, t => InSector(sectorId, t))|
  {
    if ts != [] {
      var init, last := ts[..|ts| - 1], ts[|ts| - 1];
      assert ts == init + [last];
      FilterAppend(init, [last], t => InSector(sectorId, t));
      assert [last][1..] == [];
      SectorCountIsFilterLength(init, sectorId);
    }
  }

  /**
   * The record `generateTicket` builds: a GENERATED ticket with no call, finish or mesa, whose
   * code carries the sector's prefix, the marker of its priority and the number that follows
   * the sector's stored tickets.
   */
  function NewTicket(ts: seq<Ticket>, sectorId: string, priority: PriorityType, id: string, now: int): (t: Ticket)
    ensures t.id == id && t.sectorId == sectorId && t.priority == priority && t.createdAt == now
    ensures t.status == Generated && t.calledAt.None? && t.finishedAt.None? && t.mesaNumber.None?
    ensures t.code == CodeFor(PrefixFor(sectorId), priority, SectorCount(ts, sectorId))
    ensures ParseCode(t.code) == Some((PrefixFor(sectorId) + Marker(priority), SectorCount(ts, sectorId) + 1))
  {
    var code := CodeFor(PrefixFor(sectorId), priority, SectorCount(ts, sectorId));
    Ticket(id, code, priority, Generated, now, None, None, sectorId, None)
  }

  /** The two localStorage items of the store. */
  class MockService {
    var ticketsItem: Option<seq<Ticket>>
    var mesasItem: Option<seq<Mesa>>

    /** A browser whose storage holds neither item yet. */
    constructor ()
      ensures ticketsItem == None && mesasItem == None
      ensures GetTickets() == [] && GetMesas() == DefaultMesas
    {
      ticketsItem := None;
      mesasItem := None;
    }

    /** `getMesas`: the stored mesas, or the four defaults while none are stored. */
    function GetMesas(): (ms: seq<Mesa>)
      reads this
      ensures mesasItem == None ==> ms == DefaultMesas
      ensures mesasItem != None ==> ms == mesasItem.value
    {
      mesasItem.GetOr(DefaultMesas)
    }

    /** `getTickets`: the stored tickets, or none while nothing is stored. */
    function GetTickets(): (ts: seq<Ticket>)
      reads this
      ensures ticketsItem == None ==> ts == []
      ensures ticketsItem != None ==> ts == ticketsItem.value
    {
      ticketsItem.GetOr([])
    }

    /**
     * `updateMesa`: the record replaces the first mesa with its id and the list is stored; an
     * unknown id stores nothing.
     */
    method UpdateMesa(mesa: Mesa)
      modifies this
      ensures GetMesas() == ReplaceById(old(GetMesas()), MesaId, mesa)
      ensures IndexOfId(old(GetMesas()), MesaId, mesa.id) == None ==> mesasItem == old(mesasItem)
      ensures ticketsItem == old(ticketsItem)
    {
      var mesas := GetMesas();
      var index := IndexOfId(mesas, MesaId, mesa.id);
      if index.Some? {
        mesas := mesas[index.value := mesa];
        mesasItem := Some(mesas);
      }
    }

    /** `saveTicket`: the ticket is appended after every stored one. */
    method SaveTicket(ticket: Ticket)
      modifies this
      ensures GetTickets() == old(GetTickets()) + [ticket]
      ensures mesasItem == old(mesasItem)
    {
      var tickets := GetTickets();
      tickets := tickets + [ticket];
      ticketsItem := Some(tickets);
    }

    /**
     * `updateTicket`: the record replaces the first ticket with its id; an unknown id stores
     * nothing.
     */
    method UpdateTicket(updated: Ticket)
      modifies this
      ensures GetTickets() == ReplaceById(old(GetTickets()), TicketId, updated)
      ensures IndexOfId(old(GetTickets()), TicketId, updated.id) == None ==> ticketsItem == old(ticketsItem)
      ensures mesasItem == old(mesasItem)
    {
      var tickets := GetTickets();
      var index := IndexOfId(tickets, TicketId, updated.id);
      if index.Some? {
        tickets := tickets[index.value := updated];
        ticketsItem := Some(tickets);
      }
    }

    /** `resetDatabase`: the tickets item is removed; the mesas are kept. */
    method ResetDatabase()
      modifies this
      ensures ticketsItem == None && GetTickets() == []
      ensures mesasItem == old(mesasItem) && GetMesas() == old(GetMesas())
    {
      ticketsItem := None;
    }

    /**
     * `generateTicket`: builds the next ticket of the sector from the stored tickets, with the
     * caller's fresh id and the current time, and saves it.
     */
    method GenerateTicket(sectorId: string, priority: PriorityType, id: string, now: int) returns (ticket: Ticket)
      modifies this
      ensures ticket == NewTicket(old(GetTickets()), sectorId, priority, id, now)
      ensures GetTickets() == old(GetTickets()) + [ticket]
      ensures mesasItem == old(mesasItem)
    {
      var tickets := GetTickets();
      var prefix := PrefixFor(sectorId);
      var sectorCount := SectorCount(tickets, sectorId);
      var code := CodeFor(prefix, priority, sectorCount);
      ticket := Ticket(id, code, priority, Generated, now, None, None, sectorId, None);
      SaveTicket(ticket);
    }

    /**
     * `callNextTicket`: null, with nothing written, when no ticket is GENERATED; otherwise the
     * head of the waiting order, now CALLING at this mesa and time, written back by id.
     */
    method CallNextTicket(mesaNumber: int, now: int) returns (next: Option<Ticket>)
      modifies this
      ensures next == NextCall(old(GetTickets()), mesaNumber, now)
      ensures next == None <==> forall i :: 0 <= i < |old(GetTickets())| ==> old(GetTickets())[i].status != Generated
      ensures next == None ==> ticketsItem == old(ticketsItem)
      ensures GetTickets() == AfterCall(old(GetTickets()), mesaNumber, now)
      ensures mesasItem == old(mesasItem)
    {
      var tickets := GetTickets();
      var waiting := WaitingQueue(tickets);
      if waiting == [] {
        return None;
      }
      var nextTicket := Called(waiting[0], mesaNumber, now);
      UpdateTicket(nextTicket);
      next := Some(nextTicket);
    }
  }

  /** A fresh id keeps the store's ids unique across issuance. */
  lemma IssueKeepsUniqueIds(ts: seq<Ticket>, sectorId: string, priority: PriorityType, id: string, now: int)
    requires UniqueIds(ts, TicketId)
    requires forall i :: 0 <= i < |ts| ==> ts[i].id != id
    ensures UniqueIds(ts + [NewTicket(ts, sectorId, priority, id, now)], TicketId)
  {
    AppendKeepsUniqueIds(ts, TicketId, NewTicket(ts, sectorId, priority, id, now));
  }

  /** A freshly issued ticket carries none of the stamps of a call or a finish. */
  lemma NewTicketIsStamped(ts: seq<Ticket>, sectorId: string, priority: PriorityType, id: string, now: int)
    ensures Stamped(NewTicket(ts, sectorId, priority, id, now))
    ensures !NewTicket(ts, sectorId, priority, id, now).status.IsCalled()
  {
  }

  /** Issuance keeps every stored ticket stamped consistently with its status. */
  lemma IssueKeepsStamped(ts: seq<Ticket>, sectorId: string, priority: PriorityType, id: string, now: int)
    requires AllStamped(ts)
    ensures AllStamped(ts + [NewTicket(ts, sectorId, priority, id, now)])
  {
    NewTicketIsStamped(ts, sectorId, priority, id, now);
    AppendKeepsStamped(ts, NewTicket(ts, sectorId, priority, id, now));
  }
}
