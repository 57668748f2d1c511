/**
 * The records of the queue engine (types.ts): ticket status and priority enumerations with the
 * string tags they carry at run time, and the Ticket, Sector and Mesa (service counter) records.
 * Timestamps, which the source keeps as ISO-8601 strings written by `toISOString()`, are integers
 * (milliseconds). The source compares them through `getTime()` and, on the TV panel, as strings
 * with `!==`; two such strings are equal exactly when their instants are, so both comparisons
 * are comparisons of the integers.
 */
module Types {
  import opened Wrappers

  /** TicketStatus, types.ts:1-7. CANCELED is declared but nothing in the core assigns it. */
  datatype TicketStatus = Generated | Calling | InService | Finished | Canceled {

    /** The string value of each enum member; pages compare statuses against these literals. */
    function Tag(): (s: string)
      ensures StatusOfTag(s) == Some(this)
    {
      match this
      case Generated => "GERADA"
      case Calling => "CHAMANDO"
      case InService => "EM_ATENDIMENTO"
      case Finished => "FINALIZADA"
      case Canceled => "CANCELADA"
    }

    /** A ticket assigned to a mesa and not yet finished: the attendant's "current" ticket. */
    predicate IsActive() {
      this == Calling || this == InService
    }

    /** A ticket that has been called at least once: what the TV panel shows. */
    predicate IsCalled() {
      this == Calling || this == InService || this == Finished
    }
  }

  /** Reads a status tag back; None for any string that is not one of the five tags. */
  function StatusOfTag(s: string): Option<TicketStatus>
  {
    if s == "GERADA" then Some(Generated)
    else if s == "CHAMANDO" then Some(Calling)
    else if s == "EM_ATENDIMENTO" then Some(InService)
    else if s == "FINALIZADA" then Some(Finished)
    else if s == "CANCELADA" then Some(Canceled)
    else None
  }

  /** PriorityType, types.ts:9-15. */
  datatype PriorityType = Normal | Preferential | Elderly | Pcd | Pregnant {

    function Tag(): (s: string)
      ensures PriorityOfTag(s) == Some(this)
    {
      match this
      case Normal => "Normal"
      case Preferential => "Preferencial"
      case Elderly => "Idoso"
      case Pcd => "PCD"
      case Pregnant => "Gestante"
    }

    /** The only distinction the ordering rules make: every class but NORMAL is preferential. */
    predicate IsPreferential() {
      this != Normal
    }
  }

  function PriorityOfTag(s: string): Option<PriorityType>
  {
    if s == "Normal" then Some(Normal)
    else if s == "Preferencial" then Some(Preferential)
    else if s == "Idoso" then Some(Elderly)
    else if s == "PCD" then Some(Pcd)
    else if s == "Gestante" then Some(Pregnant)
    else None
  }

  /**
   * Ticket, types.ts:17-27. `calledAt`, `finishedAt` and `mesaNumber` are optional; the ticket
   * names its mesa by the mesa's `number`, not by its `id`.
   */
  datatype Ticket = Ticket(
    id: string,
    code: string,
    priority: PriorityType,
    status: TicketStatus,
    createdAt: int,
    calledAt: Option<int>,
    finishedAt: Option<int>,
    sectorId: string,
    mesaNumber: Option<int>)

  /** Sector, types.ts:29-33: a service type with its own code prefix and numbering stream. */
  datatype Sector = Sector(id: string, name: string, codePrefix: string)

  /** Mesa, types.ts:35-39: a service counter. */
  datatype Mesa = Mesa(id: string, number: int, attendantName: string)

  /** The key `findIndex(x => x.id === id)` looks at, for each record type. */
  function TicketId(t: Ticket): string { t.id }
  function MesaId(m: Mesa): string { m.id }
  function SectorId(s: Sector): string { s.id }

  /**
   * A tag comparison agrees with an enum comparison: the pages that test
   * `t.status === 'FINALIZADA'` or `t.priority !== 'Normal'` select the same tickets as the
   * enum tests.
   */
  lemma StatusTagAgrees(a: TicketStatus, b: TicketStatus)
    ensures a.Tag() == b.Tag() <==> a == b
  {
    if a.Tag() == b.Tag() {
      assert StatusOfTag(a.Tag()) == StatusOfTag(b.Tag());
    }
  }

  lemma PriorityTagAgrees(a: PriorityType, b: PriorityType)
    ensures a.Tag() == b.Tag() <==> a == b
  {
    if a.Tag() == b.Tag() {
      assert PriorityOfTag(a.Tag()) == PriorityOfTag(b.Tag());
    }
  }

  /** Reading a tag back and writing it out again gives the same string. */
  lemma StatusTagRoundTrip(s: string)
    ensures StatusOfTag(s).Some? ==> StatusOfTag(s).value.Tag() == s
  {
  }

  lemma PriorityTagRoundTrip(s: string)
    ensures PriorityOfTag(s).Some? ==> PriorityOfTag(s).value.Tag() == s
  {
  }
}
