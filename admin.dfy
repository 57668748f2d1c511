/**
 * The administrative dashboard, pages/AdminPage.tsx: the counters it shows over the stored
 * tickets and the rename of a mesa's attendant. The page compares statuses and priorities
 * against string literals; the lemmas here show those literals pick out the enum members.
 */
module Admin {
  import opened Wrappers
  import opened Types
  import opened Lists
  import opened MockDb

  /** `tickets.filter(t => t.status === tag).length`. */
  function CountStatusTag(ts: seq<Ticket>, tag: string): (n: nat)
    ensures n <= |ts|
  {
    if ts == [] then 0 else (if ts[0].status.Tag() == tag then 1 else 0) + CountStatusTag(ts[1..], tag)
  }

  /** `tickets.filter(t => t.priority === tag).length`. */
  function CountPriorityTag(ts: seq<Ticket>, tag: string): (n: nat)
    ensures n <= |ts|
  {
    if ts == [] then 0 else (if ts[0].priority.Tag() == tag then 1 else 0) + CountPriorityTag(ts[1..], tag)
  }

  /** How many tickets have the status (compared as an enum member). */
  function CountStatus(ts: seq<Ticket>, st: TicketStatus): nat {
    if ts == [] then 0 else (if ts[0].status == st then 1 else 0) + CountStatus(ts[1..], st)
  }

  /** How many tickets have the priority (compared as an enum member). */
  function CountPriority(ts: seq<Ticket>, p: PriorityType): nat {
    if ts == [] then 0 else (if ts[0].priority == p then 1 else 0) + CountPriority(ts[1..], p)
  }

  /** The dashboard figures, pages/AdminPage.tsx:33-40. */
  datatype Stats = Stats(total: nat, finished: nat, pending: nat, normal: nat, preferential: nat, elderly: nat)

  function ComputeStats(ts: seq<Ticket>): (r: Stats)
    ensures r.total == |ts|
    ensures r.finished + r.pending <= r.total
    ensures r.normal + r.preferential + r.elderly <= r.total
  {
    StatusTagCount(ts, Finished);
    StatusTagCount(ts, Generated);
    StatusCountsDisjoint(ts, Finished, Generated);
    PriorityTagCount(ts, Normal);
    PriorityTagCount(ts, Preferential);
    PriorityTagCount(ts, Elderly);
    PriorityCountsPartition(ts);
    Stats(|ts|,
          CountStatusTag(ts, "FINALIZADA"),
          CountStatusTag(ts, "GERADA"),
          CountPriorityTag(ts, "Normal"),
          CountPriorityTag(ts, "Preferencial"),
          CountPriorityTag(ts, "Idoso"))
  }

  /** Counting by a status's tag counts that status. */
  lemma {:induction false} StatusTagCount(ts: seq<Ticket>, st: TicketStatus)
    ensures CountStatusTag(ts, st.Tag()) == CountStatus(ts, st)
  {
    if ts != [] {
      StatusTagAgrees(ts[0].status, st);
      StatusTagCount(ts[1..], st);
    }
  }

  /** Counting by a priority's tag counts that priority. */
  lemma {:induction false} PriorityTagCount(ts: seq<Ticket>, p: PriorityType)
    ensures CountPriorityTag(ts, p.Tag()) == CountPriority(ts, p)
  {
    if ts != [] {
      PriorityTagAgrees(ts[0].priority, p);
      PriorityTagCount(ts[1..], p);
    }
  }

  /** Two different statuses are never counted for the same ticket. */
  lemma {:induction false} StatusCountsDisjoint(ts: seq<Ticket>, a: TicketStatus, b: TicketStatus)
    requires a != b
    ensures CountStatus(ts, a) + CountStatus(ts, b) <= |ts|
  {
    if ts != [] {
      StatusCountsDisjoint(ts[1..], a, b);
    }
  }

  /** Every ticket has exactly one of the five priorities. */
  lemma {:induction false} PriorityCountsPartition(ts: seq<Ticket>)
    ensures CountPriority(ts, Normal) + CountPriority(ts, Preferential) + CountPriority(ts, Elderly)
            + CountPriority(ts, Pcd) + CountPriority(ts, Pregnant) == |ts|
  {
    if ts != [] {
      PriorityCountsPartition(ts[1..]);
    }
  }

  /**
   * What the dashboard figures mean: `total` is the number of tickets, `finished` and
   * `pending` count FINISHED and GENERATED tickets and together never exceed the total, and the
   * three priority figures count NORMAL, PREFERENTIAL and ELDERLY tickets: PCD and PREGNANT
   * tickets appear in no priority figure, so the three sum to the total less those.
   */
  lemma StatsMeaning(ts: seq<Ticket>)
    ensures ComputeStats(ts).total == |ts|
    ensures ComputeStats(ts).finished == CountStatus(ts, Finished)
    ensures ComputeStats(ts).pending == CountStatus(ts, Generated)
    ensures ComputeStats(ts).finished + ComputeStats(ts).pending <= ComputeStats(ts).total
    ensures ComputeStats(ts).normal == CountPriority(ts, Normal)
    ensures ComputeStats(ts).preferential == CountPriority(ts, Preferential)
    ensures ComputeStats(ts).elderly == CountPriority(ts, Elderly)
    ensures ComputeStats(ts).normal + ComputeStats(ts).preferential + ComputeStats(ts).elderly
            == |ts| - CountPriority(ts, Pcd) - CountPriority(ts, Pregnant)
  {
    StatusTagCount(ts, Finished);
    StatusTagCount(ts, Generated);
    StatusCountsDisjoint(ts, Finished, Generated);
    PriorityTagCount(ts, Normal);
    PriorityTagCount(ts, Preferential);
    PriorityTagCount(ts, Elderly);
    PriorityCountsPartition(ts);
  }

  /** `{ ...mesa, attendantName: newName }`: the same mesa under a new attendant. */
  function RenamedMesa(mesa: Mesa, newName: string): (r: Mesa)
    ensures r.id == mesa.id && r.number == mesa.number && r.attendantName == newName
  {
    mesa.(attendantName := newName)
  }

  /**
   * `handleUpdateMesa`: the renamed record goes through `updateMesa` and the page reloads the
   * mesas. When the page's copy is the stored one, only that mesa's attendant name changes.
   */
  method HandleUpdateMesa(db: MockService, mesa: Mesa, newName: string) returns (mesas: seq<Mesa>)
    modifies db
    ensures db.GetMesas() == ReplaceById(old(db.GetMesas()), MesaId, RenamedMesa(mesa, newName))
    ensures mesas == db.GetMesas()
    ensures db.ticketsItem == old(db.ticketsItem)
    ensures forall k :: (0 <= k < |mesas| && IndexOfId(old(db.GetMesas()), MesaId, mesa.id) == Some(k)
                         && old(db.GetMesas())[k] == mesa) ==>
              mesas[k] == old(db.GetMesas())[k].(attendantName := newName)
  {
    var updated := RenamedMesa(mesa, newName);
    db.UpdateMesa(updated);
    mesas := db.GetMesas();
  }
}
