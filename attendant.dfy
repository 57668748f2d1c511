/**
 * The attendant console, pages/AttendantPage.tsx. The component keeps the mesas it loaded, the
 * id of its own mesa, the ticket it shows as current and the waiting list; `refreshQueue`
 * recomputes the last two from the store, and the buttons call the store. The store is the
 * shared MockService; the console reads and writes it only through its operations.
 */
module Attendant {
  import opened Wrappers
  import opened Types
  import opened Lists
  import opened Sorting
  import opened Lifecycle
  import opened Dispatch
  import opened MockDb

  /** Assigned to mesa `n` and CALLING or IN_SERVICE. */
  predicate ActiveAt(t: Ticket, n: int) {
    t.mesaNumber == Some(n) && t.status.IsActive()
  }

  /** The position of the first ticket active at mesa `n`. */
  function ActiveIndex(ts: seq<Ticket>, n: int): (r: Option<nat>)
    ensures r.None? <==> forall i :: 0 <= i < |ts| ==> !ActiveAt(ts[i], n)
    ensures r.Some? ==> r.value < |ts| && ActiveAt(ts[r.value], n)
    ensures r.Some? ==> forall i :: 0 <= i < r.value ==> !ActiveAt(ts[i], n)
  {
    if ts == [] then None
    else if ActiveAt(ts[0], n) then Some(0)
    else
      match ActiveIndex(ts[1..], n)
      case None => None
      case Some(k) => Some(k + 1)
  }

  /** `all.find(...)` of `refreshQueue`: the mesa's current ticket, or none when the mesa is free. */
  function ActiveTicket(ts: seq<Ticket>, n: int): (r: Option<Ticket>)
    ensures r.None? <==> forall i :: 0 <= i < |ts| ==> !ActiveAt(ts[i], n)
    ensures r.Some? ==> r.value in ts && ActiveAt(r.value, n)
    ensures r.Some? ==> exists k :: 0 <= k < |ts| && ts[k] == r.value && forall i :: 0 <= i < k ==> !ActiveAt(ts[i], n)
  {
    match ActiveIndex(ts, n)
    case None => None
    case Some(k) => Some(ts[k])
  }

  /** No mesa has two tickets that are CALLING or IN_SERVICE at once. */
  ghost predicate AtMostOneActive(ts: seq<Ticket>) {
    forall i, j :: 0 <= i < j < |ts| && ts[i].status.IsActive() && ts[j].status.IsActive() && ts[i].mesaNumber.Some? ==>
      ts[i].mesaNumber != ts[j].mesaNumber
  }

  /** The comparator of `refreshQueue`, written with the literal 'Normal'. */
  function ConsoleKey(t: Ticket): (r: (int, int))
    ensures r == WaitKey(t)
  {
    PriorityTagAgrees(t.priority, Normal);
    (if t.priority.Tag() != "Normal" then 0 else 1, t.createdAt)
  }

  /** The waiting list the console shows. */
  function ConsoleQueue(ts: seq<Ticket>): (r: seq<Ticket>)
    ensures r == WaitingQueue(ts)
  {
    SortSameKeys(Filter(ts, IsWaiting));
    SortBy(Filter(ts, IsWaiting), ConsoleKey)
  }

  /** Inserting by two keys that agree everywhere gives the same result. */
  lemma {:induction false} InsertSameKeys(x: Ticket, s: seq<Ticket>)
    ensures Insert(x, s, ConsoleKey) == Insert(x, s, WaitKey)
  {
    PriorityTagAgrees(x.priority, Normal);
    if s != [] {
      PriorityTagAgrees(s[0].priority, Normal);
      InsertSameKeys(x, s[1..]);
    }
  }

  lemma {:induction false} SortSameKeys(s: seq<Ticket>)
    ensures SortBy(s, ConsoleKey) == SortBy(s, WaitKey)
  {
    if s != [] {
      SortSameKeys(s[1..]);
      InsertSameKeys(s[0], SortBy(s[1..], WaitKey));
    }
  }

  /**
   * The console's waiting list is the dispatcher's waiting order: the literal 'Normal' test
   * agrees with the enum test, so the list is the same and its head is the ticket
   * `callNextTicket` would call.
   */
  lemma ConsoleQueueIsDispatchOrder(ts: seq<Ticket>)
    ensures ConsoleQueue(ts) == WaitingQueue(ts)
    ensures ConsoleQueue(ts) == [] <==> NextIndex(ts).None?
    ensures NextIndex(ts).Some? ==> ConsoleQueue(ts)[0] == ts[NextIndex(ts).value]
  {
    WaitingHead(ts);
  }

  /**
   * Calling on a free mesa keeps every mesa at one active ticket at most: the called ticket was
   * waiting, and no ticket was active at this mesa.
   */
  lemma CallOnFreeMesaKeepsOneActive(ts: seq<Ticket>, n: int, now: int)
    requires UniqueIds(ts, TicketId) && AtMostOneActive(ts)
    requires ActiveTicket(ts, n) == None
    ensures AtMostOneActive(AfterCall(ts, n, now))
  {
    AfterCallChangesOnlySelected(ts, n, now);
    NextIsBest(ts);
    if NextIndex(ts).Some? {
      var k := NextIndex(ts).value;
      var us := AfterCall(ts, n, now);
      forall i, j | 0 <= i < j < |us| && us[i].status.IsActive() && us[j].status.IsActive() && us[i].mesaNumber.Some?
        ensures us[i].mesaNumber != us[j].mesaNumber
      {
        if i == k {
          assert !ActiveAt(ts[j], n);
        } else if j == k {
          assert !ActiveAt(ts[i], n);
        }
      }
    }
  }

  /**
   * Writing back the current ticket of mesa `n` as a record with the same id that, if it is
   * still active, is still at mesa `n`, keeps every mesa at one active ticket at most.
   */
  lemma WriteBackKeepsOneActive(ts: seq<Ticket>, n: int, t: Ticket)
    requires UniqueIds(ts, TicketId) && AtMostOneActive(ts)
    requires ActiveTicket(ts, n).Some?
    requires t.id == ActiveTicket(ts, n).value.id
    requires t.status.IsActive() ==> t.mesaNumber == Some(n)
    ensures AtMostOneActive(ReplaceById(ts, TicketId, t))
  {
    var k := ActiveIndex(ts, n).value;
    ReplaceByUniqueId(ts, TicketId, k, t);
    var us := ts[k := t];
    forall i, j | 0 <= i < j < |us| && us[i].status.IsActive() && us[j].status.IsActive() && us[i].mesaNumber.Some?
      ensures us[i].mesaNumber != us[j].mesaNumber
    {
      if i == k {
        assert ts[j].mesaNumber != ts[k].mesaNumber;
      } else if j == k {
        assert ts[i].mesaNumber != ts[k].mesaNumber;
      }
    }
  }

  /** After `finishService` the mesa is free. */
  lemma FinishFreesMesa(ts: seq<Ticket>, n: int, now: int)
    requires UniqueIds(ts, TicketId) && AtMostOneActive(ts)
    requires ActiveTicket(ts, n).Some?
    ensures ActiveTicket(ReplaceById(ts, TicketId, FinishedAt(ActiveTicket(ts, n).value, now)), n) == None
  {
    var k := ActiveIndex(ts, n).value;
    var t := FinishedAt(ts[k], now);
    ReplaceByUniqueId(ts, TicketId, k, t);
    var us := ts[k := t];
    forall i | 0 <= i < |us| ensures !ActiveAt(us[i], n) {
      if k < i {
        assert ts[k].status.IsActive();
      }
    }
  }

  /** Issuing a ticket keeps every mesa at one active ticket at most: the new ticket is GENERATED. */
  lemma IssueKeepsOneActive(ts: seq<Ticket>, sectorId: string, priority: PriorityType, id: string, now: int)
    requires AtMostOneActive(ts)
    ensures AtMostOneActive(ts + [NewTicket(ts, sectorId, priority, id, now)])
  {
  }

  /** Finishing the current ticket of mesa `n` frees the mesa and keeps every mesa at one active ticket at most. */
  lemma FinishKeepsOneActive(ts: seq<Ticket>, n: int, now: int)
    requires UniqueIds(ts, TicketId) && AtMostOneActive(ts)
    requires ActiveTicket(ts, n).Some?
    ensures var us := ReplaceById(ts, TicketId, FinishedAt(ActiveTicket(ts, n).value, now));
      ActiveTicket(us, n) == None && AtMostOneActive(us)
  {
    FinishFreesMesa(ts, n, now);
    WriteBackKeepsOneActive(ts, n, FinishedAt(ActiveTicket(ts, n).value, now));
  }

  /**
   * After `recall` or `startService` the same ticket, as written back, is still the mesa's
   * current ticket.
   */
  lemma WriteBackStaysCurrent(ts: seq<Ticket>, n: int, t: Ticket)
    requires UniqueIds(ts, TicketId)
    requires ActiveTicket(ts, n).Some?
    requires t.id == ActiveTicket(ts, n).value.id && ActiveAt(t, n)
    ensures ActiveTicket(ReplaceById(ts, TicketId, t), n) == Some(t)
  {
    var k := ActiveIndex(ts, n).value;
    ReplaceByUniqueId(ts, TicketId, k, t);
    var us := ts[k := t];
    assert ActiveIndex(us, n) == Some(k) by {
      forall i | 0 <= i < k ensures !ActiveAt(us[i], n) {
        assert us[i] == ts[i];
      }
    }
  }

  /** What `callNext` reports. */
  datatype CallOutcome = CounterBusy | NoMesa | EmptyQueue | CalledTicket(ticket: Ticket)

  /** The report for what `callNextTicket` returned: the "no tickets" alert, or the ticket. */
  function Reported(next: Option<Ticket>): CallOutcome {
    match next
    case None => EmptyQueue
    case Some(t) => CalledTicket(t)
  }

  class Console {
    const db: MockService
    var mesas: seq<Mesa>
    var myMesaId: string
    var currentTicket: Option<Ticket>
    var queue: seq<Ticket>

    /** `getMyMesa`: the loaded mesa with the console's id. */
    function MyMesa(): (m: Option<Mesa>)
      reads this
      ensures m.Some? ==> m.value in mesas && m.value.id == myMesaId
      ensures m.None? ==> forall i :: 0 <= i < |mesas| ==> mesas[i].id != myMesaId
    {
      match IndexOfId(mesas, MesaId, myMesaId)
      case None => None
      case Some(k) => Some(mesas[k])
    }

    /** The console has found its mesa and shows what the store holds for it. */
    ghost predicate InSync()
      reads this, db
    {
      MyMesa().Some? && currentTicket == ActiveTicket(db.GetTickets(), MyMesa().value.number)
    }

    /**
     * The console as mounted, with the initial mesa id 'm1'. The mount effect loads the mesas,
     * but the `refreshQueue` it calls (and that its interval keeps calling) is the first
     * render's, which still sees no loaded mesas and returns at once. So when 'm1' is among the
     * mesas the console starts with no current ticket and an empty queue, whatever the store
     * holds. Otherwise the id falls back to the first mesa's, and the effect runs again in a
     * render that has the mesas, which does refresh.
     */
    constructor (db: MockService)
      ensures this.db == db
      ensures mesas == db.GetMesas()
      ensures myMesaId == (if IndexOfId(mesas, MesaId, "m1").Some? then "m1"
                           else if mesas == [] then "" else mesas[0].id)
      ensures IndexOfId(mesas, MesaId, "m1").Some? ==> currentTicket == None && queue == []
      ensures IndexOfId(mesas, MesaId, "m1").None? && MyMesa().Some? ==>
                InSync() && queue == WaitingQueue(db.GetTickets())
    {
      this.db := db;
      mesas := db.GetMesas();
      myMesaId := "m1";
      currentTicket := None;
      queue := [];
      new;
      if IndexOfId(mesas, MesaId, "m1").None? {
        SelectMesa(if mesas == [] then "" else mesas[0].id);
      }
    }

    /**
     * The mount as its refresh evidently intends: the console opens on 'm1' (or the fallback)
     * showing what the store holds for its mesa.
     */
    constructor Refreshed(db: MockService)
      ensures this.db == db
      ensures mesas == db.GetMesas()
      ensures myMesaId == (if IndexOfId(mesas, MesaId, "m1").Some? then "m1"
                           else if mesas == [] then "" else mesas[0].id)
      ensures MyMesa().Some? ==> InSync() && queue == WaitingQueue(db.GetTickets())
    {
      this.db := db;
      mesas := db.GetMesas();
      myMesaId := "m1";
      currentTicket := None;
      queue := [];
      new;
      SelectMesa("m1");
    }

    /**
     * Choosing a mesa re-runs the mount effect: the mesas are reloaded, an id that is not among
     * them falls back to the first mesa's (or to '' when there is none), and the console
     * refreshes.
     */
    method SelectMesa(id: string)
      modifies this`mesas, this`myMesaId, this`currentTicket, this`queue
      ensures mesas == db.GetMesas()
      ensures myMesaId == (if IndexOfId(mesas, MesaId, id).Some? then id
                           else if mesas == [] then "" else mesas[0].id)
      ensures MyMesa().Some? ==> InSync() && queue == WaitingQueue(db.GetTickets())
      ensures MyMesa().None? ==> currentTicket == old(currentTicket) && queue == old(queue)
    {
      myMesaId := id;
      mesas := db.GetMesas();
      if IndexOfId(mesas, MesaId, myMesaId).None? {
        myMesaId := if mesas == [] then "" else mesas[0].id;
      }
      RefreshQueue();
    }

    /**
     * `refreshQueue`: with its mesa found, the console's current ticket becomes the mesa's
     * active ticket in the store and the queue the waiting order; without it, nothing changes.
     */
    method RefreshQueue()
      modifies this`currentTicket, this`queue
      ensures MyMesa().None? ==> currentTicket == old(currentTicket) && queue == old(queue)
      ensures MyMesa().Some? ==> InSync() && queue == WaitingQueue(db.GetTickets())
    {
      var all := db.GetTickets();
      var myMesa := MyMesa();
      if myMesa.None? {
        return;
      }
      currentTicket := ActiveTicket(all, myMesa.value.number);
      ConsoleQueueIsDispatchOrder(all);
      queue := ConsoleQueue(all);
    }

    /**
     * `callNext`: refused while the console shows a current ticket (the store is untouched);
     * otherwise the store calls the next ticket to this mesa and the console refreshes. When
     * the console is in sync, every mesa keeps at most one active ticket.
     */
    method CallNext(now: int) returns (outcome: CallOutcome)
      modifies this`currentTicket, this`queue, db
      ensures old(currentTicket).Some? ==> outcome == CounterBusy
      ensures old(currentTicket).None? && MyMesa().None? ==> outcome == NoMesa
      ensures outcome.CounterBusy? || outcome.NoMesa? ==>
                db.ticketsItem == old(db.ticketsItem) && currentTicket == old(currentTicket) && queue == old(queue)
      ensures old(currentTicket).None? && MyMesa().Some? ==>
                && db.GetTickets() == AfterCall(old(db.GetTickets()), MyMesa().value.number, now)
                && outcome == Reported(NextCall(old(db.GetTickets()), MyMesa().value.number, now))
                && InSync() && queue == WaitingQueue(db.GetTickets())
      ensures db.mesasItem == old(db.mesasItem)
      ensures old(InSync()) && old(UniqueIds(db.GetTickets(), TicketId)) && old(AtMostOneActive(db.GetTickets())) ==>
                AtMostOneActive(db.GetTickets())
    {
      if currentTicket.Some? {
        return CounterBusy;
      }
      var myMesa := MyMesa();
      if myMesa.None? {
        return NoMesa;
      }
      ghost var before := db.GetTickets();
      ghost var synced := InSync();
      var ticket := db.CallNextTicket(myMesa.value.number, now);
      if synced && UniqueIds(before, TicketId) && AtMostOneActive(before) {
        CallOnFreeMesaKeepsOneActive(before, myMesa.value.number, now);
      }
      outcome := Reported(ticket);
      RefreshQueue();
      assert MyMesa() == myMesa;
    }

    /**
     * `recall`: with no current ticket nothing happens; otherwise the current ticket, with only
     * its call time moved to `now`, is written back to the store and the console refreshes.
     */
    method Recall(now: int)
      modifies this`currentTicket, this`queue, db
      ensures old(currentTicket).None? ==>
                db.ticketsItem == old(db.ticketsItem) && currentTicket == old(currentTicket) && queue == old(queue)
      ensures old(currentTicket).Some? ==>
                && db.GetTickets() == ReplaceById(old(db.GetTickets()), TicketId, Recalled(old(currentTicket).value, now))
                && (MyMesa().Some? ==> InSync() && queue == WaitingQueue(db.GetTickets()))
                && (MyMesa().None? ==> currentTicket == Some(Recalled(old(currentTicket).value, now)) && queue == old(queue))
      ensures db.mesasItem == old(db.mesasItem)
      ensures old(InSync()) && old(currentTicket).Some? && old(UniqueIds(db.GetTickets(), TicketId)) ==>
                currentTicket == Some(Recalled(old(currentTicket).value, now))
      ensures old(InSync()) && old(UniqueIds(db.GetTickets(), TicketId)) && old(AtMostOneActive(db.GetTickets())) ==>
                AtMostOneActive(db.GetTickets())
    {
      if currentTicket.None? {
        return;
      }
      var t := Recalled(currentTicket.value, now);
      ghost var before := db.GetTickets();
      WriteBack(t);
      if old(InSync()) && UniqueIds(before, TicketId) {
        var n := MyMesa().value.number;
        WriteBackStaysCurrent(before, n, t);
        if AtMostOneActive(before) {
          WriteBackKeepsOneActive(before, n, t);
        }
      }
    }

    /**
     * `startService`: with no current ticket nothing happens; otherwise the current ticket,
     * moved to IN_SERVICE with no time stamped, is written back and the console refreshes.
     */
    method StartService()
      modifies this`currentTicket, this`queue, db
      ensures old(currentTicket).None? ==>
                db.ticketsItem == old(db.ticketsItem) && currentTicket == old(currentTicket) && queue == old(queue)
      ensures old(currentTicket).Some? ==>
                && db.GetTickets() == ReplaceById(old(db.GetTickets()), TicketId, Started(old(currentTicket).value))
                && (MyMesa().Some? ==> InSync() && queue == WaitingQueue(db.GetTickets()))
                && (MyMesa().None? ==> currentTicket == Some(Started(old(currentTicket).value)) && queue == old(queue))
      ensures db.mesasItem == old(db.mesasItem)
      ensures old(InSync()) && old(currentTicket).Some? && old(UniqueIds(db.GetTickets(), TicketId)) ==>
                currentTicket == Some(Started(old(currentTicket).value))
      ensures old(InSync()) && old(UniqueIds(db.GetTickets(), TicketId)) && old(AtMostOneActive(db.GetTickets())) ==>
                AtMostOneActive(db.GetTickets())
    {
      if currentTicket.None? {
        return;
      }
      var t := Started(currentTicket.value);
      ghost var before := db.GetTickets();
      WriteBack(t);
      if old(InSync()) && UniqueIds(before, TicketId) {
        var n := MyMesa().value.number;
        WriteBackStaysCurrent(before, n, t);
        if AtMostOneActive(before) {
          WriteBackKeepsOneActive(before, n, t);
        }
      }
    }

    /**
     * The step `recall`, `startService` and `finishService` share: the current ticket, as
     * updated, is written back to the store and the console refreshes.
     */
    method WriteBack(t: Ticket)
      modifies this`currentTicket, this`queue, db
      ensures db.GetTickets() == ReplaceById(old(db.GetTickets()), TicketId, t)
      ensures db.mesasItem == old(db.mesasItem)
      ensures MyMesa().None? ==> currentTicket == Some(t) && queue == old(queue)
      ensures MyMesa().Some? ==> InSync() && queue == WaitingQueue(db.GetTickets())
    {
      currentTicket := Some(t);
      db.UpdateTicket(t);
      RefreshQueue();
    }

    /**
     * `finishService`: with no current ticket nothing happens; otherwise the current ticket,
     * FINISHED at `now`, is written back and the console refreshes: its mesa is then free.
     */
    method FinishService(now: int)
      modifies this`currentTicket, this`queue, db
      ensures old(currentTicket).None? ==>
                db.ticketsItem == old(db.ticketsItem) && currentTicket == old(currentTicket) && queue == old(queue)
      ensures old(currentTicket).Some? ==>
                && db.GetTickets() == ReplaceById(old(db.GetTickets()), TicketId, FinishedAt(old(currentTicket).value, now))
                && (MyMesa().Some? ==> InSync() && queue == WaitingQueue(db.GetTickets()))
                && (MyMesa().None? ==> currentTicket == Some(FinishedAt(old(currentTicket).value, now)) && queue == old(queue))
      ensures db.mesasItem == old(db.mesasItem)
      ensures old(InSync()) && old(currentTicket).Some? && old(UniqueIds(db.GetTickets(), TicketId)) &&
              old(AtMostOneActive(db.GetTickets())) ==>
                currentTicket == None
      ensures old(InSync()) && old(UniqueIds(db.GetTickets(), TicketId)) && old(AtMostOneActive(db.GetTickets())) ==>
                AtMostOneActive(db.GetTickets())
    {
      if currentTicket.None? {
        return;
      }
      var t := FinishedAt(currentTicket.value, now);
      ghost var before := db.GetTickets();
      WriteBack(t);
      if old(InSync()) && UniqueIds(before, TicketId) && AtMostOneActive(before) {
        FinishKeepsOneActive(before, MyMesa().value.number, now);
      }
    }
  }

  /** The default mesas start with m1, mesa number 1. */
  lemma FirstDefaultMesa()
    ensures IndexOfId(DefaultMesas, MesaId, "m1") == Some(0) && DefaultMesas[0].number == 1
  {
  }

  /** Mesa 1 already serves ticket "a"; ticket "b" waits. */
  function BusyStore(): seq<Ticket> {
    [Ticket("a", "M-001", Normal, Calling, 0, Some(5), None, "1", Some(1)),
     Ticket("b", "M-002", Normal, Generated, 1, None, None, "1", None)]
  }

  /** In that store the ids differ and "b" is the next ticket to call. */
  lemma BusyStoreNext()
    ensures UniqueIds(BusyStore(), TicketId) && NextIndex(BusyStore()) == Some(1)
  {
    var s := BusyStore();
    assert s[1].status == Generated && s[0].status != Generated;
    assert s[0].id != s[1].id;
  }

  /** Calling the next ticket to mesa 1 over that store leaves both tickets active there. */
  lemma BusyStoreDoubleBooked()
    ensures var ts := AfterCall(BusyStore(), 1, 10);
      |ts| == 2 && ActiveAt(ts[0], 1) && ActiveAt(ts[1], 1)
  {
    var s := BusyStore();
    BusyStoreNext();
    AfterCallChangesOnlySelected(s, 1, 10);
    var r := AfterCall(s, 1, 10);
    assert r == s[1 := Called(s[1], 1, 10)];
    assert r[0] == s[0] && r[1] == Called(s[1], 1, 10);
  }

  /** A fresh browser in which the two tickets of BusyStore are issued, in order. */
  method BusyDb() returns (db: MockService)
    ensures fresh(db)
    ensures db.GetTickets() == BusyStore() && db.GetMesas() == DefaultMesas
  {
    db := new MockService();
    db.SaveTicket(BusyStore()[0]);
    db.SaveTicket(BusyStore()[1]);
  }

  /**
   * The mount as written: a console opened on m1 over that store shows no current ticket, so
   * "call next" passes the busy guard and calls "b" to mesa 1 as well.
   */
  method MountThenCallNext() returns (twoActive: bool)
    ensures twoActive
  {
    var db := BusyDb();
    var console := new Console(db);
    FirstDefaultMesa();
    assert console.currentTicket == None && console.MyMesa() == Some(DefaultMesas[0]);
    var outcome := console.CallNext(10);
    assert console.MyMesa() == Some(DefaultMesas[0]);
    var ts := db.GetTickets();
    assert ts == AfterCall(BusyStore(), DefaultMesas[0].number, 10);
    BusyStoreDoubleBooked();
    twoActive := |ts| == 2 && ActiveAt(ts[0], 1) && ActiveAt(ts[1], 1);
  }

  /**
   * The intended mount: a console opened over that store shows ticket "a", and "call next" is
   * refused with the store unchanged.
   */
  method RefreshedMountRefuses() returns (refused: bool)
    ensures refused
  {
    var db := BusyDb();
    var console := new Console.Refreshed(db);
    FirstDefaultMesa();
    assert console.MyMesa() == Some(DefaultMesas[0]);
    assert ActiveIndex(BusyStore(), 1) == Some(0);
    var outcome := console.CallNext(10);
    refused := outcome == CounterBusy && db.GetTickets() == BusyStore();
  }

  /**
   * Recall, start and finish, as the console offers them on the current ticket of mesa `n`,
   * keep every stored ticket stamped consistently with its status.
   */
  lemma ActionKeepsStamped(ts: seq<Ticket>, n: int, a: Action, now: int)
    requires AllStamped(ts) && ActiveTicket(ts, n).Some?
    requires Offered(ActiveTicket(ts, n), a) && a != CallNextAction
    ensures AllStamped(ReplaceById(ts, TicketId, Apply(a, ActiveTicket(ts, n).value, now)))
  {
    var t := ActiveTicket(ts, n).value;
    assert Stamped(t) && ActiveAt(t, n);
    OfferedActionIsStep(t, a, now);
    WriteBackKeepsStamped(ts, Apply(a, t, now));
  }
}
