# Ticket queue engine

A model in Dafny of the queue engine behind a counter-service ticketing demo. A kiosk issues
numbered tickets for a sector (Matrícula "M", Renovação de Matrícula "R"). Attendants at four
mesas (counters) call the next waiting ticket, recall it, start the service and finish it. A
TV panel shows the latest call and the five calls before it. An admin dashboard counts tickets
and renames attendants.

The modules follow the program:

- `Types` (types.ts): the statuses and priorities with their string tags, and the ticket,
  sector and mesa records.
- `Lists`: the array operations the store uses. These are `findIndex`, the index assignment
  that replaces by id, and `filter`.
- `Sorting`: the stable sort by a comparator, and its reference definition `FirstMin`, the
  earliest minimal entry.
- `Codes`: the ticket code scheme of `generateTicket`. It covers the sector prefix, the "P"
  marker and the zero-padded number, together with a parser that reads a code back.
- `MockDb` (services/mockDb.ts): the store, as the class `MockService` over its two
  localStorage items.
  - An item that was never written reads as the default: no tickets, and the four fixed mesas.
  - `generateTicket` and `callNextTicket` are its methods.
- `Lifecycle`: the record changes of calling, recalling, starting and finishing a ticket. It
  also holds the buttons the console offers.
- `Dispatch`: the waiting order of `callNextTicket`. Preferential tickets come first, then the
  earliest `createdAt`, then store order. It also states what a call writes back.
- `Numbering`: the invariant that every stored code carries the number that follows the
  sector's earlier tickets. From it follows that numbers strictly increase within a sector.
- `Attendant` (pages/AttendantPage.tsx): the active-ticket query. It also holds the class
  `Console`, with the component's state and its `refreshQueue`, `callNext`, `recall`,
  `startService` and `finishService`.
- `TVPanel` (pages/TVPanelPage.tsx): the called list, new-call detection and the history. It
  also holds the class `Panel`, whose `FetchData` updates `lastCalled` and `history`.
- `Admin` (pages/AdminPage.tsx): the dashboard counters and `handleUpdateMesa`.

Timestamps are integers (milliseconds). The source keeps them as strings written by
`toISOString()`. It compares them through `getTime()` in all three sorts, and with `!==` in the TV
panel's new-call test. Two such strings are equal exactly when their instants are, so both
comparisons are integer comparisons. The fresh ticket id (`crypto.randomUUID`) and the current
time are parameters of the operations that need them. Each store operation is one atomic step.

Store invariants and the lemmas that show which operations keep them:

- `UniqueIds`: no two tickets share an id. Kept by issuance with a fresh id
  (`IssueKeepsUniqueIds`) and by every replace-by-id (`ReplaceKeepsUniqueIds`).
- `Numbered`: every code carries the number that follows the sector's earlier tickets. Kept by
  issuance (`IssueKeepsNumbered`), by a call (`CallKeepsNumbered`) and by the console's write-backs
  (`ActionKeepsNumbered`, `UpdateKeepsNumbered`). A reset restarts it (`FirstAfterResetIsOne`).
- `AllStamped`: each ticket's optional fields agree with its status. Kept by issuance
  (`IssueKeepsStamped`), by a call (`CallKeepsStamped`) and by the actions the console offers
  (`ActionKeepsStamped`). It implies `CallStamped`, that every called ticket has a call time
  (`StampedIsCallStamped`).
- `AtMostOneActive`: no mesa has two CALLING or IN_SERVICE tickets. Issuance keeps it
  (`IssueKeepsOneActive`); a call to a free mesa and the console's write-backs keep it, but only while the console shows what the store holds for
  its mesa (`InSync`). The console as mounted does not, and can break it (see "## Findings").

## Model

| member | source | states |
|---|---|---|
| Types.TicketStatus.Tag | types.ts:1-7 | each status's tag (GERADA, CHAMANDO, EM_ATENDIMENTO, FINALIZADA, CANCELADA) reads back as that status |
| Types.StatusTagRoundTrip | types.ts:1-7 | a string read as a status is that status's tag |
| Types.StatusTagAgrees | types.ts:1-7 | two statuses have the same tag exactly when they are the same status, so comparing tags is comparing statuses |
| Types.PriorityType.Tag | types.ts:9-15 | each priority's tag (Normal, Preferencial, Idoso, PCD, Gestante) reads back as that priority |
| Types.PriorityTagRoundTrip | types.ts:9-15 | a string read as a priority is that priority's tag |
| Types.PriorityTagAgrees | types.ts:9-15 | two priorities have the same tag exactly when they are the same priority |
| Lists.IndexOfId | services/mockDb.ts:36 | `findIndex` by id: none exactly when no entry has the id; otherwise an in-range index with that id and no earlier match |
| Lists.ReplaceById | services/mockDb.ts:56-64 | length is kept; an unknown id changes nothing; otherwise the first entry with the id becomes the record and every other entry is unchanged |
| Lists.ReplaceByUniqueId | services/mockDb.ts:56-64 | with unique ids, replacing by id is replacing at the one position that holds the id |
| Lists.ReplaceKeepsUniqueIds | services/mockDb.ts:56-64 | replacing by id keeps ids unique |
| Lists.AppendKeepsUniqueIds | services/mockDb.ts:49-53 | appending a record with a fresh id keeps ids unique |
| Lists.UniqueIdsNoRepeats | services/mockDb.ts:56-64 | with unique ids no record is stored twice |
| Lists.Filter | services/mockDb.ts:101 | the result holds exactly the entries satisfying the test, as many times as the input does, and no others |
| Lists.FilterMembers | services/mockDb.ts:101 | a value is in the filtered list exactly when it is in the input and passes the test |
| Lists.FilterEmpty | services/mockDb.ts:101-103 | the filtered list is empty exactly when no entry passes the test |
| Lists.FilterAppend | services/mockDb.ts:80 | filtering distributes over appending |
| Sorting.Insert | services/mockDb.ts:106-112 | insertion adds exactly the one entry (multiset) |
| Sorting.InsertSorted | services/mockDb.ts:106-112 | insertion into a sorted list keeps it sorted |
| Sorting.SortBy | services/mockDb.ts:106-112 | the sort is a permutation of its input and sorted by the comparator (stability is `SortTakesFirstMin`) |
| Sorting.FirstMin | services/mockDb.ts:106-114 | the earliest minimal entry passing a test: none exactly when nothing passes; otherwise it passes, nothing passing beats it, and every earlier passing entry is strictly worse |
| Sorting.FirstMinUnique | services/mockDb.ts:106-114 | any position with those properties is the one `FirstMin` gives |
| Sorting.HeadOfSortedFilter | services/mockDb.ts:101-114 | the head of the sorted filtered list is the entry `FirstMin` selects, so sort-then-take-first is stable-minimum selection |
| Sorting.SortTakesFirstMin | services/mockDb.ts:106-112 | stability: the sort is the earliest entry with the least key followed by the sort of the other entries in input order, so equal keys keep input order |
| Sorting.SortedFilterTakesFirstMin | services/mockDb.ts:101-112 | the sort of the filtered list is the `FirstMin` entry followed by the sort of the other filtered entries in store order |
| Sorting.FirstMinOfFilter | services/mockDb.ts:101-112 | the `FirstMin` entry of the input is the earliest least entry of the filtered list, at the position of the entries that pass before it |
| Sorting.LeastInsertedFirst | services/mockDb.ts:106-112 | an entry that no later entry beats comes first in the sort, ahead of the sort of the rest |
| Codes.PrefixFor | services/mockDb.ts:4-7 | sector "1" has prefix M, sector "2" has prefix R, and any other sector has X |
| Codes.Marker | services/mockDb.ts:82 | the marker is "P" exactly for a non-Normal priority, and empty for Normal |
| Codes.DecimalString | services/mockDb.ts:82 | `String(n)`: nonempty digits that read back as n, at most three below 1000, and starting with '0' only for n = 0 |
| Codes.Zeros | services/mockDb.ts:82 | n zero digits, worth 0 |
| Codes.PadStart | services/mockDb.ts:82 | `padStart(width, '0')` keeps the digits' value and pads to the width, leaving longer strings as they are |
| Codes.LeadingZerosAddNothing | services/mockDb.ts:82 | leading zeros do not change a number's value |
| Codes.CodeFor | services/mockDb.ts:82 | a code parses back as prefix plus marker and number count + 1; below 1000 it has exactly three digits after the dash |
| Codes.CodeLayout | services/mockDb.ts:82 | a code is the prefix and marker, a dash and at least three digits; with more than three digits the first is not '0' |
| Codes.LastDash | services/mockDb.ts:82 | the position of the last dash, or none when there is no dash |
| Codes.NoDashAfter | services/mockDb.ts:82 | in a head ending in a dash followed by digits, that dash is the last one |
| Codes.ParseJoined | services/mockDb.ts:82 | a head, a dash and a nonempty run of digits parse back into the head and the digits' value |
| Codes.ParseCodeMeaning | services/mockDb.ts:82 | what `ParseCode` reads: a parsed code is its head, a dash and a nonempty run of digits worth the number; it fails exactly when no dash is followed by digits only |
| Codes.DashBlocksDigits | services/mockDb.ts:82 | no run of digits starts before a dash and reaches past it |
| Codes.FirstCodeOfSector | services/mockDb.ts:77-82 | the first Normal ticket of sector "1" is M-001 |
| Codes.PreferentialCodeOfSector | services/mockDb.ts:77-82 | the 42nd ticket of sector "2", for the elderly, is RP-042 |
| MockDb.SectorCount | services/mockDb.ts:80 | the sector count never exceeds the number of tickets; `SectorCountIsFilterLength` ties it to the filter |
| MockDb.SectorCountIsFilterLength | services/mockDb.ts:80 | the sector count is the length of the tickets filtered on the sector id |
| MockDb.NewTicket | services/mockDb.ts:75-91 | the new ticket is GENERATED with no call time, finish time or mesa, carries the given id, sector, priority and time, and has a code that parses as the sector's prefix plus marker and the sector count + 1 |
| MockDb.NewTicketIsStamped | services/mockDb.ts:84-91 | a new ticket's optional fields agree with its status |
| MockDb.MockService.constructor | services/mockDb.ts:29-32 | an empty storage reads as no tickets and the four default mesas |
| MockDb.MockService.GetMesas | services/mockDb.ts:29-32 | the stored mesas, or the four default mesas while none are stored |
| MockDb.MockService.GetTickets | services/mockDb.ts:44-47 | the stored tickets, or none while none are stored |
| MockDb.MockService.UpdateMesa | services/mockDb.ts:34-42 | the mesas become the replace-by-id of the old ones; an unknown id writes nothing; tickets are untouched |
| MockDb.MockService.SaveTicket | services/mockDb.ts:49-54 | the ticket is appended after every stored ticket, which stay as they were; mesas are untouched |
| MockDb.MockService.UpdateTicket | services/mockDb.ts:56-64 | the tickets become the replace-by-id of the old ones; an unknown id writes nothing; mesas are untouched |
| MockDb.MockService.ResetDatabase | services/mockDb.ts:67-71 | afterwards there are no tickets, and the mesas read as before |
| MockDb.MockService.GenerateTicket | services/mockDb.ts:73-95 | the returned ticket is the new ticket for the stored tickets, and it is appended to them |
| MockDb.MockService.CallNextTicket | services/mockDb.ts:97-121 | returns null exactly when no ticket is GENERATED, and then writes nothing; otherwise returns the dispatch choice called to the mesa, and the store becomes the one-ticket write-back |
| MockDb.IssueKeepsUniqueIds | services/mockDb.ts:84-93 | issuing with a fresh id keeps ticket ids unique |
| MockDb.IssueKeepsStamped | services/mockDb.ts:84-93 | issuing keeps every ticket's optional fields in agreement with its status |
| Lifecycle.Called | services/mockDb.ts:115-117 | the ticket becomes CALLING with the call time and mesa set; no other field changes |
| Lifecycle.Recalled | pages/AttendantPage.tsx:66 | only the call time changes |
| Lifecycle.Started | pages/AttendantPage.tsx:73 | only the status changes, to IN_SERVICE |
| Lifecycle.FinishedAt | pages/AttendantPage.tsx:80-81 | the status becomes FINISHED and the finish time is set; nothing else changes |
| Lifecycle.WriteBackKeepsStamped | services/mockDb.ts:56-64 | writing back a consistently stamped record keeps the whole store stamped |
| Lifecycle.AppendKeepsStamped | services/mockDb.ts:49-54 | appending a consistently stamped record keeps the whole store stamped |
| Lifecycle.CallIsStep | services/mockDb.ts:115-117 | calling a GENERATED ticket is a lifecycle step and keeps its fields consistent with its status |
| Lifecycle.OfferedActionIsStep | pages/AttendantPage.tsx:64-84 | every action offered on an active ticket is a forward lifecycle step (never to CANCELED); it keeps the fields consistent and does not change id, code or mesa |
| Lifecycle.OfferedButtons | pages/AttendantPage.tsx:136-166 | `Offered`: "call next" is on screen exactly when there is no current ticket; with one, "recall" always, and "start" exactly when "finish" is not |
| Dispatch.WaitingQueue | services/mockDb.ts:101-112 | exactly the GENERATED tickets (a permutation of the filter), with every preferential ticket before every Normal one and `createdAt` non-decreasing within a tier (the full order is `WaitingQueueTakesNext`) |
| Dispatch.WaitKeyIsComparator | services/mockDb.ts:106-112 | `WaitKey` orders as the comparator: one ticket sorts before another exactly when the comparator is negative, and two tie exactly when it is 0 |
| Dispatch.NextIndex | services/mockDb.ts:101-114 | the position of the chosen ticket: none exactly when nothing is GENERATED, otherwise a GENERATED ticket's position |
| Dispatch.WaitingOrder | services/mockDb.ts:106-112 | a list sorted by the waiting comparator has preferential tickets first and `createdAt` non-decreasing within a tier |
| Dispatch.NextIsBest | services/mockDb.ts:101-114 | there is no choice exactly when nothing is GENERATED; the choice is GENERATED, is Normal only when no preferential ticket waits, has the earliest `createdAt` of its tier, and is strictly earlier than every same-tier ticket stored before it |
| Dispatch.WaitingHead | services/mockDb.ts:101-114 | the waiting list is empty exactly when there is no choice, and its head is the chosen ticket |
| Dispatch.WaitingQueueTakesNext | services/mockDb.ts:101-112 | the whole waiting order: the chosen ticket followed by the waiting order of the others in store order, so tied tickets keep store order |
| Dispatch.NothingWaiting | services/mockDb.ts:101-112 | with no GENERATED ticket stored the waiting queue is empty |
| Dispatch.NextCall | services/mockDb.ts:101-117 | null exactly when nothing is GENERATED; otherwise the chosen ticket, called to the mesa at that time |
| Dispatch.AfterCall | services/mockDb.ts:114-119 | the store after a call keeps its length, is unchanged when nothing waits, and every entry that changes becomes the called ticket |
| Dispatch.AfterCallChangesOnlySelected | services/mockDb.ts:114-119 | with unique ids a call changes only the chosen position, to the called ticket; with nothing waiting it changes nothing |
| Dispatch.CallKeepsStamped | services/mockDb.ts:114-119 | a call keeps every ticket's optional fields in agreement with its status |
| Numbering.IssueKeepsNumbered | services/mockDb.ts:75-93 | issuing keeps every stored code equal to the code of the sector count before it |
| Numbering.AppendKeepsNumbered | services/mockDb.ts:80-93 | appending a ticket whose code is that of its sector's count so far keeps every stored code numbered |
| Numbering.SectorCountBySectors | services/mockDb.ts:80 | the sector count depends only on the tickets' sectors |
| Numbering.OverwriteKeepsNumbered | services/mockDb.ts:56-64 | overwriting a ticket with a record of the same code, sector and priority keeps the numbering |
| Numbering.UpdateKeepsNumbered | services/mockDb.ts:56-64 | updates that keep code, sector and priority (every lifecycle write-back) keep the numbering |
| Numbering.SectorCountGrows | services/mockDb.ts:80 | each later ticket of a sector sees a strictly larger sector count |
| Numbering.NumbersIncreaseInSector | services/mockDb.ts:80-82 | in a numbered store a later ticket of the same sector has a strictly larger number, so codes are unique within a sector |
| Numbering.FirstAfterResetIsOne | services/mockDb.ts:67-82 | after a reset the next ticket is number 1 and the store is numbered |
| Numbering.CallKeepsNumbered | services/mockDb.ts:114-119 | a call keeps the numbering: it changes no code, sector or priority |
| Numbering.ActionKeepsNumbered | pages/AttendantPage.tsx:64-84 | recall, start and finish on the mesa's active ticket keep the numbering |
| Attendant.ActiveIndex | pages/AttendantPage.tsx:35-38 | the first ticket at the mesa that is CALLING or IN_SERVICE; none exactly when the mesa is free |
| Attendant.ActiveTicket | pages/AttendantPage.tsx:35-39 | the mesa's current ticket: none exactly when no stored ticket is active at the mesa; otherwise the first stored ticket active at the mesa, as `find` returns |
| Attendant.ConsoleKey | pages/AttendantPage.tsx:43-48 | the console's comparator, written with the literal 'Normal', has the dispatcher's key |
| Attendant.ConsoleQueue | pages/AttendantPage.tsx:41-51 | the console's waiting list equals the dispatcher's waiting order |
| Attendant.InsertSameKeys | pages/AttendantPage.tsx:43-49 | inserting with the console's literal-'Normal' comparator is inserting with the dispatcher's |
| Attendant.SortSameKeys | pages/AttendantPage.tsx:41-49 | sorting with the console's comparator is sorting with the dispatcher's |
| Attendant.ConsoleQueueIsDispatchOrder | pages/AttendantPage.tsx:41-49 | the console's waiting list is the dispatcher's waiting order, and its head is the ticket `callNextTicket` would call |
| Attendant.CallOnFreeMesaKeepsOneActive | pages/AttendantPage.tsx:55-59 | calling to a free mesa keeps every mesa at one active ticket at most |
| Attendant.WriteBackKeepsOneActive | pages/AttendantPage.tsx:64-84 | writing back the current ticket, still at its mesa if active, keeps every mesa at one active ticket at most |
| Attendant.FinishFreesMesa | pages/AttendantPage.tsx:78-83 | after finishing, the mesa has no active ticket |
| Attendant.IssueKeepsOneActive | services/mockDb.ts:84-93 | issuing a ticket (GENERATED, no mesa) keeps every mesa at one active ticket at most |
| Attendant.FinishKeepsOneActive | pages/AttendantPage.tsx:78-83 | finishing the mesa's active ticket frees the mesa and keeps every mesa at one active ticket at most |
| Attendant.WriteBackStaysCurrent | pages/AttendantPage.tsx:64-76 | after recall or start, the written-back ticket is still the mesa's current ticket |
| Attendant.FirstDefaultMesa | services/mockDb.ts:10-15 | the default mesas start with m1, mesa number 1 |
| Attendant.BusyStoreDoubleBooked | pages/AttendantPage.tsx:55-59 | calling the next ticket to mesa 1 over a store where mesa 1 already serves a ticket leaves two tickets active at mesa 1 |
| Attendant.MountThenCallNext | pages/AttendantPage.tsx:14-62 | the mount as written lets "call next" through on a busy mesa: afterwards two tickets are active at mesa 1 |
| Attendant.RefreshedMountRefuses | pages/AttendantPage.tsx:14-62 | with the intended mount the same "call next" is refused and the store is unchanged |
| Attendant.ActionKeepsStamped | pages/AttendantPage.tsx:64-84 | recall, start and finish as offered on the mesa's active ticket keep every ticket stamped consistently |
| Attendant.Console.constructor | pages/AttendantPage.tsx:8-33 | the mount as written: the mesas are loaded; when m1 is among them the console stays on m1 with no current ticket and an empty queue, whatever the store holds; otherwise it falls back to the first mesa and, when a mesa is found, refreshes |
| Attendant.Console.Refreshed | pages/AttendantPage.tsx:14-26 | the mount as its refresh intends: on m1 (or the fallback), when a mesa is found, the console shows the mesa's active ticket and the waiting order |
| Attendant.Console.MyMesa | pages/AttendantPage.tsx:28 | the loaded mesa with the console's id, or none when no loaded mesa has it |
| Attendant.Console.SelectMesa | pages/AttendantPage.tsx:14-26 | reloads the mesas and falls back to the first mesa's id ('' when none) for an unknown id; then, when a mesa is found, the console is in sync, and otherwise the current ticket and the queue are kept |
| Attendant.Console.RefreshQueue | pages/AttendantPage.tsx:30-52 | without its mesa nothing changes; otherwise the current ticket is the mesa's active ticket in the store and the queue is the waiting order |
| Attendant.Console.WriteBack | pages/AttendantPage.tsx:67-68 | the step recall, start and finish share: the record replaces the stored ticket with its id, the mesas are untouched, and the console refreshes (without its mesa the record stays current and the queue is kept) |
| Attendant.Console.CallNext | pages/AttendantPage.tsx:54-62 | refused with the store untouched while the console shows a current ticket; otherwise the store makes the call for this mesa and the console refreshes; only for a console in sync is every mesa kept at one active ticket at most |
| Attendant.Console.Recall | pages/AttendantPage.tsx:64-69 | no-op without a current ticket; otherwise the recalled ticket is written back by id; for a console in sync with the store it stays current and one active ticket per mesa is kept; with no mesa found the record stays current and the queue is kept |
| Attendant.Console.StartService | pages/AttendantPage.tsx:71-76 | no-op without a current ticket; otherwise the IN_SERVICE ticket is written back by id; for a console in sync with the store it stays current and one active ticket per mesa is kept; with no mesa found the record stays current and the queue is kept |
| Attendant.Console.FinishService | pages/AttendantPage.tsx:78-84 | no-op without a current ticket; otherwise the FINISHED ticket is written back by id; in sync the mesa is then free and one active ticket per mesa is kept; with no mesa found the record stays current and the queue is kept |
| TVPanel.CalledTickets | pages/TVPanelPage.tsx:51-53 | exactly the CALLING, IN_SERVICE and FINISHED tickets (a permutation of the filter), with call times non-increasing |
| TVPanel.CallKeyIsComparator | pages/TVPanelPage.tsx:53 | on tickets with a call time, `CallKey` orders as the comparator: later calls first, ties exactly when the times are equal |
| TVPanel.IsNewCall | pages/TVPanelPage.tsx:59 | a call is new exactly when nothing was shown, the id differs, or the call time differs: showing the same call again, or the shown ticket with only its status, mesa or finish time changed, is not new, and a new call time always is |
| TVPanel.CalledTicketsTakesLatest | pages/TVPanelPage.tsx:51-53 | the whole called list: the latest call (earliest stored on a tie) followed by the called list of the others, so equal call times keep store order |
| TVPanel.CurrentIsLatest | pages/TVPanelPage.tsx:55-56 | the list is empty exactly when nothing was called; otherwise its head is the earliest stored ticket with the greatest call time |
| TVPanel.History | pages/TVPanelPage.tsx:68 | positions 1 to 5 of the called list: at most five entries, none for a list of one, and entry i is the call at position i + 1 |
| TVPanel.HistoryExcludesCurrent | pages/TVPanelPage.tsx:68 | with unique ids the current call is not in the history |
| TVPanel.RecallIsAnnounced | pages/TVPanelPage.tsx:59 | a recall with a later time becomes the head of the called list and is a new call for a panel that was showing that ticket |
| TVPanel.Panel.constructor | pages/TVPanelPage.tsx:7-8 | the panel starts with no call and an empty history |
| TVPanel.Panel.FetchData | pages/TVPanelPage.tsx:49-70 | with nothing called, the panel is left as it was and stays silent; otherwise audio plays exactly on a new call, `lastCalled` changes only then, and the history is the next five calls |
| TVPanel.StampedIsCallStamped | pages/TVPanelPage.tsx:53 | in a consistently stamped store every called ticket has the call time the comparator reads |
| Admin.CountStatusTag | pages/AdminPage.tsx:34-35 | a status count never exceeds the number of tickets |
| Admin.CountPriorityTag | pages/AdminPage.tsx:36-40 | a priority count never exceeds the number of tickets |
| Admin.StatusTagCount | pages/AdminPage.tsx:34-35 | counting by a status's tag literal counts that status |
| Admin.PriorityTagCount | pages/AdminPage.tsx:36-40 | counting by a priority's tag literal counts that priority |
| Admin.StatusCountsDisjoint | pages/AdminPage.tsx:34-35 | two different statuses' counts sum to at most the total |
| Admin.PriorityCountsPartition | types.ts:9-15 | the five priority counts sum to the total |
| Admin.ComputeStats | pages/AdminPage.tsx:32-40 | total is the ticket count; finished plus pending, and the three priority figures, each sum to at most the total |
| Admin.StatsMeaning | pages/AdminPage.tsx:32-40 | total is the ticket count; finished and pending count FINISHED and GENERATED and sum to at most the total; the three priority figures count Normal, Preferencial and Idoso and sum to the total less the PCD and Gestante tickets |
| Admin.RenamedMesa | pages/AdminPage.tsx:27 | the same mesa id and number under the new attendant name |
| Admin.HandleUpdateMesa | pages/AdminPage.tsx:26-30 | the stored mesas become the replace-by-id with the renamed record, the page gets them back, and tickets are untouched |

## Findings

| source | as written | input that shows it | evidently intended | confidence | as-written member | corrected member |
|---|---|---|---|---|---|---|
| pages/AttendantPage.tsx:14-33 | The mount effect and its interval call the first render's `refreshQueue`, whose `mesas` is still empty, so it returns before setting anything. While the mesa id stays m1 the effect never runs again, and the console shows no current ticket. | Store: ticket "a" CALLING at mesa 1 and ticket "b" GENERATED, with the default mesas. After a reload, "call next" passes the busy guard and calls "b" to mesa 1 as well. | On mount the console shows the mesa's active ticket ("a"), and "call next" is refused with the store unchanged. | high (not executed) | Attendant.MountThenCallNext | Attendant.RefreshedMountRefuses |

`Attendant.Console.constructor` is the mount as written and `Attendant.BusyStoreDoubleBooked` the
double booking it allows. `Attendant.Console.Refreshed` is the intended mount. The one-active-per-
mesa guarantees of `CallNext`, `Recall`, `StartService` and `FinishService` hold for a console in
sync with the store, which the intended mount gives.

## Left out

- localStorage, JSON serialisation and the `storage` event: the two items are modelled as optional sequences, and notification is not modelled.
- The `async` delays and read-then-write races between tabs: each store operation is atomic.
- `crypto.randomUUID` and `new Date()`: the id and the time are parameters. The model does not assume that ids are fresh, except in the lemmas that say so in their requires.
- Polling by `setInterval`. While the mesa id stays the initial m1, the console's interval keeps calling the first render's `refreshQueue`, which never refreshes (see "## Findings"); the panel's interval calls `fetchData`, one call of `FetchData` each. The console's own refreshes after its buttons are modelled.
- Audio playback, its error message and the clock ticker of the TV panel: `FetchData` returns whether the audio would play.
- JSX rendering, recharts and the "5m" average-wait placeholder of the dashboard.
- `getSectors`, the sector-name lookup and the `alert` texts: UI plumbing. The alerts of `callNext` are its `CallOutcome`.
- The confirm dialog of `handleReset`: only `resetDatabase` is modelled.
- App.tsx (routing), pages/KioskPage.tsx (a step flow that forwards to `generateTicket`) and pages/BackendGuide.tsx (documentation text) are not part of this model.
- Cancelling a ticket: CANCELED is declared, but no code assigns it, so no operation produces it.
- TVPanel.CallKey: a called ticket without `calledAt` makes the comparator of pages/TVPanelPage.tsx:53 yield NaN, and the model sorts it as time 0. Issuance, calls and the console's actions keep every store stamped (`AllStamped`), so no such ticket is stored, and the lemmas about the panel assume `CallStamped`.
- Attendant.Console.CallNext: the busy guard tests the console's own `currentTicket`, as the code does, not the store. The one-active-per-mesa guarantee is stated only for a console in sync with the store.
- Attendant.Console.Recall, Attendant.Console.StartService, Attendant.Console.FinishService: the code mutates the `currentTicket` object in place before writing it back. The model writes the updated record to `currentTicket` and the store; aliasing between the two objects is not modelled.
