# Security event log viewer — verified model

`eventos-logs.py` is a small Windows desktop tool. It reads the Security
event log in batches and keeps the records whose event ID the user has
ticked. It names each kept record after the first entry of a fixed catalog
of suspicious-activity categories that lists its ID. It stores each record
as ID, date (`DD-MM-YYYY`), time (`HH:MM:SS`) and category. A search text
and two inclusive date bounds then filter what is shown, numbered from 1,
on screen and in the exports.

This project models that core in Dafny and proves what it promises:

- `Catalog`: the 37-entry catalog in source order and the first-match
  classifier, with properties of first-match lookup over any catalog and
  facts about the concrete catalog. Some entries are shadowed; for example,
  4625 is always "Logon Failed" and never "Logon Failure".
- `Selection`: the set of enabled IDs, shared by the window and the reader,
  as a class updated in place.
- `LogReader`: the log handle (batches, a cursor, an optional failing read)
  and the viewer object. `ReadEvents` is the batched `while True` loop,
  proved against the specification function `ReadPass`. Lemmas state:
  - every stored row comes from a selected, classified record, with a date
    that reads back;
  - conversely, every selected, classified record of a batch read before
    the pass stops has its row stored;
  - the store is the concatenation of the batches in log order;
  - a failing read keeps the rows already stored;
  - disabling an ID removes exactly its rows.
- `FilterEngine`: the filtering comprehension as a function returning
  `None` where the comprehension would raise. Lemmas state:
  - when it raises;
  - the result is a subsequence of the store;
  - each row is kept exactly when it passes both tests;
  - filtering is idempotent and ignores case;
  - both date bounds are inclusive;
  - a store written by a read pass never makes the filter raise.
- `Calendar` and `Text`: the `%d-%m-%Y` and `%H:%M:%S` renderings, the
  reading back of a date (round trips in both directions), `str()` of an
  integer, ASCII `lower()`, and the substring test.
- `Window`: the window's engine. It covers the initial selection built from
  the catalog, toggling one ID, loading (connect, read, disconnect, filter),
  refiltering, and the 1-based numbering used for display and export.
- `Scenarios`: worked examples over a two-entry demonstration catalog and
  a two-record log.

The operating-system calls are parameters of the model. `OpenEventLog`
becomes an `OpenOutcome` value: a handle, a null handle, or an exception.
`ReadEventLog` becomes a `LogHandle` holding a fixed sequence of batches,
with an optional index at which a read raises. The widgets' current
values (search text, start and end date, checkbox state) become arguments.

Two consequences of the order of the code:

- `read_events` clears the store (line 94) before it checks the handle
  (lines 95-97). A load whose connection failed therefore empties the store
  and does not keep the previous events. `LoadEvents` and `ReadEvents`
  state this: with no open handle, `StoreAfterRead` is `[]`.
- When `OpenEventLog` raises, `self.hand` keeps its previous value
  (line 82), which after an earlier load is a handle already closed.
  `HandleAfterOpen` keeps the previous handle for `Raised`. The model
  treats a read on a closed handle as failing, so the store again ends up
  empty.

## Model

| member | source | states |
|---|---|---|
| Catalog.ClassifyFirstMatch | eventos-logs.py:110 | when entry k lists the ID and no earlier entry does, the lookup yields entry k's name |
| Catalog.ClassifyHasFirstMatch | eventos-logs.py:110 | a successful lookup always names the first entry that lists the ID |
| Catalog.ClassifyNoMatch | eventos-logs.py:110 | the lookup gives no category exactly when no entry lists the ID |
| Catalog.AllIdsMembership | eventos-logs.py:166-178 | an ID is among the catalog's IDs exactly when some entry lists it |
| Catalog.ClassifyDefinedOnCatalogIds | eventos-logs.py:110 | the lookup succeeds exactly for the IDs the catalog lists |
| Catalog.CreateServiceWinsFor7030 | eventos-logs.py:12-20 | 7030, listed by "Create Service" and "Insert USB", is classified "Create Service" |
| Catalog.CreateUserWinsFor4724 | eventos-logs.py:13 | 4724 is classified "Create User" |
| Catalog.InsertUsbWinsFor4663 | eventos-logs.py:17-44 | 4663 is classified "Insert USB" |
| Catalog.EmetWinsFor2 | eventos-logs.py:45 | 2 is classified "EMET", never "Update Installation" |
| Catalog.LogonFailedWinsFor4625 | eventos-logs.py:46 | 4625 is classified "Logon Failed", never "Logon Failure" |
| Catalog.ServiceTerminatedWinsFor7034 | eventos-logs.py:47 | 7034 is classified "Service Terminated Unexpectedly", never "Service Failure" |
| Catalog.ServiceStartStopWinsFor7036 | eventos-logs.py:59 | 7036 is classified "Service Start / Stop", never "Service Started" |
| Catalog.ShadowedEntryNeverChosen | eventos-logs.py:110 | an entry whose only ID an earlier entry already lists, and whose name no other entry carries, is never the lookup's result |
| Catalog.LogonFailureNamedOnce | eventos-logs.py:11-74 | no entry but the 26th is named "Logon Failure" |
| Catalog.ServiceStartedNamedOnce | eventos-logs.py:11-74 | no entry but the 32nd is named "Service Started" |
| Catalog.UpdateInstallationNamedOnce | eventos-logs.py:11-74 | no entry but the 34th is named "Update Installation" |
| Catalog.LogonFailureNeverChosen | eventos-logs.py:62 | no ID is ever classified "Logon Failure" |
| Catalog.ServiceStartedNeverChosen | eventos-logs.py:68 | no ID is ever classified "Service Started" |
| Catalog.UpdateInstallationNeverChosen | eventos-logs.py:70 | no ID is ever classified "Update Installation" |
| Catalog.EventsNamesNonEmpty | eventos-logs.py:111 | every category name is non-empty, so the truthiness test never drops a classified record |
| Selection.SelectionSet.constructor | eventos-logs.py:131 | the selection starts empty |
| Selection.SelectionSet.Add | eventos-logs.py:272 | adding inserts the ID and changes nothing else |
| Selection.SelectionSet.Discard | eventos-logs.py:274 | discarding removes the ID, absent or not, and changes nothing else |
| LogReader.LogHandle.constructor | eventos-logs.py:82 | a new handle is open, at the first batch |
| LogReader.LogHandle.ReadBatch | eventos-logs.py:100-104 | a read on a closed handle or at the failing index raises and does not move; otherwise it yields the next batch (empty past the end) and moves to the one after |
| LogReader.LogHandle.Close | eventos-logs.py:91 | closing leaves the handle closed where it was |
| LogReader.EventLogViewer.constructor | eventos-logs.py:10-78 | the viewer holds the catalog, the shared selection, the "Security" log name, no handle and no events |
| LogReader.EventLogViewer.ConnectLog | eventos-logs.py:80-87 | after an open attempt the viewer holds the new handle, null for a null handle, or the previous handle when the call raised |
| LogReader.EventLogViewer.DisconnectLog | eventos-logs.py:89-91 | a held handle is closed; with none nothing happens |
| LogReader.EventLogViewer.ReadEvents | eventos-logs.py:93-124 | the store becomes exactly the read pass from the handle's position (empty without an open handle); the handle stays open or closed as it was |
| LogReader.EventLogViewer.StoreBatch | eventos-logs.py:108-121 | the batch's kept records are appended to the store in batch order |
| Catalog.Classify | eventos-logs.py:110 | the name of the first entry, in table order, whose IDs hold the ID, or none; a name it gives belongs to an entry listing the ID |
| LogReader.Kept | eventos-logs.py:109-121 | what one record stores: at most one row, and a row it stores carries the record's ID, which is selected (AcceptedOne states which row) |
| LogReader.Accepted | eventos-logs.py:108-121 | what one batch stores: never more rows than the batch has records (AcceptedOne and AcceptedAppend fix the rows) |
| LogReader.ReadPass | eventos-logs.py:99-121 | what a read pass from read number k stores: nothing when that read fails or lies past the end of the log |
| LogReader.AcceptedOne | eventos-logs.py:109-121 | a single record stores its row exactly when its ID is selected and the catalog names it |
| LogReader.AcceptedAppend | eventos-logs.py:108-121 | the rows for two runs of records read in turn are those of the first run followed by those of the second |
| LogReader.AcceptedComplete | eventos-logs.py:108-121 | every record of a batch whose ID is selected and named has its row among the batch's stored rows |
| LogReader.ReadPassStep | eventos-logs.py:99-107 | a pass whose first read succeeds stores that batch's rows and then what the next read stores, unless the batch is empty |
| LogReader.ReadPassHasBatch | eventos-logs.py:99-121 | a row stored for a batch read before the pass stops is in the store |
| LogReader.ReadPassComplete | eventos-logs.py:99-121 | every such record of a batch read before the pass stops has its row in the store |
| LogReader.HandleAfterOpen | eventos-logs.py:80-87 | an open attempt that raised leaves the previous handle; a handle other than the previous one is null or the one the open returned |
| LogReader.AcceptedSound | eventos-logs.py:109-121 | every row kept from a batch comes from a record of that batch with a selected ID, its first-match category (non-empty), its rendered date and time, and a date that reads back |
| LogReader.ReadPassSound | eventos-logs.py:99-121 | the same holds for every row a whole read pass stores |
| LogReader.ReadPassIsConcatenation | eventos-logs.py:99-121 | a pass that stops at the first empty batch, failing read or end of log stores the concatenation of the kept rows of each earlier batch, in log order |
| LogReader.FailureKeepsPrefix | eventos-logs.py:98-124 | a pass interrupted by a failing read stores a prefix of what the uninterrupted pass stores |
| LogReader.AcceptedWithoutId | eventos-logs.py:109 | disabling one ID removes exactly that ID's rows from a batch's kept rows |
| LogReader.ReadPassWithoutId | eventos-logs.py:109 | disabling one ID removes exactly that ID's rows from a read pass and leaves the others in order |
| FilterEngine.RowText | eventos-logs.py:260 | the row as one line: the decimal ID, the date, the time and the type joined by single spaces; it starts with the ID and ends with the type |
| FilterEngine.Keeps | eventos-logs.py:260-261 | a row that passes both tests has a date that reads back |
| FilterEngine.FilterEvents | eventos-logs.py:258-262 | the comprehension never shows more rows than the store holds |
| FilterEngine.EmptySearchStep | eventos-logs.py:258-262 | with an empty search text a row in front of the store is shown exactly when its date lies within the bounds |
| FilterEngine.FilterFailsOnlyOnUnreadableDate | eventos-logs.py:258-262 | the comprehension raises exactly when some row passes the text test and has a date that does not read back |
| FilterEngine.FilterIsSubsequence | eventos-logs.py:258-262 | the shown rows are store rows in store order |
| FilterEngine.FilterKeepsExactly | eventos-logs.py:258-262 | each row appears as often as it is stored when it matches the search text and lies within the bounds, and never otherwise |
| FilterEngine.FilterIsIdempotent | eventos-logs.py:258-262 | filtering the shown rows again with the same settings shows the same rows |
| FilterEngine.SearchIgnoresCase | eventos-logs.py:254-260 | two search texts with the same lower-case form show the same rows |
| FilterEngine.OneDayWindow | eventos-logs.py:261 | with equal bounds, the shown rows are exactly the text-matching rows of that day: both bounds are inclusive |
| FilterEngine.SameDayRange | eventos-logs.py:261 | with equal bounds a row is in range exactly when it is dated that day |
| FilterEngine.FilterDefinedOnReadableDates | eventos-logs.py:261 | a store whose dates all read back never makes the filter raise |
| FilterEngine.EmptySearchFiltersByDateOnly | eventos-logs.py:260 | an empty search text matches every row, so only the date bounds filter |
| FilterEngine.FilterOnReadStore | eventos-logs.py:258-262 | a store written by a read pass never makes the filter raise |
| Calendar.FormatDate | eventos-logs.py:113 | strftime's `%d-%m-%Y` gives ten characters with dashes at positions 2 and 5 |
| Calendar.ParseDate | eventos-logs.py:261 | strptime's `%d-%m-%Y` reads only ten-character strings with dashes at positions 2 and 5 |
| Calendar.FormatTime | eventos-logs.py:114 | strftime's `%H:%M:%S`: eight characters with colons at positions 2 and 5 |
| Calendar.DateLeq | eventos-logs.py:261 | the comparison of dates: every date is before or on itself, and a date before or on another has a year no later |
| Calendar.FormatParseRoundTrip | eventos-logs.py:261 | a date rendered as DD-MM-YYYY reads back as the same date |
| Calendar.ParseFormatRoundTrip | eventos-logs.py:261 | a string that reads back as a date is that date's rendering |
| Calendar.FormatTimeFields | eventos-logs.py:114 | the time renders as two-digit hour, minute and second fields separated by colons |
| Calendar.DateLeqIsTotalOrder | eventos-logs.py:261 | the date comparison is reflexive, total, antisymmetric and transitive |
| Text.PadDigitsRoundTrip | eventos-logs.py:113-114 | a number below 10^width reads back from its zero-padded rendering |
| Text.DigitsValueRoundTrip | eventos-logs.py:261 | a digit string is the zero-padded rendering of its own value |
| Text.NatDecimalRoundTrip | eventos-logs.py:260 | the decimal rendering of an ID reads back as the ID |
| Text.Lower | eventos-logs.py:254-260 | lower-casing keeps the length and maps each character on its own |
| Text.LowerIsIdempotent | eventos-logs.py:254-260 | lower-casing twice is lower-casing once, and leaves no upper-case ASCII letter |
| Text.Decimal | eventos-logs.py:260 | `str()` of the ID: its decimal digits, led by a minus sign exactly when it is negative |
| Text.Contains | eventos-logs.py:260 | Python's `in` on strings; the empty text occurs in every string and a match is never longer than the string |
| Text.ContainsIsOccurrence | eventos-logs.py:260 | the substring test holds exactly when the search text occurs at some position |
| Window.NumberRows | eventos-logs.py:267-268 | the numbered rows are the shown rows in order, the i-th numbered i+1 |
| Window.SelectAll | eventos-logs.py:166-178 | the checklist loop adds every ID of every catalog entry to the selection and nothing else |
| Window.ShownAfter | eventos-logs.py:258-262 | after a filter run the window shows the previous rows or no more rows than the store holds |
| Window.Gui.constructor | eventos-logs.py:127-180 | the window and a fresh viewer share one selection that holds every catalog ID; nothing is loaded or shown |
| Window.Gui.UpdateTreeview | eventos-logs.py:253-262 | the shown rows become the filter's result, or stay as they were when the filter raises |
| Window.Gui.ToggleEventId | eventos-logs.py:270-275 | checking adds the ID and unchecking discards it, nothing else in the selection or the store changes, and the rows are filtered again |
| Window.Gui.LoadEvents | eventos-logs.py:247-251 | loading leaves the viewer with the handle of the open attempt, closed, a store equal to the read pass from it, an unchanged selection, and the refiltered rows |
| Scenarios.ReadBothRecords | eventos-logs.py:93-124 | with all three demonstration IDs (4720, 4722, 4625) selected, a log of a failed logon and a new user yields both rows, dated, timed and classified, in log order |
| Scenarios.AcceptedTwo | eventos-logs.py:108-121 | a batch of two records whose IDs are selected and named stores both rows, in batch order |
| Scenarios.SingleBatchPass | eventos-logs.py:99-107 | a log of one batch stores exactly that batch's rows |
| Scenarios.DisabledIdIsNotStored | eventos-logs.py:109 | with 4625 disabled only the new-user row is stored |
| Scenarios.FirstReadFails | eventos-logs.py:123-124 | a failing first read leaves the store empty |
| Scenarios.PartialIdMatches | eventos-logs.py:260 | the search text "72" matches a row with ID 4724 |
| Scenarios.OneDayFilter | eventos-logs.py:258-262 | with an empty search text and both bounds on 11-01-2024, the two-row store shows only the row of that day |
| Scenarios.SecondRowInWindow | eventos-logs.py:258-262 | with an empty search text, of two rows with readable dates only the one within the bounds is shown |

## Left out

- The Tk window, its widgets, scrolling, styles and message boxes are not
  modelled. The values the widgets supply are arguments; error dialogs and
  console messages have no counterpart.
- `win32evtlog` is not modelled. Opening, reading and closing are the
  `OpenOutcome` value and the `LogHandle` class. A read raises only at a
  chosen batch index or on a closed handle. The read flags (backwards,
  sequential) only fix the order in which batches arrive, so batches are
  given already in that order.
- The record's `TimeGenerated` timestamp and its conversion to local time
  are not modelled. A raw record carries a calendar date and a clock time
  that are already local.
- The PDF and Excel exporters and the file dialogs are not modelled. Only
  the 1-based numbering they share with the display and the text export
  is (`NumberRows`).
- A filter run that raises is modelled as "nothing changes": `ShownAfter`
  keeps the previous rows, and the exception itself is not modelled.
  Inside the read loop, only a failing read raises.
- LogReader.LogHandle.Close: closing a handle that is already closed is
  modelled as doing nothing. The operating system's close call may raise
  then, and if it did, `load_events` would stop before refiltering (line
  251) and the old rows would stay shown; the model does not capture that.
  It also takes a read on a closed handle to fail, not to succeed.
- Calendar.ParseDate: reads only the zero-padded fixed-width `DD-MM-YYYY`
  form, which is the only form the store contains. `strptime` would also
  accept one-digit days and months.
- Calendar.FormatDate: renders years 1 to 9999 with four digits; `strftime`
  behaviour for years below 1000 on other platforms is not modelled.
- Text.Lower: lower-cases ASCII letters only; Python's `str.lower` also
  maps other Unicode letters. The catalog names and dates are ASCII.
- Event IDs are unbounded integers. The 16-bit or 32-bit width the log
  reports is not modelled, because no operation here depends on it.
