/** The window's engine, without its widgets: it owns the selection set it
    shares with the viewer, builds that set from the catalog, toggles single
    IDs, loads the log and keeps the currently shown rows. The search text
    and the two date bounds, read from widgets in the window, are given as
    a Criteria value. */
module Window {
  import opened Wrappers
  import opened Catalog
  import opened Selection
  import opened LogReader
  import opened FilterEngine

  /** One row as it is shown and exported: its number, counting from 1, then its fields. */
  datatype Row = Row(index: nat, id: int, date: string, time: string, kind: string)

  /** Numbering of the shown rows for display and export, as enumerate(..., start=1) does it. */
  method NumberRows(rows: seq<Event>) returns (numbered: seq<Row>)
    ensures |numbered| == |rows|
    ensures forall i :: 0 <= i < |rows| ==>
              numbered[i] == Row(i + 1, rows[i].id, rows[i].date, rows[i].time, rows[i].kind)
  {
    numbered := [];
    var index := 1;
    for i := 0 to |rows|
      invariant index == i + 1
      invariant |numbered| == i
      invariant forall j :: 0 <= j < i ==>
                  numbered[j] == Row(j + 1, rows[j].id, rows[j].date, rows[j].time, rows[j].kind)
    {
      var event := rows[i];
      numbered := numbered + [Row(index, event.id, event.date, event.time, event.kind)];
      index := index + 1;
    }
  }

  /** The constructor's checklist loop: every ID of every entry, in catalog
      order, is added to the selection set. */
  method SelectAll(selection: SelectionSet, catalog: seq<Entry>)
    modifies selection
    ensures selection.ids == old(selection.ids) + AllIds(catalog)
  {
    for k := 0 to |catalog|
      invariant selection.ids == old(selection.ids) + AllIds(catalog[..k])
    {
      var entry := catalog[k];
      for j := 0 to |entry.ids|
        invariant selection.ids == old(selection.ids) + AllIds(catalog[..k]) + IdSet(entry.ids[..j])
      {
        selection.Add(entry.ids[j]);
        assert entry.ids[..j + 1] == entry.ids[..j] + [entry.ids[j]];
      }
      assert entry.ids[..|entry.ids|] == entry.ids;
      assert catalog[..k + 1][..k] == catalog[..k];
    }
    assert catalog[..|catalog|] == catalog;
  }

  /** The rows shown after a filter run: the filter's rows, or the previous
      ones when the filter raised. */
  function ShownAfter(store: seq<Event>, c: Criteria, previous: seq<Event>): (rows: seq<Event>)
    ensures rows == previous || |rows| <= |store|
  {
    match FilterEvents(store, c)
    case Some(rows) => rows
    case None => previous
  }

  class Gui {
    const selected: SelectionSet
    const logViewer: EventLogViewer
    var filteredData: seq<Event>

    /** The window and the viewer hold the same selection set. */
    ghost predicate Valid()
    {
      logViewer.selected == selected
    }

    /** A window whose selection set holds every ID of the catalog, sharing
        that set with a fresh viewer that holds no handle and no events. */
    constructor ()
      ensures Valid() && fresh(selected) && fresh(logViewer)
      ensures selected.ids == AllIds(Events)
      ensures logViewer.events == Events && logViewer.hand == null && logViewer.eventData == []
      ensures filteredData == []
    {
      var ids := new SelectionSet();
      selected := ids;
      logViewer := new EventLogViewer(ids);
      filteredData := [];
      new;
      SelectAll(selected, logViewer.events);
    }

    /** Filtering the store into the shown rows. */
    method UpdateTreeview(c: Criteria)
      modifies this`filteredData
      ensures filteredData == ShownAfter(logViewer.eventData, c, old(filteredData))
    {
      var result := FilterEvents(logViewer.eventData, c);
      if result.Some? {
        filteredData := result.value;
      }
    }

    /** A checkbox change: the ID is added when checked and discarded when
        not; no other ID changes and the stored events are untouched; then
        the shown rows are filtered again. */
    method ToggleEventId(eventId: int, checked: bool, c: Criteria)
      modifies selected, this`filteredData
      ensures selected.ids == if checked then old(selected.ids) + {eventId} else old(selected.ids) - {eventId}
      ensures logViewer.eventData == old(logViewer.eventData)
      ensures filteredData == ShownAfter(logViewer.eventData, c, old(filteredData))
    {
      if checked {
        selected.Add(eventId);
      } else {
        selected.Discard(eventId);
      }
      UpdateTreeview(c);
    }

    /** Loading: open the log, run a read pass, close the handle, filter. */
    method LoadEvents(outcome: OpenOutcome, c: Criteria)
      requires Valid()
      modifies logViewer, logViewer.hand, if outcome.Opened? then {outcome.handle} else {}
      modifies this`filteredData
      ensures logViewer.hand == HandleAfterOpen(outcome, old(logViewer.hand))
      ensures logViewer.eventData ==
                old(StoreAfterRead(HandleAfterOpen(outcome, logViewer.hand), selected.ids, logViewer.events))
      ensures logViewer.hand != null ==> !logViewer.hand.isOpen
      ensures selected.ids == old(selected.ids)
      ensures filteredData == ShownAfter(logViewer.eventData, c, old(filteredData))
    {
      logViewer.ConnectLog(outcome);
      logViewer.ReadEvents();
      logViewer.DisconnectLog();
      UpdateTreeview(c);
    }
  }
}
