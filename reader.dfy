/** The log reader: an abstract source of batches standing for the
    operating system's backward, sequential event-log reads, and the viewer
    object whose read pass fills the event store with the selected and
    classified records. */
module LogReader {
  import opened Wrappers
  import opened Calendar
  import opened Catalog
  import opened Selection

  /** One record as the log returns it: its event ID and when it was generated. */
  datatype RawRecord = RawRecord(eventId: int, date: CalendarDate, time: ClockTime)

  /** One stored row: its "Event ID", "Date" (DD-MM-YYYY), "Time" (HH:MM:SS) and "Type". */
  datatype Event = Event(id: int, date: string, time: string, kind: string)

  /** What one batch read gives: the next records, or an error raised by the read. */
  datatype ReadResult = Batch(records: seq<RawRecord>) | ReadFailed

  /** Batch number `k` of a log; past the last batch every read is empty. */
  function BatchAt(batches: seq<seq<RawRecord>>, k: nat): seq<RawRecord>
  {
    if k < |batches| then batches[k] else []
  }

  /** A handle on the log. Read number `failAt`, if any, raises instead of
      returning a batch; a closed handle raises on every read. */
  class LogHandle {
    const batches: seq<seq<RawRecord>>
    const failAt: Option<nat>
    var cursor: nat
    var isOpen: bool

    constructor (batches: seq<seq<RawRecord>>, failAt: Option<nat>)
      ensures this.batches == batches && this.failAt == failAt
      ensures cursor == 0 && isOpen
    {
      this.batches := batches;
      this.failAt := failAt;
      cursor := 0;
      isOpen := true;
    }

    /** One read call: the next batch, advancing past it, or a failure that reads nothing. */
    method ReadBatch() returns (r: ReadResult)
      modifies this
      ensures isOpen == old(isOpen)
      ensures !isOpen || failAt == Some(old(cursor)) ==> r == ReadFailed && cursor == old(cursor)
      ensures isOpen && failAt != Some(old(cursor)) ==>
                r == Batch(BatchAt(batches, old(cursor))) && cursor == old(cursor) + 1
    {
      if !isOpen || failAt == Some(cursor) {
        r := ReadFailed;
      } else {
        r := Batch(BatchAt(batches, cursor));
        cursor := cursor + 1;
      }
    }

    /** Closing the handle; later reads fail. */
    method Close()
      modifies this
      ensures !isOpen && cursor == old(cursor)
    {
      isOpen := false;
    }
  }

  /** A record the reader keeps: its ID is selected and the catalog gives it a non-empty name. */
  ghost predicate Admitted(r: RawRecord, selected: set<int>, catalog: seq<Entry>)
  {
    r.eventId in selected && Classify(r.eventId, catalog).Some? && Classify(r.eventId, catalog).value != ""
  }

  /** The row stored for a record, named `name`. */
  function RowFor(r: RawRecord, name: string): Event
  {
    Event(r.eventId, FormatDate(r.date), FormatTime(r.time), name)
  }

  /** What the reader stores for one record: nothing unless its ID is
      selected and the catalog gives it a non-empty name. */
  function Kept(r: RawRecord, selected: set<int>, catalog: seq<Entry>): (rows: seq<Event>)
    ensures |rows| <= 1
    ensures rows != [] ==> rows[0].id == r.eventId && r.eventId in selected
  {
    if r.eventId in selected then
      match Classify(r.eventId, catalog)
      case Some(name) =>
        if name != "" then [RowFor(r, name)] else []
      case None => []
    else []
  }

  /** What the reader stores for one batch, in the batch's order. */
  function Accepted(batch: seq<RawRecord>, selected: set<int>, catalog: seq<Entry>): (rows: seq<Event>)
    ensures |rows| <= |batch|
  {
    if batch == [] then []
    else Accepted(batch[..|batch| - 1], selected, catalog) + Kept(batch[|batch| - 1], selected, catalog)
  }

  /** What a read pass stores when it starts at read number `k` of an open
      handle: the accepted records of each batch in turn, up to the first
      empty batch or the first failing read. */
  function ReadPass(batches: seq<seq<RawRecord>>, k: nat, failAt: Option<nat>,
                    selected: set<int>, catalog: seq<Entry>): (rows: seq<Event>)
    ensures failAt == Some(k) || k >= |batches| ==> rows == []
    decreases |batches| - k
  {
    if failAt == Some(k) || k >= |batches| || batches[k] == [] then []
    else Accepted(batches[k], selected, catalog) + ReadPass(batches, k + 1, failAt, selected, catalog)
  }

  /** The accepted records of a run of batches, one batch after another. */
  function AcceptedAll(batches: seq<seq<RawRecord>>, selected: set<int>, catalog: seq<Entry>): seq<Event>
  {
    if batches == [] then []
    else Accepted(batches[0], selected, catalog) + AcceptedAll(batches[1..], selected, catalog)
  }

  lemma AppendIsAssociative<T>(a: seq<T>, b: seq<T>, c: seq<T>)
    ensures a + b + c == a + (b + c)
  {
  }

  /** A single record stores its row exactly when it is admitted. */
  lemma AcceptedOne(r: RawRecord, selected: set<int>, catalog: seq<Entry>)
    ensures Accepted([r], selected, catalog) ==
            if Admitted(r, selected, catalog) then [RowFor(r, Classify(r.eventId, catalog).value)] else []
  {
    assert [r][..0] == [];
  }

  /** The rows stored for two runs of records read one after the other are
      the rows of the first run followed by those of the second: together
      with AcceptedOne this fixes Accepted on every batch. */
  lemma {:induction false} AcceptedAppend(a: seq<RawRecord>, b: seq<RawRecord>, selected: set<int>, catalog: seq<Entry>)
    ensures Accepted(a + b, selected, catalog) == Accepted(a, selected, catalog) + Accepted(b, selected, catalog)
    decreases |b|
  {
    if b == [] {
      assert a + b == a;
    } else {
      var init, last := b[..|b| - 1], b[|b| - 1];
      assert Accepted(a + b, selected, catalog) == Accepted(a + init, selected, catalog) + Kept(last, selected, catalog) by {
        assert (a + b)[..|a + b| - 1] == a + init && (a + b)[|a + b| - 1] == last;
      }
      AcceptedAppend(a, init, selected, catalog);
      AppendIsAssociative(Accepted(a, selected, catalog), Accepted(init, selected, catalog), Kept(last, selected, catalog));
    }
  }

  /** Every admitted record of a batch has its row stored. */
  lemma {:induction false} AcceptedComplete(batch: seq<RawRecord>, selected: set<int>, catalog: seq<Entry>, i: int)
    requires 0 <= i < |batch| && Admitted(batch[i], selected, catalog)
    ensures RowFor(batch[i], Classify(batch[i].eventId, catalog).value) in Accepted(batch, selected, catalog)
  {
    var r := batch[i];
    assert batch == batch[..i] + ([r] + batch[i + 1..]);
    AcceptedAppend(batch[..i], [r] + batch[i + 1..], selected, catalog);
    AcceptedAppend([r], batch[i + 1..], selected, catalog);
    AcceptedOne(r, selected, catalog);
  }

  /** A row stored for a batch the pass reads before it stops is in the store. */
  lemma {:induction false} ReadPassHasBatch(batches: seq<seq<RawRecord>>, k: nat, failAt: Option<nat>,
                                            selected: set<int>, catalog: seq<Entry>, i: nat, row: Event)
    requires i < |batches| && k <= i
    requires forall m :: k <= m <= i ==> batches[m] != [] && failAt != Some(m)
    requires row in Accepted(batches[i], selected, catalog)
    ensures row in ReadPass(batches, k, failAt, selected, catalog)
    decreases i - k
  {
    var first, rest := Accepted(batches[k], selected, catalog), ReadPass(batches, k + 1, failAt, selected, catalog);
    assert ReadPass(batches, k, failAt, selected, catalog) == first + rest by {
      assert batches[k] != [] && failAt != Some(k);
    }
    assert row in first + rest by {
      if k < i {
        ReadPassHasBatch(batches, k + 1, failAt, selected, catalog, i, row);
      }
    }
  }

  /** Every admitted record of a batch the pass reads before it stops has its row stored. */
  lemma ReadPassComplete(batches: seq<seq<RawRecord>>, k: nat, failAt: Option<nat>,
                         selected: set<int>, catalog: seq<Entry>, i: nat, n: int)
    requires i < |batches| && 0 <= n < |batches[i]|
    requires forall m :: k <= m <= i ==> batches[m] != [] && failAt != Some(m)
    requires k <= i && Admitted(batches[i][n], selected, catalog)
    ensures RowFor(batches[i][n], Classify(batches[i][n].eventId, catalog).value)
            in ReadPass(batches, k, failAt, selected, catalog)
  {
    AcceptedComplete(batches[i], selected, catalog, n);
    ReadPassHasBatch(batches, k, failAt, selected, catalog, i,
                     RowFor(batches[i][n], Classify(batches[i][n].eventId, catalog).value));
  }

  /** Stored row `e` was made from raw record `r`: same ID, and its date and time as written by strftime. */
  ghost predicate StoredFrom(e: Event, r: RawRecord)
  {
    e.id == r.eventId && e.date == FormatDate(r.date) && e.time == FormatTime(r.time)
  }

  /** What the reader promises of each row it stores: the ID is selected,
      the type is the first catalog name for the ID, and the date string
      reads back as a date. */
  ghost predicate WellClassified(e: Event, selected: set<int>, catalog: seq<Entry>)
  {
    e.id in selected && Classify(e.id, catalog) == Some(e.kind) && e.kind != "" && ParseDate(e.date).Some?
  }

  /** Every row stored for a batch is well classified and comes from a record of that batch. */
  lemma {:induction false} AcceptedSound(batch: seq<RawRecord>, selected: set<int>, catalog: seq<Entry>)
    ensures forall e :: e in Accepted(batch, selected, catalog) ==>
              WellClassified(e, selected, catalog) && exists r :: r in batch && StoredFrom(e, r)
  {
    if batch != [] {
      var init, last := batch[..|batch| - 1], batch[|batch| - 1];
      AcceptedSound(init, selected, catalog);
      FormatParseRoundTrip(last.date);
      forall e | e in Accepted(batch, selected, catalog)
        ensures WellClassified(e, selected, catalog) && exists r :: r in batch && StoredFrom(e, r)
      {
        if e in Accepted(init, selected, catalog) {
          var r :| r in init && StoredFrom(e, r);
          assert r in batch;
        } else {
          assert e in Kept(last, selected, catalog);
          assert last in batch && StoredFrom(e, last);
        }
      }
    }
  }

  /** Every row a read pass stores is well classified and comes from a record of one of the batches it read. */
  lemma {:induction false} ReadPassSound(batches: seq<seq<RawRecord>>, k: nat, failAt: Option<nat>,
                                         selected: set<int>, catalog: seq<Entry>)
    ensures forall e :: e in ReadPass(batches, k, failAt, selected, catalog) ==>
              WellClassified(e, selected, catalog)
              && exists i :: k <= i < |batches| && exists r :: r in batches[i] && StoredFrom(e, r)
    decreases |batches| - k
  {
    if !(failAt == Some(k) || k >= |batches| || batches[k] == []) {
      AcceptedSound(batches[k], selected, catalog);
      ReadPassSound(batches, k + 1, failAt, selected, catalog);
    }
  }

  /** The read pass stops at the first empty batch or failing read, number
      `j`: what it stores is the accepted rows of batches `k` to `j - 1`,
      batch after batch, each in its own order. */
  lemma {:induction false} ReadPassIsConcatenation(batches: seq<seq<RawRecord>>, k: nat, j: nat,
                                                   failAt: Option<nat>, selected: set<int>, catalog: seq<Entry>)
    requires k <= j <= |batches|
    requires forall i :: k <= i < j ==> batches[i] != [] && failAt != Some(i)
    requires j == |batches| || batches[j] == [] || failAt == Some(j)
    ensures ReadPass(batches, k, failAt, selected, catalog) == AcceptedAll(batches[k..j], selected, catalog)
    decreases j - k
  {
    if k < j {
      assert ReadPass(batches, k, failAt, selected, catalog)
             == Accepted(batches[k], selected, catalog) + ReadPass(batches, k + 1, failAt, selected, catalog) by {
        assert batches[k] != [] && failAt != Some(k);
      }
      assert AcceptedAll(batches[k..j], selected, catalog)
             == Accepted(batches[k], selected, catalog) + AcceptedAll(batches[k + 1..j], selected, catalog) by {
        assert batches[k..j][0] == batches[k] && batches[k..j][1..] == batches[k + 1..j];
      }
      ReadPassIsConcatenation(batches, k + 1, j, failAt, selected, catalog);
    }
  }

  /** A read that fails partway keeps, unchanged and in order, what the
      same pass would have stored up to that read: its store is a prefix of
      the store of the pass that does not fail. */
  lemma {:induction false} FailureKeepsPrefix(batches: seq<seq<RawRecord>>, k: nat, f: nat,
                                              selected: set<int>, catalog: seq<Entry>)
    ensures ReadPass(batches, k, Some(f), selected, catalog) <= ReadPass(batches, k, None, selected, catalog)
    decreases |batches| - k
  {
    if !(k >= |batches| || batches[k] == []) && f != k {
      FailureKeepsPrefix(batches, k + 1, f, selected, catalog);
    }
  }

  /** The rows of a store whose ID is not `id`, in order. */
  function WithoutId(s: seq<Event>, id: int): seq<Event>
  {
    if s == [] then [] else (if s[0].id == id then [] else [s[0]]) + WithoutId(s[1..], id)
  }

  lemma {:induction false} WithoutIdDistributes(a: seq<Event>, b: seq<Event>, id: int)
    ensures WithoutId(a + b, id) == WithoutId(a, id) + WithoutId(b, id)
  {
    if a != [] {
      WithoutIdDistributes(a[1..], b, id);
      assert (a + b)[1..] == a[1..] + b;
    } else {
      assert a + b == b;
    }
  }

  /** Disabling an ID drops exactly that ID's rows from what a batch stores. */
  lemma {:induction false} AcceptedWithoutId(batch: seq<RawRecord>, selected: set<int>, catalog: seq<Entry>, id: int)
    ensures Accepted(batch, selected - {id}, catalog) == WithoutId(Accepted(batch, selected, catalog), id)
  {
    if batch != [] {
      var init, last := batch[..|batch| - 1], batch[|batch| - 1];
      AcceptedWithoutId(init, selected, catalog, id);
      WithoutIdDistributes(Accepted(init, selected, catalog), Kept(last, selected, catalog), id);
      var kept := Kept(last, selected, catalog);
      if kept != [] {
        assert kept[1..] == [];
      }
      assert Kept(last, selected - {id}, catalog) == WithoutId(kept, id);
    }
  }

  /** Disabling an ID before a read pass drops exactly that ID's rows from
      the store and keeps every other row, in the same order. */
  lemma {:induction false} ReadPassWithoutId(batches: seq<seq<RawRecord>>, k: nat, failAt: Option<nat>,
                                             selected: set<int>, catalog: seq<Entry>, id: int)
    ensures ReadPass(batches, k, failAt, selected - {id}, catalog)
            == WithoutId(ReadPass(batches, k, failAt, selected, catalog), id)
    decreases |batches| - k
  {
    if !(failAt == Some(k) || k >= |batches| || batches[k] == []) {
      ReadPassWithoutId(batches, k + 1, failAt, selected, catalog, id);
      AcceptedWithoutId(batches[k], selected, catalog, id);
      WithoutIdDistributes(Accepted(batches[k], selected, catalog),
                           ReadPass(batches, k + 1, failAt, selected, catalog), id);
    }
  }

  /** A read pass whose first read succeeds stores the accepted records of
      that batch, then goes on with the next read, unless the batch is empty. */
  lemma ReadPassStep(batches: seq<seq<RawRecord>>, k: nat, failAt: Option<nat>, selected: set<int>, catalog: seq<Entry>)
    requires failAt != Some(k)
    ensures ReadPass(batches, k, failAt, selected, catalog)
            == if BatchAt(batches, k) == [] then []
               else Accepted(BatchAt(batches, k), selected, catalog) + ReadPass(batches, k + 1, failAt, selected, catalog)
  {
  }

  /** The result of opening the log: a handle, a null handle, or an exception. */
  datatype OpenOutcome = Opened(handle: LogHandle) | NullHandle | Raised

  /** The handle the viewer holds after an open attempt: an exception leaves the previous one in place. */
  function HandleAfterOpen(outcome: OpenOutcome, previous: LogHandle?): (h: LogHandle?)
    ensures h != previous ==> h == null || (outcome.Opened? && h == outcome.handle)
    ensures outcome.Raised? ==> h == previous
  {
    match outcome
    case Opened(h) => h
    case NullHandle => null
    case Raised => previous
  }

  /** The event store a read pass leaves when it starts on `h` as it is now. */
  ghost function StoreAfterRead(h: LogHandle?, selected: set<int>, catalog: seq<Entry>): seq<Event>
    reads h
  {
    if h == null || !h.isOpen then [] else ReadPass(h.batches, h.cursor, h.failAt, selected, catalog)
  }

  class EventLogViewer {
    const events: seq<Entry>
    const selected: SelectionSet
    const logType: string
    var hand: LogHandle?
    var eventData: seq<Event>

    /** A viewer on the built-in catalog and the given selection set, holding no handle and no events. */
    constructor (selected: SelectionSet)
      ensures events == Events && this.selected == selected && logType == "Security"
      ensures hand == null && eventData == []
    {
      events := Events;
      this.selected := selected;
      logType := "Security";
      hand := null;
      eventData := [];
    }

    /** Opening the log: the handle is replaced unless opening raised. */
    method ConnectLog(outcome: OpenOutcome)
      modifies this`hand
      ensures hand == HandleAfterOpen(outcome, old(hand))
    {
      match outcome {
        case Opened(h) => hand := h;
        case NullHandle => hand := null;
        case Raised =>
      }
    }

    /** Closing the log when a handle is held; the handle stays referenced. */
    method DisconnectLog()
      modifies hand
      ensures hand != null ==> !hand.isOpen && hand.cursor == old(hand.cursor)
    {
      if hand != null {
        hand.Close();
      }
    }

    /** One read pass: the store is cleared, then refilled batch by batch
        until an empty batch or a failing read. Only records whose ID is
        selected and named by the catalog are stored; a failing read keeps
        what was stored before it. */
    method ReadEvents()
      modifies this`eventData, hand
      ensures hand != null ==> hand.isOpen == old(hand.isOpen)
      ensures eventData == old(StoreAfterRead(hand, selected.ids, events))
    {
      eventData := [];
      if hand == null {
        return;
      }
      var h := hand;
      ghost var goal := StoreAfterRead(h, selected.ids, events);
      while true
        invariant h.isOpen == old(h.isOpen)
        invariant eventData + StoreAfterRead(h, selected.ids, events) == goal
        decreases |h.batches| - h.cursor
      {
        ghost var before := StoreAfterRead(h, selected.ids, events);
        ghost var stored := eventData;
        ghost var k := h.cursor;
        var result := h.ReadBatch();
        if result.ReadFailed? {
          assert before == [];
          break;
        }
        ReadPassStep(h.batches, k, h.failAt, selected.ids, events);
        var batch := result.records;
        if batch == [] {
          assert before == [];
          break;
        }
        ghost var rest := ReadPass(h.batches, h.cursor, h.failAt, selected.ids, events);
        assert before == Accepted(batch, selected.ids, events) + rest;
        StoreBatch(batch);
        AppendIsAssociative(stored, Accepted(batch, selected.ids, events), rest);
      }
    }

    /** The inner loop of a read pass: the accepted records of one batch are
        appended to the store, in the batch's order. */
    method StoreBatch(batch: seq<RawRecord>)
      modifies this`eventData
      ensures eventData == old(eventData) + Accepted(batch, selected.ids, events)
    {
      for i := 0 to |batch|
        invariant eventData == old(eventData) + Accepted(batch[..i], selected.ids, events)
      {
        var record := batch[i];
        ghost var stored := eventData;
        if record.eventId in selected.ids {
          var eventType := Classify(record.eventId, events);
          if eventType.Some? && eventType.value != "" {
            eventData := eventData + [RowFor(record, eventType.value)];
          }
        }
        assert eventData == stored + Kept(record, selected.ids, events);
        assert Accepted(batch[..i + 1], selected.ids, events)
               == Accepted(batch[..i], selected.ids, events) + Kept(record, selected.ids, events) by {
          assert batch[..i + 1][..i] == batch[..i];
        }
        AppendIsAssociative(old(eventData), Accepted(batch[..i], selected.ids, events), Kept(record, selected.ids, events));
      }
      assert batch[..|batch|] == batch;
    }
  }
}
