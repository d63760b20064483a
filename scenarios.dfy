/** Worked examples on a two-entry catalog and a log of two records: what a
    read pass stores, what disabling an ID changes, what a failing first
    read leaves, a partial search match and a one-day date window. */
module Scenarios {
  import opened Wrappers
  import opened Text
  import opened Calendar
  import opened Catalog
  import opened LogReader
  import opened FilterEngine

  const DemoCatalog: seq<Entry> := [Entry("Create User", [4720, 4722]), Entry("Logon Failure", [4625])]

  const FailedLogon: RawRecord := RawRecord(4625, Date(10, 1, 2024), Time(9, 0, 0))

  const NewUser: RawRecord := RawRecord(4720, Date(11, 1, 2024), Time(10, 0, 0))

  const FailedLogonRow: Event := Event(4625, "10-01-2024", "09:00:00", "Logon Failure")

  const NewUserRow: Event := Event(4720, "11-01-2024", "10:00:00", "Create User")

  lemma FailedLogonDate()
    ensures FormatDate(FailedLogon.date) == "10-01-2024"
  {
    assert PadDigits(2024, 4) == "2024";
    assert PadDigits(10, 2) == "10" && PadDigits(1, 2) == "01";
  }

  lemma FailedLogonTime()
    ensures FormatTime(FailedLogon.time) == "09:00:00"
  {
    assert PadDigits(9, 2) == "09" && PadDigits(0, 2) == "00";
  }

  lemma NewUserDate()
    ensures FormatDate(NewUser.date) == "11-01-2024"
  {
    assert PadDigits(2024, 4) == "2024";
    assert PadDigits(11, 2) == "11" && PadDigits(1, 2) == "01";
  }

  lemma NewUserTime()
    ensures FormatTime(NewUser.time) == "10:00:00"
  {
    assert PadDigits(10, 2) == "10" && PadDigits(0, 2) == "00";
  }

  lemma DemoClassify()
    ensures AllIds(DemoCatalog) == {4720, 4722, 4625}
    ensures Classify(4625, DemoCatalog) == Some("Logon Failure")
    ensures Classify(4720, DemoCatalog) == Some("Create User")
  {
    assert DemoCatalog[..1] == [Entry("Create User", [4720, 4722])];
  }

  /** A batch of two admitted records stores both rows, in order. */
  lemma AcceptedTwo(a: RawRecord, b: RawRecord, selected: set<int>, catalog: seq<Entry>)
    requires Admitted(a, selected, catalog) && Admitted(b, selected, catalog)
    ensures Accepted([a, b], selected, catalog)
            == [RowFor(a, Classify(a.eventId, catalog).value), RowFor(b, Classify(b.eventId, catalog).value)]
  {
    var rowA, rowB := RowFor(a, Classify(a.eventId, catalog).value), RowFor(b, Classify(b.eventId, catalog).value);
    assert Accepted([a, b], selected, catalog) == Accepted([a], selected, catalog) + Kept(b, selected, catalog) by {
      assert [a, b][..1] == [a];
    }
    AcceptedOne(a, selected, catalog);
    assert Kept(b, selected, catalog) == [rowB];
    assert [rowA] + [rowB] == [rowA, rowB];
  }

  /** A log of one batch stores that batch's rows. */
  lemma SingleBatchPass(batch: seq<RawRecord>, selected: set<int>, catalog: seq<Entry>)
    ensures ReadPass([batch], 0, None, selected, catalog) == Accepted(batch, selected, catalog)
  {
    assert ReadPass([batch], 1, None, selected, catalog) == [];
  }

  /** With every catalog ID selected, both records are stored, tagged, in log order. */
  lemma ReadBothRecords()
    ensures ReadPass([[FailedLogon, NewUser]], 0, None, AllIds(DemoCatalog), DemoCatalog)
            == [FailedLogonRow, NewUserRow]
  {
    FailedLogonDate();
    FailedLogonTime();
    NewUserDate();
    NewUserTime();
    DemoClassify();
    AcceptedTwo(FailedLogon, NewUser, AllIds(DemoCatalog), DemoCatalog);
    SingleBatchPass([FailedLogon, NewUser], AllIds(DemoCatalog), DemoCatalog);
  }

  /** With 4625 disabled before the read, only the 4720 record is stored. */
  lemma DisabledIdIsNotStored()
    ensures ReadPass([[FailedLogon, NewUser]], 0, None, AllIds(DemoCatalog) - {4625}, DemoCatalog)
            == [NewUserRow]
  {
    ReadBothRecords();
    ReadPassWithoutId([[FailedLogon, NewUser]], 0, None, AllIds(DemoCatalog), DemoCatalog, 4625);
    assert [FailedLogonRow, NewUserRow][1..] == [NewUserRow];
    assert [NewUserRow][1..] == [];
    assert WithoutId([NewUserRow], 4625) == [NewUserRow];
    assert WithoutId([FailedLogonRow, NewUserRow], 4625) == WithoutId([NewUserRow], 4625);
  }

  /** When the very first read fails, nothing is stored. */
  lemma FirstReadFails()
    ensures ReadPass([[FailedLogon, NewUser]], 0, Some(0), AllIds(DemoCatalog), DemoCatalog) == []
  {
  }

  /** The search text "72" matches the row of event 4724: partial tokens match. */
  lemma PartialIdMatches()
    ensures TextMatches(Event(4724, "11-01-2024", "10:00:00", "Create User"), "72")
  {
    var e := Event(4724, "11-01-2024", "10:00:00", "Create User");
    assert NatDecimal(4724) == "4724";
    var hay := Lower(RowText(e));
    assert hay[1..3] == "72";
    assert OccursAt("72", hay, 1);
    ContainsIsOccurrence(hay, "72");
  }

  /** With an empty search text, of two rows whose dates read back only
      the one dated within the bounds is shown. */
  lemma SecondRowInWindow(a: Event, b: Event, c: Criteria)
    requires c.search == "" && ParseDate(a.date).Some? && ParseDate(b.date).Some?
    requires !DateInRange(a, c) && DateInRange(b, c)
    ensures FilterEvents([a, b], c) == Some([b])
  {
    assert FilterEvents([], c) == Some([]);
    EmptySearchStep(b, [], c);
    assert [b] + [] == [b];
    assert FilterEvents([b], c) == Some([b]);
    EmptySearchStep(a, [b], c);
    assert [a] + [b] == [a, b];
    assert [] + [b] == [b];
  }

  /** With an empty search text and both bounds on 11-01-2024, only the
      row of that day is shown: the end bound is inclusive. */
  lemma OneDayFilter()
    ensures FilterEvents([FailedLogonRow, NewUserRow], Criteria("", Date(11, 1, 2024), Date(11, 1, 2024)))
            == Some([NewUserRow])
  {
    FailedLogonDate();
    NewUserDate();
    FormatParseRoundTrip(FailedLogon.date);
    FormatParseRoundTrip(NewUser.date);
    SecondRowInWindow(FailedLogonRow, NewUserRow, Criteria("", Date(11, 1, 2024), Date(11, 1, 2024)));
  }
}
