/** The filter the window applies to the event store: a row is shown when
    the lower-cased search text occurs in the lower-cased "ID Date Time
    Type" line of the row and the row's date lies between the chosen start
    and end dates, both included. */
module FilterEngine {
  import opened Wrappers
  import opened Text
  import opened Calendar
  import opened Catalog
  import opened LogReader

  /** The search text and the two date bounds chosen in the window. */
  datatype Criteria = Criteria(search: string, start: CalendarDate, end: CalendarDate)

  /** The row as one line: ID, date, time and type joined by spaces. */
  function RowText(e: Event): (s: string)
    ensures |s| == |Decimal(e.id)| + |e.date| + |e.time| + |e.kind| + 3
    ensures s[..|Decimal(e.id)|] == Decimal(e.id) && s[|s| - |e.kind|..] == e.kind
  {
    Decimal(e.id) + " " + e.date + " " + e.time + " " + e.kind
  }

  /** The text test, for a search text already lower-cased. */
  predicate TextMatches(e: Event, needle: string)
  {
    Contains(Lower(RowText(e)), needle)
  }

  /** The date test: the row's date reads back and lies in [start, end]. */
  predicate DateInRange(e: Event, c: Criteria)
  {
    ParseDate(e.date).Some? && DateLeq(c.start, ParseDate(e.date).value) && DateLeq(ParseDate(e.date).value, c.end)
  }

  /** A row passes both tests. */
  predicate Keeps(e: Event, c: Criteria)
    ensures Keeps(e, c) ==> ParseDate(e.date).Some?
  {
    TextMatches(e, Lower(c.search)) && DateInRange(e, c)
  }

  /** The filtering comprehension over the store. The date of a row is only
      read back when its text test passed; a date that does not read back
      raises, which is None here. */
  function FilterEvents(store: seq<Event>, c: Criteria): (r: Option<seq<Event>>)
    ensures r.Some? ==> |r.value| <= |store|
  {
    if store == [] then Some([])
    else
      var e := store[0];
      var rest := FilterEvents(store[1..], c);
      if !TextMatches(e, Lower(c.search)) then rest
      else if ParseDate(e.date).None? || rest.None? then None
      else Some((if DateInRange(e, c) then [e] else []) + rest.value)
  }

  /** `a` is `b` with some elements left out and the rest kept in order. */
  predicate IsSubsequence<T(==)>(a: seq<T>, b: seq<T>)
    decreases |b|
  {
    a == [] || (b != [] && ((a[0] == b[0] && IsSubsequence(a[1..], b[1..])) || IsSubsequence(a, b[1..])))
  }

  /** A row on which the filter raises: it passes the text test and its date does not read back. */
  predicate RaisesOn(e: Event, c: Criteria)
  {
    TextMatches(e, Lower(c.search)) && ParseDate(e.date).None?
  }

  /** The filter raises exactly when some row passes the text test and its date does not read back. */
  lemma {:induction false} FilterFailsOnlyOnUnreadableDate(store: seq<Event>, c: Criteria)
    ensures FilterEvents(store, c).None? <==> exists i :: 0 <= i < |store| && RaisesOn(store[i], c)
  {
    if store != [] {
      var tail := store[1..];
      FilterFailsOnlyOnUnreadableDate(tail, c);
      assert FilterEvents(store, c).None? <==> RaisesOn(store[0], c) || FilterEvents(tail, c).None?;
      if exists j :: 0 <= j < |tail| && RaisesOn(tail[j], c) {
        var j :| 0 <= j < |tail| && RaisesOn(tail[j], c);
        assert store[j + 1] == tail[j];
      }
      if exists i :: 0 <= i < |store| && RaisesOn(store[i], c) {
        var i :| 0 <= i < |store| && RaisesOn(store[i], c);
        if i > 0 {
          assert tail[i - 1] == store[i];
        }
      }
    }
  }

  /** The shown rows are the store's rows in the store's order, some left out. */
  lemma {:induction false} FilterIsSubsequence(store: seq<Event>, c: Criteria)
    requires FilterEvents(store, c).Some?
    ensures IsSubsequence(FilterEvents(store, c).value, store)
  {
    if store != [] {
      FilterIsSubsequence(store[1..], c);
      var out, rest := FilterEvents(store, c).value, FilterEvents(store[1..], c).value;
      if out != rest {
        assert out == [store[0]] + rest && out[1..] == rest;
      }
    }
  }

  /** Each row is shown as often as it is stored when it passes both tests, and never otherwise. */
  lemma {:induction false} FilterKeepsExactly(store: seq<Event>, c: Criteria)
    requires FilterEvents(store, c).Some?
    ensures forall e :: multiset(FilterEvents(store, c).value)[e] ==
                        if Keeps(e, c) then multiset(store)[e] else 0
  {
    if store != [] {
      var first, tail := store[0], store[1..];
      FilterKeepsExactly(tail, c);
      assert store == [first] + tail;
      var out, rest := FilterEvents(store, c).value, FilterEvents(tail, c).value;
      if Keeps(first, c) {
        assert out == [first] + rest;
      } else {
        assert out == rest;
      }
      forall e ensures multiset(out)[e] == if Keeps(e, c) then multiset(store)[e] else 0 {
        assert multiset(store)[e] == multiset(tail)[e] + if e == first then 1 else 0;
      }
    }
  }

  /** Filtering the shown rows again with the same settings shows the same rows. */
  lemma {:induction false} FilterIsIdempotent(store: seq<Event>, c: Criteria)
    requires FilterEvents(store, c).Some?
    ensures FilterEvents(FilterEvents(store, c).value, c) == FilterEvents(store, c)
  {
    if store != [] {
      FilterIsIdempotent(store[1..], c);
      var e, out, rest := store[0], FilterEvents(store, c).value, FilterEvents(store[1..], c).value;
      assert FilterEvents(rest, c) == Some(rest);
      if out != rest {
        assert Keeps(e, c) && out == [e] + rest;
        assert out[0] == e && out[1..] == rest;
        assert FilterEvents(out, c) == Some([e] + rest);
      }
    }
  }

  /** The search text is compared without regard to ASCII case. */
  lemma {:induction false} SearchIgnoresCase(store: seq<Event>, c: Criteria, search: string)
    requires Lower(search) == Lower(c.search)
    ensures FilterEvents(store, c.(search := search)) == FilterEvents(store, c)
  {
    if store != [] {
      SearchIgnoresCase(store[1..], c, search);
    }
  }

  /** Both bounds are inclusive: with the start and end on the same day,
      the shown rows are exactly the text-matching rows of that day. */
  lemma OneDayWindow(store: seq<Event>, c: Criteria)
    requires c.start == c.end && FilterEvents(store, c).Some?
    ensures forall e :: e in FilterEvents(store, c).value <==>
                        e in store && TextMatches(e, Lower(c.search)) && ParseDate(e.date) == Some(c.start)
  {
    FilterKeepsExactly(store, c);
    forall e ensures DateInRange(e, c) <==> ParseDate(e.date) == Some(c.start) {
      SameDayRange(e, c);
    }
  }

  /** With the start and end on the same day, a row is in range exactly when it is dated that day. */
  lemma SameDayRange(e: Event, c: Criteria)
    requires c.start == c.end
    ensures DateInRange(e, c) <==> ParseDate(e.date) == Some(c.start)
  {
    if ParseDate(e.date).Some? {
      DateLeqIsTotalOrder(c.start, ParseDate(e.date).value, c.end);
    }
  }

  /** With an empty search text, one row in front of a store whose filter
      succeeds is shown exactly when its date lies within the bounds. */
  lemma EmptySearchStep(e: Event, rest: seq<Event>, c: Criteria)
    requires c.search == "" && ParseDate(e.date).Some? && FilterEvents(rest, c).Some?
    ensures FilterEvents([e] + rest, c) ==
            Some((if DateInRange(e, c) then [e] else []) + FilterEvents(rest, c).value)
  {
    assert ([e] + rest)[0] == e && ([e] + rest)[1..] == rest;
    assert Lower(c.search) == "";
  }

  /** A store whose every date reads back never makes the filter raise. */
  lemma FilterDefinedOnReadableDates(store: seq<Event>, c: Criteria)
    requires forall i :: 0 <= i < |store| ==> ParseDate(store[i].date).Some?
    ensures FilterEvents(store, c).Some?
  {
    FilterFailsOnlyOnUnreadableDate(store, c);
  }

  /** With an empty search text every row passes the text test, so the
      shown rows are exactly the stored rows dated within the bounds. */
  lemma EmptySearchFiltersByDateOnly(store: seq<Event>, c: Criteria)
    requires c.search == "" && FilterEvents(store, c).Some?
    ensures forall e :: e in FilterEvents(store, c).value <==> e in store && DateInRange(e, c)
  {
    FilterKeepsExactly(store, c);
    forall e ensures TextMatches(e, Lower(c.search)) {
      assert Lower(c.search) == "";
    }
  }

  /** A store written by a read pass never makes the filter raise. */
  lemma FilterOnReadStore(batches: seq<seq<RawRecord>>, k: nat, failAt: Option<nat>,
                          selected: set<int>, catalog: seq<Entry>, c: Criteria)
    ensures FilterEvents(ReadPass(batches, k, failAt, selected, catalog), c).Some?
  {
    var store := ReadPass(batches, k, failAt, selected, catalog);
    ReadPassSound(batches, k, failAt, selected, catalog);
    forall i | 0 <= i < |store| ensures ParseDate(store[i].date).Some? {
      assert store[i] in store;
    }
    FilterDefinedOnReadableDates(store, c);
  }
}
