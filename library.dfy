/**
 * The library list of src/components/Library.tsx: `processItems` orders
 * items by last-read time, newest first, and can hide completed items; the
 * series view applies the same to the series' books.
 */
module Library {
  import opened Wrappers
  import opened Types
  import opened Sorting
  import opened Storage

  /** The comparator `(a, b) => getItemLastRead(b) - getItemLastRead(a)` as an ascending key. */
  function Recency(entries: Entries): LibraryItem -> int
  {
    (item: LibraryItem) => -ItemLastRead(entries, item)
  }

  /** The filter `item => !isItemCompleted(item)`. */
  function Unfinished(entries: Entries): LibraryItem -> bool
  {
    (item: LibraryItem) => !ItemCompleted(entries, item)
  }

  /** What `processItems(list)` returns for a store snapshot. */
  function Processed(entries: Entries, list: seq<LibraryItem>, hideCompleted: bool): seq<LibraryItem>
  {
    var sorted := Sort(list, Recency(entries));
    if hideCompleted then Filter(sorted, Unfinished(entries)) else sorted
  }

  /** A series' books as library items (`selectedSeries.books as LibraryItem[]`). */
  function BookItems(books: seq<Book>): (items: seq<LibraryItem>)
    ensures |items| == |books|
    ensures forall i | 0 <= i < |items| :: items[i] == BookItem(books[i])
  {
    seq(|books|, i requires 0 <= i < |books| => BookItem(books[i]))
  }

  /** `processItems`: copy, sort the copy in place, then filter. */
  method ProcessItems(store: ProgressStore, list: seq<LibraryItem>, hideCompleted: bool) returns (result: seq<LibraryItem>)
    ensures result == Processed(store.entries, list, hideCompleted)
  {
    var a := new LibraryItem[|list|](i requires 0 <= i < |list| => list[i]);
    assert a[..] == list;
    SortInPlace(a, Recency(store.entries));
    result := a[..];
    if hideCompleted {
      result := Filter(result, Unfinished(store.entries));
    }
  }

  /** `displayedItems`: the selected series' books, or the whole library. */
  method DisplayedItems(store: ProgressStore, items: seq<LibraryItem>, selectedSeries: Option<Series>, hideCompleted: bool)
    returns (shown: seq<LibraryItem>)
    ensures selectedSeries.Some? ==> shown == Processed(store.entries, BookItems(selectedSeries.value.books), hideCompleted)
    ensures selectedSeries.None? ==> shown == Processed(store.entries, items, hideCompleted)
  {
    if selectedSeries.Some? {
      shown := ProcessItems(store, BookItems(selectedSeries.value.books), hideCompleted);
    } else {
      shown := ProcessItems(store, items, hideCompleted);
    }
  }
}

/** What the library ordering promises. */
module LibraryProperties {
  import opened Wrappers
  import opened Types
  import opened Sorting
  import opened Storage
  import opened Library

  /** Newest first: last-read times never increase along the result. */
  lemma ProcessedNewestFirst(entries: Entries, list: seq<LibraryItem>, hideCompleted: bool)
    ensures forall i, j | 0 <= i < j < |Processed(entries, list, hideCompleted)| ::
      ItemLastRead(entries, Processed(entries, list, hideCompleted)[i]) >=
      ItemLastRead(entries, Processed(entries, list, hideCompleted)[j])
  {
    var key := Recency(entries);
    SortFacts(list, key);
    FilterSorted(Sort(list, key), Unfinished(entries), key);
    var r := Processed(entries, list, hideCompleted);
    assert SortedBy(r, key);
    forall i, j | 0 <= i < j < |r| ensures ItemLastRead(entries, r[i]) >= ItemLastRead(entries, r[j]) {
      assert key(r[i]) <= key(r[j]);
    }
  }

  /** Without hiding, the result is a permutation of the input. */
  lemma ProcessedPermutation(entries: Entries, list: seq<LibraryItem>)
    ensures multiset(Processed(entries, list, false)) == multiset(list)
  {
    SortFacts(list, Recency(entries));
  }

  /**
   * With hiding, the result is the input's unfinished items, sorted: the
   * same as filtering first, a permutation of them, and an item is in it
   * iff it is in the input and not completed.
   */
  lemma ProcessedHidesCompleted(entries: Entries, list: seq<LibraryItem>)
    ensures Processed(entries, list, true) == Sort(Filter(list, Unfinished(entries)), Recency(entries))
    ensures multiset(Processed(entries, list, true)) == multiset(Filter(list, Unfinished(entries)))
    ensures forall x :: x in Processed(entries, list, true) <==> x in list && !ItemCompleted(entries, x)
  {
    var key, p := Recency(entries), Unfinished(entries);
    FilterSortCommute(list, p, key);
    SortFacts(Filter(list, p), key);
    forall x ensures x in Processed(entries, list, true) <==> x in list && !ItemCompleted(entries, x) {
      assert x in Processed(entries, list, true) <==> x in multiset(Filter(list, p));
      FilterMember(list, p, x);
    }
  }

  /** Items read at the same time keep their input order (the sort is stable). */
  lemma ProcessedStable(entries: Entries, list: seq<LibraryItem>, hideCompleted: bool, t: int)
    ensures WithKey(Processed(entries, list, hideCompleted), Recency(entries), -t) ==
      WithKey(if hideCompleted then Filter(list, Unfinished(entries)) else list, Recency(entries), -t)
  {
    var key, p := Recency(entries), Unfinished(entries);
    if hideCompleted {
      FilterSortCommute(list, p, key);
      SortFacts(Filter(list, p), key);
    } else {
      SortFacts(list, key);
    }
  }

  /** The series view shows only books of the selected series. */
  lemma SeriesViewShowsItsBooks(entries: Entries, s: Series, hideCompleted: bool)
    ensures forall x | x in Processed(entries, BookItems(s.books), hideCompleted) ::
      x.BookItem? && x.book in s.books
  {
    var items := BookItems(s.books);
    var key, p := Recency(entries), Unfinished(entries);
    SortFacts(items, key);
    forall x | x in Processed(entries, items, hideCompleted) ensures x.BookItem? && x.book in s.books {
      if hideCompleted {
        FilterMember(Sort(items, key), p, x);
      }
      assert x in multiset(Sort(items, key));
      assert x in items;
    }
  }
}
