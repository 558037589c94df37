/**
 * The reading-progress store of src/services/storage.ts. The browser's
 * `localStorage` is a map from key strings to stored values; a value that
 * `JSON.parse` accepts is `Valid(record)`, anything else `Corrupt`. The
 * clock `Date.now()` is the parameter `now`.
 */
module Storage {
  import opened Wrappers
  import opened Types

  /** Every record lives under this prefix followed by the book id. */
  const ProgressKeyPrefix := "zenreader_progress_"

  function StorageKey(bookId: string): (key: string)
    ensures ProgressKeyPrefix <= key && key[|ProgressKeyPrefix|..] == bookId
  {
    ProgressKeyPrefix + bookId
  }

  /** A stored value: a parsed record, or text that does not parse (or the empty string). */
  datatype Stored = Valid(progress: ReadingProgress) | Corrupt

  type Entries = map<string, Stored>

  /** `getProgress`: the record under the book's key; `None` (null) when absent or unparseable. */
  function GetProgress(entries: Entries, bookId: string): (r: Option<ReadingProgress>)
    ensures r.None? <==> StorageKey(bookId) !in entries || entries[StorageKey(bookId)].Corrupt?
    ensures r.Some? ==> entries[StorageKey(bookId)] == Valid(r.value)
  {
    var key := StorageKey(bookId);
    if key in entries && entries[key].Valid? then Some(entries[key].progress) else None
  }

  /** `existing?.isCompleted ?? false`. */
  function CompletedOf(entries: Entries, bookId: string): bool
  {
    match GetProgress(entries, bookId)
    case Some(p) => p.isCompleted
    case None => false
  }

  /** `existing?.segmentIndex || 0`. */
  function IndexOf(entries: Entries, bookId: string): int
  {
    match GetProgress(entries, bookId)
    case Some(p) => p.segmentIndex
    case None => 0
  }

  /** `getProgress(id)?.lastRead || 0`. */
  function LastReadOf(entries: Entries, bookId: string): int
  {
    match GetProgress(entries, bookId)
    case Some(p) => p.lastRead
    case None => 0
  }

  /** The store after `saveProgress(bookId, segmentIndex, isCompleted)` at time `now`. */
  function SaveEntries(entries: Entries, bookId: string, segmentIndex: int, isCompleted: bool, now: int): Entries
  {
    entries[StorageKey(bookId) :=
      Valid(ReadingProgress(bookId, segmentIndex, now, isCompleted || CompletedOf(entries, bookId)))]
  }

  /** The store after `toggleCompletion(bookId, isCompleted)` at time `now`. */
  function ToggleEntries(entries: Entries, bookId: string, isCompleted: bool, now: int): Entries
  {
    entries[StorageKey(bookId) := Valid(ReadingProgress(bookId, IndexOf(entries, bookId), now, isCompleted))]
  }

  /**
   * `Math.round(a / b)` for `b > 0`, exactly: the integer nearest to `a / b`,
   * halves rounded up, i.e. floor(a / b + 1/2).
   */
  function RoundDiv(a: int, b: int): (r: int)
    requires b > 0
    ensures 2 * b * r <= 2 * a + b < 2 * b * (r + 1)
  {
    DivBounds(2 * a + b, 2 * b);
    (2 * a + b) / (2 * b)
  }

  lemma DivBounds(a: int, d: int)
    requires d > 0
    ensures d * (a / d) <= a < d * (a / d + 1)
  {
  }

  /**
   * The percentage one book contributes, as in the book branch of
   * `getItemProgress` and the body of its series loop: 0 without a
   * record, 100 when completed, else `Math.round((i + 1) / T * 100)`.
   */
  function BookPercent(entries: Entries, b: Book): int
    requires b.totalSegments > 0
  {
    match GetProgress(entries, b.id)
    case None => 0
    case Some(p) => if p.isCompleted then 100 else RoundDiv(100 * (p.segmentIndex + 1), b.totalSegments)
  }

  /** Every book can be measured: `getItemProgress` divides by `totalSegments`. */
  predicate Measurable(books: seq<Book>)
  {
    forall i | 0 <= i < |books| :: books[i].totalSegments > 0
  }

  /** `totalPercent` after the series loop has seen `books`. */
  function SeriesSum(entries: Entries, books: seq<Book>): int
    requires Measurable(books)
  {
    if books == [] then 0
    else SeriesSum(entries, books[..|books| - 1]) + BookPercent(entries, books[|books| - 1])
  }

  /** `getItemProgress`. */
  function ItemProgress(entries: Entries, item: LibraryItem): int
    requires item.BookItem? ==> item.book.totalSegments > 0
    requires item.SeriesItem? ==> Measurable(item.series.books)
  {
    match item
    case BookItem(b) => BookPercent(entries, b)
    case SeriesItem(s) =>
      if |s.books| == 0 then 0 else RoundDiv(SeriesSum(entries, s.books), |s.books|)
  }

  /** `max` after the series loop of `getItemLastRead` has seen `books`: the largest `lastRead`, or 0. */
  function MaxLastRead(entries: Entries, books: seq<Book>): (r: int)
    ensures r >= 0
    ensures forall i | 0 <= i < |books| :: LastReadOf(entries, books[i].id) <= r
    ensures r == 0 || exists i | 0 <= i < |books| :: r == LastReadOf(entries, books[i].id)
  {
    if books == [] then 0
    else
      var m := MaxLastRead(entries, books[..|books| - 1]);
      var ts := LastReadOf(entries, books[|books| - 1].id);
      if ts > m then ts else m
  }

  /** `getItemLastRead`. */
  function ItemLastRead(entries: Entries, item: LibraryItem): int
  {
    match item
    case BookItem(b) => LastReadOf(entries, b.id)
    case SeriesItem(s) => MaxLastRead(entries, s.books)
  }

  /** `books.every(b => getProgress(b.id)?.isCompleted)`. */
  function AllCompleted(entries: Entries, books: seq<Book>): (r: bool)
    ensures r <==> forall i | 0 <= i < |books| :: CompletedOf(entries, books[i].id)
  {
    books == [] || (CompletedOf(entries, books[0].id) && AllCompleted(entries, books[1..]))
  }

  /** `isItemCompleted`. */
  function ItemCompleted(entries: Entries, item: LibraryItem): bool
  {
    match item
    case BookItem(b) => CompletedOf(entries, b.id)
    case SeriesItem(s) => AllCompleted(entries, s.books)
  }

  /** The browser's progress store. */
  class ProgressStore {
    var entries: Entries

    constructor(initial: Entries)
      ensures entries == initial
    {
      entries := initial;
    }

    /** `saveProgress`: overwrites the book's record; completion is kept once set. */
    method SaveProgress(bookId: string, segmentIndex: int, isCompleted: bool, now: int)
      modifies this
      ensures entries == SaveEntries(old(entries), bookId, segmentIndex, isCompleted, now)
    {
      var existing := GetProgress(entries, bookId);
      var data := ReadingProgress(bookId, segmentIndex, now, isCompleted || (existing.Some? && existing.value.isCompleted));
      entries := entries[StorageKey(bookId) := Valid(data)];
    }

    /** `toggleCompletion`: overwrites the book's record with the given completion. */
    method ToggleCompletion(bookId: string, isCompleted: bool, now: int)
      modifies this
      ensures entries == ToggleEntries(old(entries), bookId, isCompleted, now)
    {
      var existing := GetProgress(entries, bookId);
      var index := if existing.Some? then existing.value.segmentIndex else 0;
      entries := entries[StorageKey(bookId) := Valid(ReadingProgress(bookId, index, now, isCompleted))];
    }

    /** `getItemLastRead`, with its running maximum over a series. */
    method GetItemLastRead(item: LibraryItem) returns (r: int)
      ensures r == ItemLastRead(entries, item)
    {
      match item
      case BookItem(b) =>
        r := LastReadOf(entries, b.id);
      case SeriesItem(s) =>
        var max := 0;
        var i := 0;
        while i < |s.books|
          invariant 0 <= i <= |s.books|
          invariant max == MaxLastRead(entries, s.books[..i])
        {
          var ts := LastReadOf(entries, s.books[i].id);
          if ts > max {
            max := ts;
          }
          assert s.books[..i + 1][..i] == s.books[..i];
          i := i + 1;
        }
        assert s.books[..i] == s.books;
        r := max;
    }

    /** `getItemProgress`, with its running `totalPercent` over a series. */
    method GetItemProgress(item: LibraryItem) returns (r: int)
      requires item.BookItem? ==> item.book.totalSegments > 0
      requires item.SeriesItem? ==> Measurable(item.series.books)
      ensures r == ItemProgress(entries, item)
    {
      match item
      case BookItem(b) =>
        r := BookPercent(entries, b);
      case SeriesItem(s) =>
        if |s.books| == 0 {
          r := 0;
        } else {
          var totalPercent := 0;
          var i := 0;
          while i < |s.books|
            invariant 0 <= i <= |s.books|
            invariant totalPercent == SeriesSum(entries, s.books[..i])
          {
            var b := s.books[i];
            var p := GetProgress(entries, b.id);
            if p.Some? && p.value.isCompleted {
              totalPercent := totalPercent + 100;
            } else if p.Some? {
              totalPercent := totalPercent + RoundDiv(100 * (p.value.segmentIndex + 1), b.totalSegments);
            }
            assert s.books[..i + 1][..i] == s.books[..i];
            i := i + 1;
          }
          assert s.books[..i] == s.books;
          r := RoundDiv(totalPercent, |s.books|);
        }
    }
  }
}

/** What the store's operations and aggregates promise. */
module StorageProperties {
  import opened Wrappers
  import opened Types
  import opened Storage

  /** Distinct book ids never share a key. */
  lemma KeysDistinct(a: string, b: string)
    requires a != b
    ensures StorageKey(a) != StorageKey(b)
  {
    assert StorageKey(a)[|ProgressKeyPrefix|..] == a;
  }

  /**
   * After `saveProgress(id, i, c)`, `getProgress(id)` has `id`, `i` and
   * `now`, and is completed iff `c` or the book was completed before;
   * every other book reads as before.
   */
  lemma SaveThenGet(entries: Entries, id: string, i: int, c: bool, now: int)
    ensures GetProgress(SaveEntries(entries, id, i, c, now), id)
      == Some(ReadingProgress(id, i, now, c || CompletedOf(entries, id)))
    ensures forall other | other != id ::
      GetProgress(SaveEntries(entries, id, i, c, now), other) == GetProgress(entries, other)
  {
    forall other | other != id
      ensures GetProgress(SaveEntries(entries, id, i, c, now), other) == GetProgress(entries, other)
    {
      KeysDistinct(id, other);
    }
  }

  /** Saving never clears completion. */
  lemma SaveKeepsCompletion(entries: Entries, id: string, i: int, c: bool, now: int)
    ensures CompletedOf(SaveEntries(entries, id, i, c, now), id) == (c || CompletedOf(entries, id))
    ensures CompletedOf(entries, id) ==> CompletedOf(SaveEntries(entries, id, i, c, now), id)
  {
    SaveThenGet(entries, id, i, c, now);
  }

  /**
   * After `toggleCompletion(id, c)` the record's completion is exactly `c`,
   * its index is the old one (0 without a record), and other books read as
   * before.
   */
  lemma ToggleThenGet(entries: Entries, id: string, c: bool, now: int)
    ensures GetProgress(ToggleEntries(entries, id, c, now), id)
      == Some(ReadingProgress(id, IndexOf(entries, id), now, c))
    ensures CompletedOf(ToggleEntries(entries, id, c, now), id) == c
    ensures IndexOf(ToggleEntries(entries, id, c, now), id) == IndexOf(entries, id)
    ensures GetProgress(entries, id).None? ==> IndexOf(ToggleEntries(entries, id, c, now), id) == 0
    ensures forall other | other != id ::
      GetProgress(ToggleEntries(entries, id, c, now), other) == GetProgress(entries, other)
  {
    forall other | other != id
      ensures GetProgress(ToggleEntries(entries, id, c, now), other) == GetProgress(entries, other)
    {
      KeysDistinct(id, other);
    }
  }

  /** An empty or unread series has last-read time 0. */
  lemma {:induction false} UnreadSeries(entries: Entries, books: seq<Book>)
    requires forall i | 0 <= i < |books| :: GetProgress(entries, books[i].id).None?
    ensures MaxLastRead(entries, books) == 0
  {
    if books != [] {
      UnreadSeries(entries, books[..|books| - 1]);
    }
  }

  lemma MulMonotone(m: int, x: int, y: int)
    requires m > 0
    ensures x <= y ==> m * x <= m * y
  {
    if x <= y {
      assert m * y == m * x + m * (y - x);
    }
  }

  /** `RoundDiv` is the only integer within one half of `a / b`. */
  lemma RoundDivUnique(a: int, b: int, r: int)
    requires b > 0 && 2 * b * r <= 2 * a + b < 2 * b * (r + 1)
    ensures RoundDiv(a, b) == r
  {
    var q := RoundDiv(a, b);
    MulMonotone(2 * b, q + 1, r);
    MulMonotone(2 * b, r + 1, q);
  }

  /** Rounding preserves order. */
  lemma RoundDivMonotone(a: int, a': int, b: int)
    requires b > 0 && a <= a'
    ensures RoundDiv(a, b) <= RoundDiv(a', b)
  {
    var q, q' := RoundDiv(a, b), RoundDiv(a', b);
    MulMonotone(2 * b, q' + 1, q);
  }

  /** Book progress for an uncompleted record does not decrease as the index grows. */
  lemma BookPercentMonotone(i: int, j: int, t: nat)
    requires t > 0 && i <= j
    ensures RoundDiv(100 * (i + 1), t) <= RoundDiv(100 * (j + 1), t)
  {
    RoundDivMonotone(100 * (i + 1), 100 * (j + 1), t);
  }

  /** A record whose index is within the book reads 0 to 100 percent; the last segment reads 100. */
  lemma BookPercentBounds(i: int, t: nat)
    requires 0 <= i < t
    ensures 0 <= RoundDiv(100 * (i + 1), t) <= 100
    ensures i == t - 1 ==> RoundDiv(100 * (i + 1), t) == 100
  {
    RoundDivMonotone(0, 100 * (i + 1), t);
    RoundDivMonotone(100 * (i + 1), 100 * t, t);
    RoundDivUnique(0, t, 0);
    RoundDivUnique(100 * t, t, 100);
  }

  /** The three cases of a book's progress. */
  lemma BookProgressCases(entries: Entries, b: Book)
    requires b.totalSegments > 0
    ensures GetProgress(entries, b.id).None? ==> ItemProgress(entries, BookItem(b)) == 0
    ensures CompletedOf(entries, b.id) ==> ItemProgress(entries, BookItem(b)) == 100
    ensures GetProgress(entries, b.id).Some? && !CompletedOf(entries, b.id) ==>
      ItemProgress(entries, BookItem(b)) == RoundDiv(100 * (IndexOf(entries, b.id) + 1), b.totalSegments)
  {
  }

  lemma {:induction false} SumUnread(entries: Entries, books: seq<Book>)
    requires Measurable(books)
    requires forall i | 0 <= i < |books| :: GetProgress(entries, books[i].id).None?
    ensures SeriesSum(entries, books) == 0
  {
    if books != [] {
      SumUnread(entries, books[..|books| - 1]);
    }
  }

  lemma {:induction false} SumCompleted(entries: Entries, books: seq<Book>)
    requires Measurable(books)
    requires forall i | 0 <= i < |books| :: CompletedOf(entries, books[i].id)
    ensures SeriesSum(entries, books) == 100 * |books|
  {
    if books != [] {
      SumCompleted(entries, books[..|books| - 1]);
    }
  }

  /** A series' progress is 0 when it is empty or no book has a record. */
  lemma SeriesProgressUnread(entries: Entries, s: Series)
    requires Measurable(s.books)
    requires forall i | 0 <= i < |s.books| :: GetProgress(entries, s.books[i].id).None?
    ensures ItemProgress(entries, SeriesItem(s)) == 0
  {
    if |s.books| > 0 {
      SumUnread(entries, s.books);
      RoundDivUnique(0, |s.books|, 0);
    }
  }

  /** A non-empty series whose books are all completed reads 100 percent (an empty one reads 0). */
  lemma SeriesProgressCompleted(entries: Entries, s: Series)
    requires Measurable(s.books) && |s.books| > 0
    requires forall i | 0 <= i < |s.books| :: CompletedOf(entries, s.books[i].id)
    ensures ItemProgress(entries, SeriesItem(s)) == 100
  {
    SumCompleted(entries, s.books);
    RoundDivUnique(100 * |s.books|, |s.books|, 100);
  }

  /** Every book in 0..100 percent: the sum stays within 0..100 per book. */
  lemma {:induction false} SumBounds(entries: Entries, books: seq<Book>)
    requires Measurable(books)
    requires forall i | 0 <= i < |books| :: 0 <= BookPercent(entries, books[i]) <= 100
    ensures 0 <= SeriesSum(entries, books) <= 100 * |books|
  {
    if books != [] {
      SumBounds(entries, books[..|books| - 1]);
    }
  }

  /** When each book reads 0 to 100 percent, so does the series. */
  lemma SeriesProgressBounds(entries: Entries, s: Series)
    requires Measurable(s.books)
    requires forall i | 0 <= i < |s.books| :: 0 <= BookPercent(entries, s.books[i]) <= 100
    ensures 0 <= ItemProgress(entries, SeriesItem(s)) <= 100
  {
    if |s.books| > 0 {
      var n := |s.books|;
      SumBounds(entries, s.books);
      RoundDivMonotone(0, SeriesSum(entries, s.books), n);
      RoundDivMonotone(SeriesSum(entries, s.books), 100 * n, n);
      RoundDivUnique(0, n, 0);
      RoundDivUnique(100 * n, n, 100);
    }
  }

  /** A series is completed iff every book's record is completed; an empty series is. */
  lemma SeriesCompletedIff(entries: Entries, s: Series)
    ensures ItemCompleted(entries, SeriesItem(s)) <==>
      forall i | 0 <= i < |s.books| ::
        GetProgress(entries, s.books[i].id).Some? && GetProgress(entries, s.books[i].id).value.isCompleted
    ensures s.books == [] ==> ItemCompleted(entries, SeriesItem(s))
  {
  }
}
