/**
 * The reading screen of src/components/Reader.tsx as a state machine over
 * its React state (active segment, slider dragging, completion flag, font
 * size), on top of the progress store. Each event handler is a method; the
 * IntersectionObserver callback receives the observer's entries as data.
 */
module Reading {
  import opened Wrappers
  import opened Types
  import opened Storage

  const InitialFontSize := 18
  const MinFontSize := 14
  const MaxFontSize := 32
  const FontStep := 2

  /** One IntersectionObserver entry: whether it intersects, and its `data-index` as `parseInt` reads it. */
  datatype Intersection = Intersection(isIntersecting: bool, index: int)

  /** The completion flag after the load effect: the saved one, else unchanged. */
  function LoadedCompletion(entries: Entries, bookId: string, current: bool): (r: bool)
    ensures GetProgress(entries, bookId).Some? ==> r == GetProgress(entries, bookId).value.isCompleted
    ensures GetProgress(entries, bookId).None? ==> r == current
  {
    match GetProgress(entries, bookId)
    case Some(saved) => saved.isCompleted
    case None => current
  }

  /** The active index after the load effect: the saved index when it lies inside the book, else unchanged. */
  function LoadedIndex(entries: Entries, bookId: string, total: nat, current: int): (r: int)
    ensures r == current || (0 <= r < total && GetProgress(entries, bookId).Some? && IndexOf(entries, bookId) == r)
    ensures GetProgress(entries, bookId).Some? && 0 <= IndexOf(entries, bookId) < total ==> r == IndexOf(entries, bookId)
  {
    match GetProgress(entries, bookId)
    case Some(saved) => if 0 <= saved.segmentIndex < total then saved.segmentIndex else current
    case None => current
  }

  /** The active index after the callback has handled `es`: the last intersecting entry's index. */
  function ActiveAfter(es: seq<Intersection>, current: int): (r: int)
    ensures r == current || exists i | 0 <= i < |es| :: es[i].isIntersecting && r == es[i].index
  {
    if es == [] then current
    else
      var last := es[|es| - 1];
      if last.isIntersecting then last.index else ActiveAfter(es[..|es| - 1], current)
  }

  /** The store after the callback has handled `es`: one `saveProgress(bookId, index)` per intersecting entry. */
  function SavedAfter(entries: Entries, bookId: string, es: seq<Intersection>, now: int): Entries
  {
    if es == [] then entries
    else
      var e' := SavedAfter(entries, bookId, es[..|es| - 1], now);
      var last := es[|es| - 1];
      if last.isIntersecting then SaveEntries(e', bookId, last.index, false, now) else e'
  }

  /** One open book on screen, with the component's state. */
  class ReaderSession {
    const book: BookData
    const store: ProgressStore
    var activeIndex: int
    var isDragging: bool
    var isCompleted: bool
    var fontSize: int

    /**
     * The font size stays an even number of points between 14 and 32. The
     * font buttons keep it; every other handler keeps `fontSize` unchanged.
     */
    ghost predicate Valid()
      reads this
    {
      MinFontSize <= fontSize <= MaxFontSize && fontSize % FontStep == 0
    }

    /** Mounting: the initial state, then the load-progress effect. */
    constructor(book: BookData, store: ProgressStore)
      ensures this.book == book && this.store == store
      ensures isCompleted == LoadedCompletion(store.entries, book.book.id, false)
      ensures activeIndex == LoadedIndex(store.entries, book.book.id, |book.segments|, 0)
      ensures !isDragging && fontSize == InitialFontSize
      ensures Valid()
    {
      this.book := book;
      this.store := store;
      fontSize := InitialFontSize;
      activeIndex := 0;
      isCompleted := false;
      isDragging := false;
      new;
      LoadProgress();
    }

    /** The load-progress effect. */
    method LoadProgress()
      modifies this
      ensures isCompleted == LoadedCompletion(store.entries, book.book.id, old(isCompleted))
      ensures activeIndex == LoadedIndex(store.entries, book.book.id, |book.segments|, old(activeIndex))
      ensures isDragging == old(isDragging) && fontSize == old(fontSize)
    {
      var saved := GetProgress(store.entries, book.book.id);
      if saved.Some? {
        isCompleted := saved.value.isCompleted;
        if 0 <= saved.value.segmentIndex < |book.segments| {
          activeIndex := saved.value.segmentIndex;
        }
      }
    }

    /** The IntersectionObserver callback: ignored while dragging, else each intersecting entry becomes active and is saved. */
    method OnIntersections(es: seq<Intersection>, now: int)
      modifies this, store
      ensures old(isDragging) ==> activeIndex == old(activeIndex) && store.entries == old(store.entries)
      ensures !old(isDragging) ==> activeIndex == ActiveAfter(es, old(activeIndex))
      ensures !old(isDragging) ==> store.entries == SavedAfter(old(store.entries), book.book.id, es, now)
      ensures isDragging == old(isDragging) && isCompleted == old(isCompleted) && fontSize == old(fontSize)
    {
      if !isDragging {
        var i := 0;
        while i < |es|
          invariant 0 <= i <= |es|
          invariant activeIndex == ActiveAfter(es[..i], old(activeIndex))
          invariant store.entries == SavedAfter(old(store.entries), book.book.id, es[..i], now)
          invariant isDragging == old(isDragging) && isCompleted == old(isCompleted) && fontSize == old(fontSize)
        {
          if es[i].isIntersecting {
            activeIndex := es[i].index;
            store.SaveProgress(book.book.id, es[i].index, false, now);
          }
          assert es[..i + 1][..i] == es[..i];
          i := i + 1;
        }
        assert es[..i] == es;
      }
    }

    /** `toggleReadStatus`: flips the flag and stores exactly the new flag. */
    method ToggleReadStatus(now: int)
      modifies this, store
      ensures isCompleted == !old(isCompleted)
      ensures store.entries == ToggleEntries(old(store.entries), book.book.id, isCompleted, now)
      ensures activeIndex == old(activeIndex) && isDragging == old(isDragging) && fontSize == old(fontSize)
    {
      var newState := !isCompleted;
      isCompleted := newState;
      store.ToggleCompletion(book.book.id, newState, now);
    }

    /** `handleSliderChange`: moves the active index and persists nothing. */
    method SliderChange(newIndex: int)
      modifies this
      ensures activeIndex == newIndex
      ensures store.entries == old(store.entries)
      ensures isDragging == old(isDragging) && isCompleted == old(isCompleted) && fontSize == old(fontSize)
    {
      activeIndex := newIndex;
    }

    /** `handleSliderPointerDown` (and touch start). */
    method SliderPointerDown()
      modifies this
      ensures isDragging
      ensures store.entries == old(store.entries)
      ensures activeIndex == old(activeIndex) && isCompleted == old(isCompleted) && fontSize == old(fontSize)
    {
      isDragging := true;
    }

    /** `handleSliderPointerUp` (and touch end): stops dragging and saves the active index. */
    method SliderPointerUp(now: int)
      modifies this, store
      ensures !isDragging
      ensures store.entries == SaveEntries(old(store.entries), book.book.id, activeIndex, false, now)
      ensures activeIndex == old(activeIndex) && isCompleted == old(isCompleted) && fontSize == old(fontSize)
    {
      isDragging := false;
      store.SaveProgress(book.book.id, activeIndex, false, now);
    }

    /** The smaller "A" button: `Math.max(14, fontSize - 2)`. */
    method DecreaseFont()
      requires Valid()
      modifies this
      ensures Valid()
      ensures fontSize == if old(fontSize) - FontStep < MinFontSize then MinFontSize else old(fontSize) - FontStep
      ensures activeIndex == old(activeIndex) && isDragging == old(isDragging) && isCompleted == old(isCompleted)
    {
      fontSize := if fontSize - FontStep < MinFontSize then MinFontSize else fontSize - FontStep;
    }

    /** The larger "A" button: `Math.min(32, fontSize + 2)`. */
    method IncreaseFont()
      requires Valid()
      modifies this
      ensures Valid()
      ensures fontSize == if old(fontSize) + FontStep > MaxFontSize then MaxFontSize else old(fontSize) + FontStep
      ensures activeIndex == old(activeIndex) && isDragging == old(isDragging) && isCompleted == old(isCompleted)
    {
      fontSize := if fontSize + FontStep > MaxFontSize then MaxFontSize else fontSize + FontStep;
    }

    /** `currentDisplayIndex`: the 1-based position, out of `|book.segments|`. */
    function DisplayIndex(): (r: int)
      reads this
      ensures 0 <= activeIndex < |book.segments| ==> 1 <= r <= |book.segments|
      ensures r - 1 == activeIndex
    {
      activeIndex + 1
    }
  }
}

/** What the reader's events do to the store. */
module ReadingProperties {
  import opened Wrappers
  import opened Types
  import opened Storage
  import opened StorageProperties
  import opened Reading

  /**
   * The callback keeps the stored completion of the open book, leaves
   * every other book alone, and after an intersecting entry the record
   * holds the last intersecting index.
   */
  lemma {:induction false} SavedAfterKeeps(entries: Entries, id: string, es: seq<Intersection>, now: int)
    ensures CompletedOf(SavedAfter(entries, id, es, now), id) == CompletedOf(entries, id)
    ensures forall other | other != id :: GetProgress(SavedAfter(entries, id, es, now), other) == GetProgress(entries, other)
    ensures (exists i | 0 <= i < |es| :: es[i].isIntersecting) ==>
      GetProgress(SavedAfter(entries, id, es, now), id) ==
        Some(ReadingProgress(id, ActiveAfter(es, 0), now, CompletedOf(entries, id)))
  {
    if es != [] {
      var es', last := es[..|es| - 1], es[|es| - 1];
      SavedAfterKeeps(entries, id, es', now);
      var e' := SavedAfter(entries, id, es', now);
      SaveThenGet(e', id, last.index, false, now);
      if !last.isIntersecting {
        forall i | 0 <= i < |es| && es[i].isIntersecting ensures 0 <= i < |es'| && es'[i].isIntersecting {
          assert i != |es| - 1;
        }
      }
    }
  }

  /**
   * Each `setActiveSegmentIndex` overrides the one before it, so the last
   * intersecting entry of a notification decides the active index.
   */
  lemma {:induction false} LastIntersectingWins(es: seq<Intersection>, current: int, i: nat)
    requires i < |es| && es[i].isIntersecting
    requires forall j | i < j < |es| :: !es[j].isIntersecting
    ensures ActiveAfter(es, current) == es[i].index
    decreases |es|
  {
    if i < |es| - 1 {
      var es' := es[..|es| - 1];
      forall j | i < j < |es'| ensures !es'[j].isIntersecting {
        assert es'[j] == es[j];
      }
      LastIntersectingWins(es', current, i);
    }
  }

  /** A notification with no intersecting entry changes nothing. */
  lemma {:induction false} NothingIntersecting(entries: Entries, id: string, es: seq<Intersection>, now: int, current: int)
    requires forall i | 0 <= i < |es| :: !es[i].isIntersecting
    ensures ActiveAfter(es, current) == current
    ensures SavedAfter(entries, id, es, now) == entries
  {
    if es != [] {
      NothingIntersecting(entries, id, es[..|es| - 1], now, current);
    }
  }

  /** Toggling twice restores the flag; the record then holds the original completion. */
  lemma ToggleTwice(entries: Entries, id: string, c: bool, t1: int, t2: int)
    ensures CompletedOf(ToggleEntries(ToggleEntries(entries, id, !c, t1), id, c, t2), id) == c
    ensures IndexOf(ToggleEntries(ToggleEntries(entries, id, !c, t1), id, c, t2), id) == IndexOf(entries, id)
  {
    ToggleThenGet(entries, id, !c, t1);
    ToggleThenGet(ToggleEntries(entries, id, !c, t1), id, c, t2);
  }

  /** Dropping the slider saves the active index and keeps completion. */
  lemma PointerUpRecord(entries: Entries, id: string, index: int, now: int)
    ensures GetProgress(SaveEntries(entries, id, index, false, now), id) ==
      Some(ReadingProgress(id, index, now, CompletedOf(entries, id)))
  {
    SaveThenGet(entries, id, index, false, now);
  }
}
