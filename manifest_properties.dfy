/** What the assembled manifest and the written documents guarantee. */
module ManifestProperties {
  import opened Wrappers
  import opened Text
  import opened Types
  import opened Transcript
  import opened Sorting
  import opened Manifest

  /* ---------- Well-formed items ---------- */

  /** A book listed inside the series with id `seriesId`. */
  predicate SeriesBookValid(seriesId: string, b: Book)
  {
    b.seriesId == Some(seriesId) && seriesId + "-" <= b.id && b.totalSegments > 0 && b.description == None
  }

  /** What every manifest item satisfies. */
  predicate ItemValid(item: LibraryItem)
  {
    match item
    case BookItem(b) => b.description == Some(StandaloneText) && b.seriesId == None && b.totalSegments > 0
    case SeriesItem(s) => s.books != [] && forall i | 0 <= i < |s.books| :: SeriesBookValid(s.id, s.books[i])
  }

  lemma {:induction false} SeriesBooksValid(parse: Parser, seriesId: string, files: seq<SourceFile>)
    ensures forall i | 0 <= i < |SeriesBooks(parse, seriesId, files)| :: SeriesBookValid(seriesId, SeriesBooks(parse, seriesId, files)[i])
  {
    if files != [] {
      SeriesBooksValid(parse, seriesId, files[..|files| - 1]);
    }
  }

  lemma ItemOfValid(parse: Parser, e: Entry, sortFiles: bool)
    ensures ItemOf(parse, e, sortFiles).Some? ==> ItemValid(ItemOf(parse, e, sortFiles).value)
  {
    if e.Dir? && TxtFiles(e.files) != [] {
      SeriesBooksValid(parse, CreateId(e.name), SeriesFiles(e.files, sortFiles));
    }
  }

  /** Every item of the manifest is well formed. */
  lemma {:induction false} ManifestValid(parse: Parser, entries: seq<Entry>, sortFiles: bool)
    ensures forall i | 0 <= i < |Items(parse, entries, sortFiles)| :: ItemValid(Items(parse, entries, sortFiles)[i])
  {
    if entries != [] {
      ManifestValid(parse, entries[..|entries| - 1], sortFiles);
      ItemOfValid(parse, entries[|entries| - 1], sortFiles);
    }
  }

  /** A series is named after its directory, counts every `.txt` file in its description, and lists at most that many books. */
  lemma SeriesCounts(parse: Parser, name: string, files: seq<SourceFile>, sortFiles: bool)
    requires DirItem(parse, name, files, sortFiles).Some?
    ensures var s := DirItem(parse, name, files, sortFiles).value.series;
      DirItem(parse, name, files, sortFiles).value.SeriesItem?
      && s.id == CreateId(name) && s.title == CreateTitle(name)
      && s.description == Some(LessonsText(|TxtFiles(files)|))
      && 0 < |s.books| <= |TxtFiles(files)|
  {
    if sortFiles {
      SortFacts(TxtFiles(files), FileKey);
    }
  }

  /* ---------- Order ---------- */

  /** Items of earlier entries come first: the manifest follows the processing order. */
  lemma {:induction false} ItemsAppend(parse: Parser, a: seq<Entry>, b: seq<Entry>, sortFiles: bool)
    ensures Items(parse, a + b, sortFiles) == Items(parse, a, sortFiles) + Items(parse, b, sortFiles)
    decreases |b|
  {
    if b == [] {
      assert a + b == a;
    } else {
      var b', e := b[..|b| - 1], b[|b| - 1];
      assert (a + b)[..|a + b| - 1] == a + b' && (a + b)[|a + b| - 1] == e;
      ItemsAppend(parse, a, b', sortFiles);
      AppendAssoc(Items(parse, a, sortFiles), Items(parse, b', sortFiles), Values(ItemOf(parse, e, sortFiles)));
    }
  }

  /** Books of earlier files come first: a series follows the order of its files. */
  lemma {:induction false} SeriesBooksAppend(parse: Parser, seriesId: string, a: seq<SourceFile>, b: seq<SourceFile>)
    ensures SeriesBooks(parse, seriesId, a + b) == SeriesBooks(parse, seriesId, a) + SeriesBooks(parse, seriesId, b)
    decreases |b|
  {
    if b == [] {
      assert a + b == a;
    } else {
      var b', f := b[..|b| - 1], b[|b| - 1];
      assert (a + b)[..|a + b| - 1] == a + b' && (a + b)[|a + b| - 1] == f;
      SeriesBooksAppend(parse, seriesId, a, b');
      AppendAssoc(SeriesBooks(parse, seriesId, a), SeriesBooks(parse, seriesId, b'), FileBooks(parse, seriesId, f));
    }
  }

  /* ---------- What is skipped ---------- */

  /** Every file of `files` parses to no segment. */
  predicate AllEmpty(parse: Parser, files: seq<SourceFile>)
  {
    forall i | 0 <= i < |files| :: parse(files[i].content) == []
  }

  /** An entry that contributes nothing: not an ordinary file or directory, a file that is not `.txt` or has no segment, or a directory none of whose `.txt` files has a segment. */
  predicate Silent(parse: Parser, e: Entry)
  {
    match e
    case Dir(_, files) => AllEmpty(parse, TxtFiles(files))
    case File(name, content) => !EndsWith(name, ".txt") || parse(content) == []
    case Other(_) => true
  }

  lemma {:induction false} EmptySeries(parse: Parser, seriesId: string, files: seq<SourceFile>, w: map<string, BookData>)
    requires AllEmpty(parse, files)
    ensures SeriesBooks(parse, seriesId, files) == [] && SeriesWrites(parse, w, seriesId, files) == w
  {
    if files != [] {
      EmptySeries(parse, seriesId, files[..|files| - 1], w);
    }
  }

  lemma SortedEmpty(parse: Parser, files: seq<SourceFile>)
    requires AllEmpty(parse, files)
    ensures AllEmpty(parse, Sort(files, FileKey))
  {
    SortFacts(files, FileKey);
    var s := Sort(files, FileKey);
    forall i | 0 <= i < |s| ensures parse(s[i].content) == [] {
      assert s[i] in multiset(s);
      var j :| 0 <= j < |files| && files[j] == s[i];
    }
  }

  lemma SilentEntry(parse: Parser, e: Entry, sortFiles: bool, w: map<string, BookData>)
    requires Silent(parse, e)
    ensures ItemOf(parse, e, sortFiles) == None && EntryWrites(parse, w, e, sortFiles) == w
  {
    if e.Dir? && TxtFiles(e.files) != [] {
      if sortFiles { SortedEmpty(parse, TxtFiles(e.files)); }
      EmptySeries(parse, CreateId(e.name), SeriesFiles(e.files, sortFiles), w);
    }
  }

  /** An entry that contributes nothing changes neither the manifest nor the written documents. */
  lemma Skipped(parse: Parser, entries: seq<Entry>, e: Entry, sortFiles: bool)
    requires Silent(parse, e)
    ensures Assemble(parse, entries + [e], sortFiles) == Assemble(parse, entries, sortFiles)
  {
    var es := entries + [e];
    assert es[..|es| - 1] == entries && es[|es| - 1] == e;
    SilentEntry(parse, e, sortFiles, Writes(parse, entries, sortFiles));
  }

  /* ---------- Written documents ---------- */

  /** The ids of a sequence of books. */
  function BookIds(books: seq<Book>): (ids: set<string>)
    ensures forall i | 0 <= i < |books| :: books[i].id in ids
  {
    if books == [] then {} else BookIds(books[..|books| - 1]) + {books[|books| - 1].id}
  }

  /** The ids of the books an item lists. */
  function ItemIds(item: LibraryItem): set<string>
  {
    match item
    case BookItem(b) => {b.id}
    case SeriesItem(s) => BookIds(s.books)
  }

  /** The ids of every book the manifest lists, standalone or in a series. */
  function ListedIds(items: seq<LibraryItem>): set<string>
  {
    if items == [] then {} else ListedIds(items[..|items| - 1]) + ItemIds(items[|items| - 1])
  }

  lemma ListedIdsAppend(items: seq<LibraryItem>, o: Option<LibraryItem>)
    ensures ListedIds(items + Values(o)) == ListedIds(items) + (if o.Some? then ItemIds(o.value) else {})
  {
    if o.Some? {
      assert (items + [o.value])[..|items|] == items;
    } else {
      assert items + [] == items;
    }
  }

  lemma BookIdsStep(books: seq<Book>, extra: seq<Book>)
    requires |extra| <= 1
    ensures BookIds(books + extra) == BookIds(books) + BookIds(extra)
  {
    if extra == [] {
      assert books + extra == books;
    } else {
      assert (books + extra)[..|books|] == books;
      assert extra[..0] == [];
    }
  }

  lemma WriteFileKeys(parse: Parser, w: map<string, BookData>, seriesId: string, f: SourceFile)
    ensures WriteFile(parse, w, seriesId, f).Keys == w.Keys + BookIds(FileBooks(parse, seriesId, f))
  {
    if parse(f.content) != [] {
      assert [SeriesBook(parse, seriesId, f)][..0] == [];
    }
  }

  lemma {:induction false} SeriesWritesKeys(parse: Parser, w: map<string, BookData>, seriesId: string, files: seq<SourceFile>)
    ensures SeriesWrites(parse, w, seriesId, files).Keys == w.Keys + BookIds(SeriesBooks(parse, seriesId, files))
  {
    if files != [] {
      var init, f := files[..|files| - 1], files[|files| - 1];
      SeriesWritesKeys(parse, w, seriesId, init);
      WriteFileKeys(parse, SeriesWrites(parse, w, seriesId, init), seriesId, f);
      BookIdsStep(SeriesBooks(parse, seriesId, init), FileBooks(parse, seriesId, f));
    }
  }

  lemma DirWritesKeys(parse: Parser, w: map<string, BookData>, name: string, files: seq<SourceFile>, sortFiles: bool)
    ensures var o := DirItem(parse, name, files, sortFiles);
      DirWrites(parse, w, name, files, sortFiles).Keys == w.Keys + (if o.Some? then ItemIds(o.value) else {})
  {
    if TxtFiles(files) != [] {
      SeriesWritesKeys(parse, w, CreateId(name), SeriesFiles(files, sortFiles));
    }
  }

  lemma FileWritesKeys(parse: Parser, w: map<string, BookData>, name: string, content: string)
    ensures var o := FileItem(parse, name, content);
      FileWrites(parse, w, name, content).Keys == w.Keys + (if o.Some? then ItemIds(o.value) else {})
  {
  }

  lemma EntryWritesKeys(parse: Parser, w: map<string, BookData>, e: Entry, sortFiles: bool)
    ensures var o := ItemOf(parse, e, sortFiles);
      EntryWrites(parse, w, e, sortFiles).Keys == w.Keys + (if o.Some? then ItemIds(o.value) else {})
  {
    match e
    case Dir(name, files) => DirWritesKeys(parse, w, name, files, sortFiles);
    case File(name, content) => FileWritesKeys(parse, w, name, content);
    case Other(_) =>
  }

  /** A document is written for exactly the books the manifest lists. */
  lemma {:induction false} WrittenIdsListed(parse: Parser, entries: seq<Entry>, sortFiles: bool)
    ensures Writes(parse, entries, sortFiles).Keys == ListedIds(Items(parse, entries, sortFiles))
  {
    if entries != [] {
      var init, e := entries[..|entries| - 1], entries[|entries| - 1];
      WrittenIdsListed(parse, init, sortFiles);
      EntryWritesKeys(parse, Writes(parse, init, sortFiles), e, sortFiles);
      ListedIdsAppend(Items(parse, init, sortFiles), ItemOf(parse, e, sortFiles));
    }
  }

  /** What every written document satisfies: filed under its own id, with a correct, non-zero segment count and no description. */
  predicate DocumentsValid(w: map<string, BookData>)
  {
    forall k | k in w :: w[k].book.id == k && w[k].book.totalSegments == |w[k].segments| > 0 && w[k].book.description == None
  }

  lemma {:induction false} SeriesWritesValid(parse: Parser, w: map<string, BookData>, seriesId: string, files: seq<SourceFile>)
    requires DocumentsValid(w)
    ensures DocumentsValid(SeriesWrites(parse, w, seriesId, files))
  {
    if files != [] {
      SeriesWritesValid(parse, w, seriesId, files[..|files| - 1]);
    }
  }

  /** Every written document is well formed. */
  lemma {:induction false} WrittenValid(parse: Parser, entries: seq<Entry>, sortFiles: bool)
    ensures DocumentsValid(Writes(parse, entries, sortFiles))
  {
    if entries != [] {
      var init, e := entries[..|entries| - 1], entries[|entries| - 1];
      WrittenValid(parse, init, sortFiles);
      if e.Dir? && TxtFiles(e.files) != [] {
        SeriesWritesValid(parse, Writes(parse, init, sortFiles), CreateId(e.name), SeriesFiles(e.files, sortFiles));
      }
    }
  }

  /**
   * Two root files whose names give the same id are both listed, but only
   * the later one's document survives: the second write replaces the first.
   */
  lemma LaterWriteWins(parse: Parser, n1: string, c1: string, n2: string, c2: string, sortFiles: bool)
    requires EndsWith(n1, ".txt") && EndsWith(n2, ".txt") && parse(c1) != [] && parse(c2) != []
    requires CreateId(n1) == CreateId(n2)
    ensures var out := Assemble(parse, [File(n1, c1), File(n2, c2)], sortFiles);
      |out.manifest| == 2 && out.written.Keys == {CreateId(n1)} && out.written[CreateId(n1)].segments == parse(c2)
  {
    TwoEntries(parse, File(n1, c1), File(n2, c2), sortFiles);
    var w1 := FileWrites(parse, map[], n1, c1);
    assert w1.Keys == {CreateId(n1)};
  }

  /** Two entries are processed one after the other. */
  lemma TwoEntries(parse: Parser, a: Entry, b: Entry, sortFiles: bool)
    ensures Items(parse, [a, b], sortFiles) == Values(ItemOf(parse, a, sortFiles)) + Values(ItemOf(parse, b, sortFiles))
    ensures Writes(parse, [a, b], sortFiles) == EntryWrites(parse, EntryWrites(parse, map[], a, sortFiles), b, sortFiles)
  {
    var es := [a, b];
    OneEntry(parse, a, sortFiles);
    assert es[..1] == [a];
    AssembleStep(parse, es, 1, sortFiles);
    assert es[..2] == es;
  }

  lemma OneEntry(parse: Parser, a: Entry, sortFiles: bool)
    ensures Items(parse, [a], sortFiles) == Values(ItemOf(parse, a, sortFiles))
    ensures Writes(parse, [a], sortFiles) == EntryWrites(parse, map[], a, sortFiles)
  {
    assert [a][..0] == [];
    assert [] + Values(ItemOf(parse, a, sortFiles)) == Values(ItemOf(parse, a, sortFiles));
  }

  /* ---------- Sorting the series files ---------- */

  /** Every directory's `.txt` files are already in key order. */
  ghost predicate FilesInOrder(entries: seq<Entry>)
  {
    forall i | 0 <= i < |entries| :: entries[i].Dir? ==> SortedBy(TxtFiles(entries[i].files), FileKey)
  }

  /** When every directory's `.txt` files are already in key order, sorting them changes nothing. */
  lemma {:induction false} SortFilesIrrelevant(parse: Parser, entries: seq<Entry>)
    requires FilesInOrder(entries)
    ensures Assemble(parse, entries, true) == Assemble(parse, entries, false)
  {
    if entries != [] {
      var init, e := entries[..|entries| - 1], entries[|entries| - 1];
      assert FilesInOrder(init) by {
        forall i | 0 <= i < |init| ensures init[i] == entries[i] { }
      }
      SortFilesIrrelevant(parse, init);
      if e.Dir? {
        SortOfSorted(TxtFiles(e.files), FileKey);
      }
    }
  }
}
