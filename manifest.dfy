/**
 * The manifest assembly shared by both transcript compilers: a directory
 * listing becomes a list of library items and a set of written book
 * documents. The directory listing and the file contents are inputs; the
 * written `<id>.json` files are a map from book id to document, in which a
 * later write to the same id replaces an earlier one.
 */
module Manifest {
  import opened Wrappers
  import opened Text
  import opened Types
  import opened Transcript
  import opened Sorting

  /** A file inside a series directory: its name and its UTF-8 text. */
  datatype SourceFile = SourceFile(name: string, content: string)

  /** A root entry of the raw subtitle directory. */
  datatype Entry =
    | Dir(name: string, files: seq<SourceFile>)
    | File(name: string, content: string)
    | Other(name: string)

  /**
   * What a run produces: the items of `manifest.json`, and the `<id>.json`
   * book documents in the output directory, by id.
   */
  datatype Output = Output(manifest: seq<LibraryItem>, written: map<string, BookData>)

  /**
   * The per-file parser the assembly is written against. Both compilers
   * run it with `Parse`; the assembly's properties hold for any parser.
   */
  type Parser = string -> seq<Segment>

  /** `s.endsWith(suffix)`, case-sensitive. */
  predicate EndsWith(s: string, suffix: string)
  {
    |suffix| <= |s| && s[|s| - |suffix|..] == suffix
  }

  predicate IsTxtFile(f: SourceFile)
  {
    EndsWith(f.name, ".txt")
  }

  /** `readdirSync(seriesPath).filter(f => f.endsWith(".txt"))`. */
  function TxtFiles(files: seq<SourceFile>): (r: seq<SourceFile>)
    ensures |r| <= |files|
    ensures forall i | 0 <= i < |r| :: IsTxtFile(r[i])
  {
    Filter(files, IsTxtFile)
  }

  /** The key of the `seriesFiles.sort` comparator: the first number in the file name. */
  function FileKey(f: SourceFile): int
  {
    NumKey(f.name)
  }

  /** The series files in processing order: filtered, and sorted by key when `sortFiles`. */
  function SeriesFiles(files: seq<SourceFile>, sortFiles: bool): seq<SourceFile>
  {
    if sortFiles then Sort(TxtFiles(files), FileKey) else TxtFiles(files)
  }

  const StandaloneText: string := "Standalone reading."

  /** The series description, `${n} lessons in this collection.`. */
  function LessonsText(n: nat): string
  {
    DecimalString(n) + " lessons in this collection."
  }

  /** The book a series file becomes, both as listed in the series and as written. */
  function SeriesBook(parse: Parser, seriesId: string, f: SourceFile): Book
  {
    Book(seriesId + "-" + CreateId(f.name), CreateTitle(f.name), None, |parse(f.content)|, Some(seriesId))
  }

  /** The book a series file lists: none when it has no segments. */
  function FileBooks(parse: Parser, seriesId: string, f: SourceFile): seq<Book>
  {
    if parse(f.content) != [] then [SeriesBook(parse, seriesId, f)] else []
  }

  /** The books of a series: one per file with at least one segment, in file order. */
  function SeriesBooks(parse: Parser, seriesId: string, files: seq<SourceFile>): (books: seq<Book>)
    ensures |books| <= |files|
  {
    if files == [] then []
    else SeriesBooks(parse, seriesId, files[..|files| - 1]) + FileBooks(parse, seriesId, files[|files| - 1])
  }

  /** The document one series file writes, on top of `w`: none when it has no segments. */
  function WriteFile(parse: Parser, w: map<string, BookData>, seriesId: string, f: SourceFile): map<string, BookData>
  {
    if parse(f.content) != [] then w[SeriesBook(parse, seriesId, f).id := BookData(SeriesBook(parse, seriesId, f), parse(f.content))]
    else w
  }

  /** The documents the files of a series write, on top of `w`. */
  function SeriesWrites(parse: Parser, w: map<string, BookData>, seriesId: string, files: seq<SourceFile>): map<string, BookData>
  {
    if files == [] then w
    else WriteFile(parse, SeriesWrites(parse, w, seriesId, files[..|files| - 1]), seriesId, files[|files| - 1])
  }

  /** A standalone book as the manifest lists it. */
  function StandaloneRef(name: string, total: nat): Book
  {
    Book(CreateId(name), CreateTitle(name), Some(StandaloneText), total, None)
  }

  /** A standalone book as its document records it (no description). */
  function StandaloneBook(name: string, total: nat): Book
  {
    Book(CreateId(name), CreateTitle(name), None, total, None)
  }

  /** The series a directory becomes: none without `.txt` files or without a book that has segments. */
  function DirItem(parse: Parser, name: string, files: seq<SourceFile>, sortFiles: bool): Option<LibraryItem>
  {
    if TxtFiles(files) == [] then None
    else
      var books := SeriesBooks(parse, CreateId(name), SeriesFiles(files, sortFiles));
      if books == [] then None
      else Some(SeriesItem(Series(CreateId(name), CreateTitle(name), Some(LessonsText(|TxtFiles(files)|)), books)))
  }

  /** The standalone book a root file becomes: none unless it is a `.txt` file with segments. */
  function FileItem(parse: Parser, name: string, content: string): Option<LibraryItem>
  {
    if EndsWith(name, ".txt") && parse(content) != [] then Some(BookItem(StandaloneRef(name, |parse(content)|)))
    else None
  }

  /** The manifest item a root entry contributes, if any. */
  function ItemOf(parse: Parser, e: Entry, sortFiles: bool): Option<LibraryItem>
  {
    match e
    case Dir(name, files) => DirItem(parse, name, files, sortFiles)
    case File(name, content) => FileItem(parse, name, content)
    case Other(_) => None
  }

  /** The documents a directory's files write, on top of `w`. */
  function DirWrites(parse: Parser, w: map<string, BookData>, name: string, files: seq<SourceFile>, sortFiles: bool): map<string, BookData>
  {
    if TxtFiles(files) == [] then w
    else SeriesWrites(parse, w, CreateId(name), SeriesFiles(files, sortFiles))
  }

  /** The document a root file writes, on top of `w`. */
  function FileWrites(parse: Parser, w: map<string, BookData>, name: string, content: string): map<string, BookData>
  {
    if EndsWith(name, ".txt") && parse(content) != [] then
      w[CreateId(name) := BookData(StandaloneBook(name, |parse(content)|), parse(content))]
    else w
  }

  /** The documents a root entry writes, on top of `w`. */
  function EntryWrites(parse: Parser, w: map<string, BookData>, e: Entry, sortFiles: bool): map<string, BookData>
  {
    match e
    case Dir(name, files) => DirWrites(parse, w, name, files, sortFiles)
    case File(name, content) => FileWrites(parse, w, name, content)
    case Other(_) => w
  }

  /** The manifest: at most one item per entry, in entry order. */
  function Items(parse: Parser, entries: seq<Entry>, sortFiles: bool): (items: seq<LibraryItem>)
    ensures |items| <= |entries|
  {
    if entries == [] then []
    else Items(parse, entries[..|entries| - 1], sortFiles) + Values(ItemOf(parse, entries[|entries| - 1], sortFiles))
  }

  /** Every document written while processing `entries` in order. */
  function Writes(parse: Parser, entries: seq<Entry>, sortFiles: bool): map<string, BookData>
  {
    if entries == [] then map[]
    else EntryWrites(parse, Writes(parse, entries[..|entries| - 1], sortFiles), entries[|entries| - 1], sortFiles)
  }

  /** The whole run over entries already in processing order. */
  function Assemble(parse: Parser, entries: seq<Entry>, sortFiles: bool): Output
  {
    Output(Items(parse, entries, sortFiles), Writes(parse, entries, sortFiles))
  }

  /**
   * `manifest.json` lives in the same output directory as the `<id>.json`
   * documents, so it is the file of a book whose id is `manifest`.
   */
  const ManifestId: string := "manifest"

  /**
   * The last step of a run: `manifest.json` is written over whatever the
   * entries loop left under that name.
   */
  function WriteManifest(out: Output): Output
  {
    Output(out.manifest, out.written - {ManifestId})
  }

  /** Processing one more file adds at most that file's book. */
  lemma SeriesBooksStep(parse: Parser, seriesId: string, files: seq<SourceFile>, i: nat)
    requires i < |files|
    ensures SeriesBooks(parse, seriesId, files[..i + 1]) == SeriesBooks(parse, seriesId, files[..i]) + FileBooks(parse, seriesId, files[i])
  {
    var p := files[..i + 1];
    assert p[..i] == files[..i] && p[i] == files[i];
  }

  /** Processing one more file writes at most that file's document. */
  lemma SeriesWritesStep(parse: Parser, seriesId: string, files: seq<SourceFile>, i: nat, w: map<string, BookData>)
    requires i < |files|
    ensures SeriesWrites(parse, w, seriesId, files[..i + 1]) == WriteFile(parse, SeriesWrites(parse, w, seriesId, files[..i]), seriesId, files[i])
  {
    var p := files[..i + 1];
    assert p[..i] == files[..i] && p[i] == files[i];
  }

  /** One iteration of the `seriesFiles.forEach` body: parse, then push and write if there are segments. */
  method ProcessSeriesFile(seriesId: string, file: SourceFile, books: seq<Book>, w: map<string, BookData>)
    returns (books': seq<Book>, written: map<string, BookData>)
    ensures books' == books + FileBooks(Parse, seriesId, file)
    ensures written == WriteFile(Parse, w, seriesId, file)
  {
    books', written := books, w;
    var segments := ParseFile(file.content);
    if |segments| != 0 {
      var book := Book(seriesId + "-" + CreateId(file.name), CreateTitle(file.name), None, |segments|, Some(seriesId));
      written := w[book.id := BookData(book, segments)];
      books' := books + [book];
    }
  }

  /** The `seriesFiles.forEach` loop: book references pushed and documents written. */
  method ProcessSeries(seriesId: string, files: seq<SourceFile>, w: map<string, BookData>)
    returns (books: seq<Book>, written: map<string, BookData>)
    ensures books == SeriesBooks(Parse, seriesId, files)
    ensures written == SeriesWrites(Parse, w, seriesId, files)
  {
    books, written := [], w;
    var i := 0;
    while i < |files|
      invariant i <= |files|
      invariant books == SeriesBooks(Parse, seriesId, files[..i])
      invariant written == SeriesWrites(Parse, w, seriesId, files[..i])
    {
      SeriesBooksStep(Parse, seriesId, files, i);
      SeriesWritesStep(Parse, seriesId, files, i, w);
      books, written := ProcessSeriesFile(seriesId, files[i], books, written);
      i := i + 1;
    }
    assert files[..|files|] == files;
  }

  /** What a directory contributes, in terms of its processed files. */
  lemma DirEffect(parse: Parser, name: string, files: seq<SourceFile>, sortFiles: bool, ordered: seq<SourceFile>,
                  books: seq<Book>, w: map<string, BookData>, w': map<string, BookData>)
    requires TxtFiles(files) != [] && ordered == SeriesFiles(files, sortFiles)
    requires books == SeriesBooks(parse, CreateId(name), ordered) && w' == SeriesWrites(parse, w, CreateId(name), ordered)
    ensures DirItem(parse, name, files, sortFiles) ==
      if |books| > 0 then Some(SeriesItem(Series(CreateId(name), CreateTitle(name), Some(LessonsText(|TxtFiles(files)|)), books)))
      else None
    ensures DirWrites(parse, w, name, files, sortFiles) == w'
  {
  }

  /** `seriesFiles.sort(...)`: the files copied into an array and sorted in place by key. */
  method SortFiles(files: seq<SourceFile>) returns (sorted: seq<SourceFile>)
    ensures sorted == Sort(files, FileKey)
  {
    var a := new SourceFile[|files|](i requires 0 <= i < |files| => files[i]);
    assert a[..] == files;
    SortInPlace(a, FileKey);
    sorted := a[..];
  }

  /** The series files in processing order: the `.cjs` compiler sorts them, the `.js` one does not. */
  method OrderFiles(files: seq<SourceFile>, txt: seq<SourceFile>, sortFiles: bool) returns (ordered: seq<SourceFile>)
    requires txt == TxtFiles(files)
    ensures ordered == SeriesFiles(files, sortFiles)
  {
    ordered := txt;
    if sortFiles {
      ordered := SortFiles(txt);
    }
  }

  /** A directory without `.txt` files contributes nothing. */
  lemma DirEmpty(parse: Parser, name: string, files: seq<SourceFile>, sortFiles: bool, w: map<string, BookData>)
    requires TxtFiles(files) == []
    ensures DirItem(parse, name, files, sortFiles) == None && DirWrites(parse, w, name, files, sortFiles) == w
  {
  }

  /** A directory's series, when it has books, and its documents. */
  method SeriesOfDir(name: string, files: seq<SourceFile>, sortFiles: bool, w: map<string, BookData>)
    returns (item: Option<LibraryItem>, written: map<string, BookData>)
    ensures item == DirItem(Parse, name, files, sortFiles)
    ensures written == DirWrites(Parse, w, name, files, sortFiles)
  {
    var seriesId := CreateId(name);
    var seriesFiles := TxtFiles(files);
    if |seriesFiles| == 0 {
      DirEmpty(Parse, name, files, sortFiles, w);
      item, written := None, w;
    } else {
      seriesFiles := OrderFiles(files, seriesFiles, sortFiles);
      var books;
      books, written := ProcessSeries(seriesId, seriesFiles, w);
      DirEffect(Parse, name, files, sortFiles, seriesFiles, books, w, written);
      item := if |books| > 0 then Some(SeriesItem(Series(seriesId, CreateTitle(name), Some(LessonsText(|TxtFiles(files)|)), books))) else None;
    }
  }

  /** A directory entry: pushes the series when it has books. */
  method ProcessDir(name: string, files: seq<SourceFile>, sortFiles: bool, manifest: seq<LibraryItem>, w: map<string, BookData>)
    returns (manifest': seq<LibraryItem>, written: map<string, BookData>)
    ensures manifest' == manifest + Values(DirItem(Parse, name, files, sortFiles))
    ensures written == DirWrites(Parse, w, name, files, sortFiles)
  {
    var item;
    item, written := SeriesOfDir(name, files, sortFiles, w);
    manifest' := manifest;
    if item.Some? {
      manifest' := manifest + [item.value];
    }
  }

  /** What a root file contributes, in terms of its parsed segments. */
  lemma FileEffect(parse: Parser, name: string, content: string, segments: seq<Segment>, w: map<string, BookData>)
    requires segments == parse(content)
    ensures FileItem(parse, name, content) ==
      if EndsWith(name, ".txt") && |segments| > 0 then Some(BookItem(StandaloneRef(name, |segments|))) else None
    ensures FileWrites(parse, w, name, content) ==
      if EndsWith(name, ".txt") && |segments| > 0 then w[CreateId(name) := BookData(StandaloneBook(name, |segments|), segments)] else w
  {
  }

  /** A root file entry: a standalone book when it is a `.txt` file with segments. */
  method ProcessFile(name: string, content: string, manifest: seq<LibraryItem>, w: map<string, BookData>)
    returns (manifest': seq<LibraryItem>, written: map<string, BookData>)
    ensures manifest' == manifest + Values(FileItem(Parse, name, content))
    ensures written == FileWrites(Parse, w, name, content)
  {
    manifest', written := manifest, w;
    if EndsWith(name, ".txt") {
      var segments := ParseFile(content);
      FileEffect(Parse, name, content, segments, w);
      if |segments| > 0 {
        var bookId := CreateId(name);
        written := w[bookId := BookData(Book(bookId, CreateTitle(name), None, |segments|, None), segments)];
        manifest' := manifest + [BookItem(Book(bookId, CreateTitle(name), Some(StandaloneText), |segments|, None))];
      }
    }
  }

  /** Processing one more entry appends its item and applies its writes. */
  lemma AssembleStep(parse: Parser, entries: seq<Entry>, i: nat, sortFiles: bool)
    requires i < |entries|
    ensures Items(parse, entries[..i + 1], sortFiles) == Items(parse, entries[..i], sortFiles) + Values(ItemOf(parse, entries[i], sortFiles))
    ensures Writes(parse, entries[..i + 1], sortFiles) == EntryWrites(parse, Writes(parse, entries[..i], sortFiles), entries[i], sortFiles)
  {
    var p := entries[..i + 1];
    assert p[..i] == entries[..i] && p[i] == entries[i];
  }

  /** The `entries.forEach` loop over entries already in processing order. */
  method AssembleEntries(entries: seq<Entry>, sortFiles: bool) returns (out: Output)
    ensures out == Assemble(Parse, entries, sortFiles)
  {
    var manifest: seq<LibraryItem> := [];
    var written: map<string, BookData> := map[];
    for i := 0 to |entries|
      invariant manifest == Items(Parse, entries[..i], sortFiles)
      invariant written == Writes(Parse, entries[..i], sortFiles)
    {
      AssembleStep(Parse, entries, i, sortFiles);
      match entries[i]
      case Dir(name, files) =>
        manifest, written := ProcessDir(name, files, sortFiles, manifest, written);
      case File(name, content) =>
        manifest, written := ProcessFile(name, content, manifest, written);
      case Other(_) =>
    }
    assert entries[..|entries|] == entries;
    out := Output(manifest, written);
  }
}
