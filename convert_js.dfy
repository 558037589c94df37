/**
 * scripts/convert.js: the older compiler. It processes the root entries and
 * each series' files in the order the directory listing gives them, with no
 * sorting.
 */
module ConvertJs {
  import opened Wrappers
  import opened Text
  import opened Types
  import opened Transcript
  import opened Sorting
  import opened Manifest
  import opened ManifestProperties
  import NameProperties
  import TranscriptRender

  /** What one run produces from a directory listing. */
  function Compile(entries: seq<Entry>): (out: Output)
    ensures |out.manifest| <= |entries|
    ensures forall i | 0 <= i < |out.manifest| :: ItemValid(out.manifest[i])
    ensures out.written.Keys == ListedIds(out.manifest) - {ManifestId}
    ensures DocumentsValid(out.written)
  {
    ManifestValid(Parse, entries, false);
    WrittenIdsListed(Parse, entries, false);
    WrittenValid(Parse, entries, false);
    WriteManifest(Assemble(Parse, entries, false))
  }

  /** `processDirectory`: one pass over the entries as listed, then `manifest.json`. */
  method ProcessDirectory(entries: seq<Entry>) returns (out: Output)
    ensures out == Compile(entries)
  {
    out := AssembleEntries(entries, false);
    out := Output(out.manifest, out.written - {ManifestId});
  }

  /** The manifest follows the enumeration order of the root entries. */
  lemma ManifestInListingOrder(a: seq<Entry>, b: seq<Entry>)
    ensures Compile(a + b).manifest == Compile(a).manifest + Compile(b).manifest
  {
    ItemsAppend(Parse, a, b, false);
  }

  /** A series lists the books of its files in the enumeration order of the files. */
  lemma SeriesInListingOrder(name: string, a: seq<SourceFile>, b: seq<SourceFile>)
    requires DirItem(Parse, name, a + b, false).Some?
    ensures DirItem(Parse, name, a + b, false).value.series.books ==
      SeriesBooks(Parse, CreateId(name), TxtFiles(a)) + SeriesBooks(Parse, CreateId(name), TxtFiles(b))
  {
    FilterAppend(a, b, IsTxtFile);
    SeriesBooksAppend(Parse, CreateId(name), TxtFiles(a), TxtFiles(b));
  }

  /* ---------- Concrete runs ---------- */

  /** `createTitle("Unit 1.txt")` is "Unit 1": there is no hyphen to replace. */
  lemma ExampleTitle()
    ensures CreateTitle("Unit 1.txt") == "Unit 1" && EndsWith("Unit 1.txt", ".txt")
  {
    assert "Unit 1.txt" == "Unit 1" + ".txt";
    assert "Unit 1.txt"[6..] == ".txt";
    NameProperties.CreateTitleTxt("Unit 1");
  }

  /** A single root `.txt` file with segments: one standalone book, one document under its id. */
  lemma StandaloneRun(name: string, content: string, segments: seq<Segment>)
    requires Parse(content) == segments && segments != [] && EndsWith(name, ".txt")
    ensures Compile([File(name, content)]) == Output(
      [BookItem(StandaloneRef(name, |segments|))],
      if CreateId(name) == ManifestId then map[]
      else map[CreateId(name) := BookData(StandaloneBook(name, |segments|), segments)])
  {
    FileEffect(Parse, name, content, segments, map[]);
    OneEntry(Parse, File(name, content), false);
  }

  /** A root transcript with two numbered blocks becomes one standalone book. */
  lemma ExampleStandalone()
    ensures Compile([File("Unit 1.txt", "1\nHello.\n你好。\n\n2\nBye.\n再见。\n")]) == Output(
      [BookItem(Book("unit-1", "Unit 1", Some(StandaloneText), 2, None))],
      map["unit-1" := BookData(Book("unit-1", "Unit 1", None, 2, None),
                               [Segment(1, "Hello.", "你好。"), Segment(2, "Bye.", "再见。")])])
  {
    TranscriptRender.ExampleTwoBlocks();
    NameProperties.ExampleCreateId();
    ExampleTitle();
    StandaloneRun("Unit 1.txt", "1\nHello.\n你好。\n\n2\nBye.\n再见。\n",
      [Segment(1, "Hello.", "你好。"), Segment(2, "Bye.", "再见。")]);
  }

  /** A root transcript whose block has no number line contributes nothing. */
  lemma ExampleUnnumbered()
    ensures Compile([File("lesson.txt", "abc\nHello.\n你好。\n")]) == Output([], map[])
  {
    var e := File("lesson.txt", "abc\nHello.\n你好。\n");
    OneEntry(Parse, e, false);
    TranscriptRender.ExampleNotNumbered();
  }

  /**
   * A root `manifest.txt` with segments is listed as the book `manifest`,
   * but no document of it is left: `manifest.json` replaces it.
   */
  lemma ManifestCollision(content: string)
    requires Parse(content) != []
    ensures Compile([File("manifest.txt", content)]) ==
      Output([BookItem(StandaloneRef("manifest.txt", |Parse(content)|))], map[])
    ensures ManifestId in ListedIds(Compile([File("manifest.txt", content)]).manifest)
  {
    NameProperties.ExampleManifestId();
    assert "manifest.txt"[8..] == ".txt";
    StandaloneRun("manifest.txt", content, Parse(content));
    var out := Compile([File("manifest.txt", content)]);
    assert out.manifest == [] + [BookItem(StandaloneRef("manifest.txt", |Parse(content)|))];
  }
}
