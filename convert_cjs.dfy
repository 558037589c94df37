/**
 * scripts/convert.cjs: the current compiler. Before processing, it sorts the
 * root entries by name and then, stably, by the first number in the name;
 * each series' `.txt` files are sorted by the first number in the file name.
 */
module ConvertCjs {
  import opened Wrappers
  import opened Text
  import opened Types
  import opened Transcript
  import opened Sorting
  import opened Manifest
  import opened ManifestProperties
  import ConvertJs

  /** The `localeCompare` order of entry names, given as a rank: `collate(a) < collate(b)` when `a` sorts first. */
  function ByName(collate: string -> int): Entry -> int
  {
    (e: Entry) => collate(e.name)
  }

  /** The key of the numeric comparator, `parseInt(name.match(/\d+/)?.[0] || "0")`. */
  function EntryKey(e: Entry): int
  {
    NumKey(e.name)
  }

  /**
   * The two `entries.sort` calls: a permutation in non-decreasing key order
   * in which entries of equal key keep the name order.
   */
  function SortEntries(entries: seq<Entry>, collate: string -> int): (sorted: seq<Entry>)
    ensures multiset(sorted) == multiset(entries)
    ensures SortedBy(sorted, EntryKey)
    ensures forall k :: WithKey(sorted, EntryKey, k) == WithKey(Sort(entries, ByName(collate)), EntryKey, k)
    ensures forall k :: SortedBy(WithKey(sorted, EntryKey, k), ByName(collate))
  {
    var byName := Sort(entries, ByName(collate));
    SortFacts(entries, ByName(collate));
    SortFacts(byName, EntryKey);
    forall k ensures SortedBy(WithKey(Sort(byName, EntryKey), EntryKey, k), ByName(collate)) {
      WithKeySorted(byName, EntryKey, k, ByName(collate));
    }
    Sort(byName, EntryKey)
  }

  /** What one run produces from a directory listing. */
  function Compile(entries: seq<Entry>, collate: string -> int): (out: Output)
    ensures |out.manifest| <= |entries|
    ensures forall i | 0 <= i < |out.manifest| :: ItemValid(out.manifest[i])
    ensures out.written.Keys == ListedIds(out.manifest) - {ManifestId}
    ensures DocumentsValid(out.written)
  {
    var sorted := SortEntries(entries, collate);
    ManifestValid(Parse, sorted, true);
    WrittenIdsListed(Parse, sorted, true);
    WrittenValid(Parse, sorted, true);
    assert |sorted| == |multiset(sorted)| == |entries|;
    WriteManifest(Assemble(Parse, sorted, true))
  }

  /** `processDirectory`: the entries copied into an array, sorted twice in place, then processed in order. */
  method ProcessDirectory(entries: seq<Entry>, collate: string -> int) returns (out: Output)
    ensures out == Compile(entries, collate)
  {
    var a := new Entry[|entries|](i requires 0 <= i < |entries| => entries[i]);
    assert a[..] == entries;
    SortInPlace(a, ByName(collate));
    SortInPlace(a, EntryKey);
    out := AssembleEntries(a[..], true);
    out := Output(out.manifest, out.written - {ManifestId});
  }

  /**
   * A series processes its `.txt` files in non-decreasing key order, and
   * filtering before the sort gives the same files as filtering after it.
   */
  lemma SeriesFilesSorted(files: seq<SourceFile>)
    ensures SortedBy(SeriesFiles(files, true), FileKey)
    ensures multiset(SeriesFiles(files, true)) == multiset(TxtFiles(files))
    ensures SeriesFiles(files, true) == Filter(Sort(files, FileKey), IsTxtFile)
  {
    SortFacts(TxtFiles(files), FileKey);
    FilterSortCommute(files, IsTxtFile, FileKey);
  }

  /** On a listing that is already in both orders, the two compilers agree. */
  lemma AgreesWithJs(entries: seq<Entry>, collate: string -> int)
    requires SortedBy(entries, ByName(collate)) && SortedBy(entries, EntryKey)
    requires FilesInOrder(entries)
    ensures Compile(entries, collate) == ConvertJs.Compile(entries)
  {
    SortOfSorted(entries, ByName(collate));
    SortOfSorted(entries, EntryKey);
    SortFilesIrrelevant(Parse, entries);
  }
}
