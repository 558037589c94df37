# EnglishPod Reader — verified model of its core logic

EnglishPod Reader is a small reading application for bilingual (English /
Chinese) lesson transcripts. It has four pieces of sequential logic, and this
project models each of them in Dafny and proves what they promise:

- **The transcript compiler** (`scripts/convert.cjs` and the older
  `scripts/convert.js`):
  - `parseFile` cuts a subtitle text into blank-line separated blocks and
    keeps the numbered ones as `{id, en, cn}` segments;
  - `createId` and `createTitle` turn file names into slugs and titles;
  - `processDirectory` turns a directory listing into `manifest.json` (series
    and standalone books) plus one `<id>.json` document per book. The `.cjs`
    version first sorts the root entries (by name, then stably by the first
    number in the name) and each series' files (by that number).
- **The reading-progress store** (`src/services/storage.ts`): records kept
  under `zenreader_progress_<bookId>`, plus the derived last-read time,
  percentage and completion of books and series.
- **The reader screen's state machine** (event handlers of
  `src/components/Reader.tsx`): the load-progress effect, the intersection
  callback, the read-status toggle, the slider, the font-size buttons and the
  displayed position.
- **The library list** (`processItems` in `src/components/Library.tsx`):
  items sorted newest-read first, with completed items optionally hidden.

## Layout

- `wrappers.dfy` (`Wrappers`): `Option`, and `FilterMap` (the `forEach`/`push` pattern) with its lemmas
- `types.dfy` (`Types`): `Segment`, `Book`, `Series`, `LibraryItem`, `BookData`, `ReadingProgress` from types.ts
- `text.dfy` (`Text`): JavaScript whitespace (`\s` and `trim`), `trim`, `split` on one character, ASCII digits, decimal values, ASCII `toLowerCase`
- `sorting.dfy` (`Sorting`): the stable `Array.prototype.sort` as insertion sort on keys: a function on sequences, an in-place method on arrays, and the lemmas (permutation, order, stability, uniqueness, commuting with `filter`)
- `transcript.dfy` (`Transcript`, `TranscriptProperties`): `parseFile` (the CRLF replace, `split(/\n\s*\n/)` exactly, block selection), `createId`, `createTitle`, the numeric sort key, and their properties
- `render.dfy` (`TranscriptRender`): the transcript format written out, the parse-after-render round trip, and concrete inputs
- `names.dfy` (`NameProperties`): slug, title and numeric-key lemmas and examples
- `manifest.dfy` (`Manifest`): the manifest assembly both compilers share, as specification functions and as loop methods
- `manifest_properties.dfy` (`ManifestProperties`): well-formedness of the manifest and of the written documents, order, skipping, later-write-wins
- `convert_js.dfy` (`ConvertJs`): `processDirectory` of convert.js (no sorting)
- `convert_cjs.dfy` (`ConvertCjs`): `processDirectory` of convert.cjs (the two root sorts and the series-file sort)
- `storage.dfy` (`Storage`, `StorageProperties`): the `ProgressStore` class over a key/value map, and the progress aggregates
- `reader.dfy` (`Reading`, `ReadingProperties`): the `ReaderSession` class
- `library.dfy` (`Library`, `LibraryProperties`): `processItems` and `displayedItems`

Modelling choices:

- One predicate `IsSpace` stands for both the regular-expression class `\s`
  and the characters `String.prototype.trim` removes, because JavaScript
  defines them as the same set.
- `split(/\n\s*\n/)` is modelled with the greedy `\s*` and its backtracking:
  a separator that starts at a `\n` ends after the last `\n` of the
  whitespace run that follows it.
- The directory listing is an input: a sequence of `Dir(name, files)`,
  `File(name, content)` and `Other(name)` entries. The written files are a
  `map` from book id to `BookData`, so a later write to the same id replaces
  the earlier one. The manifest assembly is written against any per-file
  parser (`Manifest.Parser`); both compilers use `Transcript.Parse`.
- `localeCompare` is an abstract ranking `collate: string -> int`, so the
  first `.cjs` sort is "stable sort by `collate(name)`".
- `localStorage` is a `map<string, Stored>`. A stored value is
  `Valid(record)` when `JSON.parse` accepts it and `Corrupt` otherwise.
  `Date.now()` is the parameter `now`.
- `Math.round(x)` is ⌊x + ½⌋ exactly, which is what JavaScript computes on
  exact values, including negative ones. On integers, `Math.round(a / b)`
  for `b > 0` is `RoundDiv(a, b) = (2a + b) / (2b)`.
- Where the source loops (`parseFile`, the `processDirectory` loops, the
  series loops of `getItemLastRead` and `getItemProgress`, the intersection
  callback) or sorts an array in place, the model is a method with a loop,
  proved equal to a specification function. The properties are lemmas about
  those functions.

## Model

| member | source | states |
|---|---|---|
| Wrappers.FilterMap | scripts/convert.cjs:39-53 | pushing at most one result per element gives no more results than elements |
| Wrappers.FilterMapAppend | scripts/convert.cjs:39-53 | the results of a concatenation are the results of each part, in order, so block order is kept |
| Wrappers.FilterMapOrigin | scripts/convert.cjs:39-53 | every result comes from some element of the input |
| Text.TrimFacts | scripts/convert.cjs:40 | `trim` returns the slice between the leading and the trailing whitespace; both removed parts are all whitespace; a non-empty result starts and ends with non-whitespace; the result is empty iff the text is all whitespace |
| Text.TrimIdempotent | scripts/convert.cjs:48-49 | trimming twice is the same as trimming once |
| Text.TrimOfTrimmed | scripts/convert.cjs:48-49 | a text that neither starts nor ends with whitespace is left unchanged by `trim` |
| Text.Split | scripts/convert.cjs:40 | `split("\n")` gives at least one piece, and no piece contains the separator |
| Text.SplitCons | scripts/convert.cjs:40 | the first piece ends at the first separator, and splitting continues after it |
| Text.JoinSplit | scripts/convert.cjs:40 | joining the pieces with the separator gives back the text |
| Text.CountSplit | scripts/convert.cjs:40-41 | the number of lines is the number of newlines plus one |
| Text.DigitChar | scripts/convert.cjs:42-44 | the digit character for d < 10 is an ASCII digit whose value is d |
| Text.DecimalString | scripts/convert.cjs:42-44 | the decimal text of a number consists of ASCII digits only |
| Text.DecimalRoundTrip | scripts/convert.cjs:42-44 | `parseInt` of the decimal text of n is n |
| Text.DecimalLeadingZero | scripts/convert.cjs:42-44 | a leading zero does not change the value `parseInt` reads |
| Text.ToLower | scripts/convert.cjs:60 | `toLowerCase` keeps the length and lower-cases each character independently |
| Text.ReplaceChar | scripts/convert.cjs:63 | `replace(/-/g, " ")` keeps the length and replaces exactly the `-` characters |
| Sorting.Filter | src/components/Library.tsx:33 | `filter` keeps only elements satisfying the predicate and never grows the list |
| Sorting.FilterMember | src/components/Library.tsx:33 | an element is in the filtered list iff it is in the list and satisfies the predicate |
| Sorting.FilterAppend | src/components/Library.tsx:33 | filtering distributes over concatenation |
| Sorting.InsertSorted | scripts/convert.cjs:72-76 | inserting into a key-ordered list keeps it key-ordered |
| Sorting.InsertWithKey | scripts/convert.cjs:72-76 | inserting puts the new element after all earlier elements with the same key |
| Sorting.SortFacts | scripts/convert.cjs:72-76 | the stable sort is a permutation of its input, ordered by key, and keeps the input order among equal keys |
| Sorting.StableSortUnique | src/components/Library.tsx:29 | two lists that are both key-ordered and hold the same elements in the same order for every key are equal, so the stable sort's result is unique |
| Sorting.SortDeterminedByKeys | src/components/Library.tsx:29 | the stable sort depends only on the order of elements within each key |
| Sorting.SortOfSorted | scripts/convert.cjs:95-100 | sorting an already key-ordered list changes nothing |
| Sorting.FilterSorted | src/components/Library.tsx:32-34 | filtering a key-ordered list keeps it key-ordered |
| Sorting.WithKeySorted | scripts/convert.cjs:69-76 | the elements with one key of a list sorted by another key stay in that other order |
| Sorting.FilterSortCommute | src/components/Library.tsx:26-34 | sorting then filtering is the same as filtering then sorting |
| Sorting.InsertLast | src/components/Library.tsx:29 | one in-place insertion step turns `a[..i+1]` into the prefix `a[..i]` with `a[i]` inserted stably, and leaves the rest of the array alone |
| Sorting.SortInPlace | src/components/Library.tsx:29 | sorting the array in place leaves in it exactly the stable sort of its old contents |
| Transcript.LastNewlineOfRun | scripts/convert.cjs:36 | the greedy `\s*` followed by `\n` ends at the last newline of the whitespace run; every newline reachable through whitespace is at or before it |
| Transcript.SeparatorEnd | scripts/convert.cjs:36 | a match of `/\n\s*\n/` at p starts and ends with a newline and is all whitespace; there is no match at p iff no newline after p is reached through whitespace only |
| Transcript.SplitBlocks | scripts/convert.cjs:36 | `split` always yields at least one block |
| Transcript.BlockLines | scripts/convert.cjs:40 | `block.trim().split("\n")` yields at least one line |
| Transcript.NormalizeNewlines | scripts/convert.cjs:35 | `replace(/\r\n/g, "\n")` never lengthens the text |
| Transcript.ParseBlocks | scripts/convert.cjs:39-53 | at most one segment per block |
| Transcript.ParseFile | scripts/convert.cjs:34-56 | the loop over the blocks that pushes one segment per accepted block returns exactly `Parse(content)` |
| Transcript.ExtensionStart | scripts/convert.cjs:61 | where `/\.[^/.]+$/` matches: a `.` followed by at least one character and no later `.` or `/`; no match anywhere otherwise |
| Transcript.StripExtension | scripts/convert.cjs:61 | removing the extension leaves a prefix of the name |
| Transcript.CollapseWhitespace | scripts/convert.cjs:62 | `replace(/\s+/g, "-")` leaves no whitespace and never lengthens the text |
| Transcript.CreateId | scripts/convert.cjs:58-62 | an id never contains whitespace |
| Transcript.CreateTitle | scripts/convert.cjs:63 | a title never contains `-` |
| Transcript.FirstDigitRun | scripts/convert.cjs:73 | `match(/\d+/)` yields only ASCII digits |
| TranscriptProperties.SplitBlocksNoBlankLine | scripts/convert.cjs:36 | no block contains two newlines with only whitespace between them |
| TranscriptProperties.SplitLinesNonBlank | scripts/convert.cjs:40 | when the text has no whitespace-only line, no line from `split("\n")` is whitespace-only |
| TranscriptProperties.TrimmedLinesNonBlank | scripts/convert.cjs:40 | a trimmed block without blank lines has no whitespace-only line |
| TranscriptProperties.BlockSegmentText | scripts/convert.cjs:47-48 | the `en` and `cn` of a segment from a block are non-empty, single-line, and start and end with non-whitespace |
| TranscriptProperties.ParseSegmentText | scripts/convert.cjs:36-49 | every segment of every file has such an `en` and `cn`, so neither field is ever empty |
| TranscriptProperties.NormalizeIdentity | scripts/convert.cjs:35 | text with no `\r\n` is unchanged by the replace |
| TranscriptProperties.NormalizeRemovesCRLF | scripts/convert.cjs:35 | when the text has no `\r\r`, the replace leaves no `\r\n` |
| TranscriptProperties.ParseNormalized | scripts/convert.cjs:35-36 | when the content has no `\r\r`, parsing it gives the same segments as parsing it with `\r\n` already replaced by `\n` |
| TranscriptProperties.NormalizeAppend | scripts/convert.cjs:35 | replacing in a concatenation is replacing in each part, unless a `\r\n` straddles the join |
| TranscriptRender.SplitBlocksTight | scripts/convert.cjs:36 | a text whose every newline is followed by non-whitespace, with at most one trailing newline, is one block |
| TranscriptRender.ParseBlockText | scripts/convert.cjs:40-50 | a block made of a digit-string line, an English line and a Chinese line becomes the segment with that decimal id and those texts, with or without a trailing newline |
| TranscriptRender.ParseBlockExtraLines | scripts/convert.cjs:45-50 | lines after the third do not change the segment |
| TranscriptRender.SplitJoinBlocks | scripts/convert.cjs:36 | blocks joined by one blank line are split back into exactly those blocks |
| TranscriptRender.RoundTrip | scripts/convert.cjs:34-56 | parsing the text of any sequence of writable segments, with or without a final newline, gives back exactly those segments in order |
| TranscriptRender.SingleBlock | scripts/convert.cjs:34-56 | content that is one block after the replace parses to what that block gives, or nothing |
| TranscriptRender.ExampleTwoBlocks | scripts/convert.cjs:34-56 | `"1\nHello.\n你好。\n\n2\nBye.\n再见。\n"` parses to exactly the segments with ids 1 and 2 |
| TranscriptRender.ParseNotNumbered | scripts/convert.js:38-40 | a block of writable lines whose first line is not all digits gives no segment |
| TranscriptRender.NormalizedNotNumbered | scripts/convert.js:38-40 | content whose only block starts with a line that is not all digits gives no segment |
| TranscriptRender.ExampleNotNumbered | scripts/convert.js:40 | `"abc\nHello.\n你好。\n"` parses to no segment |
| TranscriptRender.ExampleSpaceAfterId | scripts/convert.cjs:40-42 | `"1 \nHello.\n你好。"` parses to no segment, because the id line keeps its trailing space |
| TranscriptRender.ExampleLeadingZeros | scripts/convert.cjs:42-44 | the id line `007` is accepted with id 7 |
| TranscriptRender.ExampleZeroId | scripts/convert.cjs:42-44 | the id line `0` is accepted with id 0 |
| TranscriptRender.CRCounterexample | scripts/convert.cjs:35 | `"1\r\r\nA\r\r\nB"` parses to no segment, but after one more replace it parses to `Segment(1, "A", "B")` |
| NameProperties.StripTxt | scripts/convert.cjs:61 | the `.txt` extension is removed |
| NameProperties.StripNoDot | scripts/convert.cjs:61 | a name without `.` is unchanged |
| NameProperties.StripDotBeforeSlash | scripts/convert.cjs:61 | a `.` before a later `/` is not an extension |
| NameProperties.CollapseIdentity | scripts/convert.cjs:62 | text without whitespace is unchanged by the whitespace replace |
| NameProperties.CollapseIdempotent | scripts/convert.cjs:62 | applying the whitespace replace twice is the same as once |
| NameProperties.CollapseRun | scripts/convert.cjs:62 | a leading whitespace run before a word becomes one `-` |
| NameProperties.CollapseWords | scripts/convert.cjs:62 | a whitespace run between two words becomes exactly one `-` |
| NameProperties.CreateIdNoSpace | scripts/convert.cjs:58-62 | an id has no whitespace and is a fixed point of the whitespace replace |
| NameProperties.CreateTitleTxt | scripts/convert.cjs:63 | the title of `base.txt` is `base` with every `-` made a space: no `-` and the same length as `base` |
| NameProperties.ExampleCreateId | scripts/convert.cjs:58-62 | `createId("Unit 1.txt")` is `unit-1` |
| NameProperties.ExampleManifestId | scripts/convert.cjs:58-62 | `createId("manifest.txt")` is `manifest` |
| NameProperties.ExampleCreateTitle | scripts/convert.cjs:63 | `createTitle("unit-1.txt")` is `unit 1` |
| NameProperties.NumKeyNoDigits | scripts/convert.cjs:73 | a name without digits has key 0 (the `\|\| "0"` fallback) |
| NameProperties.NumKeyOf | scripts/convert.cjs:73-74 | the key of a name is the decimal value of its first maximal digit run |
| NameProperties.ExampleNumKey | scripts/convert.cjs:97 | the key of `Lesson 12 - a3.txt` is 12 |
| Manifest.TxtFiles | scripts/convert.cjs:89-91 | only files ending in `.txt` are kept, and no file is added |
| Manifest.SeriesBooks | scripts/convert.cjs:114-145 | a series has at most one book per `.txt` file |
| Manifest.Items | scripts/convert.cjs:82-182 | the manifest has at most one item per root entry |
| Manifest.ProcessSeriesFile | scripts/convert.cjs:114-145 | one iteration of the series-file loop appends the file's book (if the file has segments) and performs its write |
| Manifest.ProcessSeries | scripts/convert.cjs:114-145 | the series-file loop yields exactly the specified books and writes |
| Manifest.SortFiles | scripts/convert.cjs:95-100 | sorting the series files in place gives the stable sort by key |
| Manifest.OrderFiles | scripts/convert.cjs:89-100 | the `.txt` files, sorted in the `.cjs` compiler and in listing order in the `.js` one |
| Manifest.SeriesOfDir | scripts/convert.cjs:83-149 | the directory branch yields exactly the specified item and writes |
| Manifest.ProcessDir | scripts/convert.cjs:83-149 | the directory branch appends the series item, if any, to the manifest and performs its writes |
| Manifest.ProcessFile | scripts/convert.cjs:150-181 | the file branch appends exactly that item and performs exactly that write |
| Manifest.AssembleEntries | scripts/convert.cjs:78-184 | the loop over the root entries yields exactly the specified manifest and writes |
| ManifestProperties.SeriesBooksValid | scripts/convert.cjs:119-144 | every book of a series carries the series id, has an id starting with `seriesId-`, a positive segment count and no description |
| ManifestProperties.ItemOfValid | scripts/convert.cjs:147-179 | every item produced for an entry is well formed: a standalone book with the description `Standalone reading.`, no series id and a positive count, or a non-empty series of well-formed books |
| ManifestProperties.ManifestValid | scripts/convert.cjs:82-182 | every item of the manifest is well formed |
| ManifestProperties.SeriesCounts | scripts/convert.cjs:92-149 | a listed series has the directory's id and title, the description with the `.txt` file count, and between 1 and that many books |
| ManifestProperties.ItemsAppend | scripts/convert.js:65 | the manifest of a concatenated listing is the concatenation of the manifests |
| ManifestProperties.SeriesBooksAppend | scripts/convert.js:85 | the books of concatenated file lists are the concatenation of the books |
| ManifestProperties.EmptySeries | scripts/convert.cjs:117 | files that all parse to no segment give no book and no write |
| ManifestProperties.SortedEmpty | scripts/convert.cjs:95-100 | sorting does not change whether all files are empty |
| ManifestProperties.SilentEntry | scripts/convert.cjs:147-155 | an entry that is not a directory or a file, a non-`.txt` file, an empty file or a directory without surviving books gives no item and writes nothing |
| ManifestProperties.Skipped | scripts/convert.cjs:147-155 | appending such an entry to the listing changes neither the manifest nor the written files |
| ManifestProperties.WrittenIdsListed | scripts/convert.cjs:132-179 | when the entries loop ends, a document has been written under an id iff that id is listed in the manifest, as a standalone book or as a book of a series |
| ManifestProperties.SeriesWritesValid | scripts/convert.cjs:119-135 | the series-file loop's writes keep every document well formed |
| ManifestProperties.WrittenValid | scripts/convert.cjs:122-170 | every written document is filed under its own id, has `totalSegments` equal to the number of its segments and greater than 0, and has no description |
| ManifestProperties.LaterWriteWins | scripts/convert.cjs:167-170 | two standalone files with the same id are both listed, but only one document is written, and it holds the second file's segments |
| ManifestProperties.TwoEntries | scripts/convert.cjs:82 | a two-entry listing is processed as the first entry and then the second, for both the manifest and the writes |
| ManifestProperties.SortFilesIrrelevant | scripts/convert.cjs:95-100 | when every directory's `.txt` files are already in key order, sorting them changes nothing |
| ConvertJs.Compile | scripts/convert.js:59-152 | at most one item per entry; every item is well formed; once `manifest.json` is written, the documents left are exactly those of the listed book ids other than `manifest`; every document left is well formed |
| ConvertJs.ProcessDirectory | scripts/convert.js:59-152 | the loop yields exactly `Compile(entries)` |
| ConvertJs.ManifestInListingOrder | scripts/convert.js:60-65 | no sorting: the manifest follows the listing order |
| ConvertJs.SeriesInListingOrder | scripts/convert.js:72-85 | no sorting: a series' books follow the listing order of its files |
| ConvertJs.ExampleTitle | scripts/convert.js:57 | the title of `Unit 1.txt` is `Unit 1`, and it is a `.txt` name |
| ConvertJs.StandaloneRun | scripts/convert.js:119-150 | a listing with one `.txt` file with segments gives one standalone item and one document under its id, unless that id is `manifest`, whose document `manifest.json` replaces |
| ConvertJs.ExampleStandalone | scripts/convert.js:119-146 | `Unit 1.txt` with two numbered blocks gives the item `unit-1` / `Unit 1` with `Standalone reading.` and 2 segments, and the document with both segments |
| ConvertJs.ManifestCollision | scripts/convert.js:119-150 | a root `manifest.txt` with segments is listed as the book `manifest`, but the run leaves no document for it |
| ConvertJs.ExampleUnnumbered | scripts/convert.js:40 | `lesson.txt` with an unnumbered block gives an empty manifest and writes nothing |
| ConvertCjs.SortEntries | scripts/convert.cjs:69-76 | the two root sorts give a permutation of the listing, ordered by numeric key; entries with equal key keep their order from the name sort and so are in name order |
| ConvertCjs.Compile | scripts/convert.cjs:65-186 | at most one item per entry; every item is well formed; once `manifest.json` is written, the documents left are exactly those of the listed book ids other than `manifest`; every document left is well formed |
| ConvertCjs.ProcessDirectory | scripts/convert.cjs:65-186 | sorting the entries array in place twice and then running the loop yields exactly `Compile(entries, collate)` |
| ConvertCjs.SeriesFilesSorted | scripts/convert.cjs:89-100 | a series' files are its `.txt` files as a permutation, in key order, and the same as sorting all files and then keeping the `.txt` ones |
| ConvertCjs.AgreesWithJs | scripts/convert.cjs:69-100 | on a listing already in both orders, whose series files are already in key order, both compilers agree |
| Storage.StorageKey | src/services/storage.ts:3-13 | a record's key is the prefix `zenreader_progress_` followed by the book id |
| Storage.GetProgress | src/services/storage.ts:27-36 | `null` iff the key is absent or its value does not parse; otherwise the stored record |
| Storage.RoundDiv | src/services/storage.ts:63 | `Math.round(a / b)` is the integer r with r − ½ ≤ a/b < r + ½ |
| Storage.MaxLastRead | src/services/storage.ts:45-51 | the series loop's `max` is ≥ 0, at least every book's `lastRead`, and either 0 or one of them |
| Storage.AllCompleted | src/services/storage.ts:82 | `every` holds iff every book has a completed record |
| Storage.ProgressStore.SaveProgress | src/services/storage.ts:5-14 | the store after `saveProgress` at time `now` |
| Storage.ProgressStore.ToggleCompletion | src/services/storage.ts:16-25 | the store after `toggleCompletion` at time `now` |
| Storage.ProgressStore.GetItemLastRead | src/services/storage.ts:41-53 | the loop returns `getItemLastRead` of the item |
| Storage.ProgressStore.GetItemProgress | src/services/storage.ts:58-76 | the loop returns `getItemProgress` of the item |
| StorageProperties.KeysDistinct | src/services/storage.ts:13 | distinct books have distinct keys |
| StorageProperties.SaveThenGet | src/services/storage.ts:5-14 | after `saveProgress(id, i, c)` the record of `id` has that id, index i, `lastRead = now` and completion `c` or the old one; every other book's record is unchanged |
| StorageProperties.SaveKeepsCompletion | src/services/storage.ts:11 | `saveProgress` never clears completion |
| StorageProperties.ToggleThenGet | src/services/storage.ts:16-25 | after `toggleCompletion(id, c)` the record has completion exactly c, the old index (0 without a record) and `lastRead = now`; every other book's record is unchanged |
| StorageProperties.UnreadSeries | src/services/storage.ts:46-51 | a series with no record has last-read time 0 |
| StorageProperties.RoundDivUnique | src/services/storage.ts:63 | the rounding result is the only integer within ½ of the quotient |
| StorageProperties.RoundDivMonotone | src/services/storage.ts:63 | rounding is monotone in the numerator |
| StorageProperties.BookPercentMonotone | src/services/storage.ts:63 | a book's percentage does not decrease as its index grows |
| StorageProperties.BookPercentBounds | src/services/storage.ts:63 | for an index inside the book the percentage is within 0..100, and 100 at the last segment |
| StorageProperties.BookProgressCases | src/services/storage.ts:58-64 | book progress is 0 without a record, 100 when completed, and otherwise the rounded `(i + 1) / T * 100` |
| StorageProperties.SeriesProgressUnread | src/services/storage.ts:67-74 | series progress is 0 when no book has a record |
| StorageProperties.SeriesProgressCompleted | src/services/storage.ts:67-74 | series progress is 100 when every book of a non-empty series is completed |
| StorageProperties.SeriesProgressBounds | src/services/storage.ts:67-74 | series progress is within 0..100 when each book's percentage is |
| StorageProperties.SeriesCompletedIff | src/services/storage.ts:78-84 | a series is completed iff every book has a record with `isCompleted`; an empty series is completed |
| Reading.LoadedCompletion | src/components/Reader.tsx:31-33 | on load the completion flag is the saved one, and unchanged without a record |
| Reading.LoadedIndex | src/components/Reader.tsx:34-38 | on load the saved index is adopted iff it lies inside the book; otherwise the index is unchanged |
| Reading.ActiveAfter | src/components/Reader.tsx:76-85 | after a notification the active index is the old one or the index of one of its intersecting entries |
| Reading.ReaderSession.constructor | src/components/Reader.tsx:19-48 | mounting starts at font size 18, not dragging, and then applies the load effect to index 0 and completion false |
| Reading.ReaderSession.LoadProgress | src/components/Reader.tsx:30-48 | the load effect sets the completion flag and the index as above and changes nothing else |
| Reading.ReaderSession.OnIntersections | src/components/Reader.tsx:72-86 | while dragging, neither the index nor the store changes; otherwise each intersecting entry becomes active and is saved, without touching completion or font size |
| Reading.ReaderSession.ToggleReadStatus | src/components/Reader.tsx:112-117 | the flag is flipped and the store receives `toggleCompletion` with the new flag |
| Reading.ReaderSession.SliderChange | src/components/Reader.tsx:119-127 | the active index is set and the store is unchanged |
| Reading.ReaderSession.SliderPointerDown | src/components/Reader.tsx:129 | dragging starts and nothing else changes |
| Reading.ReaderSession.SliderPointerUp | src/components/Reader.tsx:130-134 | dragging stops and the active index is saved |
| Reading.ReaderSession.DecreaseFont | src/components/Reader.tsx:301 | the font size drops by 2 but not below 14, and stays even and within 14..32 |
| Reading.ReaderSession.IncreaseFont | src/components/Reader.tsx:311 | the font size grows by 2 but not above 32, and stays even and within 14..32 |
| Reading.ReaderSession.DisplayIndex | src/components/Reader.tsx:137-138 | the displayed position is the active index plus one, and lies in 1..`segments.length` for an index inside the book |
| ReadingProperties.SavedAfterKeeps | src/components/Reader.tsx:76-85 | a notification keeps the open book's stored completion, leaves every other book alone, and after an intersecting entry the record holds the last intersecting index |
| ReadingProperties.LastIntersectingWins | src/components/Reader.tsx:76-85 | the active index after a notification is the index of its last intersecting entry |
| ReadingProperties.NothingIntersecting | src/components/Reader.tsx:76-85 | a notification with no intersecting entry changes neither the index nor the store |
| ReadingProperties.ToggleTwice | src/components/Reader.tsx:112-117 | toggling twice restores the completion flag and keeps the stored index |
| ReadingProperties.PointerUpRecord | src/components/Reader.tsx:130-134 | dropping the slider stores the active index and keeps the stored completion |
| Library.BookItems | src/components/Library.tsx:42 | a series' books as library items, one per book, in order |
| Library.ProcessItems | src/components/Library.tsx:25-37 | copying the list, sorting the copy in place and filtering gives exactly the specified result |
| Library.DisplayedItems | src/components/Library.tsx:39-46 | the selected series' books, or the whole library, processed |
| LibraryProperties.ProcessedNewestFirst | src/components/Library.tsx:29 | last-read times never increase along the result |
| LibraryProperties.ProcessedPermutation | src/components/Library.tsx:26-29 | without hiding, the result is a permutation of the input |
| LibraryProperties.ProcessedHidesCompleted | src/components/Library.tsx:32-34 | with hiding, the result is the sorted list of unfinished items: an item is in it iff it is in the input and not completed |
| LibraryProperties.ProcessedStable | src/components/Library.tsx:29 | items with equal last-read times keep their input order |
| LibraryProperties.SeriesViewShowsItsBooks | src/components/Library.tsx:40-43 | the series view shows only books of the selected series |

## Notes on the source

- The block test reads the first line of the *trimmed block*; that line is
  not trimmed itself. So `"1 \nHello.\n你好。"` is dropped because of the
  trailing space (`TranscriptRender.ExampleSpaceAfterId`), and the id line
  is not "the trimmed first line".
- Parsing `c` and parsing `c` with its `\r\n` already replaced agree only
  when `c` has no `\r\r`. The replace is a single pass, so `"\r\r\n"` leaves
  one `\r\n` behind. `TranscriptProperties.ParseNormalized` proves the
  agreement under that condition. `TranscriptRender.CRCounterexample` shows
  `"1\r\r\nA\r\r\nB"`, which parses to nothing, while its replaced form
  parses to one segment.
- Both compilers share the same `parseFile`, `createId` and `createTitle`
  text. Apart from the output directory (`public/assets/subtitles` for the
  `.js` compiler, `assets/subtitles` for the `.cjs` one), which is left out
  with the file system, only the sorting differs. `ConvertCjs.AgreesWithJs`
  states when the two compilers agree.
- `manifest.json` is written into the same directory as the `<id>.json`
  book documents, and it is written last. A root `manifest.txt` with
  segments gets the id `manifest`. It is listed in the manifest, but its
  document is replaced by the manifest itself
  (`ConvertJs.ManifestCollision`). The compilers' contracts therefore
  promise documents for every listed id except `manifest`.

## Left out

- File-system access, `mkdirSync`, `process.exit`, `console.log` and
  `JSON.stringify`: the listing and file contents are inputs, and the written
  files are a map.
- `fs.readdirSync` order: the listing order is an input. `entry.isDirectory()`
  and `entry.isFile()` are the `Dir`, `File` and `Other` cases.
- `localeCompare` collation: it depends on the locale, so it is an abstract
  ranking `collate`. Two names of equal rank therefore keep listing order.
- `toLowerCase` is modelled on ASCII letters only. Other letters are left as
  they are, because Unicode case mapping is not modelled.
- `parseInt` precision: ids and keys are unbounded `nat`, whereas JavaScript
  numbers lose precision beyond 2^53.
- `Segment.startTime`: the source never sets it, so it is left out.
- `localStorage` and JSON parsing: any value that parses is a `Valid` record
  with all four fields. A value that parses to something that is not such a
  record is not modelled.
- `|| 0` on `lastRead` and `segmentIndex` is modelled for a missing record.
  A stored `NaN` is not modelled.
- `Date.now()` is the parameter `now`.
- Storage.BookPercent: requires `totalSegments > 0`. The source divides by it
  and would return `Infinity` or `NaN` for 0.
- Storage.ItemProgress: requires a positive `totalSegments` for the book, and
  for every book of a series. The source divides only for books with an
  unfinished record, so a series with a zero-count book is not covered.
- Storage.ProgressStore.GetItemProgress: requires the same positive
  segment counts as `Storage.ItemProgress`, for the same reason.
- Floating point: `Math.round(((i + 1) / T) * 100)` is modelled as the exact
  rational rounding. Binary floating point can differ from it at exact `.5`
  boundaries.
- DOM and UI: JSX, CSS, `scrollIntoView`, the `setTimeout` scroll, the
  IntersectionObserver geometry, `handleScroll`, `handleContainerClick`,
  `displayMode` and the slider fill percentages are left out. The observer's
  callback receives its entries as data (`Reading.Intersection`), with
  `data-index` already read by `parseInt`.
- `handleSliderChange` receives the slider value already parsed as an
  integer.
- `src/services/dataService.ts` (fetching the manifest, with a mock fallback),
  `App.tsx`, `src/App.tsx` and `vite.config.ts` are not part of this model.
  They are I/O, navigation and build configuration.
