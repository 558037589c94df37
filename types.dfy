/**
 * The value types shared by the transcript compiler and the reading
 * application: segments, books, series, library items, full book documents
 * and reading-progress records.
 */
module Types {
  import opened Wrappers

  /** One aligned English / Chinese sentence pair; `id` is the number written above it in the source file. */
  datatype Segment = Segment(id: nat, en: string, cn: string)

  /** The lightweight form of a book, as listed in the manifest and in a series. */
  datatype Book = Book(
    id: string,
    title: string,
    description: Option<string>,
    totalSegments: nat,
    seriesId: Option<string>)

  /** A named, ordered collection of books. */
  datatype Series = Series(id: string, title: string, description: Option<string>, books: seq<Book>)

  /** One entry of the library manifest. */
  datatype LibraryItem = BookItem(book: Book) | SeriesItem(series: Series)
  {
    /** The item's own id, whichever kind it is. */
    function Id(): string
    {
      match this
      case BookItem(b) => b.id
      case SeriesItem(s) => s.id
    }
  }

  /** The full document of one book, as written to `<id>.json`. */
  datatype BookData = BookData(book: Book, segments: seq<Segment>)

  /** A persisted reading-progress record. */
  datatype ReadingProgress = ReadingProgress(bookId: string, segmentIndex: int, lastRead: int, isCompleted: bool)
}
