/**
 * `display_statistics` and the read/unread labels of `display_all_books` and
 * `search_library`, without the printing.
 */
module Display {
  import opened Sequences
  import opened Books

  datatype Stats = Stats(total: nat, read: nat, percentage: real)

  /** `[book for book in library if book.get('read', False)]`. */
  function ReadBooks(books: seq<Record>): (r: seq<Record>)
    ensures |r| <= |books|
    ensures forall i :: 0 <= i < |r| ==> IsRead(r[i])
  {
    Filter(books, IsRead)
  }

  /** Total count, read count and the exact percentage read (0 for an empty library). */
  function Summarize(books: seq<Record>): (s: Stats)
    ensures s.total == |books|
    ensures s.read == |ReadBooks(books)| <= s.total
    ensures 0.0 <= s.percentage <= 100.0
    ensures s.total == 0 ==> s.percentage == 0.0
    ensures s.total > 0 ==> s.percentage * s.total as real == s.read as real * 100.0
  {
    var total := |books|;
    var read := |ReadBooks(books)|;
    var percentage := if total > 0 then (read as real / total as real) * 100.0 else 0.0;
    assert total > 0 ==> 0.0 <= percentage <= 100.0 by {
      if total > 0 { RatioBounds(read, total); }
    }
    assert total > 0 ==> percentage * total as real == read as real * 100.0 by {
      if total > 0 { RatioBounds(read, total); }
    }
    Stats(total, read, percentage)
  }

  lemma RatioBounds(part: nat, whole: nat)
    requires 0 < whole && part <= whole
    ensures 0.0 <= part as real / whole as real <= 1.0
    ensures (part as real / whole as real) * 100.0 * whole as real == part as real * 100.0
  {
    var q := part as real / whole as real;
    assert q * whole as real == part as real;
    assert (1.0 - q) * whole as real == whole as real - part as real;
  }

  /** Everything is read exactly when the percentage is 100 (for a non-empty library). */
  lemma AllReadIffFull(books: seq<Record>)
    requires books != []
    ensures Summarize(books).percentage == 100.0 <==> forall i :: 0 <= i < |books| ==> IsRead(books[i])
  {
    FilterShrinks(books, IsRead);
    if forall i :: 0 <= i < |books| ==> IsRead(books[i]) {
      FilterAllPass(books, IsRead);
    }
  }

  /** Nothing is read exactly when the percentage is 0. */
  lemma NoneReadIffZero(books: seq<Record>)
    ensures Summarize(books).percentage == 0.0 <==> forall i :: 0 <= i < |books| ==> !IsRead(books[i])
  {
    FilterEmpty(books, IsRead);
  }

  /** Adding a book raises the total by one and the read count by one exactly when it is read. */
  lemma SummarizeAfterAdd(books: seq<Record>, title: string, author: string, year: string,
                          genre: string, read: bool)
    ensures Summarize(books + [NewBook(title, author, year, genre, read)]).total == |books| + 1
    ensures Summarize(books + [NewBook(title, author, year, genre, read)]).read ==
            Summarize(books).read + (if read then 1 else 0)
  {
    var b := NewBook(title, author, year, genre, read);
    FilterAppend(books, [b], IsRead);
    assert Filter([b], IsRead) == (if IsRead(b) then [b] else []) + Filter([], IsRead);
  }

  // ----- listing -----

  /** The two spellings of the status label. */
  datatype LabelStyle =
    | Capitalized   // "Read" / "Unread", as the full listing prints it
    | LowerCase     // "read" / "unread", as search results print it

  /** The status label for one book. */
  function StatusLabel(book: Record, style: LabelStyle): (r: string)
    ensures r in {"Read", "Unread", "read", "unread"}
    ensures (r == "Read" || r == "read") <==> IsRead(book)
    ensures r[0] == 'R' || r[0] == 'U' <==> style == Capitalized
  {
    match style
    case Capitalized => if IsRead(book) then "Read" else "Unread"
    case LowerCase => if IsRead(book) then "read" else "unread"
  }

  /** One printed line: title, author, year, genre (each `get` with default 'Unknown') and the label. */
  datatype Row = Row(title: Value, author: Value, year: Value, genre: Value, status: string)

  function RowOf(book: Record, style: LabelStyle): (r: Row)
    ensures Complete(book) ==>
              r.title == book["title"] && r.author == book["author"] &&
              r.year == book["year"] && r.genre == book["genre"]
    ensures r.status == StatusLabel(book, style)
  {
    Row(Get(book, "title", Str("Unknown")), Get(book, "author", Str("Unknown")),
        Get(book, "year", Str("Unknown")), Get(book, "genre", Str("Unknown")),
        StatusLabel(book, style))
  }

  function Rows(books: seq<Record>, style: LabelStyle): (r: seq<Row>)
    ensures |r| == |books|
    ensures forall i :: 0 <= i < |books| ==> r[i] == RowOf(books[i], style)
    decreases |books|
  {
    if books == [] then [] else [RowOf(books[0], style)] + Rows(books[1..], style)
  }

  /** What `display_all_books` shows. */
  datatype Listing = EmptyLibrary | AllBooks(rows: seq<Row>)

  function ListAll(books: seq<Record>): (l: Listing)
    ensures l == EmptyLibrary <==> books == []
    ensures l.AllBooks? ==> |l.rows| == |books|
    ensures l.AllBooks? ==> forall i :: 0 <= i < |books| ==> l.rows[i] == RowOf(books[i], Capitalized)
    ensures l.AllBooks? ==> l.rows == Rows(books, Capitalized)
  {
    if books == [] then EmptyLibrary else AllBooks(Rows(books, Capitalized))
  }

  function IsReadRow(row: Row): bool {
    row.status == "Read"
  }

  /** The listing's "Read" rows are as many as the read count of the statistics. */
  lemma {:induction false} ListingAgreesWithSummary(books: seq<Record>)
    ensures |Filter(Rows(books, Capitalized), IsReadRow)| == Summarize(books).read
    decreases |books|
  {
    if books != [] {
      ListingAgreesWithSummary(books[1..]);
      assert Rows(books, Capitalized)[1..] == Rows(books[1..], Capitalized);
    }
  }

  /** What `search_library` shows for its results. */
  datatype SearchReport =
    | NoMatches(term: string, field: string)   // the "No books found matching" message
    | Hits(rows: seq<Row>)

  /**
   * The report for `results`; `search_library` passes the lower-cased term and
   * the lower-cased selector name (`Lower(input)` and `SearchField.Key()`).
   */
  function ReportSearch(results: seq<Record>, term: string, field: string): (r: SearchReport)
    ensures r.NoMatches? <==> results == []
    ensures r.NoMatches? ==> r.term == term && r.field == field
    ensures r.Hits? ==> |r.rows| == |results|
    ensures r.Hits? ==> forall i :: 0 <= i < |r.rows| ==> r.rows[i].status in {"read", "unread"}
    ensures r.Hits? ==> forall i :: 0 <= i < |results| ==> r.rows[i] == RowOf(results[i], LowerCase)
    ensures r.Hits? ==> r.rows == Rows(results, LowerCase)
  {
    if results == [] then NoMatches(term, field) else Hits(Rows(results, LowerCase))
  }
}
