# Book library store

A Dafny model of the record store behind the Streamlit "Library Management
System" in `Fatima.py`. The store keeps an ordered list of book records in
memory and mirrors it in one JSON file. It offers these operations:

- **Load.** Creates an empty file if there is none. Parses the file, then fills
  every absent `title`, `author`, `year` and `genre` with `"Unknown"` and an
  absent `read` with `false`. A file that does not parse loads as the empty
  library.
- **Save.** Overwrites the whole file with the library.
- **Add.** Appends the record built from the five supplied values, then saves.
- **Remove.** Drops every record whose lower-cased title equals the lower-cased
  input. It saves and reports success only if the library got shorter;
  otherwise it reports "not found".
- **Search.** Returns, in library order, the records whose lower-cased title or
  author contains the lower-cased term. An absent field counts as `''`.
- **Listing and statistics.** The read/unread label of each book, the total
  count, the read count and the percentage read (0 for an empty library).

Files and modules:

- `text.dfy` (`Text`): ASCII lower-casing and substring containment.
- `sequences.dfy` (`Sequences`): order-preserving filtering. Remove, search and
  the read count are all filters. The file proves, once, that a filter is a
  subsequence of its input, keeps exactly the passing elements with their
  multiplicities, and shrinks exactly when some element fails.
- `books.dfy` (`Wrappers`, `Books`): the record type, field defaulting,
  `NewBook`, `dict.get`, Python truthiness and lower-cased field access.
- `library.dfy` (`Library`, `LibraryFacts`):
  - the class `Store`, with the in-memory library `books` and the file `disk`;
  - its methods `Load`, `Save`, `Add`, `Remove` and `Search`;
  - the specification functions those methods are proved against;
  - the lemmas about those functions.
- `display.dfy` (`Display`): statistics, status labels, the rows of the full
  listing and of a search report.
- `scenarios.dfy` (`Scenarios`): small concrete example libraries, such as
  "DUNE" removing both "Dune" and "dune", and 1 read out of 3 being 100/3 percent.

The file is modelled by the datatype `Library.Storage`: `Absent` (no file),
`Unparseable` (not valid JSON) or `Parsed(records)` (a JSON list of objects).

Two behaviours of the code are easy to miss:

- Field access can fail. `.lower()` raises when a title, or the searched field,
  holds a JSON value that is not a string (for example `true` or `3`). Python
  then abandons the operation, so the list and the file stay unchanged.
  `Store.Remove` models this as the outcome `TitleNotText`, and `Store.Search`
  as the outcome `FieldNotText`.
- A record counts as read when `book.get('read', False)` is truthy. So a
  non-empty string or a non-zero integer in `read` also counts as read
  (`Books.Truthy`).

`Store.Valid()` states the invariant that every record in memory has all five
fields. The constructor establishes it (for the empty library), `Load`
establishes it, and `Add` and `Remove` preserve it. No operation requires it:
the code never relies on it, since every read of a field goes through
`dict.get` with a default.

## Model

| member | source | states |
|---|---|---|
| `Text.Lower` | Fatima.py:61 | `.lower()` keeps the length and lower-cases character by character; no upper-case ASCII letter remains |
| `Text.LowerIdempotent` | Fatima.py:72-73 | lower-casing twice is lower-casing once, so matching against a lowered term does not depend on the term's case |
| `Text.Contains` | Fatima.py:79 | Python's `term in text`: the empty term is in every text, every text contains itself, and a term longer than the text is never in it |
| `Text.ContainsIffOccurs` | Fatima.py:79 | the substring test `term in text` holds exactly when `term` occurs in `text` at some position |
| `Text.ContainsSlice` | Fatima.py:79 | every slice of a string, the whole string included, is contained in it |
| `Sequences.Filter` | Fatima.py:64 | a comprehension `[x for x in s if p(x)]` is no longer than `s` and holds only elements passing `p` |
| `Sequences.FilterIsSubsequence` | Fatima.py:64 | the filtered list is a subsequence of the input: the survivors keep their relative order |
| `Sequences.FilterCount` | Fatima.py:64 | each value occurs in the result as often as in the input if it passes, and not at all otherwise |
| `Sequences.FilterMembers` | Fatima.py:64 | a value is in the result exactly when it is in the input and passes |
| `Sequences.FilterAppend` | Fatima.py:76-80 | filtering a concatenation is concatenating the filtered parts; this is why the search loop's `append` builds the filter |
| `Sequences.FilterShrinks` | Fatima.py:63-65 | the result is shorter than the input exactly when some element fails the test |
| `Sequences.FilterSameLength` | Fatima.py:65-69 | a result as long as the input equals the input |
| `Sequences.FilterEmpty` | Fatima.py:103 | the result is empty exactly when no element passes |
| `Sequences.FilterIdempotent` | Fatima.py:64 | filtering twice by the same test is filtering once |
| `Books.DefaultFor` | Fatima.py:22-31 | the default of `read` is `False`; the default of the four text fields is `'Unknown'` |
| `Books.FillDefaults` | Fatima.py:22-31 | the defaulted record has all five fields, keeps every existing key and value, adds only the absent schema fields, and gives each added field its default |
| `Books.FillDefaultsKeepsComplete` | Fatima.py:22-31 | a record that already has all five fields is left unchanged |
| `Books.FillDefaultsIdempotent` | Fatima.py:22-31 | defaulting a record twice is defaulting it once |
| `Books.NewBook` | Fatima.py:48-54 | the added record has exactly the five keys, holding exactly the supplied title, author, year, genre and read flag |
| `Books.NewBookIsRead` | Fatima.py:45-53 | a book added with the flag `read` counts as read exactly when `read` holds |
| `Books.Get` | Fatima.py:64 | `dict.get(key, default)` returns the stored value for a present key and the default otherwise |
| `Books.FieldText` | Fatima.py:79 | `book.get(key, '').lower()` gives `''` for an absent field and the lower-cased text for a string field; it fails exactly when the field holds a non-string |
| `Books.Truthy` | Fatima.py:103 | Python truthiness of a JSON scalar: false exactly for `''`, `False`, `0` and null |
| `Books.IsRead` | Fatima.py:103 | `book.get('read', False)` as a condition: false when `read` is absent, the flag itself when it is a boolean |
| `Books.DefaultedUnread` | Fatima.py:30-31 | a record loaded without a `read` field counts as unread |
| `Library.SearchField.Key` | Fatima.py:72 | the lowered radio label: `ByTitle` gives the key `title` and `ByAuthor` gives `author`, and no other field |
| `Library.DefaultAll` | Fatima.py:21-31 | defaulting the parsed list keeps its length and order; every record has all five fields and keeps every existing value; each added field holds its default, `'Unknown'` or `False` |
| `Library.Loaded` | Fatima.py:15-34 | a `Storage` that is `Absent` or `Unparseable` loads as the empty list; `Parsed(records)` loads as `DefaultAll(records)`, every record complete |
| `Library.Kept` | Fatima.py:64 | the comprehension of `remove_book`: no longer than the library, and no kept record's lower-cased title equals the target |
| `Library.Matching` | Fatima.py:76-80 | the results of `search_library`: no more than the library, and every result's lower-cased field contains the term |
| `Library.Store.Save` | Fatima.py:36-38 | the file is overwritten with exactly the in-memory library |
| `Library.Store.Load` | Fatima.py:9-34 | a missing file becomes an empty one; the library becomes the defaulted parse of the file (empty if unparseable); every record is then complete |
| `Library.Store.Add` | Fatima.py:48-57 | the library becomes the old library followed by the new record; the file then equals the library; completeness of every record is preserved |
| `Library.Store.Remove` | Fatima.py:60-69 | fails, changing nothing, exactly when some title is not a string; otherwise the library becomes the records whose lower-cased title differs from the lower-cased input; success exactly when the length dropped, then the file equals the library; on "not found" library and file are unchanged |
| `Library.Store.Search` | Fatima.py:75-80 | fails exactly when some record's searched field is not a string; otherwise returns exactly the records matching the lower-cased term, in library order, leaving the store unchanged |
| `LibraryFacts.DefaultAllKeepsComplete` | Fatima.py:21-31 | defaulting a list of complete records changes nothing |
| `LibraryFacts.DefaultAllIdempotent` | Fatima.py:21-31 | defaulting an already defaulted library changes nothing |
| `LibraryFacts.LoadAfterSave` | Fatima.py:15-38 | saving a complete library and loading it again yields the same library |
| `LibraryFacts.ReloadIsStable` | Fatima.py:15-38 | saving what was loaded and loading again yields what was loaded |
| `LibraryFacts.KeptExactly` | Fatima.py:64 | removal keeps a subsequence of the library holding each record whose lower-cased title differs from the target, as often as before, and no other |
| `LibraryFacts.KeptShrinksIff` | Fatima.py:63-65 | removal shortens the library exactly when some record's lower-cased title equals the target |
| `LibraryFacts.KeptIdempotent` | Fatima.py:64 | removing the same title a second time drops nothing more |
| `LibraryFacts.RemoveMatchIgnoresCase` | Fatima.py:61-64 | a string title is dropped exactly when its lower-cased form equals the lower-cased input |
| `LibraryFacts.MatchingExactly` | Fatima.py:76-80 | search results are a subsequence of the library, holding each record whose lowered field contains the term, as often as in the library, and no other |
| `LibraryFacts.MatchesIffOccurs` | Fatima.py:79 | a record matches exactly when the term occurs somewhere in its lower-cased field |
| `LibraryFacts.EmptyTermMatchesAll` | Fatima.py:79 | when every searched field is text, the empty term returns the whole library |
| `LibraryFacts.FullFieldMatches` | Fatima.py:79 | searching for a record's whole field text always finds that record |
| `Display.ReadBooks` | Fatima.py:103 | the comprehension of read books: no longer than the library, and every element counts as read |
| `Display.Summarize` | Fatima.py:101-104 | the total is the library length; the read count is at most the total; the percentage lies in [0, 100], is 0 for an empty library and otherwise satisfies percentage * total = read * 100 |
| `Display.AllReadIffFull` | Fatima.py:103-104 | in a non-empty library the percentage is 100 exactly when every book is read |
| `Display.NoneReadIffZero` | Fatima.py:103-104 | the percentage is 0 exactly when no book is read |
| `Display.SummarizeAfterAdd` | Fatima.py:56-104 | adding a book raises the total by one, and raises the read count by one exactly when the book is read |
| `Display.StatusLabel` | Fatima.py:95 | the label is one of Read/Unread (listing) or read/unread (search, line 85); it says "read" exactly when the book counts as read |
| `Display.RowOf` | Fatima.py:96-97 | a printed row shows the record's own title, author, year and genre when all are present, plus its status label |
| `Display.Rows` | Fatima.py:94-97 | one row per book, in library order |
| `Display.ListAll` | Fatima.py:91-99 | the listing is the "library is empty" message exactly for the empty library; otherwise row i is book i's row with a "Read"/"Unread" label, in library order |
| `LibraryFacts.NoMatchesIffNothingMatches` | Fatima.py:82-89 | for a search with the lowered term and the selected key, the report is the "no books found" message naming that term and field exactly when no record matches |
| `Display.ListingAgreesWithSummary` | Fatima.py:95-103 | the number of rows labelled "Read" equals the read count of the statistics |
| `Display.ReportSearch` | Fatima.py:82-89 | the "no books found" message, naming the term and field, appears exactly when there are no results; otherwise row i is result i's row with a "read"/"unread" label, in result order |
| `Scenarios.RemoveAllCaseVariants` | Fatima.py:61-64 | removing "DUNE" from Dune, dune, Foundation leaves only Foundation |
| `Scenarios.SearchBySubstring` | Fatima.py:73-80 | searching titles for "hobbi" returns "The Hobbit" and "Hobbiton Tales", in that order, and not "Dune" |
| `Scenarios.EmptyStatistics` | Fatima.py:102-104 | an empty library has total 0, read 0, percentage 0 |
| `Scenarios.OneOfThreeRead` | Fatima.py:102-104 | one read book out of three gives the percentage 100/3 |
| `Scenarios.CorruptStorageIsEmpty` | Fatima.py:33-34 | an unparseable or missing file loads as the empty library |

## Left out

- The Streamlit user interface: text inputs, radio buttons, buttons, the sidebar
  menu, the messages and `st.stop`, and the menu dispatch in `main` (lines
  111-134). The values the widgets deliver are method parameters instead. The
  search selector is the datatype `SearchField`.
- File and JSON I/O: `os.path.exists`, `open`, `json.load` and `json.dump`. The
  file is the field `Store.disk`. Its content is what parsing would give:
  absent, unparseable, or a list of records. The `indent=4` layout is not
  modelled.
- JSON content that is not a list of objects, and field values that are floats,
  arrays or nested objects. A record's values are strings, booleans, integers
  or null (`Books.Value`).
- The file disappearing between its creation and the read (the
  `FileNotFoundError` branch of line 33). Loading treats an absent file by
  creating it, as line 16 does, so the model never reaches that branch.
- Text formatting: the f-strings of lines 86-97 and the `:.1f` rounding of the
  percentage (line 109). The percentage is an exact `real`; lines 96-97 give
  rows of values rather than strings.
- Floating-point division: the percentage is computed exactly.
- Unicode case mapping: `.lower()` is modelled for ASCII letters only.
- Write failures and concurrent sessions: the code neither handles nor
  coordinates them.
- The point where removal fails: Python raises part-way through the comprehension at the first
  non-string title. The model checks for any non-string title first. Both leave
  the list and the file untouched, so the outcome is the same.
