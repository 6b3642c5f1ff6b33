/**
 * The book-library store: an ordered in-memory list of records, the file it
 * is loaded from and saved to, and the add, remove and search operations.
 */
module Library {
  import opened Wrappers
  import opened Text
  import opened Sequences
  import opened Books

  /** What the storage file holds, as far as loading can tell. */
  datatype Storage =
    | Absent                         // no file at the storage location
    | Unparseable                    // the file is not valid JSON
    | Parsed(records: seq<Record>)   // the file holds a JSON list of objects

  /** The field `search_library` compares against, as chosen in the UI. */
  datatype SearchField = ByTitle | ByAuthor {
    function Key(): (k: string)
      ensures k in Fields && k != "read" && k != "year" && k != "genre"
      ensures k == "title" <==> this == ByTitle
      ensures k == "author" <==> this == ByAuthor
    {
      match this
      case ByTitle => "title"
      case ByAuthor => "author"
    }
  }

  datatype RemoveOutcome =
    | Removed        // at least one record matched; the file was rewritten
    | NotFound       // nothing matched; nothing changed
    | TitleNotText   // some title is not a string, so `.lower()` raised

  datatype SearchOutcome =
    | Found(results: seq<Record>)
    | FieldNotText   // some record's searched field is not a string

  // ----- specification functions -----

  /** The defaulting loop of `load_library`, applied to every parsed record. */
  function DefaultAll(books: seq<Record>): (r: seq<Record>)
    ensures |r| == |books|
    ensures forall i :: 0 <= i < |r| ==> Complete(r[i])
    ensures forall i, k :: 0 <= i < |r| && k in books[i] ==> k in r[i] && r[i][k] == books[i][k]
    ensures forall i :: 0 <= i < |r| ==> r[i].Keys == books[i].Keys + Fields
    ensures forall i, k :: 0 <= i < |r| && k in r[i] && k !in books[i] ==> r[i][k] == DefaultFor(k)
  {
    seq(|books|, i requires 0 <= i < |books| => FillDefaults(books[i]))
  }

  /** The library `load_library` returns for the given storage. */
  function Loaded(disk: Storage): (r: seq<Record>)
    ensures !disk.Parsed? ==> r == []
    ensures disk.Parsed? ==> r == DefaultAll(disk.records)
    ensures forall i :: 0 <= i < |r| ==> Complete(r[i])
  {
    match disk
    case Parsed(records) => DefaultAll(records)
    case _ => []
  }

  predicate AllComplete(books: seq<Record>) {
    forall i :: 0 <= i < |books| ==> Complete(books[i])
  }

  /** Every record's `key` field is absent or a string, so `.lower()` cannot raise. */
  predicate TextIn(books: seq<Record>, key: string) {
    forall i :: 0 <= i < |books| ==> FieldText(books[i], key).Some?
  }

  /** The test `remove_book` keeps a record by: its lower-cased title differs from the target. */
  function KeepsTitle(target: string): Record -> bool {
    book => FieldText(book, "title") != Some(target)
  }

  /** The records that survive removal of (lower-cased) `target`. */
  function Kept(books: seq<Record>, target: string): (r: seq<Record>)
    ensures |r| <= |books|
    ensures forall i :: 0 <= i < |r| ==> FieldText(r[i], "title") != Some(target)
  {
    Filter(books, KeepsTitle(target))
  }

  /** The record's lower-cased `key` field contains `term`. */
  predicate Matches(book: Record, key: string, term: string) {
    match FieldText(book, key)
    case Some(text) => Contains(text, term)
    case None => false
  }

  function MatchesTerm(key: string, term: string): Record -> bool {
    book => Matches(book, key, term)
  }

  /** The records a search for (lower-cased) `term` in `key` returns. */
  function Matching(books: seq<Record>, key: string, term: string): (r: seq<Record>)
    ensures |r| <= |books|
    ensures forall i :: 0 <= i < |r| ==> Matches(r[i], key, term)
  {
    Filter(books, MatchesTerm(key, term))
  }

  // ----- the store -----

  class Store {
    /** The in-memory library, in insertion order. */
    var books: seq<Record>
    /** The storage file. */
    var disk: Storage

    /** Every record in memory has all five fields, as after loading. */
    predicate Valid()
      reads this
    {
      AllComplete(books)
    }

    /** A session over the given storage, before anything is loaded. */
    constructor (initial: Storage)
      ensures books == [] && disk == initial
      ensures Valid()
    {
      books := [];
      disk := initial;
    }

    /** `save_library`: overwrite the whole file with the library. */
    method Save()
      modifies this
      ensures disk == Parsed(books)
      ensures books == old(books)
    {
      disk := Parsed(books);
    }

    /**
     * `load_library`: create an empty file if there is none, then parse it and
     * fill in absent fields of every record; an unparseable file yields the
     * empty library.
     */
    method Load()
      modifies this
      ensures disk == if old(disk) == Absent then Parsed([]) else old(disk)
      ensures books == Loaded(old(disk))
      ensures Valid()
    {
      if disk == Absent {
        disk := Parsed([]);
      }
      if disk.Parsed? {
        var records := disk.records;
        var library := records;
        var i := 0;
        while i < |library|
          invariant 0 <= i <= |library| == |records|
          invariant forall j :: 0 <= j < i ==> library[j] == FillDefaults(records[j])
          invariant forall j :: i <= j < |library| ==> library[j] == records[j]
        {
          library := library[i := FillDefaults(library[i])];
          i := i + 1;
        }
        books := library;
      } else {
        books := [];
      }
    }

    /** `add_book`: append the record built from the five values, then save. */
    method Add(title: string, author: string, year: string, genre: string, read: bool)
      modifies this
      ensures books == old(books) + [NewBook(title, author, year, genre, read)]
      ensures disk == Parsed(books)
      ensures old(Valid()) ==> Valid()
    {
      books := books + [NewBook(title, author, year, genre, read)];
      Save();
    }

    /**
     * `remove_book`: drop every record whose lower-cased title equals the
     * lower-cased input; save and report success only if something was dropped.
     */
    method Remove(input: string) returns (outcome: RemoveOutcome)
      modifies this
      ensures outcome == TitleNotText <==> !TextIn(old(books), "title")
      ensures outcome != TitleNotText ==> books == Kept(old(books), Lower(input))
      ensures outcome == Removed <==> |books| < |old(books)|
      ensures outcome == Removed ==> disk == Parsed(books)
      ensures outcome != Removed ==> books == old(books) && disk == old(disk)
      ensures old(Valid()) ==> Valid()
    {
      var title := Lower(input);
      var initialLength := |books|;
      if !TextIn(books, "title") {
        return TitleNotText;
      }
      ghost var before := books;
      books := Kept(books, title);
      forall j | 0 <= j < |books|
        ensures books[j] in before
      {
        FilterMembers(before, KeepsTitle(title), books[j]);
      }
      if |books| < initialLength {
        Save();
        outcome := Removed;
      } else {
        FilterSameLength(old(books), KeepsTitle(title));
        outcome := NotFound;
      }
    }

    /**
     * `search_library`: the records whose lower-cased field contains the
     * lower-cased term, in library order.
     */
    method Search(field: SearchField, input: string) returns (outcome: SearchOutcome)
      ensures outcome == FieldNotText <==> !TextIn(books, field.Key())
      ensures outcome.Found? ==> outcome.results == Matching(books, field.Key(), Lower(input))
    {
      var key := field.Key();
      var term := Lower(input);
      var results := [];
      var i := 0;
      while i < |books|
        invariant 0 <= i <= |books|
        invariant TextIn(books[..i], key)
        invariant results == Matching(books[..i], key, term)
      {
        var book := books[i];
        assert books[..i + 1] == books[..i] + [book];
        FilterAppend(books[..i], [book], MatchesTerm(key, term));
        match FieldText(book, key)
        case None =>
          return FieldNotText;
        case Some(text) =>
          if Contains(text, term) {
            results := results + [book];
          }
        i := i + 1;
      }
      assert books[..i] == books;
      outcome := Found(results);
    }
  }
}

/** What the store's operations promise, stated over the specification functions. */
module LibraryFacts {
  import opened Wrappers
  import opened Text
  import opened Sequences
  import opened Books
  import opened Library
  import opened Display

  /** Loading a library that is already complete changes nothing. */
  lemma {:induction false} DefaultAllKeepsComplete(books: seq<Record>)
    requires AllComplete(books)
    ensures DefaultAll(books) == books
  {
    forall i | 0 <= i < |books|
      ensures DefaultAll(books)[i] == books[i]
    {
      FillDefaultsKeepsComplete(books[i]);
    }
  }

  /** Defaulting is idempotent: a second pass over a loaded library changes nothing. */
  lemma DefaultAllIdempotent(books: seq<Record>)
    ensures DefaultAll(DefaultAll(books)) == DefaultAll(books)
  {
    DefaultAllKeepsComplete(DefaultAll(books));
  }

  /** Saving a complete library and loading it again gives back the same library. */
  lemma LoadAfterSave(books: seq<Record>)
    requires AllComplete(books)
    ensures Loaded(Parsed(books)) == books
  {
    DefaultAllKeepsComplete(books);
  }

  /** Saving what was loaded and loading again gives the same library. */
  lemma ReloadIsStable(disk: Storage)
    ensures Loaded(Parsed(Loaded(disk))) == Loaded(disk)
  {
    LoadAfterSave(Loaded(disk));
  }

  /**
   * Removal keeps exactly the records whose lower-cased title differs from the
   * target, each as often as before, in their original order.
   */
  lemma KeptExactly(books: seq<Record>, target: string, x: Record)
    ensures IsSubsequence(Kept(books, target), books)
    ensures multiset(Kept(books, target))[x] ==
            if FieldText(x, "title") != Some(target) then multiset(books)[x] else 0
    ensures x in Kept(books, target) <==> x in books && FieldText(x, "title") != Some(target)
  {
    FilterIsSubsequence(books, KeepsTitle(target));
    FilterCount(books, KeepsTitle(target), x);
    FilterMembers(books, KeepsTitle(target), x);
  }

  /** Removal shrinks the library exactly when some lower-cased title equals the target. */
  lemma KeptShrinksIff(books: seq<Record>, target: string)
    ensures |Kept(books, target)| < |books| <==>
            exists i :: 0 <= i < |books| && FieldText(books[i], "title") == Some(target)
  {
    FilterShrinks(books, KeepsTitle(target));
  }

  /** Removing the same title a second time finds nothing. */
  lemma KeptIdempotent(books: seq<Record>, target: string)
    ensures Kept(Kept(books, target), target) == Kept(books, target)
  {
    FilterIdempotent(books, KeepsTitle(target));
  }

  /** A string title is matched when its lower-cased form equals the lower-cased input. */
  lemma RemoveMatchIgnoresCase(book: Record, input: string)
    requires "title" in book && book["title"].Str?
    ensures !KeepsTitle(Lower(input))(book) <==> Lower(book["title"].s) == Lower(input)
  {
  }

  /**
   * A search returns exactly the records whose lower-cased field contains the
   * term, each as often as in the library, in library order.
   */
  lemma MatchingExactly(books: seq<Record>, key: string, term: string, x: Record)
    ensures IsSubsequence(Matching(books, key, term), books)
    ensures multiset(Matching(books, key, term))[x] ==
            if Matches(x, key, term) then multiset(books)[x] else 0
    ensures x in Matching(books, key, term) <==> x in books && Matches(x, key, term)
  {
    FilterIsSubsequence(books, MatchesTerm(key, term));
    FilterCount(books, MatchesTerm(key, term), x);
    FilterMembers(books, MatchesTerm(key, term), x);
  }

  /** A record matches exactly when the term occurs somewhere in its lower-cased field. */
  lemma MatchesIffOccurs(book: Record, key: string, term: string)
    ensures Matches(book, key, term) <==>
            exists text :: FieldText(book, key) == Some(text) && exists i :: OccursAt(text, term, i)
  {
    if FieldText(book, key).Some? {
      ContainsIffOccurs(FieldText(book, key).value, term);
    }
  }

  /** An empty search term matches every record. */
  lemma EmptyTermMatchesAll(books: seq<Record>, key: string)
    requires TextIn(books, key)
    ensures Matching(books, key, "") == books
  {
    forall i | 0 <= i < |books|
      ensures MatchesTerm(key, "")(books[i])
    {
      ContainsEmpty(FieldText(books[i], key).value);
    }
    FilterAllPass(books, MatchesTerm(key, ""));
  }

  /** A record that is searched for by its full field text is always found. */
  lemma FullFieldMatches(book: Record, key: string, s: string)
    requires key in book && book[key] == Str(s)
    ensures Matches(book, key, Lower(s))
  {
    ContainsSlice(Lower(s), 0, |Lower(s)|);
    assert Lower(s)[0..|Lower(s)|] == Lower(s);
  }

  /**
   * The search report is the "no books found" message, naming the lowered term
   * and the field, exactly when no record of the library matches.
   */
  lemma NoMatchesIffNothingMatches(books: seq<Record>, field: SearchField, input: string)
    ensures ReportSearch(Matching(books, field.Key(), Lower(input)), Lower(input), field.Key())
            == NoMatches(Lower(input), field.Key())
            <==> forall i :: 0 <= i < |books| ==> !Matches(books[i], field.Key(), Lower(input))
  {
    FilterEmpty(books, MatchesTerm(field.Key(), Lower(input)));
  }
}
