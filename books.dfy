module Wrappers {
  datatype Option<+T> = None | Some(value: T)
}

/**
 * A book record as the store sees it: an untyped JSON object whose values are
 * JSON scalars, with the five fields `title`, `author`, `year`, `genre` and
 * `read` that loading fills in when they are absent.
 */
module Books {
  import opened Wrappers
  import opened Text

  /** The JSON scalars a record's fields can hold. */
  datatype Value = Str(s: string) | Bool(b: bool) | Int(n: int) | Null

  type Record = map<string, Value>

  const Fields: set<string> := {"title", "author", "year", "genre", "read"}

  /** The value loading gives a field the record lacks. */
  function DefaultFor(key: string): (v: Value)
    ensures key == "read" ==> v == Bool(false)
    ensures key in {"title", "author", "year", "genre"} ==> v == Str("Unknown")
  {
    if key == "read" then Bool(false) else Str("Unknown")
  }

  /** The record has every field of the schema. */
  predicate Complete(book: Record) {
    Fields <= book.Keys
  }

  /** The defaulting step applied to each parsed record: fill only the absent fields. */
  function FillDefaults(book: Record): (r: Record)
    ensures Complete(r)
    ensures r.Keys == book.Keys + Fields
    ensures forall k :: k in book ==> k in r && r[k] == book[k]
    ensures forall k :: k in r && k !in book ==> r[k] == DefaultFor(k)
  {
    var b1 := if "title" !in book then book["title" := Str("Unknown")] else book;
    var b2 := if "author" !in b1 then b1["author" := Str("Unknown")] else b1;
    var b3 := if "year" !in b2 then b2["year" := Str("Unknown")] else b2;
    var b4 := if "genre" !in b3 then b3["genre" := Str("Unknown")] else b3;
    if "read" !in b4 then b4["read" := Bool(false)] else b4
  }

  /** A record that already has every field is left exactly as it is. */
  lemma FillDefaultsKeepsComplete(book: Record)
    requires Complete(book)
    ensures FillDefaults(book) == book
  {
  }

  /** Defaulting a record twice is defaulting it once. */
  lemma FillDefaultsIdempotent(book: Record)
    ensures FillDefaults(FillDefaults(book)) == FillDefaults(book)
  {
    FillDefaultsKeepsComplete(FillDefaults(book));
  }

  /** The record `add_book` builds from the five supplied values. */
  function NewBook(title: string, author: string, year: string, genre: string, read: bool): (r: Record)
    ensures r.Keys == Fields && Complete(r)
    ensures r["title"] == Str(title) && r["author"] == Str(author)
    ensures r["year"] == Str(year) && r["genre"] == Str(genre)
    ensures r["read"] == Bool(read)
  {
    map["title" := Str(title), "author" := Str(author), "year" := Str(year),
        "genre" := Str(genre), "read" := Bool(read)]
  }

  /** `book.get(key, default)`. */
  function Get(book: Record, key: string, default: Value): (v: Value)
    ensures key in book ==> v == book[key]
    ensures key !in book ==> v == default
  {
    if key in book then book[key] else default
  }

  /**
   * `book.get(key, '').lower()`: the lower-cased text of the field, the empty
   * string for an absent field, and None where Python's `.lower()` raises
   * because the field holds a value that is not a string.
   */
  function FieldText(book: Record, key: string): (r: Option<string>)
    ensures key !in book ==> r == Some("")
    ensures key in book && book[key].Str? ==> r == Some(Lower(book[key].s))
    ensures r.None? <==> key in book && !book[key].Str?
  {
    match Get(book, key, Str(""))
    case Str(s) => Some(Lower(s))
    case _ => None
  }

  /** Python truthiness of a JSON scalar. */
  predicate Truthy(v: Value)
    ensures !Truthy(v) <==> v in {Str(""), Bool(false), Int(0), Null}
  {
    match v
    case Str(s) => s != ""
    case Bool(b) => b
    case Int(n) => n != 0
    case Null => false
  }

  /** `book.get('read', False)` taken as a condition. */
  predicate IsRead(book: Record)
    ensures "read" !in book ==> !IsRead(book)
    ensures "read" in book && book["read"].Bool? ==> (IsRead(book) <==> book["read"].b)
  {
    Truthy(Get(book, "read", Bool(false)))
  }

  /** On a record built by `NewBook`, being read is exactly the supplied flag. */
  lemma NewBookIsRead(title: string, author: string, year: string, genre: string, read: bool)
    ensures IsRead(NewBook(title, author, year, genre, read)) == read
  {
  }

  /** A record whose `read` field was absent is unread once defaulted. */
  lemma DefaultedUnread(book: Record)
    requires "read" !in book
    ensures !IsRead(FillDefaults(book))
  {
  }
}
