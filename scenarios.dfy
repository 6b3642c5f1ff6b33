/** The store's behaviour on small concrete example libraries. */
module Scenarios {
  import opened Wrappers
  import opened Text
  import opened Sequences
  import opened Books
  import opened Library
  import opened Display

  function Titled(title: string): Record {
    NewBook(title, "Unknown", "Unknown", "Unknown", false)
  }

  /** Removing "DUNE" from Dune, dune, Foundation leaves only Foundation. */
  lemma RemoveAllCaseVariants()
    ensures Kept([Titled("Dune"), Titled("dune"), Titled("Foundation")], Lower("DUNE"))
            == [Titled("Foundation")]
  {
    assert Lower("DUNE") == "dune";
    assert Lower("Dune") == "dune";
    assert Lower("dune") == "dune";
    assert Lower("Foundation") == "foundation";
    var s := [Titled("Dune"), Titled("dune"), Titled("Foundation")];
    assert s[1..][1..] == [Titled("Foundation")];
  }

  /** Searching titles for "hobbi" finds both Hobbit books, in order, and not Dune. */
  lemma SearchBySubstring()
    ensures Matching([Titled("The Hobbit"), Titled("Hobbiton Tales"), Titled("Dune")], "title", Lower("hobbi"))
            == [Titled("The Hobbit"), Titled("Hobbiton Tales")]
  {
    var s := [Titled("The Hobbit"), Titled("Hobbiton Tales"), Titled("Dune")];
    var p := MatchesTerm("title", Lower("hobbi"));
    assert Lower("hobbi") == "hobbi";
    assert p(s[0]) by {
      assert Lower("The Hobbit") == "the hobbit";
      assert OccursAt("the hobbit", "hobbi", 4);
      ContainsIffOccurs("the hobbit", "hobbi");
    }
    assert p(s[1]) by {
      assert Lower("Hobbiton Tales") == "hobbiton tales";
      assert OccursAt("hobbiton tales", "hobbi", 0);
      ContainsIffOccurs("hobbiton tales", "hobbi");
    }
    assert !p(s[2]) by {
      assert Lower("Dune") == "dune";
    }
    assert s[1..][1..] == [s[2]];
    assert Filter([s[2]], p) == [];
    assert Filter(s[1..], p) == [s[1]] + Filter([s[2]], p);
    assert Filter(s, p) == [s[0]] + Filter(s[1..], p);
  }

  /** An empty library has no books, none read, and 0 percent read. */
  lemma EmptyStatistics()
    ensures Summarize([]) == Stats(0, 0, 0.0)
  {
  }

  /** One read book out of three is a third of the library. */
  lemma OneOfThreeRead()
    ensures Summarize([Titled("A"), NewBook("B", "", "", "", true), Titled("C")]).percentage == 100.0 / 3.0
  {
    var s := [Titled("A"), NewBook("B", "", "", "", true), Titled("C")];
    assert s[1..][1..] == [Titled("C")];
    assert ReadBooks(s) == [NewBook("B", "", "", "", true)];
  }

  /** An unparseable file loads as the empty library. */
  lemma CorruptStorageIsEmpty()
    ensures Loaded(Unparseable) == [] && Loaded(Absent) == []
  {
  }
}
