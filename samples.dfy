/**
 * Concrete uses of the model: deep-linking to the second sample record, the
 * record the add-book form builds for a new title, and a short visit to the
 * page through the `Library` class.
 */
module Samples {
  import opened Wrappers
  import opened Text
  import opened Catalog
  import opened Query
  import opened Render
  import opened Router
  import opened Browser

  /** On a store whose first two records carry the sample ids "b1" and "b2",
      the link `#book-b2` opens the second record, and opening "b2" writes
      exactly that link. */
  lemma SampleDeepLink(books: seq<Book>)
    requires |books| >= 2 && books[0].id == "b1" && books[1].id == "b2"
    ensures DeriveState("#book-b2", books) == Detail(books[1])
    ensures FragmentFor("b2") == "#book-b2"
  {
    assert books[0].id[1] != "b2"[1];
    assert Lookup(books, "b2") == Some(1) by {
      assert books[1..][0].id == "b2";
    }
    FragmentRoundTrip("b2", books);
  }

  /** On the page's own sample store, the link `#book-b2` opens the page of
      "The Hobbit". */
  lemma HobbitDeepLink()
    ensures DeriveState("#book-b2", SampleBooks()) == Detail(TheHobbit())
  {
    var s := SampleBooks();
    assert s[0].id == "b1" && s[1].id == "b2";
    assert s[0].id[1] != "b2"[1];
    assert s[1..][0].id == "b2";
    assert Lookup(s, "b2") == Some(1);
    FragmentRoundTrip("b2", s);
  }

  /** Page load: the store is a copy of the sample records, the search box
      is empty, every sample record is listed and, with no fragment, no
      detail page is open. */
  method PageLoad() returns (lib: Library)
    ensures lib.books == SampleBooks() && lib.query == [] && lib.fragment == []
    ensures lib.results == RenderResults(SampleBooks())
    ensures lib.view == Listing
    ensures lib.Valid()
  {
    lib := new Library(SampleBooks(), "");
  }

  /** A year field of "1965" parses to the number 1965. */
  lemma YearParses(y: string)
    requires y == "1965"
    ensures ParseYear(y) == Some(Decimal(1965))
  {
    ParseYearOfDecimal(1965);
    assert DecimalText(1965) == y;
  }

  /** The record built for "Dune": trimmed fields, the parsed year, no cover
      and an empty description. */
  lemma NewRecordForDune(id: string, title: string, author: string, isbn: string, year: string, cover: string)
    requires title == "Dune" && author == "Frank Herbert" && isbn == "9780441013593"
    requires year == "1965" && cover == ""
    ensures MakeNewBook(id, title, author, isbn, year, cover)
         == Book(id, "Dune", Some("Frank Herbert"), Some("9780441013593"), Some(Decimal(1965)), None, Some(""))
  {
    assert !IsSpace('D') && !IsSpace('e') && !IsSpace('F') && !IsSpace('t');
    assert !IsSpace('9') && !IsSpace('3') && !IsSpace('1') && !IsSpace('5');
    TrimUnpadded(title);
    TrimUnpadded(author);
    TrimUnpadded(isbn);
    TrimUnpadded(year);
    YearParses(year);
  }

  /** Opening any id and then going back leaves the listing shown and no
      fragment, whatever was open before. */
  method OpenThenBack(lib: Library, id: string)
    requires lib.Valid()
    modifies lib
    ensures lib.view == Listing && lib.fragment == []
    ensures lib.books == old(lib.books) && lib.results == old(lib.results)
    ensures lib.Valid()
  {
    lib.Open(id);
    lib.Back();
  }
}
