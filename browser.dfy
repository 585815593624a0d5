/**
 * The page's state and its event handlers: the catalog store (`books`),
 * the search box (`query`), the results region (`results`), the URL
 * fragment (`fragment`, what `location.hash` reads) and the detail region
 * (`view`).
 */
module Browser {
  import opened Wrappers
  import opened Text
  import opened Catalog
  import opened Query
  import opened Render
  import opened Router

  class Library {
    var books: seq<Book>
    var query: string
    var results: seq<Panel>
    var fragment: string
    var view: RouterState

    /** The detail region shows what the fragment encodes. */
    ghost predicate RouteSynced()
      reads this`view, this`fragment, this`books
    {
      view == DeriveState(fragment, books)
    }

    /** The results region lists the current query's matches. */
    ghost predicate ListingCurrent()
      reads this`results, this`query, this`books
    {
      results == RenderResults(Matches(query, books))
    }

    ghost predicate Valid()
      reads this
    {
      RouteSynced() && ListingCurrent()
    }

    /** Page load: the store starts as a copy of `initial` (the page passes
        its sample records), the listing shows all of it, and the initial
        fragment selects the state. */
    constructor (initial: seq<Book>, initialFragment: string)
      ensures books == initial && query == [] && fragment == initialFragment
      ensures results == RenderResults(initial)
      ensures view == DeriveState(initialFragment, initial)
      ensures Valid()
    {
      books := initial;
      fragment := initialFragment;
      view := DeriveState(initialFragment, initial);
      query := [];
      MatchesBlankQuery([], initial);
      results := RenderResults(initial);
    }

    /** The search box's `input` event. */
    method Search(q: string)
      requires Valid()
      modifies this
      ensures query == q && results == RenderResults(Matches(q, books))
      ensures books == old(books) && fragment == old(fragment) && view == old(view)
      ensures Valid()
    {
      query := q;
      results := RenderResults(Matches(q, books));
    }

    /** `openBookPageById(id)`: the detail page of the first record with this
        id and a fragment naming it, or, for an unknown id, the listing and
        no fragment. */
    method Open(id: string)
      requires Valid()
      modifies this
      ensures books == old(books) && query == old(query) && results == old(results)
      ensures view.Detail? <==> exists j :: 0 <= j < |books| && books[j].id == id
      ensures view.Detail? ==> (exists i :: FirstWithId(books, id, i) && books[i] == view.book) && fragment == FragmentFor(id)
      ensures view == Listing ==> fragment == []
      ensures Valid()
    {
      var found := Lookup(books, id);
      if found.None? {
        // hideBookPage() and the cleared fragment: what Back does
        Back();
      } else {
        // renderBookPage(book) and `location.hash = "book-" + id`: the state
        // the fragment selects, which is the record just found
        FragmentRoundTrip(id, books);
        HashChange(FragmentFor(id));
        assert FirstWithId(books, id, found.value);
      }
    }

    /** The detail page's "Back to results" action. */
    method Back()
      requires Valid()
      modifies this
      ensures view == Listing && fragment == []
      ensures books == old(books) && query == old(query) && results == old(results)
      ensures Valid()
    {
      view := Listing;
      fragment := [];
    }

    /** The "clear" action: empty search box, full listing, no detail page
        and no fragment. */
    method Clear()
      modifies this
      ensures query == [] && results == RenderResults(books)
      ensures view == Listing && fragment == []
      ensures books == old(books)
      ensures Valid()
    {
      query := [];
      MatchesBlankQuery([], books);
      results := RenderResults(books);
      fragment := [];
      view := Listing;
    }

    /** A `hashchange` event (the user follows or edits a link) bringing the
        fragment `h`: `handleHash` re-derives the state from it. */
    method HashChange(h: string)
      requires Valid()
      modifies this
      ensures fragment == h && view == DeriveState(h, books)
      ensures h == old(fragment) ==> view == old(view)
      ensures books == old(books) && query == old(query) && results == old(results)
      ensures Valid()
    {
      fragment := h;
      view := DeriveState(h, books);
    }

    /** The add-book form's `submit` event, with the raw field values and
        the freshly generated `id`: build the record, then add it. */
    method AddBook(id: string, title: string, author: string, isbn: string, year: string, cover: string)
      modifies this
      ensures books == [MakeNewBook(id, title, author, isbn, year, cover)] + old(books)
      ensures |books| == |old(books)| + 1 && books[1..] == old(books)
      ensures query == SearchSeed(books[0].title)
      ensures results != [] && results[0] == BookCard(CardOf(books[0]))
      ensures view == Detail(books[0]) && fragment == FragmentFor(id)
      ensures Valid()
    {
      var nb := MakeNewBook(id, title, author, isbn, year, cover);
      AddRecord(nb);
    }

    /** The rest of the `submit` handler once the record `nb` is built: put it
        in front of the store, search for the first seven characters of its
        title and open its page. */
    method AddRecord(nb: Book)
      modifies this
      ensures books == [nb] + old(books) && books[1..] == old(books)
      ensures query == SearchSeed(nb.title)
      ensures results != [] && results[0] == BookCard(CardOf(nb))
      ensures view == Detail(nb) && fragment == FragmentFor(nb.id)
      ensures Valid()
    {
      ghost var before := books;
      books := [nb] + books;
      query := SearchSeed(nb.title);
      SeedListsNewBookFirst(nb, before);
      results := RenderResults(Matches(query, books));
      // openBookPageById(nb.id) on the store whose first record is nb
      OpenFrontRecord(nb, before);
      view := Detail(nb);
      fragment := FragmentFor(nb.id);
    }
  }
}
