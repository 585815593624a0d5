/**
 * The hash router as a two-state machine: the results listing alone, or the
 * detail page of one record. `handleHash` derives the state from the URL
 * fragment; `FragmentFor` is the fragment opening a record writes.
 */
module Router {
  import opened Wrappers
  import opened Catalog

  /** Listing: the detail region is hidden and empty. Detail: it shows `book`. */
  datatype RouterState = Listing | Detail(book: Book)

  /** The fragment prefix of a deep link to a record. */
  const DetailPrefix: string := "#book-"

  /** What `location.hash` reads after `location.hash = "book-" + id`. */
  function FragmentFor(id: string): (h: string)
    ensures DetailPrefix <= h && h[|DetailPrefix|..] == id
  {
    DetailPrefix + id
  }

  /** `handleHash()` on fragment `h` over the store `books`: the detail page
      of the first record whose id follows the prefix, else the listing. */
  function DeriveState(h: string, books: seq<Book>): (s: RouterState)
    ensures s.Detail? <==> DetailPrefix <= h && exists j :: 0 <= j < |books| && books[j].id == h[|DetailPrefix|..]
    ensures s.Detail? ==> exists i :: FirstWithId(books, h[|DetailPrefix|..], i) && books[i] == s.book
  {
    if DetailPrefix <= h then
      match Lookup(books, h[|DetailPrefix|..])
      case Some(i) => Detail(books[i])
      case None => Listing
    else Listing
  }

  /** The fragment an opened record writes leads back to that record's page,
      so re-deriving the state from it changes nothing. */
  lemma FragmentRoundTrip(id: string, books: seq<Book>)
    ensures DeriveState(FragmentFor(id), books) == match Lookup(books, id)
      case Some(i) => Detail(books[i])
      case None => Listing
  {
    assert FragmentFor(id)[|DetailPrefix|..] == id;
  }

  /** Opening a record that was just put in front of the store shows that
      record, whatever ids the rest of the store holds. */
  lemma OpenFrontRecord(nb: Book, books: seq<Book>)
    ensures DeriveState(FragmentFor(nb.id), [nb] + books) == Detail(nb)
  {
    FragmentRoundTrip(nb.id, [nb] + books);
    assert ([nb] + books)[0] == nb;
  }
}
