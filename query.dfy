/**
 * The query engine, `getQueryMatches`: normalise the query, then keep the
 * records whose title, author or ISBN contains it, in store order.
 */
module Query {
  import opened Wrappers
  import opened Text
  import opened Catalog

  /** `(query || "").trim().toLowerCase()`. */
  function Normalize(query: string): string {
    Lower(Trim(query))
  }

  /** `f && f.toLowerCase().includes(q)`: an absent or empty field never matches. */
  predicate FieldMatches(f: Option<string>, q: string) {
    f.Some? && f.value != [] && Includes(Lower(f.value), q)
  }

  /** The filter's test on one record. */
  predicate Hit(b: Book, q: string) {
    FieldMatches(Some(b.title), q) || FieldMatches(b.author, q) || FieldMatches(b.isbn, q)
  }

  /** `books.filter(b => Hit(b, q))`. */
  function Filter(books: seq<Book>, q: string): (r: seq<Book>)
    ensures |r| <= |books|
  {
    if books == [] then []
    else (if Hit(books[0], q) then [books[0]] else []) + Filter(books[1..], q)
  }

  /** `getQueryMatches(query)` over the current store. */
  function Matches(query: string, books: seq<Book>): seq<Book> {
    var q := Normalize(query);
    if q == [] then books else Filter(books, q)
  }

  /** A present, non-empty field whose folded text has `q` at some offset. */
  ghost predicate FieldMentions(f: Option<string>, q: string) {
    f.Some? && f.value != [] && exists i :: OccursAt(Lower(f.value), q, i)
  }

  /** The record's folded title, author or ISBN contains `q` as a substring. */
  ghost predicate Mentions(b: Book, q: string) {
    FieldMentions(Some(b.title), q) || FieldMentions(b.author, q) || FieldMentions(b.isbn, q)
  }

  /** `a` is what is left of `b` after deleting some of its elements. */
  predicate IsSubsequence<T(==)>(a: seq<T>, b: seq<T>)
    decreases |b|
  {
    a == [] || (b != [] && ((a[0] == b[0] && IsSubsequence(a[1..], b[1..])) || IsSubsequence(a, b[1..])))
  }

  lemma HitIffMentions(b: Book, q: string)
    ensures Hit(b, q) <==> Mentions(b, q)
  {
    IncludesIffOccurs(Lower(b.title), q);
    if b.author.Some? { IncludesIffOccurs(Lower(b.author.value), q); }
    if b.isbn.Some? { IncludesIffOccurs(Lower(b.isbn.value), q); }
  }

  lemma {:induction false} FilterCounts(books: seq<Book>, q: string, b: Book)
    ensures multiset(Filter(books, q))[b] == if Hit(b, q) then multiset(books)[b] else 0
  {
    if books != [] {
      var rest := Filter(books[1..], q);
      FilterCounts(books[1..], q, b);
      assert books == [books[0]] + books[1..];
      assert multiset(books) == multiset([books[0]]) + multiset(books[1..]);
      if Hit(books[0], q) {
        assert Filter(books, q) == [books[0]] + rest;
        assert multiset(Filter(books, q)) == multiset([books[0]]) + multiset(rest);
      } else {
        assert Filter(books, q) == rest;
      }
    }
  }

  lemma {:induction false} FilterKeepsOrder(books: seq<Book>, q: string)
    ensures IsSubsequence(Filter(books, q), books)
  {
    if books != [] {
      FilterKeepsOrder(books[1..], q);
      var r := Filter(books, q);
      if Hit(books[0], q) {
        assert r[0] == books[0] && r[1..] == Filter(books[1..], q);
      } else {
        assert r == Filter(books[1..], q);
      }
    }
  }

  lemma {:induction false} FilterIdempotent(books: seq<Book>, q: string)
    ensures Filter(Filter(books, q), q) == Filter(books, q)
  {
    if books != [] {
      var rest := Filter(books[1..], q);
      FilterIdempotent(books[1..], q);
      if Hit(books[0], q) {
        var r := [books[0]] + rest;
        assert r[0] == books[0] && r[1..] == rest;
        assert Filter(books, q) == r;
        assert Filter(r, q) == [books[0]] + Filter(rest, q);
      } else {
        assert Filter(books, q) == rest;
      }
    }
  }

  /** A query that trims to nothing lists the whole store, in order. */
  lemma MatchesBlankQuery(query: string, books: seq<Book>)
    requires IsBlank(query)
    ensures Matches(query, books) == books
  {
  }

  /** Any other query lists exactly the records whose folded title, author or
      ISBN contains the normalised query: each as often as in the store, none
      else, and in store order. */
  lemma MatchesNonBlankQuery(query: string, books: seq<Book>)
    requires !IsBlank(query)
    ensures Normalize(query) != []
    ensures forall b :: multiset(Matches(query, books))[b] == if Mentions(b, Normalize(query)) then multiset(books)[b] else 0
    ensures IsSubsequence(Matches(query, books), books)
  {
    var q := Normalize(query);
    forall b ensures multiset(Matches(query, books))[b] == if Mentions(b, q) then multiset(books)[b] else 0 {
      FilterCounts(books, q, b);
      HitIffMentions(b, q);
    }
    FilterKeepsOrder(books, q);
  }

  /** Searching the result of a search again gives the same result. */
  lemma MatchesIdempotent(query: string, books: seq<Book>)
    ensures Matches(query, Matches(query, books)) == Matches(query, books)
  {
    FilterIdempotent(books, Normalize(query));
  }

  /** After a book is added, searching for the seed taken from its title
      lists that book first, whatever the title is. */
  lemma SeedListsNewBookFirst(nb: Book, books: seq<Book>)
    ensures var r := Matches(SearchSeed(nb.title), [nb] + books); r != [] && r[0] == nb
  {
    var t := nb.title;
    var seed := SearchSeed(t);
    var q := Normalize(seed);
    if q != [] {
      SeedFoldedInTitle(t);
      assert Hit(nb, q);
      var all := [nb] + books;
      assert all[0] == nb && all[1..] == books;
      assert Filter(all, q) == [nb] + Filter(books, q);
    }
  }

  /** The normalised seed is a piece of the folded title. */
  lemma SeedFoldedInTitle(t: string)
    ensures Normalize(SearchSeed(t)) != [] ==> t != [] && Includes(Lower(t), Normalize(SearchSeed(t)))
  {
    var seed := SearchSeed(t);
    var u := Trim(seed);
    var i := LeadingSpaces(seed);
    var j := i + |u|;
    assert seed == t[..|seed|];
    assert u == t[i..j];
    LowerSlice(t, i, j);
    IncludesSlice(Lower(t), i, j);
    assert Normalize(seed) == Lower(t)[i..j];
  }
}
