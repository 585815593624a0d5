/**
 * What the two renderers put on the page, as values rather than markup:
 * the results listing (`renderResults` over `makeCardHTML`) and the detail
 * page (`renderBookPage`). Every text taken from a record passes through
 * `escapeHtml`; the card's id is placed as it is, as the page does.
 */
module Render {
  import opened Wrappers
  import opened Text
  import opened Catalog

  /** One result card: the record id it opens, and the escaped cover URL,
      title, author and ISBN it shows. */
  datatype Card = Card(id: string, cover: string, title: string, author: string, isbn: string)

  /** A panel of the results region: the fixed "No books found" placeholder,
      or the card of one record. */
  datatype Panel = NoBooksFound | BookCard(card: Card)

  /** `makeCardHTML(book)`: the card opens the record's id, and no text it
      shows can open a tag or end an attribute value. */
  function CardOf(b: Book): (c: Card)
    ensures c.id == b.id
    ensures MarkupFree(c.cover) && MarkupFree(c.title) && MarkupFree(c.author) && MarkupFree(c.isbn)
  {
    Card(b.id, Escape(b.cover.GetOr([])), Escape(b.title), Escape(b.author.GetOr([])), Escape(b.isbn.GetOr([])))
  }

  /** What a reader sees on a card is the record's own text (an absent field
      as nothing). */
  lemma CardShowsRecord(b: Book)
    ensures var c := CardOf(b);
      Unescape(c.title) == b.title && Unescape(c.author) == b.author.GetOr([]) &&
      Unescape(c.isbn) == b.isbn.GetOr([]) && Unescape(c.cover) == b.cover.GetOr([])
  {
    EscapeRoundTrip(b.title);
    EscapeRoundTrip(b.author.GetOr([]));
    EscapeRoundTrip(b.isbn.GetOr([]));
    EscapeRoundTrip(b.cover.GetOr([]));
  }

  /** `list.map(makeCardHTML)`. */
  function Cards(list: seq<Book>): (r: seq<Panel>)
    ensures |r| == |list|
    ensures forall i :: 0 <= i < |list| ==> r[i] == BookCard(CardOf(list[i]))
  {
    if list == [] then [] else [BookCard(CardOf(list[0]))] + Cards(list[1..])
  }

  /** `renderResults(list)`: the placeholder alone for an empty list,
      otherwise one card per record in the list's order and no placeholder. */
  function RenderResults(list: seq<Book>): (r: seq<Panel>)
    ensures list == [] ==> r == [NoBooksFound]
    ensures list != [] ==> |r| == |list| && NoBooksFound !in r
    ensures list != [] ==> forall i :: 0 <= i < |list| ==> r[i].BookCard? && r[i].card == CardOf(list[i])
  {
    if list == [] then [NoBooksFound] else Cards(list)
  }

  /** The ids the cards of a listing open, in order. */
  function CardIds(panels: seq<Panel>): seq<string> {
    if panels == [] then []
    else (if panels[0].BookCard? then [panels[0].card.id] else []) + CardIds(panels[1..])
  }

  function Ids(list: seq<Book>): seq<string> {
    if list == [] then [] else [list[0].id] + Ids(list[1..])
  }

  /** Clicking the k-th card opens the k-th record: the cards' ids are the
      records' ids, in order, and the placeholder carries none. */
  lemma {:induction false} CardIdsOfRender(list: seq<Book>)
    ensures CardIds(RenderResults(list)) == Ids(list)
  {
    if list == [] {
      assert CardIds([NoBooksFound]) == [] + CardIds([]);
    } else {
      CardIdsOfCards(list);
    }
  }

  lemma {:induction false} CardIdsOfCards(list: seq<Book>)
    ensures CardIds(Cards(list)) == Ids(list)
  {
    if list != [] {
      var r := Cards(list);
      assert r[1..] == Cards(list[1..]);
      CardIdsOfCards(list[1..]);
    }
  }

  /** The detail page's external link: hidden, or pointing at the Open
      Library page of this ISBN (whose URL percent-encodes it). */
  datatype ExternalLink = Hidden | OpenLibrary(isbn: string)

  /** The detail page, field by field, as escaped text. */
  datatype DetailPage = DetailPage(
    cover: string,
    title: string,
    author: string,
    isbn: string,
    description: string,
    external: ExternalLink)

  /** Shown in place of an absent or empty ISBN (an em dash). */
  const NoIsbn: string := "\U{2014}"

  /** Shown in place of an absent or empty description. */
  const NoDescription: string := "No description provided."

  /** A field is JavaScript-truthy: present and not empty. */
  predicate Present(f: Option<string>) {
    f.Some? && f.value != []
  }

  /** The ISBN text the detail page shows. */
  function IsbnText(b: Book): string {
    if Present(b.isbn) then b.isbn.value else NoIsbn
  }

  /** The description text the detail page shows. */
  function DescriptionText(b: Book): string {
    if Present(b.description) then b.description.value else NoDescription
  }

  /** `renderBookPage(book)`: no text on the page can open a tag or end an
      attribute value, and the Open Library link is shown exactly when the
      record has a non-empty ISBN, and names that ISBN. */
  function DetailOf(b: Book): (p: DetailPage)
    ensures MarkupFree(p.cover) && MarkupFree(p.title) && MarkupFree(p.author)
    ensures MarkupFree(p.isbn) && MarkupFree(p.description)
    ensures p.external.OpenLibrary? <==> Present(b.isbn)
    ensures p.external.OpenLibrary? ==> p.external.isbn == b.isbn.value
  {
    DetailPage(Escape(b.cover.GetOr([])), Escape(b.title), Escape(b.author.GetOr([])),
               Escape(IsbnText(b)), Escape(DescriptionText(b)),
               if Present(b.isbn) then OpenLibrary(b.isbn.value) else Hidden)
  }

  /** What a reader sees on the detail page: the record's own title, author
      and cover, and its ISBN and description or, when those are absent or
      empty, the em dash and "No description provided.". */
  lemma DetailShowsRecord(b: Book)
    ensures var p := DetailOf(b);
      Unescape(p.title) == b.title && Unescape(p.author) == b.author.GetOr([]) &&
      Unescape(p.cover) == b.cover.GetOr([]) &&
      Unescape(p.isbn) == (if Present(b.isbn) then b.isbn.value else NoIsbn) &&
      Unescape(p.description) == (if Present(b.description) then b.description.value else NoDescription)
  {
    EscapeRoundTrip(b.cover.GetOr([]));
    EscapeRoundTrip(b.title);
    EscapeRoundTrip(b.author.GetOr([]));
    EscapeRoundTrip(IsbnText(b));
    EscapeRoundTrip(DescriptionText(b));
  }
}
