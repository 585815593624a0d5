/**
 * The catalog's records: the book entity, the sample data the store starts
 * with, lookup by id (`books.find`) and the record the add-book form builds.
 */
module Catalog {
  import opened Wrappers
  import opened Text

  /** What `Number(year)` gives for a non-empty trimmed year field: the
      decimal value of an all-digit text, or a value left abstract otherwise. */
  datatype YearValue = Decimal(value: nat) | Unparsed(text: string)

  /** A book record. Absent optional fields are `None` (JavaScript's
      `undefined`). */
  datatype Book = Book(
    id: string,
    title: string,
    author: Option<string>,
    isbn: Option<string>,
    year: Option<YearValue>,
    cover: Option<string>,
    description: Option<string>)

  /** The three records the store holds when the page loads. */
  function SampleBooks(): seq<Book> {
    [PrideAndPrejudice(), TheHobbit(), ThinkingFastAndSlow()]
  }

  function PrideAndPrejudice(): Book {
    Book("b1", "Pride and Prejudice", Some("Jane Austen"), Some("9780141040349"), Some(Decimal(1813)),
         Some("https://covers.openlibrary.org/b/isbn/9780141040349-M.jpg"),
         Some("A classic novel of manners that charts the emotional development of Elizabeth Bennet."))
  }

  function TheHobbit(): Book {
    Book("b2", "The Hobbit", Some("J.R.R. Tolkien"), Some("9780261102217"), Some(Decimal(1937)),
         Some("https://covers.openlibrary.org/b/isbn/9780261102217-M.jpg"),
         Some("Bilbo Baggins goes on an unexpected journey in this prelude to the Lord of the Rings."))
  }

  function ThinkingFastAndSlow(): Book {
    Book("b3", "Thinking, Fast and Slow", Some("Daniel Kahneman"), Some("9780374533557"), Some(Decimal(2011)),
         Some("https://covers.openlibrary.org/b/isbn/9780374533557-M.jpg"),
         Some("A tour of the mind from Nobel laureate Kahneman, exploring the two systems that drive the way we think."))
  }

  /** `books[i]` is the first record whose id is `id`. */
  ghost predicate FirstWithId(books: seq<Book>, id: string, i: int) {
    0 <= i < |books| && books[i].id == id && forall j :: 0 <= j < i ==> books[j].id != id
  }

  /** `books.find(b => b.id === id)`, as the index of the record found. */
  function Lookup(books: seq<Book>, id: string): (r: Option<nat>)
    ensures r.Some? ==> FirstWithId(books, id, r.value)
    ensures r.None? <==> forall j :: 0 <= j < |books| ==> books[j].id != id
  {
    if books == [] then None
    else if books[0].id == id then Some(0)
    else match Lookup(books[1..], id)
      case None => None
      case Some(k) => Some(k + 1)
  }

  predicate IsDigit(c: char) {
    '0' <= c <= '9'
  }

  predicate AllDigits(s: string) {
    forall i :: 0 <= i < |s| ==> IsDigit(s[i])
  }

  /** The decimal number an all-digit text spells (leading zeros allowed). */
  function DigitsValue(s: string): nat
    requires AllDigits(s)
  {
    if s == [] then 0 else DigitsValue(s[..|s| - 1]) * 10 + (s[|s| - 1] as int - '0' as int)
  }

  /** The canonical decimal text of `n`. */
  function DecimalText(n: nat): (r: string)
    ensures r != [] && AllDigits(r)
  {
    if n < 10 then [('0' as int + n) as char] else DecimalText(n / 10) + [('0' as int + n % 10) as char]
  }

  lemma {:induction false} DigitsValueOfDecimalText(n: nat)
    ensures DigitsValue(DecimalText(n)) == n
  {
    if n >= 10 {
      var r := DecimalText(n);
      assert r[..|r| - 1] == DecimalText(n / 10);
      DigitsValueOfDecimalText(n / 10);
    }
  }

  /** `year ? Number(year) : undefined` on the trimmed year field. */
  function ParseYear(t: string): (y: Option<YearValue>)
    ensures y.None? <==> t == []
    ensures y.Some? && y.value.Decimal? <==> t != [] && AllDigits(t)
  {
    if t == [] then None
    else if AllDigits(t) then Some(Decimal(DigitsValue(t)))
    else Some(Unparsed(t))
  }

  /** A year written in decimal reads back as that number. */
  lemma ParseYearOfDecimal(n: nat)
    ensures ParseYear(DecimalText(n)) == Some(Decimal(n))
  {
    DigitsValueOfDecimalText(n);
  }

  /** The record the add-book form builds from its raw field values; `id` is
      the freshly generated identifier. */
  function MakeNewBook(id: string, title: string, author: string, isbn: string, year: string, cover: string): (b: Book)
    ensures b.id == id
    ensures b.title == Trim(title) && b.author == Some(Trim(author)) && b.isbn == Some(Trim(isbn))
    ensures b.year.None? <==> IsBlank(year)
    ensures b.year.Some? ==> b.year == ParseYear(Trim(year))
    ensures b.cover.None? <==> IsBlank(cover)
    ensures b.cover.Some? ==> b.cover.value == Trim(cover) && b.cover.value != []
    ensures b.description == Some([])
  {
    var y := Trim(year);
    var c := Trim(cover);
    Book(id, Trim(title), Some(Trim(author)), Some(Trim(isbn)),
         if y == [] then None else ParseYear(y),
         if c == [] then None else Some(c),
         Some([]))
  }

  /** `title.slice(0, 7)`: the search text set after a book is added. */
  function SearchSeed(title: string): (r: string)
    ensures |r| == if |title| < 7 then |title| else 7
    ensures r <= title
  {
    if |title| < 7 then title else title[..7]
  }
}
