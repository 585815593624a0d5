# Library catalog browser, modelled in Dafny

A single-page library browser keeps a small catalog of book records in
memory. The user can search it by title, author or ISBN, open a detail page
for one record, deep-link to that page through the URL fragment
(`#book-<id>`), and add records through a form. This project models the
logic around the DOM:

- HTML escaping (`escapeHtml`);
- the query engine (`getQueryMatches`);
- the results listing (`renderResults` over `makeCardHTML`) and the detail
  page (`renderBookPage`), both as values rather than markup;
- the hash router, a two-state machine: Listing, or Detail of one record;
- the catalog store and the add-book flow.

Layout, one module per component:

- `wrappers.dfy` (`Wrappers`): the `Option` type, used for fields that
  JavaScript leaves `undefined`.
- `text.dfy` (`Text`): ASCII `trim` and `toLowerCase`, `includes`,
  `escapeHtml`. It also holds `Unescape`, a reference inverse of escaping
  that decodes the five entities the way a browser reads them back.
- `catalog.dfy` (`Catalog`): the `Book` record, the sample data, `find`
  by id, and the record the add-book form builds.
- `query.dfy` (`Query`): `getQueryMatches`. A reference predicate
  `Mentions` defines substring containment by an explicit offset.
- `render.dfy` (`Render`): result cards, the "No books found" placeholder,
  and the detail page.
- `router.dfy` (`Router`): `RouterState`, the fragment a record's page
  writes, and `DeriveState`, which is `handleHash`.
- `browser.dfy` (`Browser`): class `Library`. Its fields are the module's
  mutable state: `books` (the store), `query` (the search box),
  `results` (the results region), `fragment` (what `location.hash` reads,
  with its leading `#`) and `view` (the detail region). Its methods are
  the event handlers.
- `samples.dfy` (`Samples`): concrete uses of the model (a deep link by the
  sample ids, the record built for a new title), and a
  client of the class.

`Library.Valid()` is the invariant all handlers keep. It has two parts.
First, the detail region shows exactly what the fragment encodes:
`view == DeriveState(fragment, books)`. So the `hashchange` that follows
`location.hash = "book-" + id` re-derives the state it already has.
Second, the results region lists the current query's matches.

Ids are not checked for uniqueness: a new id is random, and `books.find`
returns the first record with the id. So `Lookup` returns the first index,
and `Detail` carries the record `find` returned.

## Model

| member | source | states |
|---|---|---|
| `Text.Trim` | scrpt.js:211-215 | The result is the slice of `s` left after cutting off blank ends: no whitespace at either end, only whitespace cut away, and empty exactly when `s` is all whitespace |
| `Text.TrimIdempotent` | scrpt.js:80 | Trimming a trimmed text changes nothing |
| `Text.Includes` | scrpt.js:84-86 | `String.prototype.includes` as a scan over start positions; no contract of its own: see `Text.IncludesIffOccurs` |
| `Text.Lower` | scrpt.js:80 | Same length; every character ASCII-folded, nothing else changed |
| `Text.IncludesIffOccurs` | scrpt.js:84-86 | `includes` (scanning each start position) holds iff the query occurs in the text at some offset |
| `Text.Entity` | scrpt.js:51 | The replacement map (`&amp;`, `&lt;`, `&gt;`, `&quot;`, `&#39;`, every other character copied); no contract of its own: see `Text.Escape`, `Text.EscapeUnchangedIff` and `Text.EscapeRoundTrip` |
| `Text.Escape` | scrpt.js:50-52 | The escaped text contains no `<`, `>`, `"` or `'`, and is never shorter than the input |
| `Text.EscapeUnchangedIff` | scrpt.js:50-52 | Escaping returns the input unchanged iff it contains none of `& < > " '` |
| `Text.EscapeRoundTrip` | scrpt.js:51 | Decoding the five entities recovers the original |
| `Text.EscapeInjective` | scrpt.js:50-52 | Two different strings never escape to the same text |
| `Catalog.SampleBooks` | scrpt.js:6-37 | The three sample records, field for field; no contract of its own: see `Samples.HobbitDeepLink` and `Samples.PageLoad` |
| `Catalog.PrideAndPrejudice` | scrpt.js:7-16 | The first sample record (id `b1`); data only |
| `Catalog.TheHobbit` | scrpt.js:17-26 | The second sample record (id `b2`); data only, see `Samples.HobbitDeepLink` |
| `Catalog.ThinkingFastAndSlow` | scrpt.js:27-36 | The third sample record (id `b3`); data only |
| `Catalog.Lookup` | scrpt.js:92 | `find` by id: an index whose record has the id and no earlier record does; none exactly when no record has the id |
| `Catalog.ParseYear` | scrpt.js:218 | Absent iff the trimmed year is empty; a decimal number iff it is all digits |
| `Catalog.ParseYearOfDecimal` | scrpt.js:218 | Any number written in decimal parses back to that number |
| `Catalog.MakeNewBook` | scrpt.js:211-218 | Given id; trimmed title, author and ISBN; year absent iff the field is blank, else its parse; cover absent iff blank, else the trimmed non-empty URL; description `""` |
| `Catalog.SearchSeed` | scrpt.js:223 | The first min(7, length) characters of the title |
| `Query.Normalize` | scrpt.js:80 | `(query || "").trim().toLowerCase()`; no contract of its own: see `Text.Trim` and `Text.Lower` |
| `Query.FieldMatches` | scrpt.js:84-86 | One field's test: absent or empty never matches; no contract of its own: see `Query.HitIffMentions` |
| `Query.Hit` | scrpt.js:82-88 | The filter's test on a record; no contract of its own: see `Query.HitIffMentions` |
| `Query.Filter` | scrpt.js:82-88 | `books.filter(...)`: never longer than the store; see `Query.FilterCounts`, `Query.FilterKeepsOrder` |
| `Query.Matches` | scrpt.js:79-89 | `getQueryMatches` itself; no contract of its own: see `Query.MatchesBlankQuery`, `Query.MatchesNonBlankQuery` and `Query.MatchesIdempotent` |
| `Query.HitIffMentions` | scrpt.js:82-88 | The filter's test holds iff the folded title, author or ISBN is present, non-empty and contains the query at some offset |
| `Query.FilterCounts` | scrpt.js:82-88 | Every record appears in the filtered list as often as in the store if it passes the test, otherwise never |
| `Query.FilterKeepsOrder` | scrpt.js:82-88 | The filtered list is a subsequence of the store (store order kept) |
| `Query.MatchesBlankQuery` | scrpt.js:80-81 | A query that trims to nothing returns the whole store, in order |
| `Query.MatchesNonBlankQuery` | scrpt.js:80-88 | Any other query returns exactly the records whose folded title, author or ISBN contains the trimmed, folded query, each as often as in the store, in store order |
| `Query.MatchesIdempotent` | scrpt.js:79-89 | Searching the result of a search with the same query gives the same result |
| `Query.SeedListsNewBookFirst` | scrpt.js:223-224 | After a record is put in front of the store, searching for the seed taken from its title lists that record first, for every title |
| `Render.CardOf` | scrpt.js:54-69 | The card opens the record's id; its cover, title, author and ISBN contain no `<`, `>`, `"` or `'` |
| `Render.CardShowsRecord` | scrpt.js:54-69 | The card's cover, title, author and ISBN decode back to the record's values (absent as empty) |
| `Render.Cards` | scrpt.js:76 | `list.map(makeCardHTML)`: one card per record, the i-th card is the i-th record's |
| `Render.RenderResults` | scrpt.js:71-77 | Empty list: exactly one placeholder. Otherwise one card per record, in order, and no placeholder |
| `Render.CardIdsOfRender` | scrpt.js:57 | The ids the cards open are the listed records' ids, in order |
| `Render.DetailOf` | scrpt.js:103-131 | Every text on the page is free of `<`, `>`, `"` and `'`; the external link is shown iff the ISBN is present and non-empty, and names that ISBN |
| `Render.DetailShowsRecord` | scrpt.js:103-122 | Title, author and cover decode to the record's values; ISBN and description decode to the value, or to the em dash / "No description provided." placeholder when absent or empty |
| `Router.FragmentFor` | scrpt.js:100 | The fragment starts with `#book-` and the rest is the id |
| `Router.DeriveState` | scrpt.js:189-202 | Detail iff the fragment starts with `#book-` and some record has the id after the prefix; the record shown is the first with that id; Listing otherwise |
| `Router.FragmentRoundTrip` | scrpt.js:91-101 | Re-deriving the state from the fragment a record's page writes gives that record's page back |
| `Router.OpenFrontRecord` | scrpt.js:219-225 | Opening the id of a record just put in front of the store shows that record, whatever ids the rest of the store holds |
| `Browser.Library.constructor` | scrpt.js:40 | Store, empty query, full listing, and the state the initial fragment selects; the invariant holds |
| `Browser.Library.Search` | scrpt.js:146-150 | Query set; listing of its matches; store, fragment and view unchanged |
| `Browser.Library.Open` | scrpt.js:91-101 | Detail iff some record has the id, showing the first one, with fragment `#book-<id>`; otherwise Listing and no fragment; the store and listing unchanged; the invariant holds |
| `Browser.Library.Back` | scrpt.js:133-137 | Listing and no fragment; nothing else changes |
| `Browser.Library.Clear` | scrpt.js:152-158 | Empty query, whole store listed, Listing, no fragment; store unchanged |
| `Browser.Library.HashChange` | scrpt.js:189-205 | The state derived from the new fragment; a fragment equal to the current one changes nothing, so handling the same fragment twice gives the same state; store, query and listing unchanged |
| `Browser.Library.AddBook` | scrpt.js:208-226 | The store is the built record followed by the old store, unchanged and in order; the query is the seed of the stored (trimmed) title; the listing starts with the new card; Detail of the new record with its fragment |
| `Browser.Library.AddRecord` | scrpt.js:219-225 | For any record put in front of the store: the query is its title seed, the listing starts with its card, its page is open with fragment `#book-<id>`, and the invariant holds |
| `Samples.SampleDeepLink` | scrpt.js:189-202 | On a store whose first two ids are the sample ids `b1` and `b2`, `#book-b2` opens the second record, and is what opening `b2` writes |
| `Samples.HobbitDeepLink` | scrpt.js:189-202 | On the sample store, `#book-b2` opens the page of "The Hobbit" |
| `Samples.PageLoad` | scrpt.js:40 | Page load over a copy of the sample records: empty query, every sample record listed, no fragment, Listing, invariant kept |
| `Samples.NewRecordForDune` | scrpt.js:211-218 | The form values for "Dune" give the record with year 1965, no cover and an empty description |
| `Samples.OpenThenBack` | scrpt.js:133-137 | Opening any id and then going back gives Listing with no fragment, and keeps the invariant |

## Left out

- DOM markup and wiring: the `innerHTML` template strings, `classList`, event-listener registration, `preventDefault`, `searchInput.focus()` and `addBookForm.reset()`. These are host UI; the model keeps only what they do to the state.
- Copying the ISBN to the clipboard, the timed label revert and `alert`: asynchronous I/O that does not touch the catalog or the router.
- `Math.random()` id generation: the id is a parameter of `AddBook`.
- `Number(year)` on text that is not all digits: kept abstract as `Unparsed(text)`, because JavaScript number parsing (exponents, signs, hex, NaN) is not modelled. An all-digit text becomes its exact value `Decimal(n)`, while `Number` rounds above 2^53; no modelled output reads the year, so the difference is not observable in the model.
- `Render.CardOf` / `Render.DetailOf`: their values have no year field. The "author • year" meta line is left out, because it depends on `String(number)` and on the truthiness of 0 and NaN.
- The click dispatch on the results region: the "No books found" placeholder also carries the card class, so clicking it calls `openBookPageById(undefined)`, which acts as `Browser.Library.Open` of an id no record has (Listing, no fragment). `Render.CardIdsOfRender` only states that the placeholder carries no id.
- `encodeURIComponent` for the Open Library link: the link carries the raw ISBN.
- Browser URL handling: `history.replaceState`, the `location.hash` setter (and the percent-encoding the browser applies to it), and the asynchronous `hashchange` re-entry. All become assignments to `fragment`. The invariant `RouteSynced` shows that the re-entry would change nothing.
- Unicode `trim` and `toLowerCase`: only ASCII whitespace and ASCII letters are handled. `slice(0, 7)` counts UTF-16 code units, while the model counts Unicode scalar values.
- The `window.__LIBRARY` debug export.
- `escapeHtml`'s `String(s)` coercion of non-string arguments: every argument here is a string, or absent and so defaulted to `""`.
- The concrete searches for "the" and "97802611" on the sample records: the general query lemmas cover them, but evaluating the search on the literal record texts takes more solver effort than the verifier allows.
- `Browser.Library.constructor`: takes the initial store as a parameter, which the page sets to a copy of the sample records (`Catalog.SampleBooks`), rather than naming the sample records itself.
