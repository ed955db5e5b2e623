# Book catalogue: a verified Dafny model

This project models the in-memory book catalogue of `solid_design.py`:

- a `Book` record (title, author, year) with its display string;
- `Library`, the concrete catalogue, which owns one ordered list of books and
  offers `add_book` (append), `remove_book` (drop every book with the given
  title, keep the rest in order) and `get_books` (the list);
- `ExtendedLibrary`, which adds `find_books_by_author`, an order-preserving
  selection that leaves the store alone;
- `LibraryManager`, which builds a `Book` from three fields, delegates to the
  catalogue it was given, and reports a confirmation, an empty notice or a
  listing.

Modules:

- `BookRecord` (`book.dfy`): the `Book` datatype and `Display`, the rendering
  `Title: …, Author: …, Year: …`.
- `SeqFilter` (`seqfilter.dfy`): `Filter`, the meaning of a list
  comprehension `[x for x in s if keep(x)]`, with the facts both catalogue
  filters rely on: per-value counts, membership, subsequence order,
  uniqueness of the result, no-op when all elements are kept, idempotence,
  and behaviour on an appended element.
- `Catalogue` (`library.dfy`): `WithoutTitle` and `ByAuthor`, the two
  filters of the catalogue, with the removal and lookup properties stated on
  books; the classes `Library` (a `books: seq<Book>` field that the methods
  reassign) and `ExtendedLibrary`.
- `Manager` (`manager.dfy`): the class `LibraryManager`, whose console output
  is returned as strings, and three client methods that replay the
  catalogue's worked examples against the contracts: an empty report; Dune
  and 1984 added, Dune removed twice; two books titled Echo removed together.

Removal semantics: the code removes ALL books with a matching title and never
signals anything when none matches. The model keeps exactly that.
Duplicate titles are accepted by `add_book`. Nothing in the code enforces a
unique-title invariant, so the model has none.

## Model

| member | source | states |
|---|---|---|
| BookRecord.Display | solid_design.py:16-17 | the rendering is `Title: `, the title, `, Author: `, the author, `, Year: `, the year, in that order, and its length is the sum of the parts |
| SeqFilter.Filter | solid_design.py:44 | the comprehension's result is no longer than its input and every element of it passes the test |
| SeqFilter.FilterCount | solid_design.py:44 | every value that passes the test occurs in the result as often as in the input; every other value occurs zero times |
| SeqFilter.FilterMembership | solid_design.py:44 | a value is in the result if and only if it is in the input and passes the test |
| SeqFilter.FilterAppend | solid_design.py:44 | filtering `s + [x]` is filtering `s` followed by `x` exactly when `x` passes the test |
| SeqFilter.FilterIsSubsequence | solid_design.py:44 | the result keeps the relative order of the input (it is a subsequence of it) |
| SeqFilter.KeptSubsequenceBound | solid_design.py:44 | no subsequence made only of passing elements is longer than the result |
| SeqFilter.FilterIsExact | solid_design.py:44 | any subsequence of passing elements as long as the result equals the result: it is the one order-preserving selection |
| SeqFilter.FilterKeepsAll | solid_design.py:44 | when every element passes, the result is the input unchanged |
| SeqFilter.FilterIdempotent | solid_design.py:44 | filtering the result again with the same test gives the same result |
| Catalogue.WithoutTitle | solid_design.py:43-44 | after removal no book has the removed title, and every book with another title is still there |
| Catalogue.ByAuthor | solid_design.py:76-77 | the lookup returns only books of that author taken from the store, and every stored book of that author |
| Catalogue.RemoveKeepsOthersInOrder | solid_design.py:43-44 | removal keeps the other books in their relative order, each as many times as it was stored, and drops every copy of the titled ones |
| Catalogue.RemoveIsExact | solid_design.py:43-44 | the removal result is the only order-preserving selection of other-titled books of its length |
| Catalogue.RemoveAbsentIsNoOp | solid_design.py:43-44 | removal leaves the catalogue unchanged if and only if no book has that title |
| Catalogue.RemoveIdempotent | solid_design.py:43-44 | removing a title twice gives the same catalogue as removing it once |
| Catalogue.RemoveAfterAdd | solid_design.py:40-44 | removing after an append: an appended book with that title is removed with the others, any other appended book stays last |
| Catalogue.FindByAuthorIsOrderedSelection | solid_design.py:76-77 | the lookup keeps stored order and holds each of that author's books as many times as stored, and no other book |
| Catalogue.FindByAuthorIsExact | solid_design.py:76-77 | the lookup result is the only order-preserving selection of that author's books of its length |
| Catalogue.Library.constructor | solid_design.py:37-38 | a new catalogue holds no books |
| Catalogue.Library.AddBook | solid_design.py:40-41 | the new contents are the old contents with the book appended last; no limit, no duplicate check |
| Catalogue.Library.RemoveBook | solid_design.py:43-44 | the new contents are the old contents without every book of that title, built by a loop proved equal to `WithoutTitle` |
| Catalogue.Library.GetBooks | solid_design.py:46-47 | returns the stored books, in insertion order, as a value snapshot |
| Catalogue.ExtendedLibrary.constructor | solid_design.py:75 | the extended catalogue works on the given store |
| Catalogue.ExtendedLibrary.FindBooksByAuthor | solid_design.py:76-77 | returns, by a loop proved equal to `ByAuthor`, the stored books of that author in stored order; it changes nothing |
| Manager.LibraryManager.constructor | solid_design.py:52-53 | the manager works on exactly the catalogue it is given |
| Manager.LibraryManager.AddBook | solid_design.py:55-58 | the catalogue gains exactly one new last book whose fields are the arguments; the confirmation names the title |
| Manager.LibraryManager.RemoveBook | solid_design.py:60-62 | the catalogue loses every book with that title and nothing else; the confirmation is given whether or not anything matched |
| Manager.LibraryManager.ShowBooks | solid_design.py:64-71 | the report is the empty notice alone if and only if the catalogue is empty; otherwise it is the header followed by one rendered line per book, in stored order |

## Left out

- `main()` and its console command loop (solid_design.py:81-112): console input and output.
- Terminal colouring (colorama `init`, the `Fore` codes): display only. The manager's `print` calls are modelled as returned strings without the colour codes.
- `factory_pattern.py` is not part of this model: it logs and constructs objects, and shares no state with the catalogue.
- `LibraryInterface` is not a separate type: the model uses no trait. Its three operations are the signatures of `Library`, and `LibraryManager` holds a `Library`.
- `ExtendedLibrary` is a subclass of `Library` in the code. The model composes it instead: it holds a `Library` as `store` and adds `FindBooksByAuthor`. The inherited add, remove and list are reached through `store`, and a manager can be built over that same store.
- `get_books` returns the live Python list, so a caller could alias and mutate it. The model returns an immutable `seq<Book>` snapshot.
