/** The book store: a catalogue that owns one ordered sequence of books and
    offers add, remove-by-title and list, plus the extended catalogue that adds
    a lookup by author on top of the same store. */
module Catalogue {
  import opened BookRecord
  import opened SeqFilter

  /** The survival test of removal: a book stays unless its title is `title`. */
  function NotTitled(title: string): Book -> bool
  {
    (b: Book) => b.title != title
  }

  /** The selection test of the author lookup. */
  function WrittenBy(author: string): Book -> bool
  {
    (b: Book) => b.author == author
  }

  /** The catalogue after removing every book titled `title`: all other books,
      in their original order. */
  function WithoutTitle(books: seq<Book>, title: string): (r: seq<Book>)
    ensures forall b :: b in r ==> b in books && b.title != title
    ensures forall b :: b in books && b.title != title ==> b in r
  {
    var r := Filter(books, NotTitled(title));
    forall b ensures b in r <==> b in books && b.title != title {
      FilterMembership(books, NotTitled(title), b);
    }
    r
  }

  /** The books written by `author`, in catalogue order. */
  function ByAuthor(books: seq<Book>, author: string): (r: seq<Book>)
    ensures forall b :: b in r ==> b in books && b.author == author
    ensures forall b :: b in books && b.author == author ==> b in r
  {
    var r := Filter(books, WrittenBy(author));
    forall b ensures b in r <==> b in books && b.author == author {
      FilterMembership(books, WrittenBy(author), b);
    }
    r
  }

  /** Removal keeps the other books in their relative order, keeps each of
      them as many times as it occurred, and is the only such sequence. */
  lemma RemoveKeepsOthersInOrder(books: seq<Book>, title: string, b: Book)
    ensures IsSubsequence(WithoutTitle(books, title), books)
    ensures multiset(WithoutTitle(books, title))[b] == if b.title != title then multiset(books)[b] else 0
  {
    FilterIsSubsequence(books, NotTitled(title));
    FilterCount(books, NotTitled(title), b);
  }

  /** Any order-preserving selection of untitled-`title` books that is as long
      as the removal's result IS the removal's result. */
  lemma RemoveIsExact(r: seq<Book>, books: seq<Book>, title: string)
    requires IsSubsequence(r, books)
    requires forall b :: b in r ==> b.title != title
    requires |r| == |WithoutTitle(books, title)|
    ensures r == WithoutTitle(books, title)
  {
    FilterIsExact(r, books, NotTitled(title));
  }

  /** Removing a title is a silent no-op exactly when no book carries it. */
  lemma RemoveAbsentIsNoOp(books: seq<Book>, title: string)
    ensures WithoutTitle(books, title) == books <==> forall b :: b in books ==> b.title != title
  {
    if forall b :: b in books ==> b.title != title {
      FilterKeepsAll(books, NotTitled(title));
    }
  }

  /** Removing the same title twice leaves the state of removing it once. */
  lemma RemoveIdempotent(books: seq<Book>, title: string)
    ensures WithoutTitle(WithoutTitle(books, title), title) == WithoutTitle(books, title)
  {
    FilterIdempotent(books, NotTitled(title));
  }

  /** Removal after an append: a new book with the removed title disappears
      with the rest of its namesakes, any other new book stays last. */
  lemma RemoveAfterAdd(books: seq<Book>, b: Book, title: string)
    ensures WithoutTitle(books + [b], title)
         == WithoutTitle(books, title) + (if b.title != title then [b] else [])
  {
    FilterAppend(books, b, NotTitled(title));
  }

  /** The author lookup returns the books of that author in catalogue order,
      each as many times as it is stored, and is the only such sequence. */
  lemma FindByAuthorIsOrderedSelection(books: seq<Book>, author: string, b: Book)
    ensures IsSubsequence(ByAuthor(books, author), books)
    ensures multiset(ByAuthor(books, author))[b] == if b.author == author then multiset(books)[b] else 0
  {
    FilterIsSubsequence(books, WrittenBy(author));
    FilterCount(books, WrittenBy(author), b);
  }

  /** Any order-preserving selection of `author`'s books that is as long as the
      lookup's result IS the lookup's result. */
  lemma FindByAuthorIsExact(r: seq<Book>, books: seq<Book>, author: string)
    requires IsSubsequence(r, books)
    requires forall b :: b in r ==> b.author == author
    requires |r| == |ByAuthor(books, author)|
    ensures r == ByAuthor(books, author)
  {
    FilterIsExact(r, books, WrittenBy(author));
  }

  /** The in-memory catalogue: one ordered sequence of books, insertion order
      observable through `GetBooks`. */
  class Library {
    var books: seq<Book>

    /** A new catalogue is empty. */
    constructor ()
      ensures books == []
    {
      books := [];
    }

    /** Appends `book` at the end: no capacity limit, no duplicate check. */
    method AddBook(book: Book)
      modifies this
      ensures books == old(books) + [book]
    {
      books := books + [book];
    }

    /** Replaces the catalogue by the books whose title is not `title`,
      building the filtered copy element by element. */
    method RemoveBook(title: string)
      modifies this
      ensures books == WithoutTitle(old(books), title)
    {
      var current := books;
      var kept: seq<Book> := [];
      var i := 0;
      while i < |current|
        invariant 0 <= i <= |current|
        invariant kept == WithoutTitle(current[..i], title)
      {
        assert current[..i + 1] == current[..i] + [current[i]];
        RemoveAfterAdd(current[..i], current[i], title);
        if current[i].title != title {
          kept := kept + [current[i]];
        }
        i := i + 1;
      }
      assert current[..i] == current;
      books := kept;
    }

    /** A snapshot of the stored books, in insertion order. */
    method GetBooks() returns (r: seq<Book>)
      ensures r == books
    {
      r := books;
    }
  }

  /** The catalogue extended with a lookup by author. It is built around an
      existing in-memory catalogue, whose add, remove and list it reuses
      unchanged through `store`. */
  class ExtendedLibrary {
    const store: Library

    constructor (store: Library)
      ensures this.store == store
    {
      this.store := store;
    }

    /** The stored books whose author is `author`, in stored order; the store
      is left as it was. */
    method FindBooksByAuthor(author: string) returns (r: seq<Book>)
      ensures r == ByAuthor(store.books, author)
    {
      var books := store.books;
      r := [];
      var i := 0;
      while i < |books|
        invariant 0 <= i <= |books|
        invariant r == ByAuthor(books[..i], author)
      {
        assert books[..i + 1] == books[..i] + [books[i]];
        FilterAppend(books[..i], books[i], WrittenBy(author));
        if books[i].author == author {
          r := r + [books[i]];
        }
        i := i + 1;
      }
      assert books[..i] == books;
    }
  }
}
