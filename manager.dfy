/** The catalogue manager: builds books from their fields, delegates every
    operation to the catalogue it was given, and turns the outcome into the
    text lines that the console shows (colour codes aside). */
module Manager {
  import opened BookRecord
  import opened Catalogue

  function AddedMessage(title: string): string
  {
    "Book \"" + title + "\" added successfully."
  }

  function RemovedMessage(title: string): string
  {
    "Book \"" + title + "\" removed successfully."
  }

  const ListingHeader: string := "Books in the library:"
  const EmptyNotice: string := "The library is empty."

  class LibraryManager {
    const library: Library

    /** The manager works on the catalogue handed to it and owns no books. */
    constructor (library: Library)
      ensures this.library == library
    {
      this.library := library;
    }

    /** Builds the book from the three fields and appends it to the catalogue;
      the confirmation names the title. */
    method AddBook(title: string, author: string, year: string) returns (message: string)
      modifies library
      ensures library.books == old(library.books) + [Book(title, author, year)]
      ensures message == AddedMessage(title)
    {
      var book := Book(title, author, year);
      library.AddBook(book);
      message := AddedMessage(title);
    }

    /** Removes every book with this title and confirms unconditionally, also
      when nothing matched. */
    method RemoveBook(title: string) returns (message: string)
      modifies library
      ensures library.books == WithoutTitle(old(library.books), title)
      ensures message == RemovedMessage(title)
    {
      library.RemoveBook(title);
      message := RemovedMessage(title);
    }

    /** The console report of the catalogue: the empty notice alone when there
      is no book, otherwise a header followed by one rendered line per book in
      stored order. */
    method ShowBooks() returns (lines: seq<string>)
      ensures lines == [EmptyNotice] <==> library.books == []
      ensures library.books != [] ==>
                |lines| == |library.books| + 1 && lines[0] == ListingHeader &&
                forall i :: 0 <= i < |library.books| ==> lines[i + 1] == Display(library.books[i])
    {
      var books := library.GetBooks();
      if books != [] {
        lines := [ListingHeader];
        for i := 0 to |books|
          invariant |lines| == i + 1 && lines[0] == ListingHeader
          invariant forall j :: 0 <= j < i ==> lines[j + 1] == Display(books[j])
        {
          lines := lines + [Display(books[i])];
        }
      } else {
        lines := [EmptyNotice];
      }
    }
  }

  /** A fresh catalogue is reported as empty, not as an empty listing. */
  method EmptyScenario()
  {
    var store := new Library();
    var manager := new LibraryManager(store);
    var report := manager.ShowBooks();
    assert report == [EmptyNotice];
  }

  /** Books are listed in the order added; removing a title drops it, and
      removing it again changes nothing and reports no error. */
  method InsertionOrderScenario()
  {
    var store := new Library();
    var manager := new LibraryManager(store);
    var dune := Book("Dune", "Herbert", "1965");
    var orwell := Book("1984", "Orwell", "1949");
    var _ := manager.AddBook("Dune", "Herbert", "1965");
    var _ := manager.AddBook("1984", "Orwell", "1949");
    assert store.books == [dune, orwell];

    var _ := manager.RemoveBook("Dune");
    assert [dune, orwell] == [dune] + [orwell];
    RemoveAfterAdd([dune], orwell, "Dune");
    RemoveAfterAdd([], dune, "Dune");
    assert store.books == [orwell];
    var _ := manager.RemoveBook("Dune");
    RemoveAbsentIsNoOp([orwell], "Dune");
    assert store.books == [orwell];
  }

  /** Two books sharing a title are removed together; the author lookup on
      the same store sees only its own author's book. */
  method SharedTitleScenario()
  {
    var store := new Library();
    var manager := new LibraryManager(store);
    var echo1 := Book("Echo", "Ann", "2001");
    var echo2 := Book("Echo", "Bob", "2002");
    var _ := manager.AddBook("Echo", "Ann", "2001");
    var _ := manager.AddBook("Echo", "Bob", "2002");
    var extended := new ExtendedLibrary(store);
    var byBob := extended.FindBooksByAuthor("Bob");
    assert byBob == [echo2];
    var _ := manager.RemoveBook("Echo");
    assert [echo1, echo2] == [echo1] + [echo2];
    RemoveAfterAdd([echo1], echo2, "Echo");
    RemoveAfterAdd([], echo1, "Echo");
    assert store.books == [];
  }
}
