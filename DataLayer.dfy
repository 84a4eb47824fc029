/**
 * The unit of work (IUnitOfWork / the DbContext): the tracked Authors and Books sets of one
 * request, the rows the database holds, and SaveChangesAsync, the single commit point.
 */
module DataLayer {
  import opened Wrappers
  import opened Exceptions
  import opened Entities

  /**
   * What the database accepts on commit: each name fits its nvarchar(150) column and each
   * book's AuthorId references an author (the Books -> Authors foreign key).
   */
  predicate Persistable(authors: seq<Author>, books: seq<Book>) {
    && (forall i :: 0 <= i < |authors| ==>
          FitsName(authors[i].firstName) && FitsName(authors[i].lastName))
    && (forall i :: 0 <= i < |books| ==> HasAuthor(authors, books[i].authorId))
  }

  class UnitOfWork {
    /** The tracked entities, including in-place edits and staged additions. */
    var authors: seq<Author>
    var books: seq<Book>
    /** The rows committed to the database. */
    var savedAuthors: seq<Author>
    var savedBooks: seq<Book>
    /** How many times SaveChangesAsync was called. */
    ghost var saveCount: nat

    ghost predicate Valid()
      reads this
    {
      UniqueAuthorIds(authors) && UniqueBookIds(books) && Persistable(savedAuthors, savedBooks)
    }

    /** A request scope opened over the rows the database holds. */
    constructor (authors: seq<Author>, books: seq<Book>)
      requires UniqueAuthorIds(authors) && UniqueBookIds(books) && Persistable(authors, books)
      ensures Valid()
      ensures this.authors == authors && this.books == books
      ensures savedAuthors == authors && savedBooks == books && saveCount == 0
    {
      this.authors, this.books := authors, books;
      savedAuthors, savedBooks := authors, books;
      saveCount := 0;
    }

    /** SaveChangesAsync: commit every tracked change at once, or nothing. */
    method SaveChanges() returns (r: Outcome<Exception>)
      requires Valid()
      modifies this
      ensures Valid()
      ensures authors == old(authors) && books == old(books)
      ensures saveCount == old(saveCount) + 1
      ensures r.Pass? <==> Persistable(authors, books)
      ensures r.Pass? ==> savedAuthors == authors && savedBooks == books
      ensures r.Fail? ==> r.error == DbUpdate
      ensures r.Fail? ==> savedAuthors == old(savedAuthors) && savedBooks == old(savedBooks)
    {
      saveCount := saveCount + 1;
      if Persistable(authors, books) {
        savedAuthors, savedBooks := authors, books;
        r := Pass;
      } else {
        r := Fail(DbUpdate);
      }
    }
  }
}
