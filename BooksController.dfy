/**
 * BooksController (OpenAPISwaggerDoc.Web/Controllers/BooksController.cs): every handler first
 * asks AuthorExistsAsync and answers 404 for a missing author; the GETs then query and map,
 * and CreateBook maps the body, stages it through AddBook and saves.
 */
module BooksController {
  import opened Wrappers
  import opened Exceptions
  import opened Entities
  import Models
  import opened Mvc
  import opened DataLayer
  import AS = AuthorsService
  import BS = BooksService
  import BookProfile
  import Linq

  /** The book CreateBook stages, as written: the mapped body keyed on add; no AuthorId is set. */
  function StagedAsWritten(bookForCreation: Models.BookForCreation, generatedId: Guid): (b: Book)
    ensures b.authorId == EmptyGuid && b.id == generatedId
  {
    BS.KeyedOnAdd(BookProfile.MapBookForCreation(bookForCreation), generatedId)
  }

  /** The book the corrected CreateBook stages: the mapped body with the route's author id. */
  function StagedForAuthor(authorId: Guid, bookForCreation: Models.BookForCreation, generatedId: Guid): (b: Book)
    ensures b.authorId == authorId && b.id == generatedId
    ensures b.title == bookForCreation.title && b.description == bookForCreation.description
  {
    BS.KeyedOnAdd(BookProfile.MapBookForCreation(bookForCreation).(authorId := authorId), generatedId)
  }

  /**
   * As written, the staged book's AuthorId is Guid.Empty, so unless an author with the empty id
   * exists the Books -> Authors foreign key refuses the commit.
   */
  lemma {:induction false} AsWrittenCommitRefused(authors: seq<Author>, books: seq<Book>,
                               bookForCreation: Models.BookForCreation, generatedId: Guid)
    requires !HasAuthor(authors, EmptyGuid)
    ensures !Persistable(authors, books + [StagedAsWritten(bookForCreation, generatedId)])
  {
    var all := books + [StagedAsWritten(bookForCreation, generatedId)];
    assert all[|books|].authorId == EmptyGuid;
  }

  /** As written, the staged book is outside the scope of the route's author. */
  lemma {:induction false} AsWrittenNotInAuthorScope(authors: seq<Author>, books: seq<Book>, authorId: Guid,
                                  bookForCreation: Models.BookForCreation, generatedId: Guid)
    requires authorId != EmptyGuid && generatedId != EmptyGuid && !HasBook(books, generatedId)
    ensures BS.GetBook(authors, books + [StagedAsWritten(bookForCreation, generatedId)], authorId, generatedId)
      == Success(None)
  {
    var all := books + [StagedAsWritten(bookForCreation, generatedId)];
    forall i | 0 <= i < |all| ensures !BS.BookMatches(all[i], authorId, generatedId) {
      if i < |books| {
        assert all[i] == books[i];
      }
    }
  }

  /** A book staged for an existing author keeps a store the database accepts acceptable. */
  lemma {:induction false} StagedForAuthorPersistable(authors: seq<Author>, books: seq<Book>, authorId: Guid,
                                   bookForCreation: Models.BookForCreation, generatedId: Guid)
    requires Persistable(authors, books) && HasAuthor(authors, authorId)
    ensures Persistable(authors, books + [StagedForAuthor(authorId, bookForCreation, generatedId)])
  {
    var all := books + [StagedForAuthor(authorId, bookForCreation, generatedId)];
    forall i | 0 <= i < |all| ensures HasAuthor(authors, all[i].authorId) {
      if i < |books| {
        assert all[i] == books[i];
      }
    }
  }

  /**
   * Corrected, the created book is found by GET api/authors/{authorId}/books/{bookId} with its
   * author attached, and carries the author's names.
   */
  lemma {:induction false} StagedForAuthorFound(authors: seq<Author>, books: seq<Book>, authorId: Guid,
                             bookForCreation: Models.BookForCreation, generatedId: Guid)
    requires authorId != EmptyGuid && generatedId != EmptyGuid
    requires UniqueBookIds(books) && !HasBook(books, generatedId) && HasAuthor(authors, authorId)
    ensures var staged := StagedForAuthor(authorId, bookForCreation, generatedId);
      var found := BS.GetBook(authors, books + [staged], authorId, generatedId);
      && found == Success(Some(BS.WithAuthor(authors, staged)))
      && BookProfile.MapBook(found.value.value).authorFirstName.Some?
  {
    var staged := StagedForAuthor(authorId, bookForCreation, generatedId);
    var all := books + [staged];
    var k := Linq.FirstIndexWhere(all, (b: Book) => BS.BookMatches(b, authorId, generatedId));
    assert BS.BookMatches(all[|books|], authorId, generatedId);
  }

  /** The DTO of a stored book of the author: its own fields, with the first stored author
      of that id providing the names. */
  lemma {:induction false} MappedBookOfAuthor(authors: seq<Author>, b: Book, authorId: Guid)
    requires b.authorId == authorId && HasAuthor(authors, authorId)
    ensures var a := authors[AS.FindAuthor(authors, authorId).value];
      var d := BookProfile.MapBook(BS.WithAuthor(authors, b));
      && d.id == b.id && d.title == b.title && d.description == b.description
      && d.authorFirstName == Some(a.firstName) && d.authorLastName == Some(a.lastName)
  {
    var k := AS.FindAuthor(authors, authorId).value;
    assert BS.WithAuthor(authors, b).author == Some(authors[k]);
  }

  /**
   * Every DTO GetBooks returns for an existing author is the mapping of a stored book of that
   * author, and carries the names of the author the route names.
   */
  lemma {:induction false} MappedBooksBelong(authors: seq<Author>, books: seq<Book>, authorId: Guid,
                          booksFromRepo: seq<Book>, mapped: seq<Models.Book>)
    requires authorId != EmptyGuid && HasAuthor(authors, authorId)
    requires BS.GetBooks(authors, books, authorId) == Success(booksFromRepo)
    requires mapped == Linq.Select(booksFromRepo, BookProfile.MapBook)
    ensures forall d :: d in mapped ==>
      exists i :: (0 <= i < |books| && books[i].authorId == authorId
                   && d == BookProfile.MapBook(BS.WithAuthor(authors, books[i])))
    ensures var a := authors[AS.FindAuthor(authors, authorId).value];
      forall d :: d in mapped ==> d.authorFirstName == Some(a.firstName) && d.authorLastName == Some(a.lastName)
  {
    var a := authors[AS.FindAuthor(authors, authorId).value];
    forall d | d in mapped
      ensures exists i :: (0 <= i < |books| && books[i].authorId == authorId
                           && d == BookProfile.MapBook(BS.WithAuthor(authors, books[i])))
      ensures d.authorFirstName == Some(a.firstName) && d.authorLastName == Some(a.lastName)
    {
      var j :| 0 <= j < |mapped| && mapped[j] == d;
      var x := booksFromRepo[j];
      assert x in booksFromRepo;
      var i :| 0 <= i < |books| && books[i].authorId == authorId && x == BS.WithAuthor(authors, books[i]);
      MappedBookOfAuthor(authors, books[i], authorId);
    }
  }

  /** Every book of the author is among the DTOs GetBooks returns. */
  lemma {:induction false} MappedBooksComplete(authors: seq<Author>, books: seq<Book>, authorId: Guid,
                            booksFromRepo: seq<Book>, mapped: seq<Models.Book>)
    requires authorId != EmptyGuid
    requires BS.GetBooks(authors, books, authorId) == Success(booksFromRepo)
    requires mapped == Linq.Select(booksFromRepo, BookProfile.MapBook)
    ensures forall i :: 0 <= i < |books| && books[i].authorId == authorId ==>
      BookProfile.MapBook(BS.WithAuthor(authors, books[i])) in mapped
  {
    forall i | 0 <= i < |books| && books[i].authorId == authorId
      ensures BookProfile.MapBook(BS.WithAuthor(authors, books[i])) in mapped
    {
      var x := BS.WithAuthor(authors, books[i]);
      assert x in booksFromRepo;
      var j :| 0 <= j < |booksFromRepo| && booksFromRepo[j] == x;
      assert mapped[j] == BookProfile.MapBook(x);
    }
  }

  class BooksController {
    const booksService: BS.BooksService
    const authorsService: AS.AuthorsService
    const uow: UnitOfWork

    /** Both services and the controller share the request's unit of work. */
    predicate Wired() {
      booksService.uow == uow && authorsService.uow == uow
    }

    constructor (booksService: BS.BooksService, authorsService: AS.AuthorsService, uow: UnitOfWork)
      requires booksService.uow == uow && authorsService.uow == uow
      ensures Wired()
      ensures this.booksService == booksService && this.authorsService == authorsService && this.uow == uow
    {
      this.booksService := booksService;
      this.authorsService := authorsService;
      this.uow := uow;
    }

    /**
     * GET api/authors/{authorId}/books: 404 for a missing author, with the book query never
     * reached; otherwise 200 with that author's books mapped, in store order, each carrying the
     * author's names. An empty id gives 404 unless an author with the empty id exists; then the
     * service throws.
     */
    function GetBooks(authorId: Guid): (r: Result<ActionResult<seq<Models.Book>>, Exception>)
      reads uow
      ensures !HasAuthor(uow.authors, authorId) ==> r == Success(NotFound)
      ensures HasAuthor(uow.authors, authorId) && authorId == EmptyGuid ==> r == Failure(BS.EmptyAuthorId)
      ensures HasAuthor(uow.authors, authorId) && authorId != EmptyGuid ==>
        var a := uow.authors[AS.FindAuthor(uow.authors, authorId).value];
        && r == Success(Ok(Linq.Select(BS.BooksOf(uow.authors, uow.books, authorId), BookProfile.MapBook)))
        && (forall d :: d in r.value.value <==>
              exists i :: (0 <= i < |uow.books| && uow.books[i].authorId == authorId
                           && d == BookProfile.MapBook(BS.WithAuthor(uow.authors, uow.books[i]))))
        && (forall d :: d in r.value.value ==>
              d.authorFirstName == Some(a.firstName) && d.authorLastName == Some(a.lastName))
    {
      if !AS.AuthorExists(uow.authors, authorId) then Success(NotFound)
      else
        match BS.GetBooks(uow.authors, uow.books, authorId)
        case Failure(e) => Failure(e)
        case Success(booksFromRepo) =>
          var mapped := Linq.Select(booksFromRepo, BookProfile.MapBook);
          MappedBooksBelong(uow.authors, uow.books, authorId, booksFromRepo, mapped);
          MappedBooksComplete(uow.authors, uow.books, authorId, booksFromRepo, mapped);
          Success(Ok(mapped))
    }

    /**
     * GET api/authors/{authorId}/books/{bookId}: 404 for a missing author, then 404 for a book
     * missing within that author's scope, otherwise 200 with the first matching book mapped,
     * carrying the author's names.
     */
    function GetBook(authorId: Guid, bookId: Guid): (r: Result<ActionResult<Models.Book>, Exception>)
      reads uow
      ensures !HasAuthor(uow.authors, authorId) ==> r == Success(NotFound)
      ensures HasAuthor(uow.authors, authorId) && authorId == EmptyGuid ==> r == Failure(BS.EmptyAuthorId)
      ensures HasAuthor(uow.authors, authorId) && authorId != EmptyGuid && bookId == EmptyGuid ==>
        r == Failure(BS.EmptyBookId)
      ensures HasAuthor(uow.authors, authorId) && authorId != EmptyGuid && bookId != EmptyGuid ==>
        var a := uow.authors[AS.FindAuthor(uow.authors, authorId).value];
        && r.Success?
        && (r.value.Ok? || r.value.NotFound?)
        && (r.value.NotFound? <==> !BS.HasBookOf(uow.books, authorId, bookId))
        && (r.value.Ok? ==>
              exists i :: (0 <= i < |uow.books| && BS.BookMatches(uow.books[i], authorId, bookId)
                           && (forall j :: 0 <= j < i ==> !BS.BookMatches(uow.books[j], authorId, bookId))
                           && r.value.value == BookProfile.MapBook(BS.WithAuthor(uow.authors, uow.books[i]))))
        && (r.value.Ok? ==>
              r.value.value.authorFirstName == Some(a.firstName) && r.value.value.authorLastName == Some(a.lastName))
    {
      if !AS.AuthorExists(uow.authors, authorId) then Success(NotFound)
      else
        match BS.GetBook(uow.authors, uow.books, authorId, bookId)
        case Failure(e) => Failure(e)
        case Success(None) => Success(NotFound)
        case Success(Some(b)) =>
          ghost var i :| 0 <= i < |uow.books| && BS.BookMatches(uow.books[i], authorId, bookId)
            && (forall j :: 0 <= j < i ==> !BS.BookMatches(uow.books[j], authorId, bookId))
            && b == BS.WithAuthor(uow.authors, uow.books[i]);
          MappedBookOfAuthor(uow.authors, uow.books[i], authorId);
          Success(Ok(BookProfile.MapBook(b)))
    }

    /**
     * POST api/authors/{authorId}/books, as written: 404 with nothing staged or saved for a missing
     * author; otherwise exactly one book is staged (its AuthorId is whatever the body mapping
     * gives: Guid.Empty), the unit of work is saved once, and 201 names the route author id and
     * the new key. The created book's navigation is not loaded, so its names map to null.
     * `generatedId` is the key the store generates on Add.
     */
    method CreateBook(authorId: Guid, bookForCreation: Models.BookForCreation, generatedId: Guid)
      returns (r: Result<ActionResult<Models.Book>, Exception>)
      requires Wired() && uow.Valid()
      requires generatedId != EmptyGuid && !HasBook(uow.books, generatedId)
      modifies uow
      ensures uow.Valid()
      ensures !HasAuthor(old(uow.authors), authorId) ==> r == Success(NotFound) && unchanged(uow)
      ensures HasAuthor(old(uow.authors), authorId) ==>
        var staged := StagedAsWritten(bookForCreation, generatedId);
        && uow.books == old(uow.books) + [staged]
        && uow.authors == old(uow.authors)
        && uow.saveCount == old(uow.saveCount) + 1
        && (Persistable(uow.authors, uow.books) ==>
              r == Success(CreatedAtRoute("GetBook", authorId, generatedId, BookProfile.MapBook(staged)))
              && uow.savedAuthors == uow.authors && uow.savedBooks == uow.books)
        && (!Persistable(uow.authors, uow.books) ==>
              r == Failure(DbUpdate)
              && uow.savedAuthors == old(uow.savedAuthors) && uow.savedBooks == old(uow.savedBooks))
    {
      if !AS.AuthorExists(uow.authors, authorId) {
        return Success(NotFound);
      }
      var bookToAdd := BookProfile.MapBookForCreation(bookForCreation);
      var added := booksService.AddBook(Some(bookToAdd), generatedId);
      if added.Fail? {
        assert false;
      }
      bookToAdd := BS.KeyedOnAdd(bookToAdd, generatedId);
      var saved := uow.SaveChanges();
      if saved.Fail? {
        return Failure(saved.error);
      }
      r := Success(CreatedAtRoute("GetBook", authorId, bookToAdd.id, BookProfile.MapBook(bookToAdd)));
    }

    /**
     * The corrected CreateBook: the route's author id is assigned to the mapped book before it is
     * staged, so for an author the database holds the commit is accepted and 201 follows.
     */
    method CreateBookForAuthor(authorId: Guid, bookForCreation: Models.BookForCreation, generatedId: Guid)
      returns (r: Result<ActionResult<Models.Book>, Exception>)
      requires Wired() && uow.Valid()
      requires generatedId != EmptyGuid && !HasBook(uow.books, generatedId)
      modifies uow
      ensures uow.Valid()
      ensures !HasAuthor(old(uow.authors), authorId) ==> r == Success(NotFound) && unchanged(uow)
      ensures HasAuthor(old(uow.authors), authorId) ==>
        var staged := StagedForAuthor(authorId, bookForCreation, generatedId);
        && uow.books == old(uow.books) + [staged]
        && uow.authors == old(uow.authors)
        && uow.saveCount == old(uow.saveCount) + 1
        && (Persistable(old(uow.authors), old(uow.books)) ==>
              r == Success(CreatedAtRoute("GetBook", authorId, generatedId, BookProfile.MapBook(staged)))
              && uow.savedAuthors == uow.authors && uow.savedBooks == uow.books)
        && (!Persistable(uow.authors, uow.books) ==>
              r == Failure(DbUpdate)
              && uow.savedAuthors == old(uow.savedAuthors) && uow.savedBooks == old(uow.savedBooks))
    {
      if !AS.AuthorExists(uow.authors, authorId) {
        return Success(NotFound);
      }
      var bookToAdd := BookProfile.MapBookForCreation(bookForCreation).(authorId := authorId);
      var added := booksService.AddBook(Some(bookToAdd), generatedId);
      if added.Fail? {
        assert false;
      }
      bookToAdd := BS.KeyedOnAdd(bookToAdd, generatedId);
      if Persistable(old(uow.authors), old(uow.books)) {
        StagedForAuthorPersistable(old(uow.authors), old(uow.books), authorId, bookForCreation, generatedId);
      }
      var saved := uow.SaveChanges();
      if saved.Fail? {
        return Failure(saved.error);
      }
      r := Success(CreatedAtRoute("GetBook", authorId, bookToAdd.id, BookProfile.MapBook(bookToAdd)));
    }
  }
}
