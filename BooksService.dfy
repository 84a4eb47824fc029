/**
 * BooksService (src/OpenAPISwaggerDoc.Services/BooksService.cs): guarded queries over the tracked
 * Books set with the author navigation included, and AddBook, which stages a book.
 */
module BooksService {
  import opened Wrappers
  import opened Exceptions
  import opened Entities
  import Linq
  import opened DataLayer

  /** `Include(b => b.Author)`: the book with its author navigation loaded from the store. */
  function WithAuthor(authors: seq<Author>, b: Book): (r: Book)
    ensures r.(author := b.author) == b
    ensures r.author.Some? <==> HasAuthor(authors, b.authorId)
    ensures r.author.Some? ==> r.author.value.id == b.authorId && r.author.value in authors
    ensures forall k ::
      (0 <= k < |authors| && authors[k].id == b.authorId
       && (forall j :: 0 <= j < k ==> authors[j].id != b.authorId)) ==> r.author == Some(authors[k])
  {
    b.(author := Linq.FirstOrDefault(authors, (a: Author) => a.id == b.authorId))
  }

  /** Every book of `books` with its navigation loaded, in store order. */
  function Included(authors: seq<Author>, books: seq<Book>): (r: seq<Book>)
    ensures |r| == |books| && forall i :: 0 <= i < |books| ==> r[i] == WithAuthor(authors, books[i])
  {
    Linq.Select(books, (b: Book) => WithAuthor(authors, b))
  }

  const EmptyAuthorId: Exception := Argument("authorId is empty", "authorId")
  const EmptyBookId: Exception := Argument("bookId is empty", "bookId")

  /** The filter of GetBooksAsync: `b.AuthorId == authorId`. */
  function OfAuthor(authorId: Guid): Book -> bool {
    (b: Book) => b.authorId == authorId
  }

  /** The books of one author, in store order, each with its navigation loaded. */
  function BooksOf(authors: seq<Author>, books: seq<Book>, authorId: Guid): seq<Book>
    decreases |books|
  {
    if books == [] then []
    else
      var first := if books[0].authorId == authorId then [WithAuthor(authors, books[0])] else [];
      first + BooksOf(authors, books[1..], authorId)
  }

  /** Filtering the included books is including the author's books. */
  lemma {:induction false} IncludedWhere(authors: seq<Author>, books: seq<Book>, authorId: Guid)
    ensures Linq.Where(Included(authors, books), OfAuthor(authorId)) == BooksOf(authors, books, authorId)
    decreases |books|
  {
    if books != [] {
      var s := Included(authors, books);
      assert s[1..] == Included(authors, books[1..]);
      IncludedWhere(authors, books[1..], authorId);
    }
  }

  /** The author's books keep the store's order: books stored later come later. */
  lemma {:induction false} BooksOfAppend(authors: seq<Author>, books: seq<Book>, more: seq<Book>, authorId: Guid)
    ensures BooksOf(authors, books + more, authorId) == BooksOf(authors, books, authorId) + BooksOf(authors, more, authorId)
    decreases |books|
  {
    if books == [] {
      assert books + more == more;
    } else {
      assert (books + more)[0] == books[0];
      assert (books + more)[1..] == books[1..] + more;
      BooksOfAppend(authors, books[1..], more, authorId);
    }
  }

  /**
   * GetBooksAsync: ArgumentException for Guid.Empty; otherwise exactly the books whose AuthorId
   * is `authorId`, in store order, each with its author attached.
   */
  function GetBooks(authors: seq<Author>, books: seq<Book>, authorId: Guid): (r: Result<seq<Book>, Exception>)
    ensures authorId == EmptyGuid <==> r.Failure?
    ensures r.Failure? ==> r.error == EmptyAuthorId
    ensures r.Success? ==> r.value == BooksOf(authors, books, authorId)
    ensures r.Success? ==> forall x :: x in r.value <==>
      exists i :: 0 <= i < |books| && books[i].authorId == authorId && x == WithAuthor(authors, books[i])
    ensures r.Success? && HasAuthor(authors, authorId) ==>
      forall x :: x in r.value ==> x.author.Some? && x.author.value.id == authorId
  {
    if authorId == EmptyGuid then Failure(EmptyAuthorId)
    else
      var r := Linq.Where(Included(authors, books), OfAuthor(authorId));
      assert forall i :: 0 <= i < |books| && books[i].authorId == authorId ==>
        Included(authors, books)[i] == WithAuthor(authors, books[i]);
      IncludedWhere(authors, books, authorId);
      Success(r)
  }

  /** The book a lookup by (authorId, bookId) matches: both keys must agree. */
  predicate BookMatches(b: Book, authorId: Guid, bookId: Guid) {
    b.authorId == authorId && b.id == bookId
  }

  /** Some stored book belongs to `authorId` and has key `bookId`. */
  predicate HasBookOf(books: seq<Book>, authorId: Guid, bookId: Guid) {
    exists i :: 0 <= i < |books| && BookMatches(books[i], authorId, bookId)
  }

  /**
   * GetBookAsync: the empty authorId is checked first, then the empty bookId; otherwise the first
   * book with both that AuthorId and that Id, with its author attached, or null.
   */
  function GetBook(authors: seq<Author>, books: seq<Book>, authorId: Guid, bookId: Guid)
    : (r: Result<Option<Book>, Exception>)
    ensures authorId == EmptyGuid ==> r == Failure(EmptyAuthorId)
    ensures authorId != EmptyGuid && bookId == EmptyGuid ==> r == Failure(EmptyBookId)
    ensures authorId != EmptyGuid && bookId != EmptyGuid ==> r.Success?
    ensures r.Success? ==> (r.value.Some? <==> HasBookOf(books, authorId, bookId))
    ensures r.Success? && r.value.Some? ==>
      && r.value.value.authorId == authorId && r.value.value.id == bookId
      && (exists i :: (0 <= i < |books| && BookMatches(books[i], authorId, bookId)
                       && (forall j :: 0 <= j < i ==> !BookMatches(books[j], authorId, bookId))
                       && r.value.value == WithAuthor(authors, books[i])))
      && (HasAuthor(authors, authorId) ==>
            r.value.value.author.Some? && r.value.value.author.value.id == authorId)
  {
    if authorId == EmptyGuid then Failure(EmptyAuthorId)
    else if bookId == EmptyGuid then Failure(EmptyBookId)
    else
      var k := Linq.FirstIndexWhere(books, (b: Book) => BookMatches(b, authorId, bookId));
      match k
      case None => Success(None)
      case Some(i) => Success(Some(WithAuthor(authors, books[i])))
  }

  /** The key a book has once tracked: EF generates a Guid for an unset key when it is added. */
  function KeyedOnAdd(b: Book, generatedId: Guid): (r: Book)
    ensures b.id != EmptyGuid ==> r == b
    ensures b.id == EmptyGuid ==> r == b.(id := generatedId)
  {
    if b.id == EmptyGuid then b.(id := generatedId) else b
  }

  class BooksService {
    const uow: UnitOfWork

    constructor (uow: UnitOfWork)
      ensures this.uow == uow
    {
      this.uow := uow;
    }

    /** The constructor has no null guard: `_uow.Set<Book>()` dereferences a null unit of work. */
    static method Create(uow: UnitOfWork?) returns (r: Result<BooksService, Exception>)
      ensures uow == null <==> r.Failure?
      ensures r.Failure? ==> r.error == NullReference
      ensures r.Success? ==> fresh(r.value) && r.value.uow == uow
    {
      if uow == null {
        return Failure(NullReference);
      }
      var s := new BooksService(uow);
      return Success(s);
    }

    /**
     * AddBook: ArgumentNullException for null; otherwise `_books.Add`, which stages exactly this
     * book (keyed by `generatedId` when its Id is unset) and touches nothing else. Adding a key
     * that is already tracked is EF's identity-conflict InvalidOperationException.
     */
    method AddBook(bookToAdd: Option<Book>, generatedId: Guid) returns (r: Outcome<Exception>)
      requires uow.Valid()
      requires generatedId != EmptyGuid && !HasBook(uow.books, generatedId)
      modifies uow
      ensures uow.Valid()
      ensures uow.authors == old(uow.authors) && uow.saveCount == old(uow.saveCount)
      ensures uow.savedAuthors == old(uow.savedAuthors) && uow.savedBooks == old(uow.savedBooks)
      ensures bookToAdd.None? ==> r == Fail(ArgumentNull("bookToAdd"))
      ensures bookToAdd.Some? && bookToAdd.value.id != EmptyGuid && HasBook(old(uow.books), bookToAdd.value.id)
        ==> r == Fail(InvalidOperation)
      ensures r.Fail? ==> uow.books == old(uow.books)
      ensures r.Pass? <==> bookToAdd.Some? && !HasBook(old(uow.books), KeyedOnAdd(bookToAdd.value, generatedId).id)
      ensures r.Pass? ==> uow.books == old(uow.books) + [KeyedOnAdd(bookToAdd.value, generatedId)]
    {
      if bookToAdd.None? {
        return Fail(ArgumentNull("bookToAdd"));
      }
      var b := KeyedOnAdd(bookToAdd.value, generatedId);
      if HasBook(uow.books, b.id) {
        return Fail(InvalidOperation);
      }
      uow.books := uow.books + [b];
      r := Pass;
    }
  }
}
