/**
 * AuthorsService (src/OpenAPISwaggerDoc.Services/AuthorsService.cs): read-only queries over the
 * tracked Authors set, and the no-op UpdateAuthor.
 */
module AuthorsService {
  import opened Wrappers
  import opened Exceptions
  import opened Entities
  import Linq
  import opened DataLayer

  /** The position of the first author with key `authorId` (the tracked entity a lookup returns). */
  function FindAuthor(authors: seq<Author>, authorId: Guid): (r: Option<nat>)
    ensures r.Some? ==> r.value < |authors| && authors[r.value].id == authorId
    ensures r.Some? ==> forall j :: 0 <= j < r.value ==> authors[j].id != authorId
    ensures r.None? <==> !HasAuthor(authors, authorId)
    ensures UniqueAuthorIds(authors) ==>
      forall j :: 0 <= j < |authors| && authors[j].id == authorId ==> r == Some(j)
  {
    Linq.FirstIndexWhere(authors, (a: Author) => a.id == authorId)
  }

  /** AuthorExistsAsync: `AnyAsync(a => a.Id == authorId)`; there is no guard on an empty id. */
  function AuthorExists(authors: seq<Author>, authorId: Guid): (b: bool)
    ensures b <==> HasAuthor(authors, authorId)
  {
    Linq.Any(authors, (a: Author) => a.id == authorId)
  }

  /** GetAuthorsAsync: `ToListAsync()`, every tracked author, unfiltered and in store order. */
  function GetAuthors(authors: seq<Author>): (r: seq<Author>)
    ensures |r| == |authors| && forall i :: 0 <= i < |r| ==> r[i] == authors[i]
  {
    authors
  }

  /** The ArgumentException GetAuthorAsync throws for Guid.Empty. */
  const EmptyAuthorId: Exception := Argument("authorId is empty", "authorId")

  /** GetAuthorAsync: ArgumentException for Guid.Empty, else the first author with that id, or null. */
  function GetAuthor(authors: seq<Author>, authorId: Guid): (r: Result<Option<Author>, Exception>)
    ensures authorId == EmptyGuid <==> r.Failure?
    ensures r.Failure? ==> r.error == EmptyAuthorId
    ensures r.Success? ==> (r.value.Some? <==> HasAuthor(authors, authorId))
    ensures r.Success? && r.value.Some? ==>
      r.value.value.id == authorId && r.value.value == authors[FindAuthor(authors, authorId).value]
  {
    if authorId == EmptyGuid then Failure(EmptyAuthorId)
    else
      match FindAuthor(authors, authorId)
      case None => Success(None)
      case Some(k) => Success(Some(authors[k]))
  }

  class AuthorsService {
    const uow: UnitOfWork

    constructor (uow: UnitOfWork)
      ensures this.uow == uow
    {
      this.uow := uow;
    }

    /** The constructor's guard: a null unit of work is an ArgumentNullException. */
    static method Create(uow: UnitOfWork?) returns (r: Result<AuthorsService, Exception>)
      ensures uow == null <==> r.Failure?
      ensures r.Failure? ==> r.error == ArgumentNull("uow")
      ensures r.Success? ==> fresh(r.value) && r.value.uow == uow
    {
      if uow == null {
        return Failure(ArgumentNull("uow"));
      }
      var s := new AuthorsService(uow);
      return Success(s);
    }

    /** UpdateAuthor has an empty body: the store is not touched. */
    method UpdateAuthor(author: Author)
      ensures unchanged(uow)
    {
    }
  }
}
