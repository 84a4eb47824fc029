/**
 * AuthorsController (OpenAPISwaggerDoc.Web/Controllers/AuthorsController.cs): the GET handlers
 * are lookups plus mapping; PUT and PATCH overwrite the tracked entity and save once.
 * An escaping exception (the empty-id ArgumentException, a refused commit) is a Failure.
 */
module AuthorsController {
  import opened Wrappers
  import opened Exceptions
  import opened Entities
  import Models
  import opened Mvc
  import opened DataLayer
  import AS = AuthorsService
  import AuthorProfile
  import JsonPatch
  import Linq

  /**
   * What a PATCH document does to a tracked author: the patched entity, the recorded errors
   * (answered 422), the exception an unknown op name throws, or a null name, which the mapping
   * copies onto the entity and the NOT NULL column then refuses at the commit.
   */
  datatype PatchOutcome =
    | Applied(value: Author)
    | Unprocessable(errors: seq<ModelError>)
    | Thrown(error: Exception)
    | NullName

  /** The outcome of `patchDocument.ApplyTo` on the entity's DTO, checked in the handler's order. */
  function Patched(entity: Author, patchDocument: seq<JsonPatch.Operation>): (r: PatchOutcome)
    ensures r.Thrown? <==> JsonPatch.FirstInvalid(patchDocument).Some?
    ensures r.Thrown? ==>
      r.error == JsonPatch.InvalidOperation(patchDocument[JsonPatch.FirstInvalid(patchDocument).value].op)
    ensures var a := JsonPatch.ApplyTo(patchDocument, JsonPatch.FromDto(AuthorProfile.ToAuthorForUpdate(entity)));
      r.Unprocessable? <==> a.Success? && a.value.1 != []
    ensures var a := JsonPatch.ApplyTo(patchDocument, JsonPatch.FromDto(AuthorProfile.ToAuthorForUpdate(entity)));
      a.Success? && a.value.1 != [] ==> r == Unprocessable(a.value.1)
    ensures var a := JsonPatch.ApplyTo(patchDocument, JsonPatch.FromDto(AuthorProfile.ToAuthorForUpdate(entity)));
      r.NullName? <==> a.Success? && a.value.1 == [] && (a.value.0.firstName.None? || a.value.0.lastName.None?)
    ensures r.Unprocessable? ==> 1 <= |r.errors| <= |patchDocument|
    ensures r.Applied? ==> r.value.id == entity.id && r.value.books == entity.books
    ensures r.Applied? ==>
      JsonPatch.ApplyTo(patchDocument, JsonPatch.FromDto(AuthorProfile.ToAuthorForUpdate(entity)))
        == Success((JsonPatch.Target(Some(r.value.firstName), Some(r.value.lastName)), []))
  {
    match JsonPatch.ApplyTo(patchDocument, JsonPatch.FromDto(AuthorProfile.ToAuthorForUpdate(entity)))
    case Failure(e) => Thrown(e)
    case Success((t, errors)) =>
      if errors != [] then Unprocessable(errors)
      else if t.firstName.None? || t.lastName.None? then NullName
      else Applied(AuthorProfile.MapAuthorForUpdate(Models.AuthorForUpdate(t.firstName.value, t.lastName.value), entity))
  }

  /**
   * A document of add, replace and remove operations: 422 with one error per operation whose
   * path names no member; otherwise each name takes the last value written to it, and a null
   * written last is refused.
   */
  lemma {:induction false} PatchedWrites(entity: Author, patchDocument: seq<JsonPatch.Operation>)
    requires JsonPatch.Writes(patchDocument)
    ensures var o := JsonPatch.Overlay(patchDocument, JsonPatch.FromDto(AuthorProfile.ToAuthorForUpdate(entity)));
      Patched(entity, patchDocument) ==
        if JsonPatch.Unresolved(patchDocument) != [] then Unprocessable(JsonPatch.Unresolved(patchDocument))
        else if o.firstName.None? || o.lastName.None? then NullName
        else Applied(entity.(firstName := o.firstName.value, lastName := o.lastName.value))
  {
    JsonPatch.ApplyToOverlays(patchDocument, JsonPatch.FromDto(AuthorProfile.ToAuthorForUpdate(entity)));
  }

  /** PATCH with a document of writes is idempotent: patching the patched entity changes nothing more. */
  lemma {:induction false} PatchIdempotent(entity: Author, patchDocument: seq<JsonPatch.Operation>)
    requires JsonPatch.Writes(patchDocument)
    requires Patched(entity, patchDocument).Applied?
    ensures Patched(Patched(entity, patchDocument).value, patchDocument) == Patched(entity, patchDocument)
  {
    var t := JsonPatch.FromDto(AuthorProfile.ToAuthorForUpdate(entity));
    var once := Patched(entity, patchDocument).value;
    JsonPatch.ApplyToIdempotent(patchDocument, t);
    assert JsonPatch.FromDto(AuthorProfile.ToAuthorForUpdate(once)) == JsonPatch.ApplyTo(patchDocument, t).value.0;
  }

  /** With a copy, PATCH is not idempotent: a copy followed by a replace reads the replaced name the second time. */
  lemma {:induction false} CopyPatchNotIdempotent(entity: Author)
    requires entity.firstName != "x"
    ensures var doc := [JsonPatch.Operation("copy", "/lastName", "/firstName", None),
                        JsonPatch.Operation("replace", "/firstName", "", Some("x"))];
      && Patched(entity, doc) == Applied(entity.(firstName := "x", lastName := entity.firstName))
      && Patched(Patched(entity, doc).value, doc) == Applied(entity.(firstName := "x", lastName := "x"))
  {
    var c := JsonPatch.Operation("copy", "/lastName", "/firstName", None);
    var p := JsonPatch.Operation("replace", "/firstName", "", Some("x"));
    JsonPatch.OperationNames();
    JsonPatch.MemberPaths();
    var doc := [c, p];
    assert doc[1..] == [p];
    assert [p][1..] == [];
  }

  /** Renaming one tracked author keeps the keys, so a store the database accepts stays acceptable
      when the new names fit their columns. */
  lemma {:induction false} RenameKeepsPersistable(authors: seq<Author>, books: seq<Book>, k: nat, renamed: Author)
    requires k < |authors| && renamed.id == authors[k].id
    requires Persistable(authors, books)
    requires FitsName(renamed.firstName) && FitsName(renamed.lastName)
    ensures Persistable(authors[k := renamed], books)
  {
    var after := authors[k := renamed];
    forall i | 0 <= i < |books| ensures HasAuthor(after, books[i].authorId) {
      var j :| 0 <= j < |authors| && authors[j].id == books[i].authorId;
      assert after[j].id == books[i].authorId;
    }
  }

  class AuthorsController {
    const authorsService: AS.AuthorsService
    const uow: UnitOfWork

    /** The service and the controller share the request's unit of work. */
    predicate Wired() {
      authorsService.uow == uow
    }

    constructor (authorsService: AS.AuthorsService, uow: UnitOfWork)
      requires authorsService.uow == uow
      ensures Wired() && this.authorsService == authorsService && this.uow == uow
    {
      this.authorsService := authorsService;
      this.uow := uow;
    }

    /** GET api/authors: 200 with one mapped DTO per stored author, in store order. */
    function GetAuthors(): (r: ActionResult<seq<Models.Author>>)
      reads uow
      ensures r.Ok? && |r.value| == |uow.authors|
      ensures forall i :: 0 <= i < |uow.authors| ==> r.value[i] == AuthorProfile.MapAuthor(uow.authors[i])
    {
      Ok(Linq.Select(AS.GetAuthors(uow.authors), AuthorProfile.MapAuthor))
    }

    /** GET api/authors/{authorId}: 404 when the lookup gives null, else 200 with the mapped author. */
    function GetAuthor(authorId: Guid): (r: Result<ActionResult<Models.Author>, Exception>)
      reads uow
      ensures authorId == EmptyGuid ==> r == Failure(AS.EmptyAuthorId)
      ensures authorId != EmptyGuid && !HasAuthor(uow.authors, authorId) ==> r == Success(NotFound)
      ensures authorId != EmptyGuid && HasAuthor(uow.authors, authorId) ==>
        r == Success(Ok(AuthorProfile.MapAuthor(uow.authors[AS.FindAuthor(uow.authors, authorId).value])))
    {
      match AS.GetAuthor(uow.authors, authorId)
      case Failure(e) => Failure(e)
      case Success(None) => Success(NotFound)
      case Success(Some(a)) => Success(Ok(AuthorProfile.MapAuthor(a)))
    }

    /**
     * PUT api/authors/{authorId}: 404 with nothing mapped or saved when the author is missing;
     * otherwise its names become the body's, the unit of work is saved once, and the updated
     * entity is returned mapped.
     */
    method UpdateAuthor(authorId: Guid, authorForUpdate: Models.AuthorForUpdate)
      returns (r: Result<ActionResult<Models.Author>, Exception>)
      requires Wired() && uow.Valid()
      modifies uow
      ensures uow.Valid()
      ensures authorId == EmptyGuid ==> r == Failure(AS.EmptyAuthorId) && unchanged(uow)
      ensures authorId != EmptyGuid && !HasAuthor(old(uow.authors), authorId) ==>
        r == Success(NotFound) && unchanged(uow)
      ensures authorId != EmptyGuid && HasAuthor(old(uow.authors), authorId) ==>
        var k := AS.FindAuthor(old(uow.authors), authorId).value;
        && uow.authors == old(uow.authors)[k := AuthorProfile.MapAuthorForUpdate(authorForUpdate, old(uow.authors)[k])]
        && uow.books == old(uow.books)
        && uow.saveCount == old(uow.saveCount) + 1
        && (Persistable(uow.authors, uow.books) ==>
              r == Success(Ok(AuthorProfile.MapAuthor(uow.authors[k])))
              && uow.savedAuthors == uow.authors && uow.savedBooks == uow.books)
        && (!Persistable(uow.authors, uow.books) ==>
              r == Failure(DbUpdate)
              && uow.savedAuthors == old(uow.savedAuthors) && uow.savedBooks == old(uow.savedBooks))
      ensures (authorId != EmptyGuid && HasAuthor(old(uow.authors), authorId)
               && Persistable(old(uow.authors), old(uow.books))
               && FitsName(authorForUpdate.firstName) && FitsName(authorForUpdate.lastName)) ==>
        r.Success? && r.value.Ok?
    {
      var authorFromRepo := AS.GetAuthor(uow.authors, authorId);
      if authorFromRepo.Failure? {
        return Failure(authorFromRepo.error);
      }
      if authorFromRepo.value.None? {
        return Success(NotFound);
      }
      var k := AS.FindAuthor(uow.authors, authorId).value;
      if Persistable(uow.authors, uow.books)
        && FitsName(authorForUpdate.firstName) && FitsName(authorForUpdate.lastName) {
        RenameKeepsPersistable(uow.authors, uow.books, k, AuthorProfile.MapAuthorForUpdate(authorForUpdate, uow.authors[k]));
      }
      uow.authors := uow.authors[k := AuthorProfile.MapAuthorForUpdate(authorForUpdate, uow.authors[k])];
      authorsService.UpdateAuthor(uow.authors[k]);
      var saved := uow.SaveChanges();
      if saved.Fail? {
        return Failure(saved.error);
      }
      r := Success(Ok(AuthorProfile.MapAuthor(uow.authors[k])));
    }

    /**
     * PATCH api/authors/{authorId}: 404 when the author is missing; the exception of an unknown
     * op name escapes; 422 with every recorded error, nothing modified and nothing saved, when
     * some operation could not be carried out; otherwise the patched DTO is mapped back onto the
     * entity, the unit of work is saved once, and 200 follows. The patched DTO is not validated
     * again, so over-long names reach the commit, and so does a null name, which it refuses.
     */
    method PartiallyUpdateAuthor(authorId: Guid, patchDocument: seq<JsonPatch.Operation>)
      returns (r: Result<ActionResult<Models.Author>, Exception>)
      requires Wired() && uow.Valid()
      modifies uow
      ensures uow.Valid()
      ensures authorId == EmptyGuid ==> r == Failure(AS.EmptyAuthorId) && unchanged(uow)
      ensures authorId != EmptyGuid && !HasAuthor(old(uow.authors), authorId) ==>
        r == Success(NotFound) && unchanged(uow)
      ensures authorId != EmptyGuid && HasAuthor(old(uow.authors), authorId) ==>
        var k := AS.FindAuthor(old(uow.authors), authorId).value;
        var patched := Patched(old(uow.authors)[k], patchDocument);
        && (patched.Thrown? ==> r == Failure(patched.error) && unchanged(uow))
        && (patched.Unprocessable? ==> r == Success(UnprocessableEntity(patched.errors)) && unchanged(uow))
        && (patched.NullName? ==> r == Failure(DbUpdate) && unchanged(uow))
        && (patched.Applied? ==>
              && uow.authors == old(uow.authors)[k := patched.value]
              && uow.books == old(uow.books)
              && uow.saveCount == old(uow.saveCount) + 1
              && (Persistable(uow.authors, uow.books) ==>
                    r == Success(Ok(AuthorProfile.MapAuthor(patched.value)))
                    && uow.savedAuthors == uow.authors && uow.savedBooks == uow.books)
              && (!Persistable(uow.authors, uow.books) ==>
                    r == Failure(DbUpdate)
                    && uow.savedAuthors == old(uow.savedAuthors) && uow.savedBooks == old(uow.savedBooks)))
    {
      var authorFromRepo := AS.GetAuthor(uow.authors, authorId);
      if authorFromRepo.Failure? {
        return Failure(authorFromRepo.error);
      }
      if authorFromRepo.value.None? {
        return Success(NotFound);
      }
      var k := AS.FindAuthor(uow.authors, authorId).value;
      var author := JsonPatch.FromDto(AuthorProfile.ToAuthorForUpdate(uow.authors[k]));
      var applied := JsonPatch.ApplyTo(patchDocument, author);
      if applied.Failure? {
        return Failure(applied.error);
      }
      author := applied.value.0;
      var modelState := applied.value.1;
      if modelState != [] {
        return Success(UnprocessableEntity(modelState));
      }
      if author.firstName.None? || author.lastName.None? {
        // the null name is mapped onto the entity and SaveChangesAsync refuses the NOT NULL column
        return Failure(DbUpdate);
      }
      var dto := Models.AuthorForUpdate(author.firstName.value, author.lastName.value);
      uow.authors := uow.authors[k := AuthorProfile.MapAuthorForUpdate(dto, uow.authors[k])];
      authorsService.UpdateAuthor(uow.authors[k]);
      var saved := uow.SaveChanges();
      if saved.Fail? {
        return Failure(saved.error);
      }
      r := Success(Ok(AuthorProfile.MapAuthor(uow.authors[k])));
    }
  }
}
