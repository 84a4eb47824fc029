# OpenAPISwaggerDoc, modelled in Dafny

This is a Dafny model of the core of OpenAPISwaggerDoc, an ASP.NET Core demo API for authors and their books. The model covers:

- the Author and Book entities and the unit of work, whose `SaveChangesAsync` is the only commit point;
- `AuthorsService` and `BooksService`;
- the AutoMapper profiles that map entities to DTOs and back;
- the handlers of `AuthorsController` and `BooksController`, including the JSON Patch interpreter (RFC 6902) that PATCH relies on;
- the Basic authentication handler (RFC 7617), with its base64 (RFC 4648) and `Authorization` header (RFC 7235) parsing;
- the Swagger document filter that hides the API from anonymous users (its registration is commented out in SwaggerExtensions.cs:51 and OpenAPISwaggerDoc.Web/Program.cs:122, so the filter never runs as shipped; it is modelled as written);
- the MVC option conventions and the invalid-model-state factory (422/400);
- the `RequestHeaderMatchesMediaType` action constraint, with the media-type grammar of section 3.1.1.1 of RFC 7231.

The model's form follows the source:

- Queries, mappings and decision chains are functions.
- State that the source changes in place is held by a class: the tracked sets, the handler's fail reason, the HTTP response, the OpenAPI document, the MVC options and the media-type list. The methods on those classes change it.
- The two loops in the source, in the action constraint, are `while` loops with invariants.

An exception that escapes a handler is a `Failure`/`Fail` value carrying an `Exceptions.Exception`. A handler result is an `Mvc.ActionResult`.

One module per source component:

- `Wrappers.dfy`: `Option`, `Result`, `Outcome` and the .NET exceptions.
- `Linq.dfy`: `Any`, `Where`, `FirstOrDefault`, `Select`.
- `Entities.dfy`: the entities.
- `DataLayer.dfy`: the unit of work.
- `Models.dfy`: the DTOs.
- `Mvc.dfy`: the action results.
- `AuthorsService.dfy`, `BooksService.dfy`: the services.
- `AuthorProfile.dfy`, `BookProfile.dfy`: the mapping profiles.
- `JsonPatch.dfy`, `AuthorsController.dfy`, `BooksController.dfy`: the JSON Patch interpreter and the controllers.
- `Base64.dfy`, `HttpText.dfy`, `BasicAuthentication.dfy`: the authentication handler and its parsing.
- `DocumentFilter.dfy`: the Swagger document filter.
- `SwaggerConventions.dfy`: the MVC option conventions and the 422/400 factory.
- `MediaTypes.dfy`, `RequestHeaderMatchesMediaType.dfy`: the media-type grammar and the action constraint.

The model follows what the code does on these points:

- `AuthorExistsAsync` has no empty-id guard. With an empty id it answers false, unless an author has that id; it does not raise an argument error.
- The service guards' `ArgumentException` is not turned into a 400. It escapes the handler, and the model returns it as a `Failure`.
- PATCH does not validate the patched DTO again. A name longer than 150 characters reaches the commit, and the commit refuses it.
- A name's length is its UTF-16 code units, as `String.Length`, `[MaxLength(150)]` and the nvarchar(150) column count it. A character above U+FFFF is a surrogate pair and counts twice, so 76 such characters already do not fit.
- The 201 answer of `CreateBook` maps a book whose author navigation is not loaded. The model takes its author names to be null. This assumes AutoMapper's null handling inside a `MapFrom` expression (BookProfile.cs:13, 17, 19): the mapping expression is guarded, so a null `src.Author` gives a null member. If it were not guarded, the map would throw AutoMapperMappingException after the commit. The AutoMapper version is not part of this model.

## Model

| member | source | states |
|---|---|---|
| Entities.Utf16Length | src/OpenAPISwaggerDoc.Entities/Author.cs:8-10 | a name's `String.Length` is between its character count and twice that |
| Entities.Utf16LengthBmp | src/OpenAPISwaggerDoc.Entities/Author.cs:8-10 | a text of Basic Multilingual Plane characters has one code unit per character |
| Entities.Utf16LengthAstral | src/OpenAPISwaggerDoc.Entities/Author.cs:8-10 | a text of characters above U+FFFF has two code units per character |
| Entities.AstralNameTooLong | src/OpenAPISwaggerDoc.Entities/Author.cs:8-10 | 76 characters above U+FFFF exceed `[MaxLength(150)]`, although there are at most 150 characters |
| Entities.NewAuthor | src/OpenAPISwaggerDoc.Entities/Author.cs:12 | a new author has an empty Books collection and keeps the given key and names |
| DataLayer.UnitOfWork.SaveChanges | src/OpenAPISwaggerDoc.Entities/Author.cs:6-10 | the commit succeeds iff every name fits 150 UTF-16 code units and every book's AuthorId names an author; on success the saved rows become the tracked ones, on failure (DbUpdate) they stay as they were; the tracked sets and unique keys are kept |
| AuthorsService.FindAuthor | src/OpenAPISwaggerDoc.Services/AuthorsService.cs:32-33 | the position of the first author with the id, absent iff no author has it, and the only such position when keys are unique |
| AuthorsService.AuthorExists | src/OpenAPISwaggerDoc.Services/AuthorsService.cs:18-21 | true iff some author has the id; an empty id is not rejected |
| AuthorsService.GetAuthors | src/OpenAPISwaggerDoc.Services/AuthorsService.cs:23 | every stored author, unfiltered and in store order |
| AuthorsService.GetAuthor | src/OpenAPISwaggerDoc.Services/AuthorsService.cs:25-34 | ArgumentException exactly for Guid.Empty; otherwise an author iff one has the id, and then the first one, with that id |
| AuthorsService.AuthorsService.Create | src/OpenAPISwaggerDoc.Services/AuthorsService.cs:12-16 | a null unit of work is ArgumentNullException("uow"), any other gives a service over it |
| AuthorsService.AuthorsService.UpdateAuthor | src/OpenAPISwaggerDoc.Services/AuthorsService.cs:36-39 | the unit of work is left unchanged |
| BooksService.WithAuthor | src/OpenAPISwaggerDoc.Services/BooksService.cs:26 | Include changes only the navigation; it is loaded iff an author has the book's AuthorId, and is then the first stored author with that id |
| BooksService.IncludedWhere | src/OpenAPISwaggerDoc.Services/BooksService.cs:25-28 | filtering the included books by AuthorId gives BooksOf, the author's books in store order with their navigation |
| BooksService.BooksOfAppend | src/OpenAPISwaggerDoc.Services/BooksService.cs:25-28 | the author's books keep store order: BooksOf of a concatenation is the concatenation of BooksOf |
| BooksService.GetBooks | src/OpenAPISwaggerDoc.Services/BooksService.cs:18-29 | ArgumentException exactly for Guid.Empty; otherwise exactly BooksOf, the books of that author in store order with their navigation loaded; a book is in it iff it is a stored book of that author; for an existing author every result carries that author |
| BooksService.GetBook | src/OpenAPISwaggerDoc.Services/BooksService.cs:31-47 | the empty authorId is reported before the empty bookId; otherwise a book iff one has both keys, and then the first stored book with both keys, with its author attached |
| BooksService.BooksService.Create | src/OpenAPISwaggerDoc.Services/BooksService.cs:12-16 | there is no null guard: a null unit of work is a NullReferenceException |
| BooksService.BooksService.AddBook | src/OpenAPISwaggerDoc.Services/BooksService.cs:49-57 | null is ArgumentNullException("bookToAdd") and stages nothing; otherwise exactly that book is appended, keyed on add, and nothing else changes; a key already tracked is refused |
| AuthorProfile.MapAuthor | src/OpenAPISwaggerDoc.Profiles/AuthorProfile.cs:11 | each DTO field equals the entity field of the same name |
| AuthorProfile.MapAuthorForUpdate | src/OpenAPISwaggerDoc.Profiles/AuthorProfile.cs:13 | mapping onto an entity overwrites both names and keeps the key and books |
| AuthorProfile.ToAuthorForUpdate | src/OpenAPISwaggerDoc.Profiles/AuthorProfile.cs:11-13 | the PATCH projection copies both names (this direction has no rule in the profile) |
| AuthorProfile.UpdateRoundTrip | src/OpenAPISwaggerDoc.Profiles/AuthorProfile.cs:13 | projecting an entity and mapping the projection back gives the entity |
| AuthorProfile.ProjectAfterUpdate | src/OpenAPISwaggerDoc.Profiles/AuthorProfile.cs:13 | projecting after mapping a DTO onto an entity gives the DTO |
| AuthorProfile.UpdateOverwrites | src/OpenAPISwaggerDoc.Profiles/AuthorProfile.cs:13 | of two DTOs mapped in turn, only the last one counts |
| BookProfile.ConcatenatedName | OpenAPISwaggerDoc.Profiles/BookProfile.cs:12-13 | the first name, one space, then the last name: length and both pieces |
| BookProfile.ConcatenatedNameSplits | OpenAPISwaggerDoc.Profiles/BookProfile.cs:13 | a first name without spaces is read back, with the last name, at the first space |
| BookProfile.MapBookWithConcatenatedAuthorName | OpenAPISwaggerDoc.Profiles/BookProfile.cs:11-13 | the same-name fields are copied; the author member is the concatenated name when the navigation is loaded, and null otherwise |
| BookProfile.ConcatenatedAuthorNameShape | OpenAPISwaggerDoc.Profiles/BookProfile.cs:13 | the concatenated author name starts with the first name and is one longer than both names together |
| BookProfile.MapBook | OpenAPISwaggerDoc.Profiles/BookProfile.cs:15-19 | AuthorFirstName and AuthorLastName are the loaded author's names, or null when the navigation is not loaded |
| BookProfile.MapBookForCreation | OpenAPISwaggerDoc.Profiles/BookProfile.cs:21 | title and description are copied, and Id, AuthorId, page count and navigation keep their defaults |
| BookProfile.MapBookForCreationWithAmountOfPages | OpenAPISwaggerDoc.Profiles/BookProfile.cs:23 | the same copy, with the page count carried over |
| JsonPatch.ApplyOperation | OpenAPISwaggerDoc.Web/Controllers/AuthorsController.cs:119 | an op name outside add, remove, replace, move, copy and test (ignoring case) throws JsonPatchException with that name; any other operation records at most one error, keyed "AuthorForUpdate", and an operation that records one changes nothing, except a move whose source exists, which has already removed it; an add, replace or remove records none iff its path names a member; a test changes nothing and records none iff the member holds the test value |
| JsonPatch.ApplyTo | OpenAPISwaggerDoc.Web/Controllers/AuthorsController.cs:119 | every operation runs in turn: the exception is thrown iff some op name is unknown, and it is the first such operation's; otherwise the errors of all operations are kept, at most one per operation, all keyed "AuthorForUpdate" |
| JsonPatch.ApplyToOverlays | OpenAPISwaggerDoc.Web/Controllers/AuthorsController.cs:119 | a document of add, replace and remove sets each member to the last value written to it (null for remove) and records one error per operation whose path names no member, in document order |
| JsonPatch.ApplyToAppend | OpenAPISwaggerDoc.Web/Controllers/AuthorsController.cs:119 | applying a concatenated document is applying its halves in turn, with the errors of the first half followed by those of the second |
| JsonPatch.ApplyToIdempotent | OpenAPISwaggerDoc.Web/Controllers/AuthorsController.cs:119 | a document of add, replace and remove applied twice leaves the object as applying it once does and records its errors twice; applied again to its own result it gives the same result |
| JsonPatch.ReplaceTwice | OpenAPISwaggerDoc.Web/Controllers/AuthorsController.cs:93-101 | a single add, replace or remove applied twice leaves the object as applying it once does, its error (if any) recorded twice |
| JsonPatch.MoveTwiceDiffers | OpenAPISwaggerDoc.Web/Controllers/AuthorsController.cs:119 | a move is not idempotent: moving /firstName to /lastName twice leaves both names null |
| AuthorsController.Patched | OpenAPISwaggerDoc.Web/Controllers/AuthorsController.cs:118-131 | the exception of the first unknown op name escapes; otherwise the outcome is a 422 exactly when errors were recorded, carrying exactly those errors (between one and as many as operations); otherwise a null name reaches the commit exactly when the document left a name null; otherwise the patched entity keeps its key and books and holds the names the document produced |
| AuthorsController.PatchedWrites | OpenAPISwaggerDoc.Web/Controllers/AuthorsController.cs:118-131 | for a document of add, replace and remove: 422 with exactly one error per operation whose path names no member; otherwise each name is the last value written to it, and a null name is refused |
| AuthorsController.PatchIdempotent | OpenAPISwaggerDoc.Web/Controllers/AuthorsController.cs:118-131 | patching the patched entity again with the same document of add, replace and remove changes nothing more |
| AuthorsController.CopyPatchNotIdempotent | OpenAPISwaggerDoc.Web/Controllers/AuthorsController.cs:118-131 | with a copy, a second PATCH with the same document gives a different author: copying /firstName to /lastName and then replacing /firstName reads the replaced name the second time |
| AuthorsController.RenameKeepsPersistable | OpenAPISwaggerDoc.Web/Controllers/AuthorsController.cs:76-80 | renaming a tracked author to names of at most 150 UTF-16 code units keeps the store committable |
| AuthorsController.AuthorsController.GetAuthors | OpenAPISwaggerDoc.Web/Controllers/AuthorsController.cs:35-39 | 200 with one mapped DTO per stored author, in order |
| AuthorsController.AuthorsController.GetAuthor | OpenAPISwaggerDoc.Web/Controllers/AuthorsController.cs:47-56 | the empty-id exception escapes; 404 for a missing author; otherwise 200 with that author mapped |
| AuthorsController.AuthorsController.UpdateAuthor | OpenAPISwaggerDoc.Web/Controllers/AuthorsController.cs:68-84 | 404 with nothing changed for a missing author; otherwise only that author's names become the body's, the unit of work is saved once, and 200 (or the refused commit) follows; for a committable store and names within 150 UTF-16 code units it is 200 |
| AuthorsController.AuthorsController.PartiallyUpdateAuthor | OpenAPISwaggerDoc.Web/Controllers/AuthorsController.cs:108-139 | 404 for a missing author; an unknown op name's exception escapes; 422 with every recorded error and nothing changed or saved; a null name is the refused commit; otherwise the patched entity replaces the author, one save, and 200 (or the refused commit) |
| BooksController.StagedAsWritten | OpenAPISwaggerDoc.Web/Controllers/BooksController.cs:96-97 | the book CreateBook stages has AuthorId Guid.Empty and the generated key |
| BooksController.StagedForAuthor | OpenAPISwaggerDoc.Web/Controllers/BooksController.cs:96-97 | the corrected staged book carries the route's author id, the generated key and the body's fields |
| BooksController.AsWrittenCommitRefused | OpenAPISwaggerDoc.Web/Controllers/BooksController.cs:96-98 | unless an author with the empty id exists, the store with the staged book cannot be committed |
| BooksController.AsWrittenNotInAuthorScope | OpenAPISwaggerDoc.Web/Controllers/BooksController.cs:96-103 | the staged book is not found under the route's author |
| BooksController.StagedForAuthorPersistable | OpenAPISwaggerDoc.Web/Controllers/BooksController.cs:96-98 | the corrected staged book keeps a committable store committable |
| BooksController.StagedForAuthorFound | OpenAPISwaggerDoc.Web/Controllers/BooksController.cs:96-103 | the corrected book is found under its author with the navigation loaded, so its DTO carries the author's name |
| BooksController.MappedBookOfAuthor | OpenAPISwaggerDoc.Web/Controllers/BooksController.cs:47-48 | a book of the author maps to a DTO with its own id, title and description and the names of the first stored author with that id |
| BooksController.MappedBooksBelong | OpenAPISwaggerDoc.Web/Controllers/BooksController.cs:47-48 | every DTO returned for an existing author is the mapping of a stored book of that author and carries that author's names |
| BooksController.MappedBooksComplete | OpenAPISwaggerDoc.Web/Controllers/BooksController.cs:47-48 | every stored book of the author is among the returned DTOs |
| BooksController.BooksController.GetBooks | OpenAPISwaggerDoc.Web/Controllers/BooksController.cs:40-49 | 404 for a missing author, with the query never reached; otherwise 200 with the mapping of that author's books in store order (BooksOf), a DTO being in it iff it maps a book of the author, each carrying the author's names |
| BooksController.BooksController.GetBook | OpenAPISwaggerDoc.Web/Controllers/BooksController.cs:62-76 | 404 for a missing author, then 404 iff no book of that author has the key, otherwise 200 with the mapping of the first stored book with both keys, carrying the author's names |
| BooksController.BooksController.CreateBook | OpenAPISwaggerDoc.Web/Controllers/BooksController.cs:89-104 | as written: 404 with nothing staged for a missing author; otherwise one book with AuthorId Guid.Empty is staged, one save, and 201 only if the store accepts it |
| BooksController.BooksController.CreateBookForAuthor | OpenAPISwaggerDoc.Web/Controllers/BooksController.cs:89-104 | corrected: the staged book carries the route author, so with a committable store the save succeeds and 201 names the author and the new key |
| Base64.CharToSextet | src/OpenAPISwaggerDoc.Web/Authentication/BasicAuthenticationHandler.cs:37 | exactly the 64 characters of the RFC 4648 alphabet (A-Z, a-z, 0-9, "+", "/") have a value |
| Base64.SextetRoundTrip | src/OpenAPISwaggerDoc.Web/Authentication/BasicAuthenticationHandler.cs:37 | every 6-bit value is encoded by a character that decodes to it |
| Base64.GroupRoundTrip | src/OpenAPISwaggerDoc.Web/Authentication/BasicAuthenticationHandler.cs:37 | four characters encoding three bytes decode to those bytes |
| Base64.Encode | src/OpenAPISwaggerDoc.Web/Authentication/BasicAuthenticationHandler.cs:37 | the encoding is padded to whole groups of four and has no white space |
| Base64.DecodeEncode | src/OpenAPISwaggerDoc.Web/Authentication/BasicAuthenticationHandler.cs:37 | FromBase64String gives back every byte string ToBase64String encodes |
| HttpText.Split | src/OpenAPISwaggerDoc.Web/Authentication/BasicAuthenticationHandler.cs:38 | the parts of a split contain no separator, and there is at least one |
| HttpText.JoinSplit | src/OpenAPISwaggerDoc.Web/Authentication/BasicAuthenticationHandler.cs:38 | joining the parts with the separator gives the text back |
| HttpText.SplitJoin | src/OpenAPISwaggerDoc.Web/Authentication/BasicAuthenticationHandler.cs:38 | splitting a join of separator-free parts gives the parts back |
| HttpText.SplitAtSeparator | src/OpenAPISwaggerDoc.Web/Authentication/BasicAuthenticationHandler.cs:38 | text before the first separator is the first part, and the rest is split on its own |
| HttpText.ParseAuthenticationHeader | src/OpenAPISwaggerDoc.Web/Authentication/BasicAuthenticationHandler.cs:36 | the scheme is a token and a parameter has no surrounding white space; any other value is a FormatException naming it |
| HttpText.ParseSchemeAndParameter | src/OpenAPISwaggerDoc.Web/Authentication/BasicAuthenticationHandler.cs:36 | "scheme parameter" parses back into the scheme and the parameter |
| HttpText.DecodeAsciiBytes | src/OpenAPISwaggerDoc.Web/Authentication/BasicAuthenticationHandler.cs:38 | UTF-8 decoding of ASCII bytes gives the ASCII text back |
| BasicAuthentication.Authenticate | src/OpenAPISwaggerDoc.Web/Authentication/BasicAuthenticationHandler.cs:26-60 | a missing header fails with "Missing Authorization header"; success iff the decoded text's first two ':' parts are "DNT" and "123", with the ticket naming DNT and the scheme; decoding errors and a text without ':' fail with "Invalid Authorization header: " and the message; any other decoded text with ':' fails with "Invalid username or password" |
| BasicAuthentication.AcceptedTexts | src/OpenAPISwaggerDoc.Web/Authentication/BasicAuthenticationHandler.cs:38-43 | the split check accepts exactly "DNT:123" and the texts starting "DNT:123:" |
| BasicAuthentication.FailReasonsNonBlank | src/OpenAPISwaggerDoc.Web/Authentication/BasicAuthenticationHandler.cs:26-66 | every fail reason is non-blank, so the challenge always echoes it |
| BasicAuthentication.AuthenticateEncodedCredentials | src/OpenAPISwaggerDoc.Web/Authentication/BasicAuthenticationHandler.cs:36-43 | under any scheme token (it is never compared to "Basic") the base64 of a text authenticates iff the text is accepted |
| BasicAuthentication.EncodedCredentialText | src/OpenAPISwaggerDoc.Web/Authentication/BasicAuthenticationHandler.cs:36-38 | a header "scheme base64(t)" decodes to t |
| BasicAuthentication.BasicAuthenticationHandler.HandleAuthenticate | src/OpenAPISwaggerDoc.Web/Authentication/BasicAuthenticationHandler.cs:26-60 | the result is Authenticate's; a failure stores its reason, a success leaves the field as it was |
| BasicAuthentication.BasicAuthenticationHandler.HandleChallenge | src/OpenAPISwaggerDoc.Web/Authentication/BasicAuthenticationHandler.cs:62-76 | the status is 401; a blank reason leaves the response alone; otherwise WWW-Authenticate is set to the reason, the content type is application/json and the body is problem details with that reason and status 401; an existing WWW-Authenticate header makes Add throw ArgumentException and changes nothing else |
| BasicAuthentication.Rfc7617Credentials | src/OpenAPISwaggerDoc.Web/Authentication/BasicAuthenticationHandler.cs:38-40 | the user-id ends at the first colon and the password is all after it; absent iff there is no colon |
| BasicAuthentication.Rfc7617RoundTrip | src/OpenAPISwaggerDoc.Web/Authentication/BasicAuthenticationHandler.cs:38-40 | a colon-free user-id and any password, joined by a colon, divide back into the two |
| BasicAuthentication.AuthenticateRfc7617 | src/OpenAPISwaggerDoc.Web/Authentication/BasicAuthenticationHandler.cs:38-49 | with the password compared whole, success iff the decoded text is exactly "DNT:123" |
| BasicAuthentication.ColonInPasswordAccepted | src/OpenAPISwaggerDoc.Web/Authentication/BasicAuthenticationHandler.cs:38-43 | "DNT:123:" followed by any ASCII text is accepted as written, has password "123:..." under RFC 7617, and is refused by the whole-password check |
| DocumentFilter.Hidden | OpenAPISwaggerDoc.Web/Authentication/AuthenticationDocumentFilter.cs:25-26 | the hidden document has no paths and no schemas, and every other part is as it was |
| DocumentFilter.HiddenIdempotent | OpenAPISwaggerDoc.Web/Authentication/AuthenticationDocumentFilter.cs:25-26 | hiding twice is hiding once |
| DocumentFilter.HiddenListsNothing | OpenAPISwaggerDoc.Web/Authentication/AuthenticationDocumentFilter.cs:25-26 | no path and no schema is listed after hiding |
| DocumentFilter.AuthenticationDocumentFilter.Apply | OpenAPISwaggerDoc.Web/Authentication/AuthenticationDocumentFilter.cs:16-28 | a null document throws ArgumentNullException; the document is unchanged unless the context's identity is present and not authenticated; then paths and schemas are emptied, and null components throw after the paths were emptied |
| SwaggerConventions.RemoveFirst | src/OpenAPISwaggerDoc.Web/AppConventions/SwaggerExtensions.cs:40-43 | removing a type takes out one occurrence when present and nothing otherwise |
| SwaggerConventions.RemoveFirstSplices | src/OpenAPISwaggerDoc.Web/AppConventions/SwaggerExtensions.cs:42 | the other types keep their order: the result is the list without its first occurrence |
| SwaggerConventions.RemoveFirstOnlyCopy | src/OpenAPISwaggerDoc.Web/AppConventions/SwaggerExtensions.cs:42 | a type listed once is gone afterwards |
| SwaggerConventions.RemoveTextJson | src/OpenAPISwaggerDoc.Web/AppConventions/SwaggerExtensions.cs:33-43 | the first Newtonsoft JSON formatter loses its first "text/json" entry and every other formatter keeps its media types; with no such formatter nothing changes |
| SwaggerConventions.FirstJsonFormatter | src/OpenAPISwaggerDoc.Web/AppConventions/SwaggerExtensions.cs:33-34 | the first Newtonsoft JSON formatter, absent iff there is none |
| SwaggerConventions.AddSwaggerMvcOptions | src/OpenAPISwaggerDoc.Web/AppConventions/SwaggerExtensions.cs:12-45 | null throws ArgumentNullException; otherwise the five filters (400, 406, 500, default, 401) are appended in order, one new XML formatter is appended, ReturnHttpNotAcceptable is set, "text/json" is removed from the first JSON formatter only, and no other formatter changes |
| SwaggerConventions.InvalidModelStateResponse | src/OpenAPISwaggerDoc.Web/AppConventions/SwaggerExtensions.cs:135-153 | 422 iff there are errors and the bound-argument count equals the declared parameter count, else 400, with the model state carried |
| SwaggerConventions.BadRequestCases | src/OpenAPISwaggerDoc.Web/AppConventions/SwaggerExtensions.cs:137-152 | no errors, no executing context, or a count mismatch gives 400 |
| MediaTypes.ParseParameters | src/OpenAPISwaggerDoc.Web/Attributes/RequestHeaderMatchesMediaTypeAttribute.cs:27 | the parameters read are token pairs |
| MediaTypes.ParseMediaType | src/OpenAPISwaggerDoc.Web/Attributes/RequestHeaderMatchesMediaTypeAttribute.cs:27 | a parsed media type is well formed: token type, token subtype, token parameters; null does not parse |
| MediaTypes.ParseRenderedParameters | src/OpenAPISwaggerDoc.Web/Attributes/RequestHeaderMatchesMediaTypeAttribute.cs:27 | rendered token parameters parse back into themselves |
| MediaTypes.ParseRender | src/OpenAPISwaggerDoc.Web/Attributes/RequestHeaderMatchesMediaTypeAttribute.cs:27 | the canonical text of a well-formed media type parses back into it |
| RequestHeaderMatchesMediaType.ParseAll | src/OpenAPISwaggerDoc.Web/Attributes/RequestHeaderMatchesMediaTypeAttribute.cs:41-51 | a result iff every element parses, and then one value per element, in order |
| RequestHeaderMatchesMediaType.Configured | src/OpenAPISwaggerDoc.Web/Attributes/RequestHeaderMatchesMediaTypeAttribute.cs:12-52 | for the parser given: null header name, null primary type, unparsable primary type, then unparsable other type, each with its exception; otherwise the primary type's parse followed by the others' in argument order, only the primary when the array is null |
| RequestHeaderMatchesMediaType.ConfiguredAreEssences | src/OpenAPISwaggerDoc.Web/Attributes/RequestHeaderMatchesMediaTypeAttribute.cs:27-45 | every stored type is the "type/subtype" of a well-formed media type |
| RequestHeaderMatchesMediaType.ConfiguredCanonical | src/OpenAPISwaggerDoc.Web/Attributes/RequestHeaderMatchesMediaTypeAttribute.cs:27-39 | a canonical media-type text alone stores exactly its "type/subtype" |
| RequestHeaderMatchesMediaType.RequestHeaderMatchesMediaTypeAttribute.Create | src/OpenAPISwaggerDoc.Web/Attributes/RequestHeaderMatchesMediaTypeAttribute.cs:12-52 | the constructor throws what Configured gives, or yields a fresh constraint whose list is Configured's |
| RequestHeaderMatchesMediaType.RequestHeaderMatchesMediaTypeAttribute.AddOtherMediaTypes | src/OpenAPISwaggerDoc.Web/Attributes/RequestHeaderMatchesMediaTypeAttribute.cs:41-51 | the loop succeeds iff every other type parses, and then appends their values in order |
| RequestHeaderMatchesMediaType.RequestHeaderMatchesMediaTypeAttribute.Accept | src/OpenAPISwaggerDoc.Web/Attributes/RequestHeaderMatchesMediaTypeAttribute.cs:60-86 | a null context throws ArgumentNullException("context"); otherwise true iff the header is present and its value is one of the stored types |
| RequestHeaderMatchesMediaType.HeaderWithParametersMatchesNothing | src/OpenAPISwaggerDoc.Web/Attributes/RequestHeaderMatchesMediaTypeAttribute.cs:73-85 | a header value with a ';' (parameters) matches no stored type, since stored types are bare "type/subtype" |

The class `RequestHeaderMatchesMediaTypeAttribute` also has these constants:

- `order`, which is always 0;
- the public properties `RequestHeaderToMatch`, `MediaType` and `OtherMediaTypes`, which are never assigned and are modelled as constant nulls (src/OpenAPISwaggerDoc.Web/Attributes/RequestHeaderMatchesMediaTypeAttribute.cs:54-58).

## Left out

- **Startup wiring.** Both `Program.cs` files are left out: dependency injection, logging, middleware order, HSTS and Swagger UI. The text/json removal and the 422/400 factory they repeat are modelled once, from SwaggerExtensions.cs.
- **Library configuration.** `AddCustomSwaggerGen`, `UseCustomSwaggerUI` and `AddJsonPatchSupport` configure libraries and scan a directory for XML files.
- **Persistence setup.** `ServicesExtensions.cs` and `MyAppDbContextFactory.cs` are not part of this model: connection strings, SQL Server, retries, migrations. The store is in memory, with one all-or-nothing commit.
- **Appendix endpoints.** `FilesController.cs` and `ConventionTestsController.cs` are demo endpoints (delays, file binding, constants).
- **Runtime concerns.** Async tasks are modelled as sequential calls. Concurrent requests, JSON/XML serialization, formatter selection and 406 negotiation are left out.
- **Routing.** `CreatedAtRoute` link generation is routing; the result only records the route name and the two ids. No action declares a route named "GetBook": `GetBook` has `[HttpGet("{bookId}")]` with no `Name` (BooksController.cs:57). So link generation for the 201 of `CreateBook` fails with InvalidOperationException when the result executes, after `SaveChangesAsync` has committed, and the client never receives the 201. The model's `CreatedAtRoute` result stands for that answer as the handler builds it.
- **Entity keys.** The key the store generates on Add is the parameter `generatedId`; Guid generation is left out.
- **Aliasing.** Tracked entities are values in sequences. Aliasing between an entity reference a handler holds and the tracked set is not modelled.
- **Book and the DTOs.** `Book.cs` and the DTOs under Models/ are not part of this model. The model assumes: a Book has Id, AuthorId, Title, Description, an optional AmountOfPages and the Author navigation; the Book DTO has Id, Title, Description, AuthorFirstName and AuthorLastName; `BookForCreation` has only Title and Description, and no AuthorId.
- **Claims and tickets.** Claim, identity and principal construction is reduced to a ticket with the NameIdentifier value, the identity's authentication type and the scheme.
- **Problem-details body.** Writing the body through `IActionResultExecutor` is modelled as setting the response's body field.
- **UTF-8 decoding.** Only ASCII is decoded; any byte of 0x80 or more becomes U+FFFD. The accepted credentials are ASCII, so no accept/reject decision depends on this.
- **Exception messages.** The texts follow the .NET messages, but are not guaranteed to match them character for character.
- **Header names.** Request headers are a map with exact-case keys. ASP.NET Core compares header names without regard to case.
- **Multiple header values.** Joining several values of one header (`StringValues`) is not modelled.
- **Header grammar.** `AuthenticationHeaderValue.Parse` and `MediaTypeHeaderValue.TryParse` are modelled on the token grammar of RFC 7230 and RFC 7231. Parameters are token=token; quoted strings and comma-separated lists are left out. .NET also accepts inputs the model refuses: white space around "/" and "=", and a parameter with a name only ("a/b; x").
- RequestHeaderMatchesMediaType.Configured: the parser is a parameter, and the constructor passes `ParsedEssence`, the model of `MediaTypeHeaderValue.TryParse`. The loop over the other types (`AddOtherMediaTypes`) takes the parser in the same way.
- RequestHeaderMatchesMediaType.MediaTypeEquals: the framework's `MediaType` struct has no `Equals` of its own, so two values are equal when all their fields are. This is modelled as ordinal equality of the two texts they were built from.
- **Empty header value.** A header that is present but holds no value would make `new MediaType(null)` throw; this is not modelled.
- **Patch paths and values.** A path names a member only when it is "/" followed by the member's name, ignoring ASCII case. The library compares a segment with `StringComparison.OrdinalIgnoreCase`, which also folds some letters beyond ASCII: "/fırstName" (with U+0131) or "/firſtName" (with U+017F) names FirstName there but no member in the model. The library also accepts paths without the leading "/", with doubled or trailing "/", and with "~0"/"~1" escapes. For paths of several segments, the segment its error message names is not modelled. Patch values are strings or null: a number, object or array value, and the conversion error it may give, are left out. A null `path` or `from` (an ArgumentNullException) is left out.
- ToAuthorForUpdate: assumes an `Author -> AuthorForUpdate` map exists and is a same-name copy. Neither profile in the assembly that `AddAutoMapper` scans (src/OpenAPISwaggerDoc.Profiles/ProfilesExtensions.cs:9, OpenAPISwaggerDoc.Web/Program.cs:118) declares it. AutoMapper 9 and later create no maps on the fly, so there `_mapper.Map<AuthorForUpdate>(authorFromRepo)` (AuthorsController.cs:118) throws AutoMapperMappingException before the patch is applied. The AutoMapper version is not part of this model.
- **Op names.** Op names are matched ignoring ASCII case only. `Enum.TryParse` also accepts numeric names ("0" is add), and names padded with white space, and it folds case beyond ASCII; these are not modelled.
- **Model-state limit.** `ModelStateDictionary` stops recording errors after 200 (MaxModelValidationErrors) and then adds one TooManyModelErrors entry; the model records every error.
- PartiallyUpdateAuthor: a document that leaves a name null answers with the refused commit (DbUpdate), as the NOT NULL column makes `SaveChangesAsync` do. The model does not stage the null name and does not count that save: the tracked entity holding null is not representable, since entity names are strings.
- ApplyToIdempotent: holds for documents of add, replace and remove only. Move, copy and test read the object, so a document holding them need not be idempotent: MoveTwiceDiffers and CopyPatchNotIdempotent give the inputs.
- PatchIdempotent: holds for documents of add, replace and remove only, for the same reason; CopyPatchNotIdempotent gives a copy document for which it fails.
- **Base64 padding bits.** The unused low bits of the last group are not checked.

## Findings

| source | as written | input that shows it | evidently intended | confidence | as-written member | corrected member |
|---|---|---|---|---|---|---|
| OpenAPISwaggerDoc.Web/Controllers/BooksController.cs:96-98 | the mapped book is staged without assigning the route's authorId, so its AuthorId stays Guid.Empty | POST api/authors/{id of an existing author}/books with a title and description, in a store with no author whose id is Guid.Empty: the Books -> Authors foreign key refuses the commit, and the new book is not under that author | the new book belongs to the route's author and is found under it by GET api/authors/{authorId}/books/{bookId} (the 201 itself also fails, since no route is named "GetBook": see Routing) | medium, not executed (Book.cs and BookForCreation are not part of this model) | BooksController.BooksController.CreateBook, with BooksController.AsWrittenCommitRefused and BooksController.AsWrittenNotInAuthorScope | BooksController.BooksController.CreateBookForAuthor, with BooksController.StagedForAuthorPersistable and BooksController.StagedForAuthorFound |
| src/OpenAPISwaggerDoc.Web/Authentication/BasicAuthenticationHandler.cs:38-43 | the decoded text is split on every ':' and only parts 0 and 1 are compared | "Authorization: Basic " + base64("DNT:123:x") authenticates, though under section 2 of RFC 7617 its password is "123:x" | only user-id "DNT" with password "123" is accepted, the password being everything after the first colon | medium, not executed | BasicAuthentication.Authenticate, with BasicAuthentication.ColonInPasswordAccepted | BasicAuthentication.AuthenticateRfc7617, with BasicAuthentication.Rfc7617RoundTrip |
