/** The Author mapping rules (src/OpenAPISwaggerDoc.Profiles/AuthorProfile.cs). */
module AuthorProfile {
  import Entities
  import Models

  /** Author entity -> Author DTO: a direct map, each field from the field of the same name. */
  function MapAuthor(a: Entities.Author): (d: Models.Author)
    ensures d.id == a.id && d.firstName == a.firstName && d.lastName == a.lastName
  {
    Models.Author(a.id, a.firstName, a.lastName)
  }

  /**
   * AuthorForUpdate -> Author applied onto an existing entity (`Map(dto, entity)`): the two
   * name fields are overwritten; the key and the books collection keep their values.
   */
  function MapAuthorForUpdate(src: Models.AuthorForUpdate, dest: Entities.Author): (r: Entities.Author)
    ensures r.firstName == src.firstName && r.lastName == src.lastName
    ensures r.id == dest.id && r.books == dest.books
  {
    dest.(firstName := src.firstName, lastName := src.lastName)
  }

  /**
   * Entity -> AuthorForUpdate, the projection PATCH starts from. No rule in the profile
   * declares this direction; it is the same-name copy AutoMapper is asked for.
   */
  function ToAuthorForUpdate(a: Entities.Author): (d: Models.AuthorForUpdate)
    ensures d.firstName == a.firstName && d.lastName == a.lastName
  {
    Models.AuthorForUpdate(a.firstName, a.lastName)
  }

  /** Projecting an entity and mapping the projection straight back changes nothing. */
  lemma {:induction false} UpdateRoundTrip(a: Entities.Author)
    ensures MapAuthorForUpdate(ToAuthorForUpdate(a), a) == a
  {
  }

  /** Mapping a DTO onto an entity and projecting the result gives the DTO back. */
  lemma {:induction false} ProjectAfterUpdate(src: Models.AuthorForUpdate, dest: Entities.Author)
    ensures ToAuthorForUpdate(MapAuthorForUpdate(src, dest)) == src
  {
  }

  /** The last DTO mapped onto an entity wins: an earlier one leaves no trace. */
  lemma {:induction false} UpdateOverwrites(first: Models.AuthorForUpdate, second: Models.AuthorForUpdate, dest: Entities.Author)
    ensures MapAuthorForUpdate(second, MapAuthorForUpdate(first, dest)) == MapAuthorForUpdate(second, dest)
  {
  }
}
