/** The Book mapping rules (OpenAPISwaggerDoc.Profiles/BookProfile.cs). */
module BookProfile {
  import opened Wrappers
  import Entities
  import Models
  import Linq

  /** `$"{first} {last}"`: the two names joined by one space. */
  function ConcatenatedName(first: string, last: string): (r: string)
    ensures |r| == |first| + 1 + |last|
    ensures r[..|first|] == first && r[|first|] == ' ' && r[|first| + 1..] == last
  {
    first + " " + last
  }

  /** Splits a full name at its first space: the reading a client would apply. */
  function SplitAtFirstSpace(s: string): (r: (string, string))
  {
    match Linq.FirstIndexWhere(s, (c: char) => c == ' ')
    case None => (s, "")
    case Some(k) => (s[..k], s[k + 1..])
  }

  /** A first name without spaces can be read back from the concatenated name. */
  lemma {:induction false} ConcatenatedNameSplits(first: string, last: string)
    requires forall i :: 0 <= i < |first| ==> first[i] != ' '
    ensures SplitAtFirstSpace(ConcatenatedName(first, last)) == (first, last)
  {
    var s := ConcatenatedName(first, last);
    var k := Linq.FirstIndexWhere(s, (c: char) => c == ' ');
    assert s[|first|] == ' ';
    assert k.Some?;
    assert k.value == |first|;
  }

  /**
   * Book -> BookWithConcatenatedAuthorName. The member reads src.Author; AutoMapper's
   * null-safe MapFrom gives null when that navigation is not loaded.
   */
  function MapBookWithConcatenatedAuthorName(b: Entities.Book): (d: Models.BookWithConcatenatedAuthorName)
    ensures d.id == b.id && d.title == b.title && d.description == b.description
    ensures b.author.Some? ==>
      d.author == Some(ConcatenatedName(b.author.value.firstName, b.author.value.lastName))
    ensures b.author.None? ==> d.author.None?
  {
    Models.BookWithConcatenatedAuthorName(
      b.id, b.title, b.description,
      match b.author
      case Some(a) => Some(a.firstName + " " + a.lastName)
      case None => None)
  }

  /** The concatenated author name starts with the first name and has both lengths plus one. */
  lemma {:induction false} ConcatenatedAuthorNameShape(b: Entities.Book)
    requires b.author.Some?
    ensures var n := MapBookWithConcatenatedAuthorName(b).author.value;
      var a := b.author.value;
      |n| == |a.firstName| + 1 + |a.lastName| && n[..|a.firstName|] == a.firstName
  {
  }

  /** Book -> Book DTO: the author's names are read through the author navigation. */
  function MapBook(b: Entities.Book): (d: Models.Book)
    ensures d.id == b.id && d.title == b.title && d.description == b.description
    ensures b.author.Some? ==>
      d.authorFirstName == Some(b.author.value.firstName)
      && d.authorLastName == Some(b.author.value.lastName)
    ensures b.author.None? ==> d.authorFirstName.None? && d.authorLastName.None?
  {
    Models.Book(
      b.id, b.title, b.description,
      match b.author
      case Some(a) => Some(a.firstName)
      case None => None,
      match b.author
      case Some(a) => Some(a.lastName)
      case None => None)
  }

  /**
   * BookForCreation -> Book: a same-name copy. The body has no Id, AuthorId, page count or
   * Author, so those keep their defaults (Guid.Empty, Guid.Empty, null, null).
   */
  function MapBookForCreation(c: Models.BookForCreation): (b: Entities.Book)
    ensures b.title == c.title && b.description == c.description
    ensures b.id == Entities.EmptyGuid && b.authorId == Entities.EmptyGuid
    ensures b.amountOfPages.None? && b.author.None?
  {
    Entities.Book(Entities.EmptyGuid, Entities.EmptyGuid, c.title, c.description, None, None)
  }

  /** BookForCreationWithAmountOfPages -> Book: the same copy, plus the page count. */
  function MapBookForCreationWithAmountOfPages(c: Models.BookForCreationWithAmountOfPages): (b: Entities.Book)
    ensures b.title == c.title && b.description == c.description
    ensures b.amountOfPages == Some(c.amountOfPages)
    ensures b.id == Entities.EmptyGuid && b.authorId == Entities.EmptyGuid && b.author.None?
  {
    Entities.Book(Entities.EmptyGuid, Entities.EmptyGuid, c.title, c.description, Some(c.amountOfPages), None)
  }
}
