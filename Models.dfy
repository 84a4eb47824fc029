/** The request and response shapes (DTOs); none of them is persisted. */
module Models {
  import opened Wrappers
  import opened Entities

  /** The Author response. */
  datatype Author = Author(id: Guid, firstName: string, lastName: string)

  /** The PUT body and the target of a JSON patch. */
  datatype AuthorForUpdate = AuthorForUpdate(firstName: string, lastName: string)

  /** The Book response; a name is None (null) when the author navigation was not loaded. */
  datatype Book = Book(
    id: Guid,
    title: string,
    description: string,
    authorFirstName: Option<string>,
    authorLastName: Option<string>)

  /** The alternative Book response carrying the author's full name in one field. */
  datatype BookWithConcatenatedAuthorName = BookWithConcatenatedAuthorName(
    id: Guid,
    title: string,
    description: string,
    author: Option<string>)

  /** The POST body. */
  datatype BookForCreation = BookForCreation(title: string, description: string)

  /** The POST body that also carries a page count. */
  datatype BookForCreationWithAmountOfPages =
    BookForCreationWithAmountOfPages(title: string, description: string, amountOfPages: int)
}
