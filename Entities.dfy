/**
 * The persisted entities: Author (src/OpenAPISwaggerDoc.Entities/Author.cs) and Book,
 * related by Book.AuthorId -> Author.Id.
 */
module Entities {
  import opened Wrappers

  /** A 128-bit identifier; Guid.Empty is the all-zero value. */
  type Guid = x: int | 0 <= x < 0x1_0000_0000_0000_0000_0000_0000_0000_0000

  const EmptyGuid: Guid := 0

  /** [MaxLength(150)] on FirstName and LastName. */
  const MaxNameLength: nat := 150

  /**
   * String.Length: the UTF-16 code units of the text, one for a character of the Basic
   * Multilingual Plane and two (a surrogate pair) for a character above U+FFFF.
   */
  function Utf16Length(s: string): (n: nat)
    ensures |s| <= n <= 2 * |s|
  {
    if s == [] then 0 else (if s[0] as int > 0xFFFF then 2 else 1) + Utf16Length(s[1..])
  }

  /** A text of Basic Multilingual Plane characters has one code unit per character. */
  lemma {:induction false} Utf16LengthBmp(s: string)
    requires forall i :: 0 <= i < |s| ==> s[i] as int <= 0xFFFF
    ensures Utf16Length(s) == |s|
  {
    if s != [] {
      assert forall i :: 0 <= i < |s[1..]| ==> s[1..][i] == s[i + 1];
      Utf16LengthBmp(s[1..]);
    }
  }

  /** A text of characters above U+FFFF has two code units per character. */
  lemma {:induction false} Utf16LengthAstral(s: string)
    requires forall i :: 0 <= i < |s| ==> s[i] as int > 0xFFFF
    ensures Utf16Length(s) == 2 * |s|
  {
    if s != [] {
      assert forall i :: 0 <= i < |s[1..]| ==> s[1..][i] == s[i + 1];
      Utf16LengthAstral(s[1..]);
    }
  }

  /** A name its nvarchar(150) column holds: [MaxLength(150)] counts UTF-16 code units. */
  predicate FitsName(s: string) {
    Utf16Length(s) <= MaxNameLength
  }

  /** 76 characters above U+FFFF are 152 code units: too long, although only 76 characters. */
  lemma AstralNameTooLong(s: string)
    requires |s| == 76 && forall i :: 0 <= i < |s| ==> s[i] as int > 0xFFFF
    ensures |s| <= MaxNameLength && !FitsName(s)
  {
    Utf16LengthAstral(s);
  }

  /** Author: Id is the key; Books is the navigation collection. */
  datatype Author = Author(id: Guid, firstName: string, lastName: string, books: seq<Book>)

  /** Book: AuthorId is the foreign key; author is the navigation, None unless loaded. */
  datatype Book = Book(
    id: Guid,
    authorId: Guid,
    title: string,
    description: string,
    amountOfPages: Option<int>,
    author: Option<Author>)

  /** The characters .NET's char.IsWhiteSpace accepts: the Unicode White_Space set. */
  predicate IsWhiteSpace(c: char) {
    c == ' ' || c == '\t' || c == '\n' || c == '\r' || c == '\U{B}' || c == '\U{C}'
    || c == '\U{85}' || c == '\U{A0}' || c == '\U{1680}' || '\U{2000}' <= c <= '\U{200A}'
    || c == '\U{2028}' || c == '\U{2029}' || c == '\U{202F}' || c == '\U{205F}' || c == '\U{3000}'
  }

  /** A new Author: `Books = new List<Book>()` is the only initialiser. */
  function NewAuthor(id: Guid, firstName: string, lastName: string): (a: Author)
    ensures a.books == []
    ensures a.id == id && a.firstName == firstName && a.lastName == lastName
  {
    Author(id, firstName, lastName, [])
  }

  /** [Key] Id: no two stored authors share an id. */
  predicate UniqueAuthorIds(s: seq<Author>) {
    forall i, j :: 0 <= i < j < |s| ==> s[i].id != s[j].id
  }

  /** The key of Book: no two stored books share an id. */
  predicate UniqueBookIds(s: seq<Book>) {
    forall i, j :: 0 <= i < j < |s| ==> s[i].id != s[j].id
  }

  /** Some author in `authors` has key `id`. */
  predicate HasAuthor(authors: seq<Author>, id: Guid) {
    exists i :: 0 <= i < |authors| && authors[i].id == id
  }

  /** Some book in `books` has key `id`. */
  predicate HasBook(books: seq<Book>, id: Guid) {
    exists i :: 0 <= i < |books| && books[i].id == id
  }
}
