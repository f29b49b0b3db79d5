# Book/author catalog and User record — a Dafny model

This project models two small pieces of a GraphQL book/author catalog
service.

- **The in-memory catalog resolvers** (`index.js`). The store holds two
  sequences, `books` and `authors`. The `Query` resolvers count them,
  return them, and filter `allBooks` by an optional `author` argument. The
  `Author` field resolvers return the root record's `name`, `id` and `born`,
  plus a derived `bookCount`: the number of books whose `author` string
  equals the author's `name`. The `author` argument is checked for
  JavaScript truthiness. An absent, `null` or empty-string argument
  therefore returns the whole list. The model writes the argument as
  `Option<string>` (`Catalog.Truthy`).
- **The User record** (`models/userModel.js`). The schema declares that
  `username` is required and has a JavaScript `.length` (UTF-16 code
  units) of at least 6, that `passwordHash`
  is required, and that `favoriteGenre` defaults to `null`. The `toJSON`
  transform rewrites the document's field map in place. It sets `id` to
  the text of `_id` and deletes `_id`, `__v` and `passwordHash`. The model
  has a class `ReturnedObject` whose `fields` map the `Transform` method
  rewrites step by step. `Serialize` is the function that specifies it.

Modules: `Wrappers` (`Option`), `Catalog` (`index.js`), `UserModel`
(`models/userModel.js`).

This snapshot of the code differs from later versions of the code in two
places, and the model follows this snapshot. Here `Author.bookCount` matches books
by the author's **name**, not by an author id. `allBooks` filters by
**author**, not by genre.

## Model

| member | source | states |
|---|---|---|
| `Catalog.BookCount` | index.js:31 | `bookCount` is the number of books in the store, which is also the length of the unfiltered `allBooks` list |
| `Catalog.AllAuthors` | index.js:41 | `allAuthors` returns the store's authors unchanged |
| `Catalog.AuthorCount` | index.js:32 | `authorCount` is the number of authors, which is also the length of `allAuthors` |
| `Catalog.AllBooks` | index.js:33-39 | with an absent, null or empty argument the result is the store unchanged; with a non-empty `a` every returned book has author `a`, every book in the store by `a` is returned, nothing else is, and the result is no longer than the store |
| `Catalog.FilterByAuthor` | index.js:36 | `books.filter(book => book.author === name)`: every returned book has author `name`, and the result is no longer than the store |
| `Catalog.FilterMembership` | index.js:36 | a book is in the filter's result exactly when it is in the store and its author is `name` |
| `Catalog.AllBooksIsOrderedSelection` | index.js:35-36 | for a non-empty argument, the k-th returned book is the store's book at the k-th position whose author matches; these positions ascend and are all the matching positions, so the result is the ordered subsequence of matching books |
| `Catalog.FilterKeepsAll` | index.js:36 | the filter returns as many books as the store holds exactly when every book's author is the name |
| `Catalog.AuthorBookCount` | index.js:47 | `Author.bookCount` is at most the number of books, and it is 0 exactly when no book's author equals the root's name |
| `Catalog.AuthorBookCountIsOccurrences` | index.js:47 | `Author.bookCount` equals the number of times the author's name occurs among the books' `author` fields, counted as a multiset |
| `Catalog.AuthorBookCountMatchesAllBooks` | index.js:35-47 | for a non-empty name, `Author.bookCount` is the length of `allBooks(author: name)` |
| `Catalog.EmptyNameCountsDiffer` | index.js:35-47 | for the name "", `Author.bookCount` and the length of `allBooks(author: "")` agree exactly when every book's author is "", because `allBooks` treats "" as no filter |
| `Catalog.AuthorBookCountAppend` | index.js:47 | the count is taken from the store when it is resolved: one more book adds exactly one to its own author's count and nothing to anyone else's |
| `Catalog.ResolveAuthor` | index.js:43-47 | the `name`, `id` and `born` resolvers return the root's fields unchanged, so the stored record is recovered from the view; the derived `bookCount` is the multiplicity of the name among the books' authors and is at most the number of books |
| `Catalog.AuthorsQuery` | index.js:41-47 | `allAuthors` with all its fields resolved has `authorCount` entries; entry i is author i of the store, unchanged, with its derived book count |
| `UserModel.Serialize` | models/userModel.js:20-27 | after the transform there is no `passwordHash`, `_id` or `__v` key; `id` holds the text of the old `_id`; the keys are the old keys minus those three plus `id`; every other key keeps its value |
| `UserModel.ReturnedObject.Transform` | models/userModel.js:21-26 | the in-place transform succeeds exactly when `_id` is present and not null, and then leaves the field map equal to `Serialize` of the old one; otherwise it throws before writing anything, so the map is unchanged |
| `UserModel.SerializeNotReapplicable` | models/userModel.js:22-23 | a transformed object has no `_id`, so transforming it a second time would throw |
| `UserModel.SerializeKeepsIdsDistinct` | models/userModel.js:22 | two documents with different object ids serialise to different `id` strings |
| `UserModel.NewUser` | models/userModel.js:3-18 | a new User keeps the supplied `username` and `passwordHash`; `favoriteGenre` is `null` when it is not supplied and is the supplied value otherwise; the version key starts at 0 |
| `UserModel.Validate` | models/userModel.js:3-13 | a record validates exactly when `username` is present with a JavaScript `.length` (UTF-16 code units) of at least 6 and `passwordHash` is present ("" counts as missing); the only possible errors are `username`/`required`, `username`/`minlength` and `passwordHash`/`required`, and no path is reported twice; a missing username reports `required`, a short one reports `minlength` |
| `UserModel.Utf16Length` | models/userModel.js:8 | the length `minlength` compares is the count of UTF-16 code units: between the number of characters and twice that, and equal to it exactly when no character lies above U+FFFF |
| `UserModel.MinLengthCountsCodeUnits` | models/userModel.js:8 | a username of three characters above U+FFFF has length 6 and passes `minlength`, while the five-character "abcde" fails it |
| `UserModel.ValidityIgnoresGenre` | models/userModel.js:14-17 | the `favoriteGenre` field, whether supplied or defaulted, never changes the outcome of validation |
| `UserModel.SerializedUserIsPublicView` | models/userModel.js:20-27 | the serialised form of a User that passed validation holds exactly `id`, `username` and `favoriteGenre`; a client reading it back gets the User's id text, username and favorite genre |
| `UserModel.SerializeIgnoresPasswordHash` | models/userModel.js:25 | two Users that differ only in their password hash serialise to the same object, so no information about the hash leaves through serialisation |

## Left out

- ApolloServer construction, `server.listen()` and its console output (index.js:51-58): transport and I/O.
- Parsing of the GraphQL schema string by `gql` (index.js:5-27). The record shapes `Catalog.Book` and `Catalog.Author` follow it. GraphQL's own type checking and the nullability of `[String]` belong to the library. `genres` is kept as a sequence of optional strings and is never inspected.
- The contents of `./temporalDatabase`. It is not part of this model, so `books` and `authors` are arbitrary sequences passed to every resolver.
- The `unique: true` constraint on `username` (models/userModel.js:7). A database index across the collection enforces it, and no code shown here does.
- Mongoose model registration, its validation machinery, and the moment `toJSON` is called (models/userModel.js:1, 29): library calls. `Validate` states the outcome of the declared validators only. It assumes that mongoose reports the `required` failure of a path rather than also its `minlength` failure. It does not model mongoose's casting of non-string values to String.
- The concrete format of `ObjectId.toString()`. An `ObjectId` carries its text form, which makes the id-to-text map injective. Values of other JavaScript types (booleans, objects, `undefined` as a stored value) are not modelled.
- `UserModel.ToJsString` prints a numeric value as plain decimal text of an unbounded integer. This matches JavaScript only for integers of magnitude below 10^21 that a double holds exactly. JavaScript prints larger numbers in exponential form, and integers beyond 2^53 are not exact. Larger numeric ids and non-integer numbers are not modelled.
- Password hashing, token signing, login, `addBook`, `editAuthor`, user registration and the document database. None of this is in the modelled files.
