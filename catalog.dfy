/**
 * The in-memory book/author catalog of `index.js`: the `Query` resolvers
 * and the `Author` field resolvers. The store (`books`, `authors`) comes
 * from a module that is not part of this model, so every resolver takes
 * the two sequences as parameters; none of them changes them.
 */
module Catalog {
  import opened Wrappers

  /** A book as the store holds it (GraphQL type `Book`). */
  datatype Book = Book(
    title: string,
    published: int,
    author: string,
    genres: seq<Option<string>>,
    id: string)

  /** An author as the store holds it; `bookCount` is derived, not stored. */
  datatype Author = Author(name: string, id: string, born: Option<int>)

  /** An author as the API returns it: the stored fields plus the derived `bookCount`. */
  datatype AuthorView = AuthorView(name: string, id: string, born: Option<int>, bookCount: nat)
  {
    /** The stored record this view was resolved from. */
    function Stored(): Author {
      Author(name, id, born)
    }
  }

  /** JavaScript truthiness of the optional `author` argument: absent, null and "" are falsy. */
  predicate Truthy(arg: Option<string>) {
    arg.Some? && arg.value != ""
  }

  /** `books.filter(book => book.author === name)`. */
  function FilterByAuthor(books: seq<Book>, name: string): (r: seq<Book>)
    ensures |r| <= |books|
    ensures forall k :: 0 <= k < |r| ==> r[k].author == name
  {
    if books == [] then []
    else if books[0].author == name then [books[0]] + FilterByAuthor(books[1..], name)
    else FilterByAuthor(books[1..], name)
  }

  /** The author field of every book, in store order. */
  function AuthorNames(books: seq<Book>): seq<string> {
    seq(|books|, i requires 0 <= i < |books| => books[i].author)
  }

  /** Positions `i .. |books|-1` of the books written by `name`, ascending. */
  function MatchingFrom(books: seq<Book>, name: string, i: nat): seq<nat>
    requires i <= |books|
    decreases |books| - i
  {
    if i == |books| then []
    else if books[i].author == name then [i] + MatchingFrom(books, name, i + 1)
    else MatchingFrom(books, name, i + 1)
  }

  /** Positions of all books written by `name`, ascending. */
  function MatchingIndices(books: seq<Book>, name: string): seq<nat> {
    MatchingFrom(books, name, 0)
  }

  /** `ix` is strictly ascending and every entry lies in `lo .. hi-1`. */
  ghost predicate AscendingWithin(ix: seq<nat>, lo: nat, hi: nat) {
    && (forall k :: 0 <= k < |ix| ==> lo <= ix[k] < hi)
    && (forall k, l :: 0 <= k < l < |ix| ==> ix[k] < ix[l])
  }

  // ---------------------------------------------------------------------
  // Query resolvers
  // ---------------------------------------------------------------------

  /** `Query.allBooks(root, args)`: filter by author only when the argument is truthy. */
  function AllBooks(books: seq<Book>, author: Option<string>): (r: seq<Book>)
    ensures !Truthy(author) ==> r == books
    ensures |r| <= |books|
    ensures forall b :: b in r ==> b in books
    ensures Truthy(author) ==> forall b :: b in r ==> b.author == author.value
    ensures Truthy(author) ==> forall b :: b in books && b.author == author.value ==> b in r
  {
    if Truthy(author) then
      FilterMembership(books, author.value);
      FilterByAuthor(books, author.value)
    else books
  }

  /** `Query.allAuthors`: the store's authors, unchanged. */
  function AllAuthors(authors: seq<Author>): (r: seq<Author>)
    ensures r == authors
  {
    authors
  }

  /** `Query.bookCount`: the number of books, which is the length of the unfiltered `allBooks`. */
  function BookCount(books: seq<Book>): (n: nat)
    ensures n == |books|
    ensures n == |AllBooks(books, None)|
  {
    |books|
  }

  /** `Query.authorCount`: the number of authors, which is the length of `allAuthors`. */
  function AuthorCount(authors: seq<Author>): (n: nat)
    ensures n == |authors|
    ensures n == |AllAuthors(authors)|
  {
    |authors|
  }

  // ---------------------------------------------------------------------
  // Author field resolvers
  // ---------------------------------------------------------------------

  /** `Author.bookCount(root)`: how many books name `root.name` as their author. */
  function AuthorBookCount(books: seq<Book>, root: Author): (n: nat)
    ensures n <= |books|
    ensures n == 0 <==> forall b :: b in books ==> b.author != root.name
  {
    var r := FilterByAuthor(books, root.name);
    FilterMembership(books, root.name);
    assert r != [] ==> r[0] in r;
    |r|
  }

  /**
   * The `Author` object a client sees: `name`, `id` and `born` come from
   * the root record unchanged, `bookCount` is the number of occurrences of
   * the name among the books' author fields.
   */
  function ResolveAuthor(books: seq<Book>, root: Author): (v: AuthorView)
    ensures v.Stored() == root
    ensures v.bookCount == multiset(AuthorNames(books))[root.name]
    ensures v.bookCount <= |books|
  {
    AuthorBookCountIsOccurrences(books, root);
    AuthorView(root.name, root.id, root.born, AuthorBookCount(books, root))
  }

  /** `allAuthors { name id born bookCount }`: every stored author, resolved. */
  function AuthorsQuery(books: seq<Book>, authors: seq<Author>): (views: seq<AuthorView>)
    ensures |views| == AuthorCount(authors)
    ensures forall i :: 0 <= i < |views| ==>
      views[i].Stored() == authors[i] &&
      views[i].bookCount == multiset(AuthorNames(books))[authors[i].name]
  {
    var all := AllAuthors(authors);
    seq(|all|, i requires 0 <= i < |all| => ResolveAuthor(books, all[i]))
  }

  // ---------------------------------------------------------------------
  // Lemmas
  // ---------------------------------------------------------------------

  /** The matching positions from `i` on are strictly ascending and lie in `i .. |books|-1`. */
  lemma {:induction false} MatchingFromIsSorted(books: seq<Book>, name: string, i: nat)
    requires i <= |books|
    ensures AscendingWithin(MatchingFrom(books, name, i), i, |books|)
    decreases |books| - i
  {
    if i < |books| {
      MatchingFromIsSorted(books, name, i + 1);
      var tail := MatchingFrom(books, name, i + 1);
      if books[i].author == name {
        var ix := [i] + tail;
        assert forall k :: 1 <= k < |ix| ==> ix[k] == tail[k - 1];
      }
    }
  }

  /** Position `j >= i` is among the matching positions from `i` exactly when book `j` matches. */
  lemma {:induction false} MatchingFromIsComplete(books: seq<Book>, name: string, i: nat, j: nat)
    requires i <= j < |books|
    ensures books[j].author == name <==> j in MatchingFrom(books, name, i)
    decreases |books| - i
  {
    var tail := MatchingFrom(books, name, i + 1);
    MatchingFromIsSorted(books, name, i + 1);
    assert i !in tail;
    if i < j {
      MatchingFromIsComplete(books, name, i + 1, j);
      assert j in MatchingFrom(books, name, i) <==> j in tail;
    }
  }

  /** The filter of the suffix from `i` is the books at the matching positions from `i`, in order. */
  lemma {:induction false} FilterFromMatches(books: seq<Book>, name: string, i: nat)
    requires i <= |books|
    ensures var r := FilterByAuthor(books[i..], name);
            var ix := MatchingFrom(books, name, i);
            |ix| == |r| && forall k :: 0 <= k < |ix| ==> ix[k] < |books| && r[k] == books[ix[k]]
    decreases |books| - i
  {
    if i < |books| {
      FilterFromMatches(books, name, i + 1);
      var suffix := books[i..];
      assert suffix[0] == books[i] && suffix[1..] == books[i + 1..];
      var r := FilterByAuthor(books[i + 1..], name);
      var ix := MatchingFrom(books, name, i + 1);
      if books[i].author == name {
        assert FilterByAuthor(suffix, name) == [books[i]] + r;
        assert MatchingFrom(books, name, i) == [i] + ix;
      } else {
        assert FilterByAuthor(suffix, name) == r;
        assert MatchingFrom(books, name, i) == ix;
      }
    }
  }

  /**
   * `allBooks(author: a)` with a truthy `a` returns exactly the books whose
   * author is `a`, in their original relative order: the k-th result is the
   * book at the k-th matching position of the store.
   */
  lemma AllBooksIsOrderedSelection(books: seq<Book>, author: Option<string>)
    requires Truthy(author)
    ensures var r := AllBooks(books, author);
            var ix := MatchingIndices(books, author.value);
            && |ix| == |r|
            && (forall k :: 0 <= k < |ix| ==> ix[k] < |books| && r[k] == books[ix[k]])
            && (forall k, l :: 0 <= k < l < |ix| ==> ix[k] < ix[l])
            && (forall j :: 0 <= j < |books| ==> (books[j].author == author.value <==> j in ix))
  {
    FilterFromMatches(books, author.value, 0);
    MatchingFromIsSorted(books, author.value, 0);
    forall j | 0 <= j < |books|
      ensures books[j].author == author.value <==> j in MatchingIndices(books, author.value)
    {
      MatchingFromIsComplete(books, author.value, 0, j);
    }
    assert books[0..] == books;
  }

  /** A book is in the filter's result exactly when it is in the store and `name` wrote it. */
  lemma {:induction false} FilterMembership(books: seq<Book>, name: string)
    ensures forall b :: b in FilterByAuthor(books, name) <==> b in books && b.author == name
  {
    if books != [] {
      FilterMembership(books[1..], name);
      assert books == [books[0]] + books[1..];
    }
  }

  /** The filter keeps every book exactly when every book matches. */
  lemma {:induction false} FilterKeepsAll(books: seq<Book>, name: string)
    ensures |FilterByAuthor(books, name)| == |books| <==> forall b :: b in books ==> b.author == name
  {
    if books != [] {
      FilterKeepsAll(books[1..], name);
      if books[0].author != name {
        assert |FilterByAuthor(books, name)| < |books|;
      } else {
        forall b | b in books ensures b in books[1..] || b == books[0] {
          var j :| 0 <= j < |books| && books[j] == b;
          if j > 0 { assert books[1..][j - 1] == b; }
        }
      }
    }
  }

  /** `Author.bookCount` is the multiplicity of the author's name among the books' author fields. */
  lemma {:induction false} AuthorBookCountIsOccurrences(books: seq<Book>, root: Author)
    ensures AuthorBookCount(books, root) == multiset(AuthorNames(books))[root.name]
  {
    if books != [] {
      AuthorBookCountIsOccurrences(books[1..], root);
      assert AuthorNames(books) == [books[0].author] + AuthorNames(books[1..]);
    } else {
      assert AuthorNames(books) == [];
    }
  }

  /** For a non-empty name, `Author.bookCount` is the length of `allBooks(author: name)`. */
  lemma AuthorBookCountMatchesAllBooks(books: seq<Book>, root: Author)
    requires root.name != ""
    ensures AuthorBookCount(books, root) == |AllBooks(books, Some(root.name))|
  {
  }

  /**
   * For an author whose name is "", the two resolvers part ways: `allBooks`
   * treats "" as no filter, while `Author.bookCount` still compares names, so
   * the two agree only when every book's author is "".
   */
  lemma EmptyNameCountsDiffer(books: seq<Book>, root: Author)
    requires root.name == ""
    ensures AuthorBookCount(books, root) == |AllBooks(books, Some(root.name))|
            <==> forall b :: b in books ==> b.author == ""
  {
    FilterKeepsAll(books, "");
  }

  /**
   * `Author.bookCount` reads the store when it is resolved: a store with one
   * more book counts exactly one more for that book's author and the same for
   * everyone else.
   */
  lemma AuthorBookCountAppend(books: seq<Book>, b: Book, root: Author)
    ensures AuthorBookCount(books + [b], root)
            == AuthorBookCount(books, root) + (if b.author == root.name then 1 else 0)
  {
    AuthorBookCountIsOccurrences(books, root);
    AuthorBookCountIsOccurrences(books + [b], root);
    assert AuthorNames(books + [b]) == AuthorNames(books) + [b.author];
  }
}
