/** The bookstore's in-memory data access layer
    (python/multi_file_bug/repository.py): a book repository and an author
    repository, each a dictionary keyed by id with a counter handing out
    the next id.

    A Python dictionary keeps its keys in insertion order; here it is the
    sequence `ids` of keys next to the map from key to record. The
    `created_at` timestamps of the records are not modelled. */
module Repository {
  import opened Wrappers
  import opened Text
  import Keys

  datatype Book = Book(id: int, title: string, authorId: int, price: real, isbn: string, description: string, stock: int)

  datatype Author = Author(id: int, name: string, bio: string)

  predicate Increasing(s: seq<int>) {
    forall i, j :: 0 <= i < j < |s| ==> s[i] < s[j]
  }

  /** Removal keeps the other elements in their increasing order, and
      keeps no element that was not there. */
  lemma {:induction false} RemoveKeepsIncreasing(s: seq<int>, x: int)
    requires Increasing(s)
    ensures Increasing(Keys.Remove(s, x))
    ensures forall i :: 0 <= i < |Keys.Remove(s, x)| ==> Keys.Remove(s, x)[i] in s
  {
    if s != [] {
      var init := s[..|s| - 1];
      var last := s[|s| - 1];
      assert s == init + [last];
      assert Increasing(init);
      RemoveKeepsIncreasing(init, x);
      var r := Keys.Remove(init, x);
      assert forall i :: 0 <= i < |r| ==> r[i] < last by {
        forall i | 0 <= i < |r|
          ensures r[i] < last
        {
          var k :| 0 <= k < |init| && init[k] == r[i];
          assert s[k] == init[k];
        }
      }
      if last != x {
        var w := r + [last];
        assert Keys.Remove(s, x) == w;
        forall i, j | 0 <= i < j < |w|
          ensures w[i] < w[j]
        {
          if j == |r| {
            assert w[i] == r[i];
          } else {
            assert w[i] == r[i] && w[j] == r[j];
          }
        }
      } else {
        assert Keys.Remove(s, x) == r;
      }
    }
  }

  /** The key order of a dictionary: every key exactly once, in increasing
      order (the order in which the counter handed the keys out). */
  ghost predicate KeyOrder(ids: seq<int>, keys: set<int>) {
    && (forall i :: 0 <= i < |ids| ==> ids[i] in keys)
    && (forall k :: k in keys ==> k in ids)
    && Increasing(ids)
  }

  /** A new key above all others goes at the end. */
  lemma KeyOrderAdd(ids: seq<int>, keys: set<int>, x: int)
    requires KeyOrder(ids, keys) && forall k :: k in keys ==> k < x
    ensures KeyOrder(ids + [x], keys + {x})
  {
    assert forall i :: 0 <= i < |ids| ==> ids[i] < x;
  }

  /** Deleting a key removes it from the order. */
  lemma KeyOrderRemove(ids: seq<int>, keys: set<int>, x: int)
    requires KeyOrder(ids, keys)
    ensures KeyOrder(Keys.Remove(ids, x), keys - {x})
  {
    Keys.RemoveSpec(ids, x);
    RemoveKeepsIncreasing(ids, x);
    var r := Keys.Remove(ids, x);
    forall i | 0 <= i < |r|
      ensures r[i] in keys - {x}
    {
      assert r[i] in r;
      var j :| 0 <= j < |ids| && ids[j] == r[i];
    }
  }

  /** Listing every key lists every value. */
  lemma ValuesAtAll<V>(ids: seq<int>, m: map<int, V>)
    requires KeyOrder(ids, m.Keys)
    ensures forall id :: id in m ==> m[id] in Keys.ValuesAt(ids, m)
  {
    var r := Keys.ValuesAt(ids, m);
    forall id | id in m
      ensures m[id] in r
    {
      var i :| 0 <= i < |ids| && ids[i] == id;
      assert r[i] == m[id];
    }
  }

  /** Python's `sub in s` after `.lower()` on both sides, for ASCII text. */
  predicate MatchesIgnoringCase(text: string, query: string) {
    Contains(ToLower(text), ToLower(query))
  }

  class BookRepository {
    var ids: seq<int>
    var books: map<int, Book>
    var nextId: int

    /** The keys in insertion order are exactly the stored ids, each once
        and in increasing order; each book is stored under its own id, and
        every id is below the counter. */
    ghost predicate Valid()
      reads this
    {
      && KeyOrder(ids, books.Keys)
      && (forall id :: id in books ==> books[id].id == id && 1 <= id < nextId)
      && nextId >= 1
    }

    constructor()
      ensures Valid() && ids == [] && books == map[] && nextId == 1
    {
      ids := [];
      books := map[];
      nextId := 1;
    }

    /** `get_all`: the books in insertion order. */
    function GetAll(): (r: seq<Book>)
      reads this
      requires Valid()
      ensures |r| == |ids| && forall i :: 0 <= i < |ids| ==> r[i] == books[ids[i]]
      ensures forall b :: b in r <==> b.id in books && books[b.id] == b
    {
      ValuesAtAll(ids, books);
      Keys.ValuesAt(ids, books)
    }

    /** `get_by_id`: the book stored under `id`, or None. */
    function GetById(id: int): (r: Option<Book>)
      reads this
      ensures r.Some? <==> id in books
      ensures r.Some? ==> r.value == books[id]
    {
      if id in books then Some(books[id]) else None
    }

    /** `get_by_author`: the books whose author is `authorId`, in order. */
    function GetByAuthor(authorId: int): (r: seq<Book>)
      reads this
      requires Valid()
      ensures forall b :: b in r <==> b in GetAll() && b.authorId == authorId
      ensures |r| <= |ids|
    {
      Select(GetAll(), (b: Book) => b.authorId == authorId)
    }

    /** `search`: the books whose title contains the query, ignoring case. */
    function Search(query: string): (r: seq<Book>)
      reads this
      requires Valid()
      ensures forall b :: b in r <==> b in GetAll() && MatchesIgnoringCase(b.title, query)
      ensures |r| <= |ids|
    {
      Select(GetAll(), (b: Book) => MatchesIgnoringCase(b.title, query))
    }

    /** `create`: the book gets the next id, the counter moves on, and the
        book is stored under its new id, after all earlier ones. */
    method Create(book: Book) returns (created: Book)
      requires Valid()
      modifies this
      ensures Valid()
      ensures created == book.(id := old(nextId))
      ensures nextId == old(nextId) + 1
      ensures books == old(books)[created.id := created] && ids == old(ids) + [created.id]
      ensures created.id !in old(books) && forall id :: id in old(books) ==> id < created.id
      ensures GetById(created.id) == Some(created)
    {
      KeyOrderAdd(ids, books.Keys, nextId);
      created := book.(id := nextId);
      nextId := nextId + 1;
      books := books[created.id := created];
      ids := ids + [created.id];
    }

    /** `update`: a book whose id is stored replaces the stored one; any
        other book is ignored. The book is returned either way. */
    method Update(book: Book) returns (r: Book)
      requires Valid()
      modifies this
      ensures Valid() && r == book && ids == old(ids) && nextId == old(nextId)
      ensures book.id in old(books) ==> books == old(books)[book.id := book]
      ensures book.id !in old(books) ==> books == old(books)
    {
      if book.id in books {
        books := books[book.id := book];
      }
      return book;
    }

    /** `delete`: true exactly when `id` was stored; only that entry goes. */
    method Delete(id: int) returns (deleted: bool)
      requires Valid()
      modifies this
      ensures Valid() && nextId == old(nextId)
      ensures deleted <==> id in old(books)
      ensures books == old(books) - {id} && ids == Keys.Remove(old(ids), id)
    {
      KeyOrderRemove(ids, books.Keys, id);
      if id in books {
        books := books - {id};
        ids := Keys.Remove(ids, id);
        return true;
      }
      assert Keys.Remove(ids, id) == ids by {
        Keys.RemoveSpec(ids, id);
      }
      return false;
    }
  }

  /** A list comprehension `[x for x in s if keep(x)]`. */
  function Select<T(!new)>(s: seq<T>, keep: T -> bool): (r: seq<T>)
    ensures forall x :: x in r <==> x in s && keep(x)
    ensures |r| <= |s|
  {
    if s == [] then []
    else
      var init := s[..|s| - 1];
      assert s == init + [s[|s| - 1]];
      Select(init, keep) + (if keep(s[|s| - 1]) then [s[|s| - 1]] else [])
  }

  /** The first author, in insertion order, whose name contains `query`
      ignoring case. */
  function FirstNamed(authors: seq<Author>, query: string): (r: Option<Author>)
    ensures r.Some? ==> r.value in authors && MatchesIgnoringCase(r.value.name, query)
    ensures r.None? <==> forall a :: a in authors ==> !MatchesIgnoringCase(a.name, query)
  {
    if authors == [] then None
    else if MatchesIgnoringCase(authors[0].name, query) then Some(authors[0])
    else
      var r := FirstNamed(authors[1..], query);
      assert authors == [authors[0]] + authors[1..];
      r
  }

  lemma FirstNamedStep(authors: seq<Author>, i: nat, query: string)
    requires i < |authors|
    ensures FirstNamed(authors[i..], query) ==
      if MatchesIgnoringCase(authors[i].name, query) then Some(authors[i]) else FirstNamed(authors[i + 1..], query)
  {
    assert authors[i..][0] == authors[i] && authors[i..][1..] == authors[i + 1..];
  }

  /** The first match is the one at the smallest position: every author
      before it does not match. */
  lemma {:induction false} FirstNamedIsFirst(authors: seq<Author>, query: string)
    ensures FirstNamed(authors, query).Some? ==>
      exists i :: 0 <= i < |authors| && authors[i] == FirstNamed(authors, query).value
        && forall k :: 0 <= k < i ==> !MatchesIgnoringCase(authors[k].name, query)
  {
    if authors != [] && !MatchesIgnoringCase(authors[0].name, query) {
      FirstNamedIsFirst(authors[1..], query);
      if FirstNamed(authors, query).Some? {
        var i :| 0 <= i < |authors[1..]| && authors[1..][i] == FirstNamed(authors, query).value
          && forall k :: 0 <= k < i ==> !MatchesIgnoringCase(authors[1..][k].name, query);
        assert authors[i + 1] == FirstNamed(authors, query).value;
        assert forall k :: 0 <= k < i + 1 ==> !MatchesIgnoringCase(authors[k].name, query) by {
          forall k | 0 <= k < i + 1
            ensures !MatchesIgnoringCase(authors[k].name, query)
          {
            if k > 0 {
              assert authors[k] == authors[1..][k - 1];
            }
          }
        }
      }
    } else if authors != [] {
      assert authors[0] == FirstNamed(authors, query).value;
    }
  }

  class AuthorRepository {
    var ids: seq<int>
    var authors: map<int, Author>
    var nextId: int

    /** As for books: keys in insertion order, each once and increasing,
        each author under its own id, every id below the counter. */
    ghost predicate Valid()
      reads this
    {
      && KeyOrder(ids, authors.Keys)
      && (forall id :: id in authors ==> authors[id].id == id && 1 <= id < nextId)
      && nextId >= 1
    }

    constructor()
      ensures Valid() && ids == [] && authors == map[] && nextId == 1
    {
      ids := [];
      authors := map[];
      nextId := 1;
    }

    /** `get_all`: the authors in insertion order. */
    function GetAll(): (r: seq<Author>)
      reads this
      requires Valid()
      ensures |r| == |ids| && forall i :: 0 <= i < |ids| ==> r[i] == authors[ids[i]]
      ensures forall a :: a in r <==> a.id in authors && authors[a.id] == a
    {
      ValuesAtAll(ids, authors);
      Keys.ValuesAt(ids, authors)
    }

    /** `get_by_id`: the author stored under `id`, or None. */
    function GetById(id: int): (r: Option<Author>)
      reads this
      ensures r.Some? <==> id in authors
      ensures r.Some? ==> r.value == authors[id]
    {
      if id in authors then Some(authors[id]) else None
    }

    /** `get_by_name`: the authors are visited in insertion order and the
        first whose name contains the query, ignoring case, is returned. */
    method GetByName(name: string) returns (r: Option<Author>)
      requires Valid()
      ensures r == FirstNamed(GetAll(), name)
    {
      var all := GetAll();
      var i := 0;
      while i < |all|
        invariant 0 <= i <= |all|
        invariant FirstNamed(all[i..], name) == FirstNamed(all, name)
      {
        FirstNamedStep(all, i, name);
        if MatchesIgnoringCase(all[i].name, name) {
          return Some(all[i]);
        }
        i := i + 1;
      }
      return None;
    }

    /** `create`: the author gets the next id and is stored under it, after
        all earlier ones. */
    method Create(author: Author) returns (created: Author)
      requires Valid()
      modifies this
      ensures Valid()
      ensures created == author.(id := old(nextId))
      ensures nextId == old(nextId) + 1
      ensures authors == old(authors)[created.id := created] && ids == old(ids) + [created.id]
      ensures created.id !in old(authors) && forall id :: id in old(authors) ==> id < created.id
      ensures GetById(created.id) == Some(created)
    {
      KeyOrderAdd(ids, authors.Keys, nextId);
      created := author.(id := nextId);
      nextId := nextId + 1;
      authors := authors[created.id := created];
      ids := ids + [created.id];
    }

    /** `update`: replaces a stored author, ignores any other. */
    method Update(author: Author) returns (r: Author)
      requires Valid()
      modifies this
      ensures Valid() && r == author && ids == old(ids) && nextId == old(nextId)
      ensures author.id in old(authors) ==> authors == old(authors)[author.id := author]
      ensures author.id !in old(authors) ==> authors == old(authors)
    {
      if author.id in authors {
        authors := authors[author.id := author];
      }
      return author;
    }

    /** `delete`: true exactly when `id` was stored; only that entry goes. */
    method Delete(id: int) returns (deleted: bool)
      requires Valid()
      modifies this
      ensures Valid() && nextId == old(nextId)
      ensures deleted <==> id in old(authors)
      ensures authors == old(authors) - {id} && ids == Keys.Remove(old(ids), id)
    {
      KeyOrderRemove(ids, authors.Keys, id);
      if id in authors {
        authors := authors - {id};
        ids := Keys.Remove(ids, id);
        return true;
      }
      assert Keys.Remove(ids, id) == ids by {
        Keys.RemoveSpec(ids, id);
      }
      return false;
    }
  }
}
