/** The book list of one shelf (MyBookshelf/ShelfDetailView.swift): the
    `filteredBooks` view of the loaded books and the `deleteBooks(at:)` loop
    behind swipe-to-delete. */
module ShelfDetail {
  import opened Foundation
  import opened Books

  /** `Character.lowercased()` on ASCII letters; other characters are kept. */
  function LowerChar(c: char): char {
    if 'A' <= c <= 'Z' then (c as int + 32) as char else c
  }

  /** `String.lowercased()`, character by character. */
  function Lowercased(s: string): (r: string)
    ensures |r| == |s| && forall i :: 0 <= i < |s| ==> r[i] == LowerChar(s[i])
  {
    if s == [] then [] else [LowerChar(s[0])] + Lowercased(s[1..])
  }

  /** `s.contains(t)`: `t` occurs in `s` starting at some position. */
  predicate Contains(s: string, t: string) {
    (|t| <= |s| && s[..|t|] == t) || (s != [] && Contains(s[1..], t))
  }

  /** `t` occurs in `s` at position `i`. */
  predicate OccursAt(s: string, t: string, i: int) {
    0 <= i && i + |t| <= |s| && s[i..i + |t|] == t
  }

  /** `Contains` holds exactly when `t` occurs somewhere in `s`. */
  lemma {:induction false} ContainsIff(s: string, t: string)
    ensures Contains(s, t) <==> exists i :: OccursAt(s, t, i)
  {
    if s != [] {
      ContainsIff(s[1..], t);
      if exists i :: OccursAt(s, t, i) {
        var i :| OccursAt(s, t, i);
        if i > 0 {
          assert OccursAt(s[1..], t, i - 1) by {
            assert s[1..][i - 1..i - 1 + |t|] == s[i..i + |t|];
          }
        }
      }
      if Contains(s[1..], t) {
        var i :| OccursAt(s[1..], t, i);
        assert OccursAt(s, t, i + 1) by {
          assert s[1..][i..i + |t|] == s[i + 1..i + 1 + |t|];
        }
      }
      if |t| <= |s| && s[..|t|] == t {
        assert OccursAt(s, t, 0);
      }
    } else {
      if exists i :: OccursAt(s, t, i) {
        var i :| OccursAt(s, t, i);
        assert t == [];
      }
      if Contains(s, t) {
        assert OccursAt(s, t, 0);
      }
    }
  }

  /** The search predicate: title or author contain the search text with
      case ignored, or an ISBN contains it exactly as typed. */
  predicate MatchesSearch(b: Book, searchText: string) {
    || Contains(Lowercased(b.title), Lowercased(searchText))
    || Contains(Lowercased(b.author), Lowercased(searchText))
    || Contains(b.isbn13, searchText)
    || Contains(b.isbn10, searchText)
  }

  /** Whether `filteredBooks` shows book `b`. */
  predicate Shown(b: Book, shelfId: Uuid, searchText: string) {
    b.shelfUuid == Some(shelfId) && (searchText == [] || MatchesSearch(b, searchText))
  }

  /** `filteredBooks`: the loaded books on the shelf, and when there is
      search text, only those that match it. */
  function FilteredBooks(books: seq<Book>, shelfId: Uuid, searchText: string): (r: seq<Book>)
    ensures forall b :: multiset(r)[b] == if Shown(b, shelfId, searchText) then multiset(books)[b] else 0
    ensures IsSubsequence(r, books)
  {
    var onShelf := (b: Book) => b.shelfUuid == Some(shelfId);
    var matching := (b: Book) => searchText == [] || MatchesSearch(b, searchText);
    var shelfBooks := Filter(books, onShelf);
    FilterFilterFacts(books, onShelf, matching);
    if searchText == [] then
      FilterKeepsAll(shelfBooks, matching);
      shelfBooks
    else Filter(shelfBooks, matching)
  }

  /** Every book shown is a loaded book on the shelf, and every loaded
      book on the shelf that matches is shown. */
  lemma FilteredBooksMembers(books: seq<Book>, shelfId: Uuid, searchText: string)
    ensures forall b :: b in FilteredBooks(books, shelfId, searchText) <==> b in books && Shown(b, shelfId, searchText)
  {
    var r := FilteredBooks(books, shelfId, searchText);
    forall b ensures b in r <==> b in books && Shown(b, shelfId, searchText) {
      assert b in r <==> multiset(r)[b] > 0;
      assert b in books <==> multiset(books)[b] > 0;
    }
  }

  /** With no search text the view is the shelf's books in their order. */
  lemma {:induction false} EmptySearchShowsShelf(books: seq<Book>, shelfId: Uuid)
    ensures FilteredBooks(books, shelfId, []) == Filter(books, (b: Book) => b.shelfUuid == Some(shelfId))
  {
  }

  /** A one-character text is not contained in a string without that character. */
  lemma {:induction false} AbsentCharNotContained(s: string, c: char)
    requires c !in s
    ensures !Contains(s, [c])
  {
    if s != [] {
      AbsentCharNotContained(s[1..], c);
      assert s[..1] == [s[0]];
    }
  }

  /** ISBN matching keeps the case of the search text: "X" finds an ISBN-10
      ending in X, "x" does not. */
  lemma IsbnSearchIsCaseSensitive(b: Book)
    requires b.title == "Dune" && b.author == "" && b.isbn13 == "" && b.isbn10 == "155404295X"
    ensures MatchesSearch(b, "X")
    ensures !MatchesSearch(b, "x")
  {
    assert Contains(b.isbn10, "X") by {
      ContainsIff("155404295X", "X");
      assert OccursAt("155404295X", "X", 9);
    }
    assert !Contains(Lowercased(b.title), Lowercased("x")) by {
      assert Lowercased("Dune") == "dune" && Lowercased("x") == "x";
      AbsentCharNotContained("dune", 'x');
    }
    assert !Contains(Lowercased(b.author), Lowercased("x")) by {
      assert Lowercased("") == "" && Lowercased("x") == "x";
      AbsentCharNotContained("", 'x');
    }
    assert !Contains(b.isbn13, "x") by {
      AbsentCharNotContained("", 'x');
    }
    assert !Contains(b.isbn10, "x") by {
      AbsentCharNotContained("155404295X", 'x');
    }
  }

  /** Title matching ignores case: "dUNE" finds the title "Dune". */
  lemma TitleSearchIgnoresCase(b: Book)
    requires b.title == "Dune"
    ensures MatchesSearch(b, "dUNE")
  {
    assert Contains(Lowercased(b.title), Lowercased("dUNE")) by {
      assert Lowercased("Dune") == "dune" && Lowercased("dUNE") == "dune";
    }
  }

  /** `deleteBooks(at:)`: for each offset, in ascending order, a delete of
      the book at that offset of `filteredBooks` (not of the full list) is
      sent to the book service. The returned sequence holds those requests;
      their answers arrive later and only raise an alert on failure. */
  method DeleteBooks(books: seq<Book>, shelfId: Uuid, searchText: string, offsets: seq<nat>) returns (requests: seq<Book>)
    requires forall i :: 0 <= i < |offsets| ==> offsets[i] < |FilteredBooks(books, shelfId, searchText)|
    requires forall i, j :: 0 <= i < j < |offsets| ==> offsets[i] < offsets[j]
    ensures |requests| == |offsets|
    ensures forall i :: 0 <= i < |offsets| ==> requests[i] == FilteredBooks(books, shelfId, searchText)[offsets[i]]
    ensures forall i :: 0 <= i < |requests| ==> requests[i] in books && requests[i].shelfUuid == Some(shelfId)
  {
    requests := [];
    for k := 0 to |offsets|
      invariant |requests| == k
      invariant forall i :: 0 <= i < k ==> requests[i] == FilteredBooks(books, shelfId, searchText)[offsets[i]]
    {
      var filteredBooks := FilteredBooks(books, shelfId, searchText);
      var book := filteredBooks[offsets[k]];
      requests := requests + [book];
    }
    ghost var shown := FilteredBooks(books, shelfId, searchText);
    FilteredBooksMembers(books, shelfId, searchText);
    forall i | 0 <= i < |requests|
      ensures requests[i] in books && requests[i].shelfUuid == Some(shelfId)
    {
      assert requests[i] in shown;
    }
  }
}
