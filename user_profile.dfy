/** The profile page's summary of the caller's books
    (frontend/src/pages/UserProfile.js): the book count, the "recent
    activity" list of the five most recently saved books, and the date
    text shown for a missing or malformed date.  `last_saved_at` is an
    integer timestamp, absent for a book never saved. */
module UserProfile {
  import opened Common

  /** One book as GET /api/books returns it. */
  datatype BookRow = BookRow(id: int, title: string, lastSavedAt: Option<int>)

  /** The recent-activity list holds at most this many books. */
  const RecentLimit: nat := 5

  /** The save time of a book, 0 for one never saved (only used on saved books). */
  function SavedAt(b: BookRow): int {
    if b.lastSavedAt.Some? then b.lastSavedAt.value else 0
  }

  /** Each book is saved no later than the one before it. */
  predicate NewestFirst(s: seq<BookRow>)
    decreases |s|
  {
    |s| <= 1 || (SavedAt(s[1]) <= SavedAt(s[0]) && NewestFirst(s[1..]))
  }

  /** In a newest-first list every book is saved no later than any book
      before it. */
  lemma {:induction false} NewestFirstPairs(s: seq<BookRow>, i: int, j: int)
    requires NewestFirst(s)
    requires 0 <= i <= j < |s|
    ensures SavedAt(s[j]) <= SavedAt(s[i])
    decreases j
  {
    if i < j {
      if i == 0 {
        if j > 1 {
          NewestFirstPairs(s[1..], 0, j - 1);
        }
      } else {
        NewestFirstPairs(s[1..], i - 1, j - 1);
      }
    }
  }

  /** A prefix of a newest-first list is newest first. */
  lemma {:induction false} NewestFirstPrefix(s: seq<BookRow>, n: nat)
    requires NewestFirst(s) && n <= |s|
    ensures NewestFirst(s[..n])
    decreases n
  {
    if n > 1 {
      assert s[..n][1..] == s[1..][..n - 1];
      NewestFirstPrefix(s[1..], n - 1);
    }
  }

  /** `books.filter(book => book.last_saved_at)`: the saved books, in order. */
  function Saved(books: seq<BookRow>): (r: seq<BookRow>)
    ensures forall i :: 0 <= i < |r| ==> r[i].lastSavedAt.Some?
    ensures multiset(r) <= multiset(books)
    ensures |r| <= |books|
    decreases |books|
  {
    if books == [] then []
    else
      var front := books[..|books| - 1];
      var last := books[|books| - 1];
      assert books == front + [last];
      if last.lastSavedAt.Some? then Saved(front) + [last] else Saved(front)
  }

  /** The filter keeps every saved book. */
  lemma {:induction false} SavedKeepsSavedBooks(books: seq<BookRow>, b: BookRow)
    requires b in books && b.lastSavedAt.Some?
    ensures b in Saved(books)
    decreases |books|
  {
    var front := books[..|books| - 1];
    var last := books[|books| - 1];
    assert books == front + [last];
    if b != last {
      SavedKeepsSavedBooks(front, b);
    }
  }

  /** Insert `b` into a newest-first list before the first book saved no
      later than it. */
  function Insert(b: BookRow, s: seq<BookRow>): (r: seq<BookRow>)
    requires NewestFirst(s)
    ensures NewestFirst(r)
    ensures multiset(r) == multiset(s) + multiset{b}
    ensures |r| == |s| + 1
    ensures r[0] == b || (s != [] && r[0] == s[0])
    decreases |s|
  {
    if s == [] then [b]
    else if SavedAt(s[0]) <= SavedAt(b) then
      var r := [b] + s;
      assert r[1..] == s;
      r
    else
      var tail := s[1..];
      assert s == [s[0]] + tail;
      var rest := Insert(b, tail);
      var r := [s[0]] + rest;
      assert r[1..] == rest;
      r
  }

  /** `sort((a, b) => new Date(b.last_saved_at) - new Date(a.last_saved_at))`:
      the same books, newest first. */
  function SortNewestFirst(s: seq<BookRow>): (r: seq<BookRow>)
    ensures NewestFirst(r)
    ensures multiset(r) == multiset(s)
    ensures |r| == |s|
    decreases |s|
  {
    if s == [] then []
    else
      assert s == [s[0]] + s[1..];
      Insert(s[0], SortNewestFirst(s[1..]))
  }

  /** `.slice(0, n)`: the first n entries, or all of them. */
  function Take(s: seq<BookRow>, n: nat): (r: seq<BookRow>)
    ensures |r| == if |s| < n then |s| else n
    ensures r == s[..|r|]
  {
    if |s| < n then s else s[..n]
  }

  /** The recent-activity list: the saved books, newest first, at most
      RecentLimit of them. */
  function RecentActivity(books: seq<BookRow>): (r: seq<BookRow>)
    ensures |r| <= RecentLimit
    ensures forall i :: 0 <= i < |r| ==> r[i].lastSavedAt.Some?
    ensures NewestFirst(r)
    ensures multiset(r) <= multiset(books)
    ensures |r| <= |books|
  {
    var sorted := SortNewestFirst(Saved(books));
    var r := Take(sorted, RecentLimit);
    NewestFirstPrefix(sorted, |r|);
    assert sorted == r + sorted[|r|..];
    assert multiset(r) <= multiset(sorted);
    forall i | 0 <= i < |r|
      ensures r[i].lastSavedAt.Some?
    {
      assert r[i] == sorted[i];
      assert r[i] in multiset(Saved(books));
    }
    r
  }

  /** No saved book left out of the list is newer than the oldest book in
      it, and when at most RecentLimit books are saved they are all shown. */
  lemma {:induction false} RecentActivityIsNewest(books: seq<BookRow>)
    ensures forall b :: b in books && b.lastSavedAt.Some? && b !in RecentActivity(books) ==>
              |RecentActivity(books)| == RecentLimit &&
              SavedAt(b) <= SavedAt(RecentActivity(books)[RecentLimit - 1])
    ensures |Saved(books)| <= RecentLimit ==> multiset(RecentActivity(books)) == multiset(Saved(books))
    ensures |RecentActivity(books)| == if |Saved(books)| < RecentLimit then |Saved(books)| else RecentLimit
  {
    var sorted := SortNewestFirst(Saved(books));
    var r := RecentActivity(books);
    assert r == Take(sorted, RecentLimit);
    forall b | b in books && b.lastSavedAt.Some? && b !in r
      ensures |r| == RecentLimit && SavedAt(b) <= SavedAt(r[RecentLimit - 1])
    {
      SavedKeepsSavedBooks(books, b);
      assert b in multiset(sorted);
      var j :| 0 <= j < |sorted| && sorted[j] == b;
      assert forall k :: 0 <= k < |r| ==> sorted[k] == r[k] && r[k] in r;
      NewestFirstPairs(sorted, RecentLimit - 1, j);
    }
    if |Saved(books)| <= RecentLimit {
      assert r == sorted;
    }
  }

  /** What the profile shows about the caller's books. */
  datatype Summary = Summary(totalBooks: nat, recentActivity: seq<BookRow>)

  /** The figures fetchUserInfo stores: the number of books fetched and
      their recent activity. */
  function Summarize(books: seq<BookRow>): (s: Summary)
    ensures s.totalBooks == |books|
    ensures |s.recentActivity| <= s.totalBooks
    ensures forall i :: 0 <= i < |s.recentActivity| ==> s.recentActivity[i] in books
    ensures s.recentActivity == RecentActivity(books)
  {
    var r := RecentActivity(books);
    assert forall i :: 0 <= i < |r| ==> r[i] in multiset(r) && r[i] in multiset(books);
    Summary(|books|, r)
  }

  const UnknownDate := "Unbekannt"
  const InvalidDate := "Ungültiges Datum"

  /** formatDate: a missing or empty value is "Unbekannt"; otherwise
      `parse` (the Date constructor, None for an invalid date) decides
      between "Ungültiges Datum" and `render` (toLocaleDateString for
      de-DE with a two-digit day and month). */
  function FormatDate(date: Option<string>, parse: string -> Option<int>, render: int -> string): (text: string)
    ensures date.None? || date.value == "" ==> text == UnknownDate
    ensures date.Some? && date.value != "" && parse(date.value).None? ==> text == InvalidDate
    ensures date.Some? && date.value != "" && parse(date.value).Some? ==> text == render(parse(date.value).value)
  {
    if date.None? || date.value == "" then UnknownDate
    else
      match parse(date.value)
      case None => InvalidDate
      case Some(t) => render(t)
  }
}
