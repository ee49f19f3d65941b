/** Values shared by the server tables and the editor: optional values, the
    canvas document stored per page, a fetched page row, and the ascending
    order of page numbers that the server's ORDER BY, the editor's
    Object.entries walk and the PDF export all use. */
module Common {

  datatype Option<T> = None | Some(value: T)

  /** The JSON value held in a page's canvas_data column or in one entry of
      the editor's page map.  A drawing is an object whose content the model
      never inspects; `keyCount` is the number of its own keys (an empty
      object `{}` has none).  `Scalar` stands for any non-object JSON value
      (string, number, boolean) together with its JavaScript truthiness. */
  datatype Canvas = Null | Obj(doc: string, keyCount: nat) | Scalar(repr: string, truthy: bool)
  {
    /** JavaScript truthiness of the value. */
    predicate Truthy() {
      match this
      case Null => false
      case Obj(_, _) => true
      case Scalar(_, t) => t
    }
  }

  /** One row returned by GET /api/books/:bookId/pages. */
  datatype PageRow = PageRow(pageNumber: int, canvasData: Canvas)

  predicate IsLeast(m: int, s: set<int>) {
    m in s && forall x :: x in s ==> m <= x
  }

  /** A set that is not empty has a member (set extensionality). */
  lemma {:induction false} EmptyOrMember(s: set<int>)
    ensures s == {} || exists x :: x in s
  {
    if forall x :: x !in s {
      assert s == {};
    }
  }

  lemma {:induction false} LeastExists(s: set<int>)
    requires s != {}
    ensures exists m :: IsLeast(m, s)
  {
    EmptyOrMember(s);
    var x :| x in s;
    var rest := s - {x};
    assert forall y :: y in s ==> y == x || y in rest;
    if rest == {} {
      assert IsLeast(x, s);
    } else {
      LeastExists(rest);
      var m :| IsLeast(m, rest);
      if x < m {
        assert IsLeast(x, s);
      } else {
        assert IsLeast(m, s);
      }
    }
  }

  /** The smallest element of a non-empty set of page numbers. */
  function Least(s: set<int>): (m: int)
    requires s != {}
    ensures m in s
    ensures forall x :: x in s ==> m <= x
  {
    LeastExists(s);
    var m :| IsLeast(m, s);
    m
  }

  /** The page numbers of `s` in strictly ascending numeric order: the order
      of ORDER BY page_number, of the array-index keys (0 to 2^32 - 2) that
      Object.keys and Object.entries yield first (section 10.1.11.1 of
      ECMA-262, OrdinaryOwnPropertyKeys),
      and of `sort((a, b) => a - b)`. */
  function Ascending(s: set<int>): (r: seq<int>)
    ensures |r| == |s|
    ensures forall i :: 0 <= i < |r| ==> r[i] in s
    decreases |s|
  {
    if s == {} then []
    else
      var m := Least(s);
      [m] + Ascending(s - {m})
  }

  /** Ascending lists its numbers in strictly increasing order. */
  lemma {:induction false} AscendingSorted(s: set<int>)
    ensures forall i, j :: 0 <= i < j < |Ascending(s)| ==> Ascending(s)[i] < Ascending(s)[j]
    decreases |s|
  {
    if s != {} {
      var m := Least(s);
      AscendingSorted(s - {m});
      var r := Ascending(s);
      assert r == [m] + Ascending(s - {m});
      forall i, j | 0 <= i < j < |r|
        ensures r[i] < r[j]
      {
        assert r[j] == Ascending(s - {m})[j - 1];
        if i > 0 {
          assert r[i] == Ascending(s - {m})[i - 1];
        }
      }
    }
  }

  /** Ascending lists every number of the set. */
  lemma {:induction false} AscendingComplete(s: set<int>)
    ensures forall x :: x in s ==> x in Ascending(s)
    decreases |s|
  {
    if s != {} {
      var m := Least(s);
      AscendingComplete(s - {m});
      assert Ascending(s) == [m] + Ascending(s - {m});
    }
  }

  /** The largest element of a non-empty set: the last one in ascending order. */
  function Greatest(s: set<int>): (m: int)
    requires s != {}
    ensures m in s
    ensures forall x :: x in s ==> x <= m
  {
    var r := Ascending(s);
    AscendingSorted(s);
    AscendingComplete(s);
    assert forall x :: x in s ==> exists i :: 0 <= i < |r| && r[i] == x;
    r[|r| - 1]
  }

  /** A strictly ascending sequence lists its elements at most once, so an
      element's position is determined by the element. */
  lemma {:induction false} AscendingIndex(r: seq<int>, i: int, j: int)
    requires forall a, b :: 0 <= a < b < |r| ==> r[a] < r[b]
    requires 0 <= i < |r| && 0 <= j < |r|
    ensures r[i] < r[j] <==> i < j
    ensures r[i] == r[j] <==> i == j
  {
  }

  /** The rows that GET /api/books/:bookId/pages returns for a book whose
      pages are `table` (page number to canvas_data): one row per page, in
      ascending page_number order (ORDER BY page_number). */
  function RowsOf(table: map<int, Canvas>): (rows: seq<PageRow>)
    ensures |rows| == |table.Keys|
    ensures forall i :: 0 <= i < |rows| ==>
              rows[i].pageNumber in table && rows[i].canvasData == table[rows[i].pageNumber]
    ensures forall n :: n in table ==> exists i :: 0 <= i < |rows| && rows[i].pageNumber == n
    ensures forall i, j :: 0 <= i < j < |rows| ==> rows[i].pageNumber < rows[j].pageNumber
  {
    var ns := Ascending(table.Keys);
    AscendingSorted(table.Keys);
    AscendingComplete(table.Keys);
    var rows := seq(|ns|, i requires 0 <= i < |ns| => PageRow(ns[i], table[ns[i]]));
    assert forall i :: 0 <= i < |ns| ==> rows[i].pageNumber == ns[i];
    rows
  }

  /** The page map a client builds from fetched rows with
      `rows.forEach(page => m[page.page_number] = page.canvas_data)`:
      a later row overwrites an earlier one with the same number. */
  function PageMap(rows: seq<PageRow>): (m: map<int, Canvas>)
    ensures m.Keys == set i | 0 <= i < |rows| :: rows[i].pageNumber
    decreases |rows|
  {
    if rows == [] then map[]
    else
      var last := rows[|rows| - 1];
      var front := rows[..|rows| - 1];
      assert forall i :: 0 <= i < |front| ==> front[i] == rows[i];
      PageMap(front)[last.pageNumber := last.canvasData]
  }

  /** When no page number repeats, each row's data is what the map holds. */
  lemma {:induction false} PageMapOfDistinctRows(rows: seq<PageRow>)
    requires forall i, j :: 0 <= i < j < |rows| ==> rows[i].pageNumber != rows[j].pageNumber
    ensures forall i :: 0 <= i < |rows| ==> PageMap(rows)[rows[i].pageNumber] == rows[i].canvasData
    decreases |rows|
  {
    if rows != [] {
      var front := rows[..|rows| - 1];
      PageMapOfDistinctRows(front);
      forall i | 0 <= i < |rows|
        ensures PageMap(rows)[rows[i].pageNumber] == rows[i].canvasData
      {
        if i < |rows| - 1 {
          assert front[i] == rows[i];
        }
      }
    }
  }

  /** Rebuilding the page map from the ordered rows of a table gives back
      the table: fetching loses no page and invents none. */
  lemma PageMapOfRows(table: map<int, Canvas>)
    ensures PageMap(RowsOf(table)) == table
  {
    PageMapOfRowsKeys(table);
    PageMapOfRowsValues(table);
    SameKeysSameValues(PageMap(RowsOf(table)), table);
  }

  lemma SameKeysSameValues(m: map<int, Canvas>, m': map<int, Canvas>)
    requires m.Keys == m'.Keys
    requires forall n :: n in m' && n in m ==> m[n] == m'[n]
    ensures m == m'
  {
    forall n | n in m
      ensures n in m' && m[n] == m'[n]
    {
      assert n in m.Keys;
    }
  }

  lemma PageMapOfRowsKeys(table: map<int, Canvas>)
    ensures PageMap(RowsOf(table)).Keys == table.Keys
  {
    var rows := RowsOf(table);
    var m := PageMap(rows);
    forall n | n in table
      ensures n in m
    {
      var i :| 0 <= i < |rows| && rows[i].pageNumber == n;
    }
  }

  lemma PageMapOfRowsValues(table: map<int, Canvas>)
    ensures forall n :: n in table && n in PageMap(RowsOf(table)) ==> PageMap(RowsOf(table))[n] == table[n]
  {
    var rows := RowsOf(table);
    PageMapOfDistinctRows(rows);
    forall n | n in table && n in PageMap(rows)
      ensures PageMap(rows)[n] == table[n]
    {
      var i :| 0 <= i < |rows| && rows[i].pageNumber == n;
    }
  }
}
