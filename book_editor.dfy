/** The page-map state of the book editor (frontend/src/pages/BookEditor.js).
    The editor keeps `tempPages`, a map from page number to canvas data in
    which Null marks a page added but not yet drawn; `pages`, the rows last
    fetched from the server; and `currentPage`.  The server is seen as the
    book's page table (page number to canvas data): a handler that talks to
    it takes the table and returns it as changed by the requests it sent,
    and a fetch reply is an input.  The live canvas content that
    canvasAPI.getCanvasData() returns is the parameter `live`. */
module BookEditor {
  import opened Common

  /** `currentPageData`: null, the loaded page data, or `{}` after clearing. */
  datatype Shown = Unset | Loaded(data: Canvas) | Blank

  datatype SaveOutcome = SaveNotReady | WriteFailed(pageNumber: int) | Saved

  datatype ExportOutcome = ExportNotReady | NoPages | Exported

  /** One sheet of the generated PDF: blank, or the image of a page. */
  datatype Sheet = BlankSheet | Image(pageNumber: int)

  /** The non-null entries of `updated` whose page numbers are in `ks`:
      the PUT requests savePage sends for those numbers. */
  function Written(updated: map<int, Canvas>, ks: set<int>): map<int, Canvas>
  {
    map k | k in updated && k in ks && updated[k] != Null :: updated[k]
  }

  /** The first `i` entries of `keys`, as a set. */
  function Prefix(keys: seq<int>, i: int): set<int>
    requires 0 <= i <= |keys|
  {
    set j | 0 <= j < i :: keys[j]
  }

  lemma PrefixStep(keys: seq<int>, i: int)
    requires 0 <= i < |keys|
    ensures Prefix(keys, i + 1) == Prefix(keys, i) + {keys[i]}
  {
  }

  lemma PrefixAll(s: set<int>)
    ensures Prefix(Ascending(s), |Ascending(s)|) == s
  {
    var keys := Ascending(s);
    AscendingComplete(s);
    forall x | x in s
      ensures x in Prefix(keys, |keys|)
    {
      assert x in keys;
    }
  }

  /** The page numbers of `m` smaller than `k`. */
  function Below(m: map<int, Canvas>, k: int): set<int>
  {
    set x | x in m && x < k
  }

  /** The first `i` entries of an ascending key list are exactly the keys
      smaller than the i-th. */
  lemma {:induction false} PrefixIsBelow(m: map<int, Canvas>, keys: seq<int>, i: int)
    requires keys == Ascending(m.Keys)
    requires 0 <= i < |keys|
    ensures Prefix(keys, i) == Below(m, keys[i])
  {
    AscendingSorted(m.Keys);
    AscendingComplete(m.Keys);
    SortedPrefixIsBelow(m.Keys, keys, i);
  }

  lemma {:induction false} SortedPrefixIsBelow(s: set<int>, keys: seq<int>, i: int)
    requires forall a, b :: 0 <= a < b < |keys| ==> keys[a] < keys[b]
    requires forall x :: x in s ==> x in keys
    requires forall j :: 0 <= j < |keys| ==> keys[j] in s
    requires 0 <= i < |keys|
    ensures Prefix(keys, i) == set x | x in s && x < keys[i]
  {
    var pre := Prefix(keys, i);
    var below := set x | x in s && x < keys[i];
    forall x | x in below
      ensures x in pre
    {
      var j :| 0 <= j < |keys| && keys[j] == x;
      AscendingIndex(keys, j, i);
    }
    forall x | x in pre
      ensures x in below
    {
      var j :| 0 <= j < i && keys[j] == x;
      AscendingIndex(keys, j, i);
    }
  }

  /** Every non-null entry below the failing one was accepted. */
  lemma WritesBeforeFailure(m: map<int, Canvas>, keys: seq<int>, i: int, rejected: set<int>)
    requires keys == Ascending(m.Keys)
    requires 0 <= i < |keys|
    requires forall j :: 0 <= j < i && m[keys[j]] != Null ==> keys[j] !in rejected
    ensures forall j :: j in m && j < keys[i] && m[j] != Null ==> j !in rejected
  {
    AscendingSorted(m.Keys);
    AscendingComplete(m.Keys);
    forall j | j in m && j < keys[i] && m[j] != Null
      ensures j !in rejected
    {
      assert j in m.Keys;
      assert j in keys;
      var a :| 0 <= a < |keys| && keys[a] == j;
      AscendingIndex(keys, a, i);
    }
  }

  /** Sending one more PUT extends the upserted table by that entry. */
  lemma WrittenStep(remote: map<int, Canvas>, updated: map<int, Canvas>, ks: set<int>, k: int)
    requires k in updated
    ensures updated[k] != Null ==>
              remote + Written(updated, ks + {k}) == (remote + Written(updated, ks))[k := updated[k]]
    ensures updated[k] == Null ==> Written(updated, ks + {k}) == Written(updated, ks)
  {
    if updated[k] != Null {
      var a := remote + Written(updated, ks + {k});
      var b := (remote + Written(updated, ks))[k := updated[k]];
      assert a.Keys == b.Keys;
      SameKeysSameValues(a, b);
    } else {
      var a := Written(updated, ks + {k});
      var b := Written(updated, ks);
      assert a.Keys == b.Keys;
      SameKeysSameValues(a, b);
    }
  }

  /** What the PUT loop has established when it stops. */
  lemma WritesDone(updated: map<int, Canvas>, remote: map<int, Canvas>, rejected: set<int>,
                   keys: seq<int>, i: int, failedAt: Option<int>, remoteAfter: map<int, Canvas>)
    requires keys == Ascending(updated.Keys)
    requires 0 <= i <= |keys|
    requires remoteAfter == remote + Written(updated, Prefix(keys, i))
    requires forall j :: 0 <= j < i && updated[keys[j]] != Null ==> keys[j] !in rejected
    requires failedAt.Some? ==>
               i < |keys| && failedAt.value == keys[i] && updated[keys[i]] != Null && keys[i] in rejected
    requires failedAt.None? ==> i == |keys|
    ensures failedAt.None? <==> forall j :: j in updated && updated[j] != Null ==> j !in rejected
    ensures failedAt.None? ==> remoteAfter == remote + Written(updated, updated.Keys)
    ensures failedAt.Some? ==>
              var k := failedAt.value;
              && k in updated && updated[k] != Null && k in rejected
              && (forall j :: j in updated && j < k && updated[j] != Null ==> j !in rejected)
              && remoteAfter == remote + Written(updated, Below(updated, k))
  {
    if failedAt.Some? {
      PrefixIsBelow(updated, keys, i);
      WritesBeforeFailure(updated, keys, i, rejected);
    } else {
      PrefixAll(updated.Keys);
      AscendingComplete(updated.Keys);
      forall j | j in updated && updated[j] != Null
        ensures j !in rejected
      {
        assert j in keys;
        var a :| 0 <= a < |keys| && keys[a] == j;
      }
    }
  }

  /** Upserting written entries is not a renumbering: each written entry
      lands under its own page number, every other page of the table keeps
      its number and data, and no page number appears from nowhere. */
  lemma WrittenKeepsNumbers(remote: map<int, Canvas>, updated: map<int, Canvas>, ks: set<int>)
    ensures forall k :: k in ks && k in updated && updated[k] != Null ==>
              k in remote + Written(updated, ks) && (remote + Written(updated, ks))[k] == updated[k]
    ensures forall k :: k in remote && !(k in ks && k in updated && updated[k] != Null) ==>
              k in remote + Written(updated, ks) && (remote + Written(updated, ks))[k] == remote[k]
    ensures forall k :: k in remote + Written(updated, ks) ==> k in remote || (k in ks && k in updated)
  {
  }

  /** One more iteration of the PUT loop, stated on the prefix of the keys. */
  lemma WrittenPrefixStep(remote: map<int, Canvas>, updated: map<int, Canvas>, keys: seq<int>, i: int)
    requires 0 <= i < |keys| && keys[i] in updated
    ensures updated[keys[i]] != Null ==>
              remote + Written(updated, Prefix(keys, i + 1)) ==
              (remote + Written(updated, Prefix(keys, i)))[keys[i] := updated[keys[i]]]
    ensures updated[keys[i]] == Null ==>
              remote + Written(updated, Prefix(keys, i + 1)) == remote + Written(updated, Prefix(keys, i))
  {
    PrefixStep(keys, i);
    WrittenStep(remote, updated, Prefix(keys, i), keys[i]);
  }

  /** The table after PUTting, in the order of `ks`, every page number of
      `ks` whose data in `updated` is not null. */
  function Upserts(remote: map<int, Canvas>, updated: map<int, Canvas>, ks: seq<int>): map<int, Canvas>
    requires forall j :: 0 <= j < |ks| ==> ks[j] in updated
    decreases |ks|
  {
    if ks == [] then remote
    else
      var k := ks[|ks| - 1];
      var prev := Upserts(remote, updated, ks[..|ks| - 1]);
      if updated[k] != Null then prev[k := updated[k]] else prev
  }

  /** PUTting a prefix of the keys one by one upserts the non-null entries
      of that prefix. */
  lemma {:induction false} UpsertsAreWrites(remote: map<int, Canvas>, updated: map<int, Canvas>,
                                            keys: seq<int>, i: int)
    requires forall j :: 0 <= j < |keys| ==> keys[j] in updated
    requires 0 <= i <= |keys|
    ensures Upserts(remote, updated, keys[..i]) == remote + Written(updated, Prefix(keys, i))
    decreases i
  {
    if i == 0 {
      assert Written(updated, Prefix(keys, 0)) == map[];
      assert remote + map[] == remote;
    } else {
      UpsertsAreWrites(remote, updated, keys, i - 1);
      assert keys[..i][..i - 1] == keys[..i - 1];
      WrittenPrefixStep(remote, updated, keys, i - 1);
    }
  }

  /** The PUT loop of savePage: for each page number of `updated` in
      ascending order whose data is not null, PUT it to the page table
      `remote`; a page number in `rejected` makes its PUT fail, which ends
      the loop.  Returns the failing page number, if any, and the table as
      changed by the PUTs that succeeded. */
  method SendWrites(updated: map<int, Canvas>, remote: map<int, Canvas>, rejected: set<int>)
    returns (failedAt: Option<int>, remoteAfter: map<int, Canvas>)
    ensures failedAt.None? <==> forall j :: j in updated && updated[j] != Null ==> j !in rejected
    ensures failedAt.None? ==> remoteAfter == remote + Written(updated, updated.Keys)
    ensures failedAt.Some? ==>
              var k := failedAt.value;
              && k in updated && updated[k] != Null && k in rejected
              && (forall j :: j in updated && j < k && updated[j] != Null ==> j !in rejected)
              && remoteAfter == remote + Written(updated, Below(updated, k))
  {
    var keys := Ascending(updated.Keys);
    remoteAfter := remote;
    failedAt := None;
    var i := 0;
    while i < |keys| && failedAt.None?
      decreases |keys| - i, if failedAt.None? then 1 else 0
      invariant 0 <= i <= |keys|
      invariant remoteAfter == Upserts(remote, updated, keys[..i])
      invariant forall j :: 0 <= j < i && updated[keys[j]] != Null ==> keys[j] !in rejected
      invariant failedAt.Some? ==>
                  i < |keys| && failedAt.value == keys[i] && updated[keys[i]] != Null && keys[i] in rejected
    {
      var k := keys[i];
      if updated[k] != Null && k in rejected {
        failedAt := Some(k);
      } else {
        assert keys[..i + 1][..i] == keys[..i];
        if updated[k] != Null {
          remoteAfter := remoteAfter[k := updated[k]];
        }
        i := i + 1;
      }
    }
    UpsertsAreWrites(remote, updated, keys, i);
    WritesDone(updated, remote, rejected, keys, i, failedAt, remoteAfter);
  }

  // ---------------------------------------------------------------------
  // The PDF page layout of exportToPDF
  // ---------------------------------------------------------------------

  /** The sheets exportToPDF produces, as written: the document starts with
      one blank sheet; for the i-th page number whose data is an object it
      calls addPage when i > 0 and draws the image on the last sheet. */
  function SheetsAsWritten(order: seq<int>, data: map<int, Canvas>): (sheets: seq<Sheet>)
    requires forall j :: 0 <= j < |order| ==> order[j] in data
    ensures |sheets| >= 1
    decreases |order|
  {
    if order == [] then [BlankSheet]
    else
      var front := order[..|order| - 1];
      var p := order[|order| - 1];
      var prev := SheetsAsWritten(front, data);
      if data[p].Obj? then
        if |front| > 0 then prev + [Image(p)] else prev[..|prev| - 1] + [Image(p)]
      else prev
  }

  /** The page numbers in `order` whose data is an object, in that order. */
  function Drawn(order: seq<int>, data: map<int, Canvas>): (ps: seq<int>)
    requires forall j :: 0 <= j < |order| ==> order[j] in data
    ensures forall j :: 0 <= j < |ps| ==> ps[j] in order && data[ps[j]].Obj?
    decreases |order|
  {
    if order == [] then []
    else
      var front := order[..|order| - 1];
      var p := order[|order| - 1];
      if data[p].Obj? then Drawn(front, data) + [p] else Drawn(front, data)
  }

  /** Drawn is the filter of `order` by "is an object": no drawn page is
      skipped, and an ascending order stays ascending. */
  lemma {:induction false} DrawnIsFilter(order: seq<int>, data: map<int, Canvas>)
    requires forall j :: 0 <= j < |order| ==> order[j] in data
    ensures forall j :: 0 <= j < |order| && data[order[j]].Obj? ==> order[j] in Drawn(order, data)
    ensures (forall a, b :: 0 <= a < b < |order| ==> order[a] < order[b]) ==>
              forall a, b :: 0 <= a < b < |Drawn(order, data)| ==>
                Drawn(order, data)[a] < Drawn(order, data)[b]
    decreases |order|
  {
    if order != [] {
      var front := order[..|order| - 1];
      var p := order[|order| - 1];
      DrawnIsFilter(front, data);
      var ps := Drawn(order, data);
      var qs := Drawn(front, data);
      forall j | 0 <= j < |order| && data[order[j]].Obj?
        ensures order[j] in ps
      {
        if j < |order| - 1 {
          assert order[j] == front[j];
        }
      }
      if forall a, b :: 0 <= a < b < |order| ==> order[a] < order[b] {
        assert forall a, b :: 0 <= a < b < |front| ==> front[a] < front[b];
        forall a, b | 0 <= a < b < |ps|
          ensures ps[a] < ps[b]
        {
          if data[p].Obj? && b == |ps| - 1 {
            assert ps[a] == qs[a];
            var i :| 0 <= i < |front| && front[i] == qs[a];
            assert order[i] < order[|order| - 1];
          }
        }
      }
    }
  }

  /** The layout with addPage guarded by "an image was already placed"
      instead of by the loop index. */
  function Sheets(order: seq<int>, data: map<int, Canvas>): (sheets: seq<Sheet>)
    requires forall j :: 0 <= j < |order| ==> order[j] in data
    ensures |sheets| >= 1
    decreases |order|
  {
    if order == [] then [BlankSheet]
    else
      var front := order[..|order| - 1];
      var p := order[|order| - 1];
      var prev := Sheets(front, data);
      if data[p].Obj? then
        if |Drawn(front, data)| > 0 then prev + [Image(p)] else prev[..|prev| - 1] + [Image(p)]
      else prev
  }

  /** With the corrected guard every sheet is the image of a drawn page, in
      export order, and a document with no drawn page is one blank sheet. */
  lemma {:induction false} SheetsAreDrawnPages(order: seq<int>, data: map<int, Canvas>)
    requires forall j :: 0 <= j < |order| ==> order[j] in data
    ensures Drawn(order, data) == [] ==> Sheets(order, data) == [BlankSheet]
    ensures Drawn(order, data) != [] ==>
              Sheets(order, data) == seq(|Drawn(order, data)|, i requires 0 <= i < |Drawn(order, data)| =>
                                           Image(Drawn(order, data)[i]))
    decreases |order|
  {
    if order != [] {
      var front := order[..|order| - 1];
      assert forall j :: 0 <= j < |front| ==> front[j] == order[j];
      SheetsAreDrawnPages(front, data);
    }
  }

  /** As written, a first page whose data is not an object (here a page
      added but never drawn) leaves a blank first sheet before the images. */
  lemma BlankFirstSheet()
    ensures var data := map[1 := Null, 2 := Obj("drawing", 1)];
            var order := Ascending(data.Keys);
            order == [1, 2] &&
            SheetsAsWritten(order, data) == [BlankSheet, Image(2)] &&
            Sheets(order, data) == [Image(2)]
  {
    var data := map[1 := Null, 2 := Obj("drawing", 1)];
    var order := Ascending(data.Keys);
    assert data.Keys == {1, 2};
    AscendingSorted(data.Keys);
    assert order[0] in {1, 2} && order[1] in {1, 2} && order[0] < order[1];
    assert order == [1, 2];
    assert order[..1] == [1];
    assert [1][..0] == [];
  }

  /** The two layouts agree whenever the first page is drawn. */
  lemma {:induction false} SheetsAgreeWhenFirstDrawn(order: seq<int>, data: map<int, Canvas>)
    requires forall j :: 0 <= j < |order| ==> order[j] in data
    requires |order| > 0 && data[order[0]].Obj?
    ensures SheetsAsWritten(order, data) == Sheets(order, data)
    ensures |Drawn(order, data)| > 0
    decreases |order|
  {
    var front := order[..|order| - 1];
    if |front| > 0 {
      assert forall j :: 0 <= j < |front| ==> front[j] == order[j];
      SheetsAgreeWhenFirstDrawn(front, data);
    }
  }

  /** The number addNewPage picks: one more than the largest page number
      among the editor's page map keys and the loaded rows, or 1 when there
      is none. */
  function NewPageNumber(keys: set<int>, rows: seq<PageRow>): (n: int)
    ensures forall k :: k in keys ==> k < n
    ensures forall i :: 0 <= i < |rows| ==> rows[i].pageNumber < n
    ensures keys == {} && rows == [] ==> n == 1
    ensures keys != {} || rows != [] ==>
              (n - 1 in keys || exists i :: 0 <= i < |rows| && rows[i].pageNumber == n - 1)
  {
    if keys == {} && rows == [] then 1
    else
      var all := keys + set i | 0 <= i < |rows| :: rows[i].pageNumber;
      assert all != {} by {
        if rows != [] {
          assert rows[0].pageNumber in all;
        } else {
          EmptyOrMember(keys);
        }
      }
      var m := Greatest(all);
      assert forall i :: 0 <= i < |rows| ==> rows[i].pageNumber in all;
      m + 1
  }

  class Editor {
    var tempPages: map<int, Canvas>
    var pages: seq<PageRow>
    var currentPage: int
    var currentPageData: Shown
    /** canvasAPI is set (the drawing surface has mounted). */
    var canvasReady: bool
    /** The currentPage the mount effect last ran with (None before the
        first render). */
    var effectPage: Option<int>

    constructor ()
      ensures tempPages == map[] && pages == [] && currentPage == 1
      ensures currentPageData == Unset && !canvasReady && effectPage == None
    {
      tempPages, pages, currentPage := map[], [], 1;
      currentPageData, canvasReady, effectPage := Unset, false, None;
    }

    /** onMount: the drawing surface hands over its API. */
    method CanvasMounted()
      modifies this
      ensures canvasReady
      ensures tempPages == old(tempPages) && pages == old(pages) && currentPage == old(currentPage)
      ensures currentPageData == old(currentPageData) && effectPage == old(effectPage)
    {
      canvasReady := true;
    }

    /** fetchPages with the reply of GET /pages (None when the request
        fails, which only logs): `pages` becomes the rows and `tempPages` is
        rebuilt from them alone, so entries not on the server are dropped. */
    method Reload(reply: Option<seq<PageRow>>)
      modifies this
      ensures reply.None? ==> tempPages == old(tempPages) && pages == old(pages)
      ensures reply.Some? ==> pages == reply.value && tempPages == PageMap(reply.value)
      ensures currentPage == old(currentPage) && currentPageData == old(currentPageData)
      ensures canvasReady == old(canvasReady) && effectPage == old(effectPage)
    {
      if reply.Some? {
        var rows := reply.value;
        pages := rows;
        var tempData := map[];
        var i := 0;
        while i < |rows|
          invariant 0 <= i <= |rows|
          invariant tempData == PageMap(rows[..i])
        {
          assert rows[..i + 1][..i] == rows[..i];
          tempData := tempData[rows[i].pageNumber := rows[i].canvasData];
          i := i + 1;
        }
        assert rows[..|rows|] == rows;
        tempPages := tempData;
      }
    }

    /** The mount effect, whose dependencies include currentPage: after a
        render in which currentPage differs from the last run it fetches
        the pages again, overwriting tempPages. */
    method RunMountEffect(reply: Option<seq<PageRow>>)
      modifies this
      ensures effectPage == Some(currentPage)
      ensures old(effectPage) != Some(old(currentPage)) && reply.Some? ==>
                pages == reply.value && tempPages == PageMap(reply.value)
      ensures old(effectPage) == Some(old(currentPage)) || reply.None? ==>
                tempPages == old(tempPages) && pages == old(pages)
      ensures currentPage == old(currentPage) && currentPageData == old(currentPageData)
      ensures canvasReady == old(canvasReady)
    {
      if effectPage != Some(currentPage) {
        effectPage := Some(currentPage);
        Reload(reply);
      }
    }

    /** onCanvasChange: the canvas reports new content for the current page. */
    method RecordCanvasChange(data: Canvas)
      modifies this
      ensures tempPages == old(tempPages)[old(currentPage) := data]
      ensures pages == old(pages) && currentPage == old(currentPage)
      ensures currentPageData == old(currentPageData) && canvasReady == old(canvasReady)
      ensures effectPage == old(effectPage)
    {
      tempPages := tempPages[currentPage := data];
    }

    /** tempPages holds an object with at least one key for the current page. */
    predicate CurrentHasContent()
      reads this
    {
      currentPage in tempPages && tempPages[currentPage].Obj? && tempPages[currentPage].keyCount > 0
    }

    /** The page-load effect: with the canvas ready, show the current page's
        data when it is an object with at least one key, else clear. */
    method ShowCurrentPage()
      modifies this
      ensures !canvasReady ==> currentPageData == old(currentPageData)
      ensures canvasReady && CurrentHasContent() ==> currentPageData == Loaded(tempPages[currentPage])
      ensures canvasReady && !CurrentHasContent() ==> currentPageData == Blank
      ensures tempPages == old(tempPages) && pages == old(pages) && currentPage == old(currentPage)
      ensures canvasReady == old(canvasReady) && effectPage == old(effectPage)
    {
      if canvasReady {
        if CurrentHasContent() {
          currentPageData := Loaded(tempPages[currentPage]);
        } else {
          currentPageData := Blank;
        }
      }
    }

    /** changePage: keep the live canvas under the page being left (only
        when the canvas is ready), then switch. */
    method ChangePage(target: int, live: Canvas)
      modifies this
      ensures old(canvasReady) ==> tempPages == old(tempPages)[old(currentPage) := live]
      ensures !old(canvasReady) ==> tempPages == old(tempPages)
      ensures currentPage == target && currentPageData == Unset
      ensures pages == old(pages) && canvasReady == old(canvasReady) && effectPage == old(effectPage)
    {
      if canvasReady {
        tempPages := tempPages[currentPage := live];
      }
      currentPage := target;
      currentPageData := Unset;
    }

    /** The page menu entry or any navigation followed by the render that
        re-runs the mount effect: the canvas stored under the page being
        left survives only if the server already had it. */
    method ChangePageAndRefetch(target: int, live: Canvas, reply: Option<seq<PageRow>>)
      modifies this
      ensures currentPage == target && currentPageData == Unset && effectPage == Some(target)
      ensures old(effectPage) != Some(target) && reply.Some? ==>
                tempPages == PageMap(reply.value) && pages == reply.value
      ensures old(effectPage) == Some(target) || reply.None? ==>
                tempPages == (if old(canvasReady) then old(tempPages)[old(currentPage) := live]
                              else old(tempPages)) &&
                pages == old(pages)
      ensures canvasReady == old(canvasReady)
    {
      ChangePage(target, live);
      RunMountEffect(reply);
    }

    /** addNewPage: store the live canvas under the current page, add the
        new number with Null data and make it current. */
    method AddNewPage(live: Canvas) returns (n: int)
      modifies this
      ensures n == NewPageNumber(old(tempPages).Keys, old(pages))
      ensures tempPages == (if old(canvasReady) then old(tempPages)[old(currentPage) := live]
                            else old(tempPages))[n := Null]
      ensures currentPage == n && currentPageData == Unset
      ensures pages == old(pages) && canvasReady == old(canvasReady) && effectPage == old(effectPage)
    {
      n := NewPageNumber(tempPages.Keys, pages);
      if canvasReady {
        tempPages := tempPages[currentPage := live];
      }
      tempPages := tempPages[n := Null];
      currentPage := n;
      currentPageData := Unset;
    }

    /** The effect that creates the first page of a book with no pages once
        the canvas is ready and the book's record has been loaded. */
    method AutoCreateFirstPage(live: Canvas, bookDataLoaded: bool) returns (created: Option<int>)
      modifies this
      ensures created.Some? <==> old(pages) == [] && old(canvasReady) && bookDataLoaded
      ensures created.Some? ==>
                (created.value == NewPageNumber(old(tempPages).Keys, old(pages)) && currentPage == created.value &&
                 tempPages == old(tempPages)[old(currentPage) := live][created.value := Null])
      ensures created.Some? ==> currentPageData == Unset
      ensures created.None? ==>
                tempPages == old(tempPages) && currentPage == old(currentPage) &&
                currentPageData == old(currentPageData)
      ensures pages == old(pages)
      ensures canvasReady == old(canvasReady) && effectPage == old(effectPage)
    {
      created := None;
      if |pages| == 0 && canvasReady && bookDataLoaded {
        var n := AddNewPage(live);
        created := Some(n);
      }
    }

    /** The previous-page button: go to max(1, currentPage - 1) unless that
        is where the editor already is. */
    method Previous(live: Canvas)
      modifies this
      ensures old(currentPage) > 1 ==> currentPage == old(currentPage) - 1 && currentPageData == Unset
      ensures old(currentPage) >= 1 ==> currentPage >= 1
      ensures old(currentPage) > 1 && old(canvasReady) ==>
                tempPages == old(tempPages)[old(currentPage) := live]
      ensures old(currentPage) <= 1 ==>
                currentPage == old(currentPage) && currentPageData == old(currentPageData)
      ensures old(currentPage) <= 1 || !old(canvasReady) ==> tempPages == old(tempPages)
      ensures pages == old(pages)
      ensures canvasReady == old(canvasReady) && effectPage == old(effectPage)
    {
      // the button is disabled while currentPage <= 1, so a click there does nothing
      if currentPage > 1 {
        var prevPage := if currentPage - 1 >= 1 then currentPage - 1 else 1;
        if prevPage != currentPage {
          ChangePage(prevPage, live);
        }
      }
    }

    /** The next-page button is enabled when tempPages holds a truthy value
        under currentPage + 1: a page added but never drawn, or a loaded row
        whose drawing is missing, keeps it disabled. */
    predicate NextEnabled()
      reads this
      ensures NextEnabled() ==> currentPage + 1 in tempPages && tempPages[currentPage + 1] != Null
      ensures currentPage + 1 !in tempPages ==> !NextEnabled()
    {
      currentPage + 1 in tempPages && tempPages[currentPage + 1].Truthy()
    }

    /** The next-page handler, reachable only through the enabled button,
        moves only if a loaded row has number currentPage + 1; an unsaved
        page there does not count. */
    method Next(live: Canvas)
      modifies this
      ensures old(NextEnabled()) &&
              (exists i :: 0 <= i < |old(pages)| && old(pages)[i].pageNumber == old(currentPage) + 1) ==>
                currentPage == old(currentPage) + 1 && currentPageData == Unset &&
                tempPages == (if old(canvasReady) then old(tempPages)[old(currentPage) := live] else old(tempPages))
      ensures !(old(NextEnabled()) &&
                (exists i :: 0 <= i < |old(pages)| && old(pages)[i].pageNumber == old(currentPage) + 1)) ==>
                currentPage == old(currentPage) && tempPages == old(tempPages) &&
                currentPageData == old(currentPageData)
      ensures pages == old(pages)
      ensures canvasReady == old(canvasReady) && effectPage == old(effectPage)
    {
      if NextEnabled() {
        var nextPage := currentPage + 1;
        var pageExists := exists i :: 0 <= i < |pages| && pages[i].pageNumber == nextPage;
        if pageExists {
          ChangePage(nextPage, live);
        }
      }
    }

    /** The delete button is enabled only while tempPages has more than one
        entry, that is while getTotalPages would report more than one page. */
    predicate DeleteEnabled()
      reads this
      ensures DeleteEnabled() <==> TotalPages() > 1
    {
      |tempPages| > 1
    }

    /** getTotalPages: the number of entries in tempPages. */
    function TotalPages(): (n: nat)
      reads this
      ensures n == 0 <==> tempPages == map[]
      ensures n == |tempPages.Keys|
    {
      assert tempPages == map[] <==> tempPages.Keys == {};
      |tempPages|
    }

    /** getMaxPage: the largest loaded page number, 1 when none is loaded. */
    function MaxPage(): (m: int)
      reads this
      ensures pages == [] ==> m == 1
      ensures pages != [] ==> (exists i :: 0 <= i < |pages| && pages[i].pageNumber == m)
      ensures forall i :: 0 <= i < |pages| ==> pages[i].pageNumber <= m
    {
      if |pages| == 0 then 1
      else
        var ns := set i | 0 <= i < |pages| :: pages[i].pageNumber;
        assert pages[0].pageNumber in ns;
        assert forall i :: 0 <= i < |pages| ==> pages[i].pageNumber in ns;
        Greatest(ns)
    }

    /** The confirmed delete: DELETE the current page on the server (the
        table `remote`), then move back to max(1, currentPage - 1) and
        refetch.  The server removes only that row, and the refetch replaces
        tempPages with the server's pages, so unsaved entries are dropped.
        The delete button, the only way to the confirmation, is disabled
        unless DeleteEnabled() holds. */
    method DeleteCurrentPage(remote: map<int, Canvas>, deleteFails: bool, fetchFails: bool)
      returns (remoteAfter: map<int, Canvas>)
      requires DeleteEnabled()
      modifies this
      ensures deleteFails ==>
                (remoteAfter == remote && tempPages == old(tempPages) &&
                 pages == old(pages) && currentPage == old(currentPage) &&
                 currentPageData == old(currentPageData))
      ensures !deleteFails ==> remoteAfter == remote - {old(currentPage)}
      ensures !deleteFails ==>
                currentPage == (if old(currentPage) - 1 >= 1 then old(currentPage) - 1 else 1) &&
                currentPageData == Unset
      ensures !deleteFails && !fetchFails ==> tempPages == remoteAfter && pages == RowsOf(remoteAfter)
      ensures !deleteFails && fetchFails ==> tempPages == old(tempPages) && pages == old(pages)
      ensures canvasReady == old(canvasReady) && effectPage == old(effectPage)
    {
      if deleteFails {
        return remote;
      }
      remoteAfter := remote - {currentPage};
      var newPage := if currentPage - 1 >= 1 then currentPage - 1 else 1;
      currentPage := newPage;
      currentPageData := Unset;
      if fetchFails {
        Reload(None);
      } else {
        Reload(Some(RowsOf(remoteAfter)));
        PageMapOfRows(remoteAfter);
      }
    }

    /** savePage: with the live canvas put under the current page (in a copy;
        tempPages itself is not changed), PUT every non-null entry under its
        own page number in ascending order.  The first rejected PUT aborts
        the loop and skips the refetch; earlier PUTs stay applied.  After all
        PUTs succeed, the pages are fetched again. */
    method SavePage(live: Canvas, remote: map<int, Canvas>, rejected: set<int>, fetchFails: bool)
      returns (outcome: SaveOutcome, remoteAfter: map<int, Canvas>)
      modifies this
      ensures !old(canvasReady) ==> outcome == SaveNotReady && remoteAfter == remote
      ensures old(canvasReady) ==> outcome != SaveNotReady
      ensures outcome == Saved ==>
                remoteAfter == remote + Written(old(tempPages)[old(currentPage) := live],
                                                old(tempPages)[old(currentPage) := live].Keys)
      ensures outcome.WriteFailed? ==>
                var updated := old(tempPages)[old(currentPage) := live];
                var k := outcome.pageNumber;
                && k in updated && updated[k] != Null && k in rejected
                && (forall j :: j in updated && j < k && updated[j] != Null ==> j !in rejected)
                && remoteAfter == remote + Written(updated, Below(updated, k))
      ensures outcome == Saved && !fetchFails ==> tempPages == remoteAfter && pages == RowsOf(remoteAfter)
      ensures outcome != Saved || fetchFails ==> tempPages == old(tempPages) && pages == old(pages)
      ensures currentPage == old(currentPage) && currentPageData == old(currentPageData)
      ensures canvasReady == old(canvasReady) && effectPage == old(effectPage)
    {
      if !canvasReady {
        return SaveNotReady, remote;
      }
      var failedAt;
      failedAt, remoteAfter := SendWrites(tempPages[currentPage := live], remote, rejected);
      if failedAt.Some? {
        outcome := WriteFailed(failedAt.value);
      } else {
        outcome := Saved;
        if fetchFails {
          Reload(None);
        } else {
          Reload(Some(RowsOf(remoteAfter)));
          PageMapOfRows(remoteAfter);
        }
      }
    }

    /** The page numbers exportToPDF visits: the keys of tempPages with the
        live canvas under the current page, ascending. */
    function ExportOrder(live: Canvas): (order: seq<int>)
      reads this
      ensures forall j :: 0 <= j < |order| ==> order[j] in tempPages[currentPage := live]
      ensures forall k :: k in tempPages[currentPage := live] ==> k in order
      ensures forall a, b :: 0 <= a < b < |order| ==> order[a] < order[b]
      ensures currentPage in order
    {
      var keys := tempPages[currentPage := live].Keys;
      assert currentPage in keys;
      var order := Ascending(keys);
      AscendingComplete(keys);
      AscendingSorted(keys);
      assert currentPage in order;
      order
    }

    /** exportToPDF: visit the page numbers in ascending order, render each
        page whose data is an object, and lay the images out on sheets.
        Nothing in the editor's state changes. */
    method ExportToPdf(live: Canvas) returns (outcome: ExportOutcome, sheets: seq<Sheet>)
      ensures !canvasReady ==> outcome == ExportNotReady && sheets == []
      ensures canvasReady ==> outcome == (if ExportOrder(live) == [] then NoPages else Exported)
      ensures outcome == Exported ==>
                sheets == SheetsAsWritten(ExportOrder(live), tempPages[currentPage := live])
      ensures outcome == NoPages ==> sheets == []
    {
      if !canvasReady {
        return ExportNotReady, [];
      }
      var data := tempPages[currentPage := live];
      var allPages := Ascending(data.Keys);
      outcome := if |allPages| == 0 then NoPages else Exported;
      sheets := [BlankSheet];
      var i := 0;
      while i < |allPages|
        invariant 0 <= i <= |allPages|
        invariant sheets == SheetsAsWritten(allPages[..i], data)
      {
        var pageNumber := allPages[i];
        assert allPages[..i + 1][..i] == allPages[..i];
        if data[pageNumber].Obj? {
          if i > 0 {
            sheets := sheets + [BlankSheet];
          }
          sheets := sheets[..|sheets| - 1] + [Image(pageNumber)];
        }
        i := i + 1;
      }
      assert allPages[..|allPages|] == allPages;
      sheets := if outcome == NoPages then [] else sheets;
    }
  }
}
