/** The drawing surface (frontend/src/components/FabricCanvas.js): the
    undo/redo history of canvas states, the right-button pan and
    context-menu gesture, and clearing a page.  Canvas states are opaque
    values compared with == (the source compares their JSON text). */
module FabricCanvas {
  import opened Common

  /** Neither stack keeps more than this many states. */
  const MaxHistory: nat := 10

  // ---------------------------------------------------------------------
  // Undo/redo history
  // ---------------------------------------------------------------------

  /** The history record `{ undo, redo }`: the top of `undo` (its last
      entry) is the state on the canvas; `redo[0]` is the next state to
      restore. */
  datatype History<S> = History(undo: seq<S>, redo: seq<S>)

  function Min(a: int, b: int): int {
    if a <= b then a else b
  }

  /** `s.slice(-n)`: the last n entries, or all of s when it is shorter. */
  function KeepLast<S>(s: seq<S>, n: nat): (r: seq<S>)
    ensures |r| == Min(|s|, n)
    ensures forall i :: 0 <= i < |r| ==> r[i] == s[|s| - |r| + i]
  {
    if |s| <= n then s else s[|s| - n..]
  }

  /** The history before the first state is recorded. */
  function EmptyHistory<S>(): History<S> {
    History([], [])
  }

  /** The history recorded once the canvas is set up: its initial state
      alone on the undo stack. */
  function InitialHistory<S>(init: S): (h: History<S>)
    ensures h.undo == [init] && h.redo == []
  {
    History([init], [])
  }

  /** A state equal to the top of the undo stack is not recorded again. */
  predicate IsTop<S(==)>(h: History<S>, state: S) {
    |h.undo| > 0 && h.undo[|h.undo| - 1] == state
  }

  /** saveState: push the canvas state unless it repeats the top of the
      undo stack, keep the newest MaxHistory states, and drop the redo stack. */
  function SaveState<S(==)>(h: History<S>, state: S): (h': History<S>)
    ensures IsTop(h, state) <==> h' == h
    ensures IsTop(h', state)
    ensures !IsTop(h, state) ==> h'.redo == []
    ensures !IsTop(h, state) ==> |h'.undo| == Min(|h.undo| + 1, MaxHistory)
    ensures !IsTop(h, state) ==>
              forall i :: 0 <= i < |h'.undo| - 1 ==> h'.undo[i] == h.undo[|h.undo| + 1 - |h'.undo| + i]
  {
    if IsTop(h, state) then h
    else
      var undo := KeepLast(h.undo + [state], MaxHistory);
      assert undo[|undo| - 1] == state;
      History(undo, [])
  }

  /** undo: with at least two states on the undo stack, move the top one to
      the front of the redo stack, which keeps its first MaxHistory entries. */
  function Undo<S>(h: History<S>): (h': History<S>)
    ensures |h.undo| <= 1 ==> h' == h
    ensures |h.undo| > 1 ==> h'.undo + [h.undo[|h.undo| - 1]] == h.undo
    ensures |h.undo| > 1 ==> |h'.redo| > 0 && h'.redo[0] == h.undo[|h.undo| - 1]
    ensures |h.undo| > 1 ==> h'.redo[1..] == h.redo[..Min(|h.redo|, MaxHistory - 1)]
    ensures |h'.redo| <= MaxHistory || h' == h
  {
    if |h.undo| > 1 then
      var current := h.undo[|h.undo| - 1];
      var redo := [current] + h.redo[..Min(|h.redo|, MaxHistory - 1)];
      assert redo[1..] == h.redo[..Min(|h.redo|, MaxHistory - 1)];
      History(h.undo[..|h.undo| - 1], redo)
    else h
  }

  /** redo: with a state on the redo stack, move its first entry onto the
      undo stack (no trimming happens here). */
  function Redo<S>(h: History<S>): (h': History<S>)
    ensures |h.redo| == 0 ==> h' == h
    ensures |h.redo| > 0 ==> h'.undo == h.undo + [h.redo[0]] && [h.redo[0]] + h'.redo == h.redo
  {
    if |h.redo| > 0 then
      assert h.redo == [h.redo[0]] + h.redo[1..];
      History(h.undo + [h.redo[0]], h.redo[1..])
    else h
  }

  /** The invariant of every history the component can reach: the two
      stacks together hold at most MaxHistory states, and a state can only
      be redone while one remains to undo to. */
  predicate WellFormed<S>(h: History<S>) {
    |h.undo| + |h.redo| <= MaxHistory && (h.redo != [] ==> h.undo != [])
  }

  lemma InitialWellFormed<S>(init: S)
    ensures WellFormed(EmptyHistory<S>()) && WellFormed(InitialHistory(init))
    ensures |InitialHistory(init).undo| == 1
  {
  }

  /** saveState, undo and redo preserve the invariant, so neither stack ever
      exceeds MaxHistory entries. */
  lemma TransitionsPreserveWellFormed<S>(h: History<S>, state: S)
    requires WellFormed(h)
    ensures WellFormed(SaveState(h, state))
    ensures WellFormed(Undo(h))
    ensures WellFormed(Redo(h))
    ensures |SaveState(h, state).undo| <= MaxHistory && |Undo(h).redo| <= MaxHistory
  {
    var u := Undo(h);
    if |h.undo| > 1 {
      assert |u.undo| == |h.undo| - 1;
      assert |u.redo| == 1 + Min(|h.redo|, MaxHistory - 1);
    }
  }

  /** undo never empties the undo stack, and once the undo stack holds a
      state no transition empties it again. */
  lemma UndoStackNeverEmptied<S>(h: History<S>, state: S)
    ensures |Undo(h).undo| >= 1 <==> |h.undo| >= 1
    ensures |SaveState(h, state).undo| >= 1
    ensures |h.undo| >= 1 ==> |Redo(h).undo| >= 1
  {
    if |h.undo| > 1 {
      assert |Undo(h).undo| == |h.undo| - 1;
    }
  }

  /** redo right after undo restores both stacks exactly. */
  lemma RedoAfterUndo<S>(h: History<S>)
    requires WellFormed(h) && |h.undo| > 1
    ensures Redo(Undo(h)) == h
  {
    var u := Undo(h);
    assert u.redo[1..] == h.redo;
    assert u.undo + [u.redo[0]] == h.undo;
  }

  /** undo right after redo restores both stacks exactly. */
  lemma UndoAfterRedo<S>(h: History<S>)
    requires WellFormed(h) && |h.redo| > 0
    ensures Undo(Redo(h)) == h
  {
    var r := Redo(h);
    assert r.undo[..|r.undo| - 1] == h.undo;
    assert r.redo[..Min(|r.redo|, MaxHistory - 1)] == r.redo;
    assert [h.redo[0]] + r.redo == h.redo;
  }

  /** The precondition of the round trip is needed: a full redo stack loses
      its last entry when a further state is undone onto it. */
  lemma UndoOntoFullRedoDropsOldest()
    ensures var h := History([0, 1], [2, 3, 4, 5, 6, 7, 8, 9, 10, 11]);
            !WellFormed(h) && Redo(Undo(h)) != h
  {
    var h := History([0, 1], [2, 3, 4, 5, 6, 7, 8, 9, 10, 11]);
    assert Undo(h).redo == [1, 2, 3, 4, 5, 6, 7, 8, 9, 10];
    assert |Redo(Undo(h)).redo| == 9;
  }

  // ---------------------------------------------------------------------
  // Right-button panning and the context menu
  // ---------------------------------------------------------------------

  datatype Point = Point(x: int, y: int)

  /** The fabric object under the pointer when the right button went down. */
  datatype Target = Target(id: int, isPageBoundary: bool, excludeFromExport: bool)

  /** The context-menu state `{ visible, x, y, target }`. */
  datatype Menu = Hidden | Open(x: int, y: int, target: Target)

  /** The movement threshold, in pixels, beyond which a right drag pans. */
  const PanThreshold: int := 5

  function Abs(n: int): (r: nat)
    ensures r == n || r == -n
  {
    if n < 0 then -n else n
  }

  /** The closure variables of the gesture handlers together with the
      fabric state they touch: `selection` and the translation entries
      vpt[4], vpt[5] of the viewport transform. */
  class PanGesture {
    var isPanning: bool
    var lastPanPoint: Option<Point>
    var hasMoved: bool
    var rightClickTarget: Option<Target>
    var selection: bool
    var vptX: int
    var vptY: int
    var menu: Menu

    /** Group selection is switched off exactly while a pan is under way. */
    ghost predicate Valid()
      reads this
    {
      selection <==> !isPanning
    }

    constructor (x0: int, y0: int)
      ensures Valid()
      ensures !isPanning && lastPanPoint == None && !hasMoved && rightClickTarget == None
      ensures selection && vptX == x0 && vptY == y0 && menu == Hidden
    {
      isPanning, lastPanPoint, hasMoved, rightClickTarget := false, None, false, None;
      selection, vptX, vptY, menu := true, x0, y0, Hidden;
    }

    /** handleMouseDown: a right press records where it happened, forgets
        earlier movement, and records the object under the pointer. */
    method MouseDown(button: int, at: Point, target: Option<Target>)
      requires Valid()
      modifies this
      ensures Valid()
      ensures button == 2 ==> lastPanPoint == Some(at) && !hasMoved && rightClickTarget == target
      ensures button != 2 ==>
                (lastPanPoint == old(lastPanPoint) && hasMoved == old(hasMoved) &&
                 rightClickTarget == old(rightClickTarget))
      ensures isPanning == old(isPanning) && selection == old(selection)
      ensures vptX == old(vptX) && vptY == old(vptY) && menu == old(menu)
    {
      if button == 2 {
        lastPanPoint := Some(at);
        hasMoved := false;
        rightClickTarget := target;
      }
    }

    /** The fabric `mouse:down` listener: a right press on an object that is
        not excluded from export hides the context menu. */
    method CanvasMouseDown(button: int, target: Option<Target>)
      modifies this
      ensures button == 2 && target.Some? && !target.value.excludeFromExport ==> menu == Hidden
      ensures !(button == 2 && target.Some? && !target.value.excludeFromExport) ==> menu == old(menu)
      ensures isPanning == old(isPanning) && lastPanPoint == old(lastPanPoint) && hasMoved == old(hasMoved)
      ensures rightClickTarget == old(rightClickTarget) && selection == old(selection)
      ensures vptX == old(vptX) && vptY == old(vptY)
    {
      if button == 2 && target.Some? && !target.value.excludeFromExport {
        menu := Hidden;
      }
    }

    /** handleMouseMove: while the right button is held after a right press,
        a move of more than PanThreshold pixels on either axis starts or
        continues a pan and shifts the viewport by exactly the move; a
        smaller one only moves the reference point. */
    method MouseMove(buttons: int, at: Point)
      requires Valid()
      modifies this
      ensures Valid()
      ensures old(lastPanPoint).None? || buttons != 2 ==>
                isPanning == old(isPanning) && hasMoved == old(hasMoved) && lastPanPoint == old(lastPanPoint) &&
                vptX == old(vptX) && vptY == old(vptY)
      ensures old(lastPanPoint).Some? && buttons == 2 ==> lastPanPoint == Some(at)
      ensures old(lastPanPoint).Some? && buttons == 2 ==>
                var dx := at.x - old(lastPanPoint).value.x;
                var dy := at.y - old(lastPanPoint).value.y;
                if Abs(dx) > PanThreshold || Abs(dy) > PanThreshold then
                  isPanning && hasMoved && vptX == old(vptX) + dx && vptY == old(vptY) + dy
                else
                  isPanning == old(isPanning) && hasMoved == old(hasMoved) &&
                  vptX == old(vptX) && vptY == old(vptY)
      ensures rightClickTarget == old(rightClickTarget) && menu == old(menu)
    {
      if lastPanPoint.Some? && buttons == 2 {
        var deltaX := at.x - lastPanPoint.value.x;
        var deltaY := at.y - lastPanPoint.value.y;
        if Abs(deltaX) > PanThreshold || Abs(deltaY) > PanThreshold {
          if !isPanning {
            isPanning := true;
            selection := false;
          }
          hasMoved := true;
          vptX := vptX + deltaX;
          vptY := vptY + deltaY;
        }
        lastPanPoint := Some(at);
      }
    }

    /** handleMouseUp: releasing the right button ends a pan, restores
        selection and forgets the reference point. */
    method MouseUp(button: int)
      requires Valid()
      modifies this
      ensures Valid()
      ensures button == 2 ==> !isPanning && selection && lastPanPoint == None
      ensures button != 2 ==> isPanning == old(isPanning) && lastPanPoint == old(lastPanPoint)
      ensures hasMoved == old(hasMoved) && rightClickTarget == old(rightClickTarget)
      ensures vptX == old(vptX) && vptY == old(vptY) && menu == old(menu)
    {
      if button == 2 {
        if isPanning {
          isPanning := false;
          selection := true;
        }
        lastPanPoint := None;
      }
    }

    /** handleContextMenu: the menu opens at the pointer for the pressed
        object only when the press did not turn into a pan and the object is
        not the page boundary; the press is forgotten either way. */
    method ContextMenu(at: Point)
      requires Valid()
      modifies this
      ensures Valid()
      ensures !old(hasMoved) && old(rightClickTarget).Some? && !old(rightClickTarget).value.isPageBoundary ==>
                menu == Open(at.x, at.y, old(rightClickTarget).value)
      ensures !(!old(hasMoved) && old(rightClickTarget).Some? && !old(rightClickTarget).value.isPageBoundary) ==>
                menu == old(menu)
      ensures !hasMoved && rightClickTarget == None
      ensures isPanning == old(isPanning) && lastPanPoint == old(lastPanPoint) && selection == old(selection)
      ensures vptX == old(vptX) && vptY == old(vptY)
    {
      if !hasMoved && rightClickTarget.Some? && !rightClickTarget.value.isPageBoundary {
        menu := Open(at.x, at.y, rightClickTarget.value);
      }
      hasMoved := false;
      rightClickTarget := None;
    }
  }

  // ---------------------------------------------------------------------
  // clearCanvas
  // ---------------------------------------------------------------------

  /** An object on the canvas; `id` stands for its identity. */
  datatype Shape = Shape(id: int, isPageBoundary: bool)

  /** The page-boundary objects of `s`, in their order. */
  function Boundaries(s: seq<Shape>): (r: seq<Shape>)
    ensures forall i :: 0 <= i < |r| ==> r[i].isPageBoundary
    ensures forall x :: x in s && x.isPageBoundary ==> x in r
    ensures multiset(r) <= multiset(s)
    ensures |r| <= |s|
    decreases |s|
  {
    if s == [] then []
    else
      var front := s[..|s| - 1];
      var last := s[|s| - 1];
      assert s == front + [last];
      if last.isPageBoundary then Boundaries(front) + [last] else Boundaries(front)
  }

  /** Clearing a cleared page changes nothing. */
  lemma {:induction false} BoundariesIdempotent(s: seq<Shape>)
    ensures Boundaries(Boundaries(s)) == Boundaries(s)
    decreases |s|
  {
    if s != [] {
      var front := s[..|s| - 1];
      var last := s[|s| - 1];
      BoundariesIdempotent(front);
      if last.isPageBoundary {
        var b := Boundaries(front) + [last];
        assert b[..|b| - 1] == Boundaries(front);
      }
    }
  }

  /** Removing a shape by its first occurrence, as canvas.remove does
      (nothing happens when it is not on the canvas). */
  function RemoveFirst(s: seq<Shape>, x: Shape): (r: seq<Shape>)
    ensures x !in s ==> r == s
    ensures x in s ==> |r| == |s| - 1 && multiset(r) == multiset(s) - multiset{x}
    decreases |s|
  {
    if s == [] then []
    else
      assert s == [s[0]] + s[1..];
      if s[0] == x then s[1..] else [s[0]] + RemoveFirst(s[1..], x)
  }

  /** Removing a shape that is not a boundary from a boundary-only prefix
      followed by that shape removes exactly that shape. */
  lemma {:induction false} RemoveAfterBoundaries(b: seq<Shape>, x: Shape, rest: seq<Shape>)
    requires forall i :: 0 <= i < |b| ==> b[i].isPageBoundary
    requires !x.isPageBoundary
    ensures RemoveFirst(b + [x] + rest, x) == b + rest
    decreases |b|
  {
    if b == [] {
      assert b + [x] + rest == [x] + rest;
    } else {
      assert (b + [x] + rest)[1..] == b[1..] + [x] + rest;
      RemoveAfterBoundaries(b[1..], x, rest);
      assert b == [b[0]] + b[1..];
    }
  }

  /** One iteration of the clearCanvas loop keeps its invariant. */
  lemma ClearStep(snapshot: seq<Shape>, i: int)
    requires 0 <= i < |snapshot|
    ensures !snapshot[i].isPageBoundary ==>
              RemoveFirst(Boundaries(snapshot[..i]) + snapshot[i..], snapshot[i]) ==
              Boundaries(snapshot[..i + 1]) + snapshot[i + 1..]
    ensures snapshot[i].isPageBoundary ==>
              Boundaries(snapshot[..i]) + snapshot[i..] == Boundaries(snapshot[..i + 1]) + snapshot[i + 1..]
  {
    var obj := snapshot[i];
    assert snapshot[..i + 1][..i] == snapshot[..i];
    assert snapshot[i..] == [obj] + snapshot[i + 1..];
    var b := Boundaries(snapshot[..i]);
    assert b + snapshot[i..] == b + [obj] + snapshot[i + 1..];
    if !obj.isPageBoundary {
      RemoveAfterBoundaries(b, obj, snapshot[i + 1..]);
    }
  }

  /** The objects of one canvas, in drawing order. */
  class Scene {
    var objects: seq<Shape>

    constructor (boundary: Shape)
      requires boundary.isPageBoundary
      ensures objects == [boundary]
    {
      objects := [boundary];
    }

    method Remove(x: Shape)
      modifies this
      ensures objects == RemoveFirst(old(objects), x)
    {
      objects := RemoveFirst(objects, x);
    }

    /** clearCanvas: walk a copy of the object list and remove every object
        that is not a page boundary; the boundaries stay, in order. */
    method ClearCanvas()
      modifies this
      ensures objects == Boundaries(old(objects))
    {
      var snapshot := objects;
      var i := 0;
      while i < |snapshot|
        invariant 0 <= i <= |snapshot|
        invariant objects == Boundaries(snapshot[..i]) + snapshot[i..]
      {
        var obj := snapshot[i];
        ClearStep(snapshot, i);
        if !obj.isPageBoundary {
          Remove(obj);
        }
        i := i + 1;
      }
      assert snapshot[..|snapshot|] == snapshot;
    }
  }
}
