/** The input normalisers: how a wheel event and a pointer drag turn into a
    requested track position, or into no request at all. */
module Input {
  import opened Wrappers
  import opened Bounds

  // ---------------------------------------------------------------- wheel

  /** One element on the path from a wheel event's target up to, but not
      including, the track or the page body. `overflowScrollable` says whether
      its computed `overflow-y` is `auto` or `scroll`. */
  datatype Ancestor = Ancestor(scrollTop: real, clientHeight: real, scrollHeight: real, overflowScrollable: bool)

  predicate CanScrollY(a: Ancestor) {
    a.scrollHeight > a.clientHeight && a.overflowScrollable
  }

  predicate AtTop(a: Ancestor) {
    a.scrollTop <= 0.0
  }

  predicate AtBottom(a: Ancestor) {
    a.scrollTop + a.clientHeight >= a.scrollHeight - 1.0
  }

  /** `a` can still scroll vertically in the direction of `deltaY`, so the wheel
      event is left to the browser's native vertical scrolling. */
  predicate KeepsVerticalScroll(a: Ancestor, deltaY: real) {
    CanScrollY(a) && ((deltaY < 0.0 && !AtTop(a)) || (deltaY > 0.0 && !AtBottom(a)))
  }

  /** Walks the chain from the event target outwards and returns the position of
      the first element that can still scroll vertically in the direction of `deltaY`. */
  method VerticalScrollableAncestor(chain: seq<Ancestor>, deltaY: real) returns (r: Option<nat>)
    ensures r.Some? ==> r.value < |chain| && KeepsVerticalScroll(chain[r.value], deltaY)
    ensures r.Some? ==> forall j :: 0 <= j < r.value ==> !KeepsVerticalScroll(chain[j], deltaY)
    ensures r.None? <==> forall j :: 0 <= j < |chain| ==> !KeepsVerticalScroll(chain[j], deltaY)
    ensures deltaY == 0.0 ==> r.None?
  {
    var i := 0;
    while i < |chain|
      invariant 0 <= i <= |chain|
      invariant forall j :: 0 <= j < i ==> !KeepsVerticalScroll(chain[j], deltaY)
    {
      var a := chain[i];
      if CanScrollY(a) {
        if (deltaY < 0.0 && !AtTop(a)) || (deltaY > 0.0 && !AtBottom(a)) {
          return Some(i);
        }
      }
      i := i + 1;
    }
    return None;
  }

  /** The dominant axis of a wheel event: the delta of larger magnitude, with
      ties going to the vertical delta. */
  function DominantDelta(deltaX: real, deltaY: real): (h: real)
    ensures Abs(h) == Max(Abs(deltaX), Abs(deltaY))
    ensures h == deltaX || h == deltaY
    ensures Abs(deltaX) <= Abs(deltaY) ==> h == deltaY
  {
    if Abs(deltaX) > Abs(deltaY) then deltaX else deltaY
  }

  // ---------------------------------------------------------------- drag

  datatype PointerKind = Mouse | Pen | Touch

  /** A pointer event on the track. `onInteractive` says whether its target lies
      inside a link, button, `[role="button"]`, input, textarea, select or summary. */
  datatype PointerEvent = PointerEvent(kind: PointerKind, pointerId: int, clientX: real, onInteractive: bool)

  /** The drag-session variables of the track. */
  datatype Drag = Drag(isDown: bool, isDragging: bool, startX: real, startLeft: real, activePointer: Option<int>)

  /** A horizontal movement below this many pixels is still a click. */
  const DRAG_THRESHOLD: real := 6.0

  /** The session variables as declared, before any pointer event. */
  const NoDrag: Drag := Drag(false, false, 0.0, 0.0, None)

  /** A session is latched only while the pointer is down, and a pointer is held
      exactly while it is down. */
  predicate DragValid(d: Drag) {
    (d.isDragging ==> d.isDown) && (d.isDown <==> d.activePointer.Some?)
  }

  /** `pointerdown`: touch pointers and presses on interactive elements start no
      session; any other press records its origin and the track position. */
  function DragStart(d: Drag, e: PointerEvent, scrollLeft: real): (r: Drag)
    ensures DragValid(r) || r == d
    ensures e.kind == Touch || e.onInteractive ==> r == d
    ensures e.kind != Touch && !e.onInteractive ==> r.isDown && !r.isDragging && r.activePointer == Some(e.pointerId)
    ensures e.kind != Touch && !e.onInteractive ==> r.startX == e.clientX && r.startLeft == scrollLeft
  {
    if e.kind == Touch then d
    else if e.onInteractive then d
    else Drag(true, false, e.clientX, scrollLeft, Some(e.pointerId))
  }

  /** `pointermove`: the new session and the track position it requests, if any.
      Before the session latches, a movement below the threshold requests nothing.
      A move never changes the origin or the held pointer, and never unlatches. */
  function DragMove(d: Drag, e: PointerEvent): (r: (Drag, Option<real>))
    ensures r.0 == d.(isDragging := r.0.isDragging)
    ensures d.isDragging ==> r.0.isDragging
    ensures r.1.Some? ==> r.0.isDragging && r.0.isDown
  {
    if e.kind == Touch then (d, None)
    else if !d.isDown then (d, None)
    else
      var dx := e.clientX - d.startX;
      if !d.isDragging && Abs(dx) < DRAG_THRESHOLD then (d, None)
      else (d.(isDragging := true), Some(d.startLeft - dx))
  }

  /** `pointerup` / `pointercancel`: always ends the session, latched or not. */
  function DragRelease(d: Drag): (r: Drag)
    ensures DragValid(r) && !r.isDown && !r.isDragging && r.activePointer == None
    ensures r.startX == d.startX && r.startLeft == d.startLeft
  {
    d.(isDown := false, isDragging := false, activePointer := None)
  }

  /** A move requests a position exactly when it comes from a non-touch pointer
      during a session that is latched or latches now; the request is the origin
      track position minus the horizontal movement, and the only change to the
      session is that it is latched; the session stays valid. */
  lemma DragMoveRequests(d: Drag, e: PointerEvent)
    requires DragValid(d)
    ensures DragValid(DragMove(d, e).0)
    ensures DragMove(d, e).1.Some? <==>
      e.kind != Touch && d.isDown && (d.isDragging || Abs(e.clientX - d.startX) >= DRAG_THRESHOLD)
    ensures DragMove(d, e).1.Some? ==>
      DragMove(d, e).1.value == d.startLeft - (e.clientX - d.startX) && DragMove(d, e).0 == d.(isDragging := true)
    ensures DragMove(d, e).1.None? ==> DragMove(d, e).0 == d
  {
  }

  /** Feeds a sequence of pointer moves to the session, collecting the requests
      in order: at most one per move, and the session keeps its origin and its
      pointer throughout. */
  function MoveAll(d: Drag, es: seq<PointerEvent>): (r: (Drag, seq<real>))
    ensures |r.1| <= |es|
    ensures r.0 == d.(isDragging := r.0.isDragging)
    ensures d.isDragging ==> r.0.isDragging
    decreases |es|
  {
    if es == [] then (d, [])
    else
      var (d1, req) := DragMove(d, es[0]);
      var (d2, reqs) := MoveAll(d1, es[1..]);
      (d2, (if req.Some? then [req.value] else []) + reqs)
  }

  /** Moves that stay within the click tolerance of the origin never latch the
      session and request nothing. */
  lemma {:induction false} SmallMovesRequestNothing(d: Drag, es: seq<PointerEvent>)
    requires !d.isDragging
    requires forall i :: 0 <= i < |es| ==> Abs(es[i].clientX - d.startX) < DRAG_THRESHOLD
    ensures MoveAll(d, es) == (d, [])
    decreases |es|
  {
    if es != [] {
      assert DragMove(d, es[0]) == (d, None);
      assert forall i :: 0 <= i < |es[1..]| ==> es[1..][i] == es[i + 1];
      SmallMovesRequestNothing(d, es[1..]);
      assert MoveAll(d, es).1 == [] + MoveAll(d, es[1..]).1 == [];
    }
  }

  /** Once latched, the session stays latched and every non-touch move requests
      the origin track position minus that move's offset from the origin. */
  lemma {:induction false} LatchedMovesFollowPointer(d: Drag, es: seq<PointerEvent>)
    requires d.isDown && d.isDragging
    requires forall i :: 0 <= i < |es| ==> es[i].kind != Touch
    ensures MoveAll(d, es).0 == d
    ensures |MoveAll(d, es).1| == |es|
    ensures forall i :: 0 <= i < |es| ==> MoveAll(d, es).1[i] == d.startLeft - (es[i].clientX - d.startX)
    decreases |es|
  {
    if es != [] {
      LatchedMovesFollowPointer(d, es[1..]);
      var reqs := MoveAll(d, es[1..]).1;
      assert MoveAll(d, es).1 == [d.startLeft - (es[0].clientX - d.startX)] + reqs;
      forall i | 1 <= i < |es|
        ensures MoveAll(d, es).1[i] == d.startLeft - (es[i].clientX - d.startX)
      {
        assert MoveAll(d, es).1[i] == reqs[i - 1];
        assert es[1..][i - 1] == es[i];
      }
    }
  }

  /** A press followed by a 4 px movement requests nothing; a further movement
      to 10 px from the origin requests exactly the origin track position minus 10. */
  lemma DragThresholdScenario(x0: real, left0: real, id: int)
    ensures var d := DragStart(NoDrag, PointerEvent(Mouse, id, x0, false), left0);
      var m1 := DragMove(d, PointerEvent(Mouse, id, x0 + 4.0, false));
      var m2 := DragMove(m1.0, PointerEvent(Mouse, id, x0 + 10.0, false));
      m1.1 == None && m2.1 == Some(left0 - 10.0) && m2.0.isDragging
  {
  }
}
