/** The horizontal track and its scroll engine: the requested and animated
    positions, the animation-frame loop, the progress bar, and the wheel, drag,
    native-scroll and resize handlers that feed it. */
module Scrolling {
  import opened Wrappers
  import opened Bounds
  import opened Easing
  import opened Input

  /** `!rafId` in JavaScript: true for `null` and for the handle 0. */
  predicate Falsy(id: Option<nat>) {
    id.None? || id.value == 0
  }

  class Scroller {
    // the track element (`#hscroll`)
    var scrollWidth: real
    var clientWidth: real
    var scrollLeft: real
    /** The width of the progress bar, in percent. */
    var progress: real

    // the animation driver
    var targetLeft: real
    var currentLeft: real
    var rafId: Option<nat>
    /** Animation-frame callbacks the browser holds for this track. */
    var pending: nat
    /** The browser's last animation-frame handle; handles start at 1. */
    var lastHandle: nat

    // the drag session
    var drag: Drag

    function MaxScroll(): real
      reads this
    {
      Bounds.MaxScroll(scrollWidth, clientWidth)
    }

    /** The engine's invariant. The browser keeps the content at least as wide
        as the viewport and `scrollLeft` within `[0, MaxScroll()]`; the engine
        keeps its target in range, the progress bar current, and at most one
        animation frame pending, exactly while `rafId` holds its handle. */
    ghost predicate Valid()
      reads this
    {
      Tracked() && 0.0 <= targetLeft <= MaxScroll()
    }

    /** `Valid()` but for the target, which a resize may leave out of range
        until the resize handler re-requests it. */
    ghost predicate Tracked()
      reads this
    {
      0.0 <= clientWidth <= scrollWidth &&
      0.0 <= scrollLeft <= MaxScroll() &&
      progress == Progress(scrollLeft, MaxScroll()) &&
      pending == (if rafId.Some? then 1 else 0) &&
      (rafId.Some? ==> 1 <= rafId.value <= lastHandle) &&
      DragValid(drag)
    }

    /** The state at load: both positions start at the track's `scrollLeft`, no
        frame is scheduled, no drag is in progress, and the progress bar is set. */
    constructor (scrollWidth: real, clientWidth: real, scrollLeft: real)
      requires 0.0 <= clientWidth <= scrollWidth
      requires 0.0 <= scrollLeft <= scrollWidth - clientWidth
      ensures Valid()
      ensures this.scrollWidth == scrollWidth && this.clientWidth == clientWidth && this.scrollLeft == scrollLeft
      ensures targetLeft == scrollLeft && currentLeft == scrollLeft
      ensures rafId == None && pending == 0 && drag == NoDrag
    {
      this.scrollWidth := scrollWidth;
      this.clientWidth := clientWidth;
      this.scrollLeft := scrollLeft;
      targetLeft := scrollLeft;
      currentLeft := scrollLeft;
      rafId := None;
      pending := 0;
      lastHandle := 0;
      drag := NoDrag;
      progress := Progress(scrollLeft, scrollWidth - clientWidth);
    }

    /** `requestAnimationFrame(animate)`: the browser queues one more callback
        and hands out a fresh handle. */
    method ScheduleFrame() returns (handle: nat)
      modifies this`pending, this`lastHandle
      ensures pending == old(pending) + 1
      ensures lastHandle == old(lastHandle) + 1 && handle == lastHandle
    {
      pending := pending + 1;
      lastHandle := lastHandle + 1;
      handle := lastHandle;
    }

    /** Assigning `scrollLeft`: the browser keeps it within the track's range. */
    method WriteScrollLeft(x: real)
      requires 0.0 <= clientWidth <= scrollWidth
      modifies this`scrollLeft
      ensures scrollLeft == Clamp(x, 0.0, MaxScroll())
    {
      scrollLeft := Clamp(x, 0.0, MaxScroll());
    }

    /** `setProgress`. */
    method SetProgress()
      modifies this`progress
      ensures progress == Progress(scrollLeft, MaxScroll())
    {
      progress := Progress(scrollLeft, MaxScroll());
    }

    /** `requestTo`: the target becomes the clamped request, whatever was
        requested before, and a frame is scheduled only if none is pending. */
    method RequestTo(left: real)
      requires Tracked()
      modifies this
      ensures Valid()
      ensures targetLeft == Clamp(left, 0.0, MaxScroll())
      ensures rafId.Some? && pending == 1
      ensures old(rafId).Some? ==> rafId == old(rafId) && lastHandle == old(lastHandle)
      ensures scrollWidth == old(scrollWidth) && clientWidth == old(clientWidth) && scrollLeft == old(scrollLeft)
      ensures currentLeft == old(currentLeft) && progress == old(progress) && drag == old(drag)
    {
      targetLeft := Clamp(left, 0.0, MaxScroll());
      if Falsy(rafId) {
        var h := ScheduleFrame();
        rafId := Some(h);
      }
    }

    /** `animate`, run by the browser for the pending frame: one easing step, or
        the snap to the target that ends the animation. Either way the track
        position is written and the progress bar refreshed. */
    method Frame()
      requires Valid() && pending > 0
      modifies this
      ensures Valid()
      ensures currentLeft == NextLeft(old(currentLeft), targetLeft)
      ensures rafId.Some? <==> !Snaps(old(currentLeft), targetLeft)
      ensures scrollLeft == Clamp(currentLeft, 0.0, MaxScroll())
      ensures targetLeft == old(targetLeft) && scrollWidth == old(scrollWidth) && clientWidth == old(clientWidth)
      ensures drag == old(drag)
    {
      pending := pending - 1;
      if !Snaps(currentLeft, targetLeft) {
        currentLeft := currentLeft + Delta(currentLeft, targetLeft);
        WriteScrollLeft(currentLeft);
        SetProgress();
        var h := ScheduleFrame();
        rafId := Some(h);
      } else {
        WriteScrollLeft(targetLeft);
        currentLeft := targetLeft;
        SetProgress();
        rafId := None;
      }
    }

    /** The browser running the pending frames until the animation stops, with
        no input in between: it stops at the target after `FramesToSettle` frames. */
    method RunFrames() returns (frames: nat)
      requires Valid()
      modifies this
      ensures Valid() && rafId.None? && pending == 0
      ensures targetLeft == old(targetLeft) && scrollWidth == old(scrollWidth) && clientWidth == old(clientWidth)
      ensures old(rafId).Some? ==> currentLeft == targetLeft && scrollLeft == targetLeft
      ensures old(rafId).Some? ==> frames == FramesToSettle(old(currentLeft), old(targetLeft))
      ensures old(rafId).None? ==> frames == 0 && currentLeft == old(currentLeft) && scrollLeft == old(scrollLeft)
      ensures drag == old(drag)
    {
      frames := 0;
      while rafId.Some?
        invariant Valid()
        invariant targetLeft == old(targetLeft) && scrollWidth == old(scrollWidth) && clientWidth == old(clientWidth)
        invariant drag == old(drag)
        invariant old(rafId).None? ==> rafId.None? && frames == 0 && currentLeft == old(currentLeft) && scrollLeft == old(scrollLeft)
        invariant rafId.Some? ==> frames + FramesToSettle(currentLeft, targetLeft) == FramesToSettle(old(currentLeft), old(targetLeft))
        invariant old(rafId).Some? && rafId.None? ==>
          currentLeft == targetLeft && scrollLeft == targetLeft && frames == FramesToSettle(old(currentLeft), old(targetLeft))
        decreases if rafId.Some? then FramesToSettle(currentLeft, targetLeft) else 0
      {
        Frame();
        frames := frames + 1;
      }
    }

    /** A `scroll` event after native scrolling (touch momentum, the scrollbar):
        the browser has moved the track; only the progress bar follows, the
        animated position does not. */
    method OnScroll(x: real)
      requires Valid() && 0.0 <= x <= MaxScroll()
      modifies this
      ensures Valid()
      ensures scrollLeft == x && progress == Progress(x, MaxScroll())
      ensures targetLeft == old(targetLeft) && currentLeft == old(currentLeft) && rafId == old(rafId)
      ensures scrollWidth == old(scrollWidth) && clientWidth == old(clientWidth) && drag == old(drag)
    {
      scrollLeft := x;
      SetProgress();
    }

    /** A window resize: the browser re-clamps the track to its new size, then
        the handler re-requests the current position and refreshes the progress bar. */
    method OnResize(newScrollWidth: real, newClientWidth: real)
      requires Valid() && 0.0 <= newClientWidth <= newScrollWidth
      modifies this
      ensures Valid()
      ensures scrollWidth == newScrollWidth && clientWidth == newClientWidth
      ensures scrollLeft == Clamp(old(scrollLeft), 0.0, MaxScroll())
      ensures targetLeft == scrollLeft && rafId.Some?
      ensures currentLeft == old(currentLeft) && drag == old(drag)
    {
      scrollWidth, clientWidth := newScrollWidth, newClientWidth;
      scrollLeft := Clamp(scrollLeft, 0.0, MaxScroll());
      progress := Progress(scrollLeft, MaxScroll());
      RequestTo(scrollLeft);
      SetProgress();
    }

    /** A `wheel` event whose target has the ancestor chain `chain`: ignored when
        an ancestor can still scroll vertically in its direction, otherwise the
        dominant delta is added to the track position. */
    method OnWheel(deltaX: real, deltaY: real, chain: seq<Ancestor>)
      requires Valid()
      modifies this
      ensures Valid()
      ensures (exists j :: 0 <= j < |chain| && KeepsVerticalScroll(chain[j], deltaY)) ==>
        targetLeft == old(targetLeft) && rafId == old(rafId) && pending == old(pending)
      ensures (forall j :: 0 <= j < |chain| ==> !KeepsVerticalScroll(chain[j], deltaY)) ==>
        targetLeft == Clamp(old(scrollLeft) + DominantDelta(deltaX, deltaY), 0.0, MaxScroll()) && rafId.Some?
      ensures scrollLeft == old(scrollLeft) && currentLeft == old(currentLeft) && drag == old(drag)
      ensures scrollWidth == old(scrollWidth) && clientWidth == old(clientWidth)
    {
      var inner := VerticalScrollableAncestor(chain, deltaY);
      if inner.Some? {
        return;
      }
      RequestTo(scrollLeft + DominantDelta(deltaX, deltaY));
    }

    /** `pointerdown` on the track. */
    method OnPointerDown(e: PointerEvent)
      requires Valid()
      modifies this`drag
      ensures Valid()
      ensures drag == DragStart(old(drag), e, scrollLeft)
    {
      if e.kind == Touch {
        return;
      }
      if e.onInteractive {
        return;
      }
      drag := Drag(true, false, e.clientX, scrollLeft, Some(e.pointerId));
    }

    /** `pointermove` on the track: requests the position the session asks for, if any. */
    method OnPointerMove(e: PointerEvent)
      requires Valid()
      modifies this
      ensures Valid()
      ensures drag == DragMove(old(drag), e).0
      ensures DragMove(old(drag), e).1.Some? ==>
        targetLeft == Clamp(DragMove(old(drag), e).1.value, 0.0, MaxScroll()) && rafId.Some?
      ensures DragMove(old(drag), e).1.None? ==>
        targetLeft == old(targetLeft) && rafId == old(rafId) && pending == old(pending)
      ensures scrollLeft == old(scrollLeft) && currentLeft == old(currentLeft)
      ensures scrollWidth == old(scrollWidth) && clientWidth == old(clientWidth)
    {
      DragMoveRequests(drag, e);
      if e.kind == Touch {
        return;
      }
      if !drag.isDown {
        return;
      }
      var dx := e.clientX - drag.startX;
      if !drag.isDragging {
        if Abs(dx) < DRAG_THRESHOLD {
          return;
        }
        drag := drag.(isDragging := true);
      }
      RequestTo(drag.startLeft - dx);
    }

    /** `pointerup` / `pointercancel`: ends the session whatever its state. */
    method Release()
      requires Valid()
      modifies this`drag
      ensures Valid()
      ensures drag == DragRelease(old(drag))
    {
      drag := drag.(isDown := false, isDragging := false);
      if drag.activePointer.Some? {
        drag := drag.(activePointer := None);
      }
    }
  }

  /** Two requests with no frame in between leave one frame pending and the
      target of the second request. */
  method RequestTwice(s: Scroller, a: real, b: real)
    requires s.Valid()
    modifies s
    ensures s.Valid() && s.pending == 1
    ensures s.targetLeft == Clamp(b, 0.0, s.MaxScroll())
  {
    s.RequestTo(a);
    s.RequestTo(b);
  }

  /** A request followed by the frames it schedules ends at the clamped request. */
  method RequestAndSettle(s: Scroller, left: real)
    requires s.Valid()
    modifies s
    ensures s.Valid() && s.rafId.None?
    ensures s.scrollWidth == old(s.scrollWidth) && s.clientWidth == old(s.clientWidth)
    ensures s.currentLeft == s.scrollLeft == Clamp(left, 0.0, s.MaxScroll())
  {
    s.RequestTo(left);
    var frames := s.RunFrames();
  }

  /** Content 5000 px wide in a 1000 px viewport: asking for 10000 settles at
      4000, the end of the track, with the progress bar full. */
  method EndOfTrackScenario() returns (s: Scroller)
    ensures s.Valid() && s.MaxScroll() == 4000.0
    ensures s.currentLeft == 4000.0 && s.scrollLeft == 4000.0 && s.progress == 100.0
  {
    s := new Scroller(5000.0, 1000.0, 0.0);
    RequestAndSettle(s, 10000.0);
  }
}
