# Horizontal scroll engine and active-panel tracking

This project models, in Dafny, the interaction core of a one-page portfolio
site (`assets/main.js`). The page is a horizontal track of full-viewport
panels. Wheel, pointer drag, keyboard and navigation links all become a
request for a track position (`requestTo`). An animation-frame loop eases the
animated position toward that target and writes it to the track. The progress
bar follows the track position. An IntersectionObserver tracks which panel is
active and updates a set of dependent UI states from it:

- the panels' `is-active` class
- the nav links' `aria-current`
- the arrow buttons
- the theme
- the brand text
- hero mode
- the floating action button
- the swipe hint
- the next-button nudge

Modules, one per component:

- `Bounds` (`bounds.dfy`): `clamp`, `maxScroll`, and the progress percentage.
- `Easing` (`easing.dfy`): one animation frame as a function of the animated
  and target positions. Also the number of frames the animation runs before it
  stops, with a proof that it always stops.
- `Input` (`input.dfy`): the wheel's walk up the ancestor chain and its
  dominant-axis choice. The drag session as value transitions: press, move,
  release.
- `Panels` (`panels.dfy`): the nearest-panel scan (`currentIndex`), the
  `goTo` step, lookup of a panel by id, and the nav-link id map
  (`Object.fromEntries`).
- `ActivePanel` (`active.dfy`): what activating a panel does to the flags,
  the nav highlight and the chrome. Also the one-off priming at load.
- `Scrolling` (`scroller.dfy`): class `Scroller`, the engine state held by the
  script's closure. It has the track (`scrollLeft`, `scrollWidth`,
  `clientWidth`), the progress bar, `targetLeft`, `currentLeft`, `rafId` and
  the drag variables. Its methods are the handlers that change them.
- `Presentation` (`page.dfy`): class `Page`, holding the panels, the nav
  links, their classes and attributes, and the chrome. Its methods are the
  observer callback, `goTo`, `scrollToPanel` and the key handler.

Positions are `real`, not IEEE doubles. `requestAnimationFrame` is modelled
as the browser's counter of pending callbacks (`pending`) and its handle
counter. Its handles start at 1, so `!rafId` is false while a frame is
pending. The browser runs a pending frame when a caller invokes
`Scroller.Frame`. `RunFrames` runs frames until the loop stops.

Three pieces of browser behaviour are made explicit:

- `scrollWidth >= clientWidth >= 0`.
- An assignment to `scrollLeft` is stored clamped to `[0, scrollWidth - clientWidth]`.
- A resize re-clamps `scrollLeft` before the resize handler runs.

Behaviour that is modelled as the code has it:

- `maxScroll()` is `scrollWidth - clientWidth` and is not floored at 0
  (`assets/main.js:16`). A reading of `maxScroll` as `max(0, …)` does not match
  the code. Targets still never go below 0, because the outer `Math.max` of
  `clamp` wins on an empty range.
- Native scrolling moves `scrollLeft` but not `currentLeft`. The next animation
  therefore starts from the last animated position, not from where the track is.
- `Object.fromEntries` keeps the last link for a repeated `data-target`. Only
  that link ever receives `aria-current`; an earlier link with the same target
  (the desktop nav, when the mobile menu repeats it) never does.
- Priming at load sets the arrows as for panel 0, whichever panel is marked
  active (`assets/main.js:158`). It sets no `is-active` and no `aria-current`.
- The observer's call to `setButtonDiscoverability` (`assets/main.js:133`)
  throws a ReferenceError, because that function is declared inside another
  closure. The `try/catch` swallows the error, so the call has no effect.
- `goTo` with no panels reads `offsetLeft` of `undefined` and throws before
  making a request. The model makes no request.

## Model

| member | source | states |
|---|---|---|
| Bounds.Clamp | assets/main.js:15 | the result is at least `lo`; it is at most `hi` when `lo <= hi`; it is `v` itself when `v` is in range; on an empty range (`hi < lo`) it is `lo` |
| Bounds.ClampIsNearest | assets/main.js:15 | on a non-empty range the clamped value is the point of the range nearest to the request |
| Bounds.ClampIdempotent | assets/main.js:15 | clamping an already clamped value changes nothing |
| Bounds.MaxScroll | assets/main.js:16 | `maxScroll` is non-negative exactly when the content is at least as wide as the viewport; it is not floored |
| Bounds.Progress | assets/main.js:92-96 | 0 when `max <= 0`; within [0, 100] when `scrollLeft` is in [0, max]; 0 exactly at the start and 100 exactly at the end |
| Bounds.ProgressMonotonic | assets/main.js:92-96 | a position further right never gives a smaller progress |
| Easing.NextLeft | assets/main.js:18-30 | a frame whose step is at most 0.5 px snaps to the target; otherwise the gap shrinks to 78% and by more than 0.5 px; the position never overshoots the target |
| Easing.FramesToSettle | assets/main.js:18-31 | at least one frame runs, and exactly one when the first step already snaps |
| Easing.FramesToSettleBound | assets/main.js:18-31 | the animation stops within `2 * gap + 1` frames |
| Easing.GapNonIncreasing | assets/main.js:19-21 | the distance to the target never grows from frame to frame |
| Input.VerticalScrollableAncestor | assets/main.js:38-51 | returns the first element of the chain that can still scroll vertically in the sign of `deltaY`, or none when no element can; never one when `deltaY == 0` |
| Input.DominantDelta | assets/main.js:57 | the delta of larger magnitude, ties going to `deltaY` |
| Input.DragStart | assets/main.js:65-71 | touch pointers and presses on interactive elements start no session; any other press starts an unlatched session holding its pointer, with the press's `clientX` as `startX` and the track position as `startLeft` |
| Input.DragRelease | assets/main.js:79 | release always clears `isDown` and `isDragging` and resets `activePointer` to null |
| Input.DragMoveRequests | assets/main.js:72-78 | a move requests a position exactly when it is not touch, the pointer is down and the session is latched or the movement reaches 6 px; the request is `startLeft - dx` and the only change to the session is that it is latched; otherwise nothing changes |
| Input.DragMove | assets/main.js:72-78 | a move never changes `isDown`, the origin or the held pointer and never unlatches the session; a move that makes a request leaves the session latched |
| Input.MoveAll | assets/main.js:72-78 | a run of moves makes at most one request per move, keeps the session's origin and pointer, and keeps a latched session latched |
| Input.SmallMovesRequestNothing | assets/main.js:72-78 | any run of moves within 6 px of the origin requests nothing and leaves the session unlatched |
| Input.LatchedMovesFollowPointer | assets/main.js:72-78 | once latched, every non-touch move requests `startLeft - dx`, in order, and the session stays latched |
| Input.DragThresholdScenario | assets/main.js:63-78 | a 4 px drag requests nothing; continuing to 10 px requests the origin track position minus 10 |
| Panels.NearestIn | assets/main.js:115-120 | after the scan has visited `k >= 1` panels, its best index is one of those `k` |
| Panels.NearestInIsEarliestNearest | assets/main.js:115-120 | the scan's index is nearest to the position, and strictly nearer than every earlier panel |
| Panels.CurrentIndex | assets/main.js:115-120 | the scan loop returns the earliest panel nearest to `scrollLeft`, or 0 when there are no panels |
| Panels.Adjacent | assets/main.js:191 | from an index in range the step stays in range, moves by one in its direction, and stays put only at the last (next) or first (prev) panel |
| Panels.AdjacentRoundTrip | assets/main.js:191 | inside the range, next then prev (and prev then next) returns to the starting panel |
| Panels.GoToOffset | assets/main.js:189-193 | `goTo` has an offset to request exactly when there are panels, and it is the offset of one of them |
| Panels.GoToSteps | assets/main.js:189-193 | `goTo` requests a panel exactly when there are panels: the next (or previous) panel after the nearest one, held at the ends, with no wraparound |
| Panels.FindPanel | assets/main.js:179-180 | finds the first panel with the id, or reports that no panel has it |
| Panels.IdToLink | assets/main.js:104 | the map's keys are exactly the links' targets, and each key maps to the last link naming it |
| Panels.LaterLinkShadowsEarlier | assets/main.js:104 | a link followed by another link with the same target is never the mapped one |
| ActivePanel.UpdateArrows | assets/main.js:108-113 | with both arrows present, prev shows iff `idx > 0` and next shows iff `idx < n - 1`; without both, nothing changes; only the arrows change |
| ActivePanel.ArrowsOnFivePanels | assets/main.js:108-113 | with 5 panels, index 0 hides only prev, index 4 hides only next, indices 1-3 show both |
| ActivePanel.FanOut | assets/main.js:140-153 | the arrows are left alone; the theme is dark iff the panel is dark, the hero flag is set iff its id is `hero`, the FAB shows iff its index is at least 1; a missing brand, swipe hint or next button keeps the brand, hint or nudge as it was |
| ActivePanel.Sync | assets/main.js:131-153 | with both arrows present, prev shows iff `idx > 0` and next iff `idx < n - 1`; without both, the arrows keep their visibility; the theme and hero flag follow the panel |
| ActivePanel.SyncState | assets/main.js:131-153 | after activation: the theme is dark iff the panel is dark; the hero flag is set iff the id is `hero`; the brand reads `portfolio` iff hero and the owner's name otherwise; the FAB shows iff the index is at least 1; the swipe hint and nudge are on iff hero; missing elements keep their state, including both arrows when either button is missing; the arrows follow the index |
| ActivePanel.SyncOverwrites | assets/main.js:131-153 | a later activation overwrites all chrome an earlier one set, so reapplying the same panel is idempotent |
| ActivePanel.HeroToThirdPanel | assets/main.js:140-153 | going from the hero panel to the third panel hides the swipe hint, shows the FAB, switches the brand to the owner's name and leaves hero mode |
| ActivePanel.ActiveFlags | assets/main.js:126-127 | one flag per panel, set exactly on the activated panel |
| ActivePanel.ExactlyOneActive | assets/main.js:126-127 | after activation exactly one panel carries `is-active` |
| ActivePanel.MarkCurrent | assets/main.js:129-130 | the link mapped to the id gets `aria-current`; every other mapped link loses it; links the map does not hold keep theirs |
| ActivePanel.MarkCurrentExclusive | assets/main.js:129-130 | if only mapped links carried `aria-current` before, then afterwards exactly the link mapped to the active id carries it, or none if the id has no link |
| ActivePanel.MarkCurrentOverwrites | assets/main.js:129-130 | a later nav highlight overwrites an earlier one; repeating one changes nothing |
| ActivePanel.LastQualifying | assets/main.js:123-125 | none iff no entry of the batch is intersecting at ratio 0.65 or more; otherwise it is the panel of the last such entry |
| ActivePanel.FirstActive | assets/main.js:160 | the first panel marked `is-active`, or none when no panel is |
| ActivePanel.PrimedPanel | assets/main.js:160-161 | the first panel marked `is-active` when there is one, otherwise the first panel; none exactly when there are no panels |
| ActivePanel.Prime | assets/main.js:158-175 | with both arrows present, prev is hidden and next shows iff there is more than one panel; without both, the arrows keep their visibility; with no panels only the arrows change; the hero flag follows the primed panel |
| ActivePanel.PrimeIsSyncOfPrimedPanel | assets/main.js:158-175 | priming sets the chrome the observer would set for the marked (or first) panel, except that the arrows are always set as for panel 0 |
| Scrolling.Scroller.constructor | assets/main.js:10-12 | at load, target and animated position equal the track position, no frame is pending, no drag is active, and the progress bar is set |
| Scrolling.Scroller.ScheduleFrame | assets/main.js:24 | scheduling a frame adds one pending callback with a fresh handle |
| Scrolling.Scroller.WriteScrollLeft | assets/main.js:22 | a written track position is stored clamped to the track's range |
| Scrolling.Scroller.SetProgress | assets/main.js:92-96 | the progress bar shows `Progress` of the current track position |
| Scrolling.Scroller.RequestTo | assets/main.js:32-35 | the target becomes the clamped request whatever was requested before; exactly one frame is pending afterwards; an already pending frame is kept, not doubled |
| Scrolling.Scroller.Frame | assets/main.js:18-31 | the animated position takes one easing step or snaps; a new frame is pending iff it did not snap; the track shows the animated position; the progress bar follows; the engine invariant is kept |
| Scrolling.Scroller.RunFrames | assets/main.js:18-31 | running the pending frames ends idle, with the animated and track positions equal to the target, after exactly `FramesToSettle` frames; the drag session is untouched |
| Scrolling.Scroller.OnScroll | assets/main.js:97 | native scrolling moves the track and the progress bar but not the animated position or the target |
| Scrolling.Scroller.OnResize | assets/main.js:98 | after a resize the target is the re-clamped track position and the progress bar is current |
| Scrolling.Scroller.OnWheel | assets/main.js:54-60 | when an ancestor can still scroll vertically, no request is made; otherwise the target is the clamped `scrollLeft + dominant delta` |
| Scrolling.Scroller.OnPointerDown | assets/main.js:65-71 | the session becomes `DragStart` of the press and the track position |
| Scrolling.Scroller.OnPointerMove | assets/main.js:72-78 | the session advances as `DragMove` says; its request, if any, becomes the clamped target; without one the engine is untouched |
| Scrolling.Scroller.Release | assets/main.js:79-81 | the session ends as `DragRelease` says |
| Scrolling.RequestTwice | assets/main.js:32-35 | two requests with no frame in between leave one pending frame and the second request's clamped target |
| Scrolling.RequestAndSettle | assets/main.js:18-35 | after a request and the frames it causes, the animated and track positions are the clamped request |
| Scrolling.EndOfTrackScenario | assets/main.js:15-35 | content 5000 px wide in a 1000 px viewport has `maxScroll` 4000; a request for 10000 settles at 4000 with progress 100 |
| Presentation.Page.constructor | assets/main.js:157-175 | at load the markup's classes and attributes are kept and the chrome is primed |
| Presentation.Page.MarkActive | assets/main.js:126-127 | every panel loses `is-active` and only the given panel gets it |
| Presentation.Page.HighlightNav | assets/main.js:129-130 | `aria-current` is cleared on the mapped links and set on the link mapped to the id |
| Presentation.Page.Activate | assets/main.js:125-153 | one qualifying entry: exactly that panel is active, the nav highlight follows its id, and the chrome is synchronised |
| Presentation.Page.OnIntersect | assets/main.js:122-156 | the last entry of the batch at or above the 0.65 threshold decides the resulting state; a batch without one changes nothing |
| Presentation.Page.GoTo | assets/main.js:189-193 | the target is the clamped offset of the panel next to or before the nearest one; with no panels nothing changes; the drag session is untouched |
| Presentation.Page.ScrollToPanel | assets/main.js:178-182 | the target is the clamped offset of the panel with the id; an unknown id changes nothing; the drag session is untouched |
| Presentation.Page.OnKeyDown | assets/main.js:84-89 | ArrowRight/PageDown step to the next panel and ArrowLeft/PageUp to the previous one, each scheduling a frame, and with no panels they change nothing; Home requests 0; End requests `maxScroll()`; other keys change nothing; the drag session is untouched |

## Left out

- Event registration, `preventDefault`, pointer capture and its `try/catch`: browser plumbing without state of the engine's own.
- `getComputedStyle` and the `/(auto|scroll)/` test: each ancestor carries a boolean `overflowScrollable` instead. The chain stops before the track or the page body. A wheel target that is not an Element gives an empty chain.
- `closest(...)` on the press target: each pointer event carries a boolean `onInteractive` instead.
- Nav-link and brand-link click wiring (`assets/main.js:183-186`) and the prev/next button listeners (`assets/main.js:194-195`). They only call `ScrollToPanel` or `GoTo`, which are modelled.
- `getElementById` is modelled over the panels only. Ids of other elements are not part of this model.
- A panel id that names an inherited `Object.prototype` property (such as `constructor`) would make `idToLink[id]` truthy without being a link. Panel ids are assumed to be plain names.
- Browser momentum, rounding of `scrollLeft` to device pixels, and IEEE floating-point rounding: positions are exact reals.
- Layout changes other than a window resize, such as content that loads late and widens the track: `scrollWidth` and `clientWidth` change only in `OnResize`, which is what keeps the target within `[0, MaxScroll()]` in `Scroller.Valid`.
- Timing: frames run when `Frame` is called. Interleaving with input is left to the caller.
- The custom cursor, tilt, ripple, bobbing chips, parallax dots and reveal observer (`assets/main.js:226-452`): decorative effects with floating-point colour maths and randomness.
- The email dropdown, `mailto` navigation, the clipboard write with `alert`, and the year stamp (`assets/main.js:7`, `assets/main.js:204-224`): I/O and foreign calls.
- The mobile menu toggle (`assets/main.js:197-202`): a display flip with no invariant.
- `extract_pdf.py`: a command-line wrapper over a PDF library, with no logic of its own.
