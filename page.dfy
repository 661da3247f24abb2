/** The page around the track: the panels and nav links, the observer that
    tracks the active panel, and the navigation that moves between panels. */
module Presentation {
  import opened Wrappers
  import opened Bounds
  import opened Panels
  import opened ActivePanel
  import opened Scrolling

  class Page {
    const track: Scroller
    const panels: seq<Panel>
    /** The `data-target` of each nav link, desktop nav first, then the mobile menu. */
    const links: seq<string>
    const elements: Elements
    /** The `is-active` class of each panel. */
    var isActive: seq<bool>
    /** The `aria-current` attribute of each nav link. */
    var ariaCurrent: seq<bool>
    var chrome: Chrome

    ghost predicate Valid()
      reads this, track
    {
      track.Valid() && |isActive| == |panels| && |ariaCurrent| == |links|
    }

    /** Loading the page: the markup's classes and attributes are kept, and the
        chrome is primed from the panel the markup marks active (or the first). */
    constructor (track: Scroller, panels: seq<Panel>, links: seq<string>, elements: Elements,
                 isActive: seq<bool>, ariaCurrent: seq<bool>, chrome: Chrome)
      requires track.Valid() && |isActive| == |panels| && |ariaCurrent| == |links|
      ensures Valid()
      ensures this.track == track && this.panels == panels && this.links == links && this.elements == elements
      ensures this.isActive == isActive && this.ariaCurrent == ariaCurrent
      ensures this.chrome == Prime(chrome, elements, panels, isActive)
    {
      this.track := track;
      this.panels := panels;
      this.links := links;
      this.elements := elements;
      this.isActive := isActive;
      this.ariaCurrent := ariaCurrent;
      this.chrome := Prime(chrome, elements, panels, isActive);
    }

    /** One qualifying observer entry for panel `idx`: `is-active` moves to it
        alone, the nav highlight follows its id, and the chrome is synchronised. */
    method Activate(idx: nat)
      requires Valid() && idx < |panels|
      modifies this
      ensures Valid()
      ensures isActive == ActiveFlags(|panels|, idx) && Count(isActive) == 1
      ensures ariaCurrent == MarkCurrent(old(ariaCurrent), IdToLink(links), panels[idx].id)
      ensures OnlyMappedMarked(old(ariaCurrent), IdToLink(links)) ==>
        forall k :: 0 <= k < |links| ==> (ariaCurrent[k] <==> panels[idx].id in IdToLink(links) && IdToLink(links)[panels[idx].id] == k)
      ensures chrome == Sync(old(chrome), elements, panels, idx)
    {
      MarkActive(idx);
      ExactlyOneActive(|panels|, idx);
      HighlightNav(panels[idx].id);
      if OnlyMappedMarked(old(ariaCurrent), IdToLink(links)) {
        MarkCurrentExclusive(old(ariaCurrent), IdToLink(links), panels[idx].id);
      }
      // The observer's call to the button-discoverability helper fails (the
      // helper is out of its scope) and the error is swallowed: no effect.
      chrome := Sync(chrome, elements, panels, idx);
    }

    /** Removes `is-active` from every panel, then adds it to panel `idx`. */
    method MarkActive(idx: nat)
      requires |isActive| == |panels| && idx < |panels|
      modifies this`isActive
      ensures isActive == ActiveFlags(|panels|, idx)
    {
      var k := 0;
      while k < |isActive|
        invariant |isActive| == |panels| && 0 <= k <= |isActive|
        invariant forall j :: 0 <= j < k ==> !isActive[j]
      {
        isActive := isActive[k := false];
        k := k + 1;
      }
      isActive := isActive[idx := true];
    }

    /** Removes `aria-current` from every link the id map holds, then sets it
        on the link the map gives for `id`, if any. */
    method HighlightNav(id: string)
      requires |ariaCurrent| == |links|
      modifies this`ariaCurrent
      ensures ariaCurrent == MarkCurrent(old(ariaCurrent), IdToLink(links), id)
    {
      var m := IdToLink(links);
      var rest := m.Values;
      while rest != {}
        invariant rest <= m.Values && |ariaCurrent| == |links|
        invariant forall j :: 0 <= j < |links| ==>
          ariaCurrent[j] == if j in m.Values - rest then false else old(ariaCurrent)[j]
        decreases rest
      {
        var k :| k in rest;
        ariaCurrent := ariaCurrent[k := false];
        rest := rest - {k};
      }
      if id in m {
        ariaCurrent := ariaCurrent[m[id] := true];
      }
    }

    /** The state one activation per qualifying entry leaves behind, where `q`
        is the last qualifying panel so far and the other arguments the state
        before the batch. */
    ghost predicate Shows(q: Option<nat>, isActive0: seq<bool>, ariaCurrent0: seq<bool>, chrome0: Chrome)
      reads this
    {
      match q
      case None => isActive == isActive0 && ariaCurrent == ariaCurrent0 && chrome == chrome0
      case Some(i) =>
        i < |panels| && isActive == ActiveFlags(|panels|, i) &&
        ariaCurrent == MarkCurrent(ariaCurrent0, IdToLink(links), panels[i].id) &&
        chrome == Sync(chrome0, elements, panels, i)
    }

    /** The observer's callback on a batch of entries: every entry at or above
        the threshold activates its panel, so the last such entry decides the
        state and a batch without one changes nothing. */
    method OnIntersect(entries: seq<Entry>)
      requires Valid() && forall e <- entries :: e.panel < |panels|
      modifies this
      ensures Valid()
      ensures LastQualifying(entries).None? ==>
        isActive == old(isActive) && ariaCurrent == old(ariaCurrent) && chrome == old(chrome)
      ensures LastQualifying(entries).Some? ==>
        (LastQualifying(entries).value < |panels| &&
         var i := LastQualifying(entries).value;
         isActive == ActiveFlags(|panels|, i) &&
         ariaCurrent == MarkCurrent(old(ariaCurrent), IdToLink(links), panels[i].id) &&
         chrome == Sync(old(chrome), elements, panels, i))
    {
      var k := 0;
      while k < |entries|
        invariant Valid() && 0 <= k <= |entries|
        invariant Shows(LastQualifying(entries[..k]), old(isActive), old(ariaCurrent), old(chrome))
      {
        assert entries[..k + 1][..k] == entries[..k];
        var e := entries[k];
        if Qualifies(e) {
          ghost var before := LastQualifying(entries[..k]);
          if before.Some? {
            MarkCurrentOverwrites(old(ariaCurrent), IdToLink(links), panels[before.value].id, panels[e.panel].id);
            SyncOverwrites(old(chrome), elements, panels, before.value, e.panel);
          }
          Activate(e.panel);
        }
        k := k + 1;
      }
      assert entries[..|entries|] == entries;
    }

    /** `goTo`: requests the panel after (or before) the one nearest to the
        track position, held at the ends; with no panels nothing is requested. */
    method GoTo(dir: Direction)
      requires Valid()
      modifies track
      ensures Valid()
      ensures GoToOffset(panels, old(track.scrollLeft), dir).None? ==> unchanged(track)
      ensures GoToOffset(panels, old(track.scrollLeft), dir).Some? ==>
        track.targetLeft == Clamp(GoToOffset(panels, old(track.scrollLeft), dir).value, 0.0, track.MaxScroll()) &&
        track.rafId.Some?
      ensures track.scrollLeft == old(track.scrollLeft) && track.currentLeft == old(track.currentLeft)
      ensures track.scrollWidth == old(track.scrollWidth) && track.clientWidth == old(track.clientWidth)      ensures track.drag == old(track.drag)
    {
      var idx := CurrentIndex(panels, track.scrollLeft);
      var j := Adjacent(idx, |panels|, dir);
      if !(0 <= j < |panels|) {
        return;  // panels[j] is undefined: reading its offsetLeft throws before any request
      }
      track.RequestTo(panels[j].offsetLeft);
    }

    /** `scrollToPanel`: requests the offset of the panel with that id, and
        does nothing when no panel has it. */
    method ScrollToPanel(id: string)
      requires Valid()
      modifies track
      ensures Valid()
      ensures FindPanel(panels, id).None? ==> unchanged(track)
      ensures FindPanel(panels, id).Some? ==>
        track.targetLeft == Clamp(panels[FindPanel(panels, id).value].offsetLeft, 0.0, track.MaxScroll()) &&
        track.rafId.Some?
      ensures track.scrollLeft == old(track.scrollLeft) && track.currentLeft == old(track.currentLeft)
      ensures track.scrollWidth == old(track.scrollWidth) && track.clientWidth == old(track.clientWidth)      ensures track.drag == old(track.drag)
    {
      var found := FindPanel(panels, id);
      if found.None? {
        return;
      }
      track.RequestTo(panels[found.value].offsetLeft);
    }

    /** `keydown`: the arrow and page keys step between panels, Home goes to the
        start of the track and End to its end; any other key changes nothing. */
    method OnKeyDown(key: string)
      requires Valid()
      modifies track
      ensures Valid()
      ensures key == "Home" ==> track.targetLeft == 0.0 && track.rafId.Some?
      ensures key == "End" ==> track.targetLeft == track.MaxScroll() && track.rafId.Some?
      ensures key == "ArrowRight" || key == "PageDown" ==>
        (GoToOffset(panels, old(track.scrollLeft), Next).None? ==> unchanged(track)) &&
        (GoToOffset(panels, old(track.scrollLeft), Next).Some? ==>
          track.targetLeft == Clamp(GoToOffset(panels, old(track.scrollLeft), Next).value, 0.0, track.MaxScroll()) &&
          track.rafId.Some?)
      ensures key == "ArrowLeft" || key == "PageUp" ==>
        (GoToOffset(panels, old(track.scrollLeft), Prev).None? ==> unchanged(track)) &&
        (GoToOffset(panels, old(track.scrollLeft), Prev).Some? ==>
          track.targetLeft == Clamp(GoToOffset(panels, old(track.scrollLeft), Prev).value, 0.0, track.MaxScroll()) &&
          track.rafId.Some?)
      ensures key !in {"ArrowRight", "PageDown", "ArrowLeft", "PageUp", "Home", "End"} ==> unchanged(track)
      ensures track.scrollLeft == old(track.scrollLeft) && track.currentLeft == old(track.currentLeft)
      ensures track.scrollWidth == old(track.scrollWidth) && track.clientWidth == old(track.clientWidth)      ensures track.drag == old(track.drag)
    {
      if key == "ArrowRight" || key == "PageDown" {
        GoTo(Next);
      }
      if key == "ArrowLeft" || key == "PageUp" {
        GoTo(Prev);
      }
      if key == "Home" {
        track.RequestTo(0.0);
      }
      if key == "End" {
        track.RequestTo(track.MaxScroll());
      }
    }
  }
}
