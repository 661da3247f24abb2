/** What the page shows for its active panel: the panels' `is-active` classes,
    the nav links' `aria-current`, and the page chrome (arrows, theme, brand
    text, hero mode, floating action button, swipe hint, next-button nudge). */
module ActivePanel {
  import opened Wrappers
  import opened Panels

  const HERO_ID: string := "hero"
  /** The brand text on the introductory panel. */
  const HERO_BRAND: string := "portfolio"
  /** The brand text everywhere else: the owner's name with non-breaking spaces. */
  const OWNER_BRAND: string := "Aldrin\U{A0}J\U{A0}Thomas"
  /** An entry makes its panel active from this visible fraction on. */
  const ACTIVE_RATIO: real := 0.65

  datatype Theme = Light | Dark

  /** Which optional elements the page has; a missing one is skipped. */
  datatype Elements = Elements(prevBtn: bool, nextBtn: bool, brandText: bool, swipeHint: bool)

  /** The page chrome the active panel drives: arrow visibility, the body's
      `data-theme`, `data-hero` and `data-show-fab`, the brand text, the swipe
      hint's display and the next button's `hero-nudge` class. */
  datatype Chrome = Chrome(
    prevVisible: bool, nextVisible: bool, theme: Theme, brandText: string,
    hero: bool, showFab: bool, swipeHint: bool, heroNudge: bool)

  /** One IntersectionObserver entry for the panel at index `panel`. */
  datatype Entry = Entry(panel: nat, isIntersecting: bool, ratio: real)

  predicate Qualifies(e: Entry) {
    e.isIntersecting && e.ratio >= ACTIVE_RATIO
  }

  // ------------------------------------------------------------ the chrome

  /** `updateArrows`: hides the previous arrow on the first panel and the next
      arrow on the last; does nothing unless both arrows exist. */
  function UpdateArrows(c: Chrome, el: Elements, idx: int, n: int): (r: Chrome)
    ensures el.prevBtn && el.nextBtn ==> (r.prevVisible <==> idx > 0) && (r.nextVisible <==> idx < n - 1)
    ensures !(el.prevBtn && el.nextBtn) ==> r == c
    ensures r == c.(prevVisible := r.prevVisible, nextVisible := r.nextVisible)
  {
    if !el.prevBtn || !el.nextBtn then c
    else c.(prevVisible := !(idx <= 0), nextVisible := !(idx >= n - 1))
  }

  /** With five panels, the first hides only the previous arrow, the last hides
      only the next arrow, and the three in between show both. */
  lemma ArrowsOnFivePanels(c: Chrome, el: Elements, idx: int)
    requires el.prevBtn && el.nextBtn && 0 <= idx < 5
    ensures idx == 0 ==> !UpdateArrows(c, el, idx, 5).prevVisible && UpdateArrows(c, el, idx, 5).nextVisible
    ensures idx == 4 ==> UpdateArrows(c, el, idx, 5).prevVisible && !UpdateArrows(c, el, idx, 5).nextVisible
    ensures 1 <= idx <= 3 ==> UpdateArrows(c, el, idx, 5).prevVisible && UpdateArrows(c, el, idx, 5).nextVisible
  {
  }

  /** The chrome other than the arrows, for panel `p` at index `idx`. */
  function FanOut(c: Chrome, el: Elements, p: Panel, idx: int): (r: Chrome)
    ensures r.prevVisible == c.prevVisible && r.nextVisible == c.nextVisible
    ensures (r.theme == Dark <==> p.isDark) && (r.hero <==> p.id == HERO_ID) && (r.showFab <==> idx >= 1)
    ensures !el.brandText ==> r.brandText == c.brandText
    ensures !el.swipeHint ==> r.swipeHint == c.swipeHint
    ensures !el.nextBtn ==> r.heroNudge == c.heroNudge
  {
    var hero := p.id == HERO_ID;
    c.(theme := if p.isDark then Dark else Light,
       brandText := if el.brandText then (if hero then HERO_BRAND else OWNER_BRAND) else c.brandText,
       hero := hero,
       showFab := idx >= 1,
       swipeHint := if el.swipeHint then hero else c.swipeHint,
       heroNudge := if el.nextBtn then hero else c.heroNudge)
  }

  /** The observer's update of the chrome when panel `idx` becomes active.
      (Button discoverability is not among them: the call is out of scope in
      the observer, and its error is swallowed.) */
  function Sync(c: Chrome, el: Elements, ps: seq<Panel>, idx: nat): (r: Chrome)
    requires idx < |ps|
    ensures el.prevBtn && el.nextBtn ==> (r.prevVisible <==> idx > 0) && (r.nextVisible <==> idx < |ps| - 1)
    ensures !(el.prevBtn && el.nextBtn) ==> r.prevVisible == c.prevVisible && r.nextVisible == c.nextVisible
    ensures (r.theme == Dark <==> ps[idx].isDark) && (r.hero <==> ps[idx].id == HERO_ID)
  {
    FanOut(UpdateArrows(c, el, idx, |ps|), el, ps[idx], idx)
  }

  /** What the active panel decides: the theme follows its dark marker, the
      hero flag, swipe hint and nudge are on exactly on the hero panel, the
      brand reads `portfolio` exactly there, and the FAB shows from the second
      panel on; a missing element keeps its state. */
  lemma SyncState(c: Chrome, el: Elements, ps: seq<Panel>, idx: nat)
    requires idx < |ps|
    ensures var r := Sync(c, el, ps, idx); var hero := ps[idx].id == HERO_ID;
      (r.theme == Dark <==> ps[idx].isDark) &&
      (r.hero <==> hero) &&
      (r.showFab <==> idx >= 1) &&
      (el.brandText ==> (r.brandText == HERO_BRAND <==> hero)) &&
      (el.brandText && !hero ==> r.brandText == OWNER_BRAND) &&
      (!el.brandText ==> r.brandText == c.brandText) &&
      (r.swipeHint == if el.swipeHint then hero else c.swipeHint) &&
      (r.heroNudge == if el.nextBtn then hero else c.heroNudge) &&
      (!(el.prevBtn && el.nextBtn) ==> r.prevVisible == c.prevVisible && r.nextVisible == c.nextVisible) &&
      r == UpdateArrows(r, el, idx, |ps|)
  {
    assert OWNER_BRAND != HERO_BRAND by {
      assert OWNER_BRAND[0] != HERO_BRAND[0];
    }
  }

  /** A later activation overwrites everything an earlier one set, so applying
      the same panel again changes nothing. */
  lemma SyncOverwrites(c: Chrome, el: Elements, ps: seq<Panel>, i: nat, j: nat)
    requires i < |ps| && j < |ps|
    ensures Sync(Sync(c, el, ps, i), el, ps, j) == Sync(c, el, ps, j)
    ensures Sync(Sync(c, el, ps, i), el, ps, i) == Sync(c, el, ps, i)
  {
  }

  /** Moving from the hero panel to the third panel hides the swipe hint, shows
      the FAB, switches the brand to the owner's name and leaves hero mode. */
  lemma HeroToThirdPanel(c: Chrome, el: Elements, ps: seq<Panel>)
    requires |ps| >= 3 && ps[0].id == HERO_ID && ps[2].id != HERO_ID
    requires el.brandText && el.swipeHint
    ensures var before := Sync(c, el, ps, 0); var after := Sync(before, el, ps, 2);
      before.hero && before.swipeHint && !before.showFab && before.brandText == HERO_BRAND &&
      !after.hero && !after.swipeHint && after.showFab && after.brandText == OWNER_BRAND
  {
  }

  // ------------------------------------------------------------ the active flags

  /** The `is-active` classes after panel `idx` is activated: all cleared, then set on `idx`. */
  function ActiveFlags(n: nat, idx: nat): (flags: seq<bool>)
    ensures |flags| == n
    ensures forall k :: 0 <= k < n ==> (flags[k] <==> k == idx)
  {
    seq(n, k => k == idx)
  }

  function Count(flags: seq<bool>): nat {
    if flags == [] then 0
    else Count(flags[..|flags| - 1]) + (if flags[|flags| - 1] then 1 else 0)
  }

  /** Activation leaves exactly one panel with `is-active`. */
  lemma {:induction false} ExactlyOneActive(n: nat, idx: nat)
    requires idx < n
    ensures Count(ActiveFlags(n, idx)) == 1
  {
    CountActive(n, idx);
  }

  lemma {:induction false} CountActive(n: nat, idx: nat)
    ensures Count(ActiveFlags(n, idx)) == if idx < n then 1 else 0
  {
    if n > 0 {
      assert ActiveFlags(n, idx)[..n - 1] == ActiveFlags(n - 1, idx);
      CountActive(n - 1, idx);
    }
  }

  // ------------------------------------------------------------ the nav highlight

  /** `aria-current` on the nav links after the panel with id `id` is activated:
      cleared on every link the id map holds, then set on the link it maps `id` to;
      links the map does not hold keep their attribute. */
  function MarkCurrent(aria: seq<bool>, m: map<string, nat>, id: string): (r: seq<bool>)
    ensures |r| == |aria|
    ensures id in m && m[id] < |aria| ==> r[m[id]]
    ensures forall k :: 0 <= k < |aria| && k != (if id in m then m[id] else -1) ==>
      (r[k] <==> k !in m.Values && aria[k])
  {
    seq(|aria|, k requires 0 <= k < |aria| => if k in m.Values then id in m && m[id] == k else aria[k])
  }

  /** No link outside the id map carries `aria-current`. */
  predicate OnlyMappedMarked(aria: seq<bool>, m: map<string, nat>) {
    forall k :: 0 <= k < |aria| && aria[k] ==> k in m.Values
  }

  /** Starting from links of which only mapped ones may be marked, the link the
      id map gives for `id` is the only one marked afterwards (none if `id` is
      not mapped), and the property is kept. */
  lemma MarkCurrentExclusive(aria: seq<bool>, m: map<string, nat>, id: string)
    requires OnlyMappedMarked(aria, m)
    ensures forall k :: 0 <= k < |aria| ==> (MarkCurrent(aria, m, id)[k] <==> id in m && m[id] == k)
    ensures OnlyMappedMarked(MarkCurrent(aria, m, id), m)
  {
    forall k | 0 <= k < |aria| && id in m && m[id] == k
      ensures k in m.Values
    {
      assert m[id] in m.Values;
    }
  }

  /** A later highlight overwrites an earlier one, so repeating it changes nothing. */
  lemma MarkCurrentOverwrites(aria: seq<bool>, m: map<string, nat>, x: string, y: string)
    ensures MarkCurrent(MarkCurrent(aria, m, x), m, y) == MarkCurrent(aria, m, y)
    ensures MarkCurrent(MarkCurrent(aria, m, x), m, x) == MarkCurrent(aria, m, x)
  {
  }

  // ------------------------------------------------------------ the observer batch

  /** The panel of the last entry in the batch that reaches the threshold. */
  function LastQualifying(es: seq<Entry>): (r: Option<nat>)
    ensures r.None? <==> forall k :: 0 <= k < |es| ==> !Qualifies(es[k])
    ensures r.Some? ==> exists k :: (0 <= k < |es| && Qualifies(es[k]) && es[k].panel == r.value &&
                                     forall j :: k < j < |es| ==> !Qualifies(es[j]))
  {
    if es == [] then None
    else if Qualifies(es[|es| - 1]) then Some(es[|es| - 1].panel)
    else
      var r := LastQualifying(es[..|es| - 1]);
      assert forall k :: 0 <= k < |es| - 1 ==> es[..|es| - 1][k] == es[k];
      r
  }

  // ------------------------------------------------------------ priming at load

  /** `document.querySelector('.panel.is-active')`: the first panel marked active. */
  function FirstActive(flags: seq<bool>): (r: Option<nat>)
    ensures r.Some? ==> r.value < |flags| && flags[r.value]
    ensures r.Some? ==> forall j :: 0 <= j < r.value ==> !flags[j]
    ensures r.None? <==> forall j :: 0 <= j < |flags| ==> !flags[j]
  {
    if flags == [] then None
    else if flags[0] then Some(0)
    else match FirstActive(flags[1..])
      case None => None
      case Some(i) => Some(i + 1)
  }

  /** The panel the page primes its chrome from: the first marked active, else the first panel. */
  function PrimedPanel(flags: seq<bool>): (r: Option<nat>)
    ensures r.Some? <==> |flags| > 0
    ensures r.Some? ==> r.value < |flags|
    ensures (exists j :: 0 <= j < |flags| && flags[j]) ==> r == FirstActive(flags) && flags[r.value]
    ensures (forall j :: 0 <= j < |flags| ==> !flags[j]) && |flags| > 0 ==> r == Some(0)
  {
    match FirstActive(flags)
    case Some(i) => Some(i)
    case None => if |flags| > 0 then Some(0) else None
  }

  /** The chrome after loading: the arrows as for the first panel, then the
      rest of the chrome from the primed panel. Nothing touches `is-active`,
      `aria-current` or button discoverability here. */
  function Prime(c: Chrome, el: Elements, ps: seq<Panel>, flags: seq<bool>): (r: Chrome)
    requires |flags| == |ps|
    ensures el.prevBtn && el.nextBtn ==> !r.prevVisible && (r.nextVisible <==> |ps| > 1)
    ensures !(el.prevBtn && el.nextBtn) ==> r.prevVisible == c.prevVisible && r.nextVisible == c.nextVisible
    ensures |ps| == 0 ==> r == c.(prevVisible := r.prevVisible, nextVisible := r.nextVisible)
    ensures |ps| > 0 ==> (r.hero <==> ps[PrimedPanel(flags).value].id == HERO_ID)
  {
    var c1 := UpdateArrows(c, el, 0, |ps|);
    match PrimedPanel(flags)
    case None => c1
    case Some(i) => FanOut(c1, el, ps[i], i)
  }

  /** Priming agrees with the observer's update for the primed panel, except
      that the arrows are always set as for the first panel. */
  lemma PrimeIsSyncOfPrimedPanel(c: Chrome, el: Elements, ps: seq<Panel>, flags: seq<bool>)
    requires |flags| == |ps| && |ps| > 0
    ensures PrimedPanel(flags).Some? && PrimedPanel(flags).value < |ps|
    ensures var i := PrimedPanel(flags).value; var a := UpdateArrows(c, el, 0, |ps|);
      Prime(c, el, ps, flags) == Sync(c, el, ps, i).(prevVisible := a.prevVisible, nextVisible := a.nextVisible)
    ensures PrimedPanel(flags) == Some(0) ==> Prime(c, el, ps, flags) == Sync(c, el, ps, 0)
    ensures el.prevBtn && el.nextBtn ==> !Prime(c, el, ps, flags).prevVisible
  {
  }
}
