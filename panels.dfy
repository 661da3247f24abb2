/** The panels of the track and the navigation over them: which panel is nearest
    to the current position, which one is next or previous, and lookup by id. */
module Panels {
  import opened Wrappers
  import opened Bounds

  /** A panel: its element id, its `offsetLeft` along the track, and whether it
      carries the `theme-dark` class. */
  datatype Panel = Panel(id: string, offsetLeft: real, isDark: bool)

  function Dist(p: Panel, x: real): real {
    Abs(p.offsetLeft - x)
  }

  /** The index the nearest-panel scan holds after visiting the first `k` panels:
      a later panel replaces the best so far only when it is strictly nearer. */
  function NearestIn(ps: seq<Panel>, x: real, k: nat): (b: nat)
    requires k <= |ps|
    ensures k > 0 ==> b < k
  {
    if k <= 1 then 0
    else
      var b := NearestIn(ps, x, k - 1);
      if Dist(ps[k - 1], x) < Dist(ps[b], x) then k - 1 else b
  }

  /** The scan yields the earliest of the panels nearest to `x`. */
  lemma {:induction false} NearestInIsEarliestNearest(ps: seq<Panel>, x: real, k: nat)
    requires 1 <= k <= |ps|
    ensures forall j :: 0 <= j < k ==> Dist(ps[NearestIn(ps, x, k)], x) <= Dist(ps[j], x)
    ensures forall j :: 0 <= j < NearestIn(ps, x, k) ==> Dist(ps[NearestIn(ps, x, k)], x) < Dist(ps[j], x)
  {
    if k > 1 {
      NearestInIsEarliestNearest(ps, x, k - 1);
    }
  }

  /** `currentIndex`: the panel whose left edge is nearest to `x`, earliest first
      on a tie, and 0 when there are no panels. */
  method CurrentIndex(ps: seq<Panel>, x: real) returns (best: nat)
    ensures best == NearestIn(ps, x, |ps|)
    ensures |ps| == 0 ==> best == 0
    ensures |ps| > 0 ==> best < |ps| && forall j :: 0 <= j < |ps| ==> Dist(ps[best], x) <= Dist(ps[j], x)
    ensures forall j :: 0 <= j < best ==> Dist(ps[best], x) < Dist(ps[j], x)
  {
    best := 0;
    var bestDist: Option<real> := None;  // None is the scan's initial Infinity
    var i := 0;
    while i < |ps|
      invariant 0 <= i <= |ps|
      invariant best == NearestIn(ps, x, i)
      invariant i == 0 <==> bestDist.None?
      invariant i > 0 ==> best < i && bestDist == Some(Dist(ps[best], x))
    {
      var d := Dist(ps[i], x);
      if bestDist.None? || d < bestDist.value {
        best := i;
        bestDist := Some(d);
      }
      i := i + 1;
    }
    if |ps| > 0 {
      NearestInIsEarliestNearest(ps, x, |ps|);
    }
  }

  datatype Direction = Next | Prev

  /** The index `goTo` moves to from `idx` among `n` panels: one step, held at the
      first and last panel, never wrapping around. */
  function Adjacent(idx: int, n: int, dir: Direction): (j: int)
    ensures 0 <= idx < n ==> 0 <= j < n
    ensures 0 <= idx < n ==> (if dir == Next then j - idx else idx - j) == (if j == idx then 0 else 1)
    ensures 0 <= idx < n && j == idx ==> (if dir == Next then idx == n - 1 else idx == 0)
  {
    if dir == Next then (if idx + 1 < n - 1 then idx + 1 else n - 1)   // Math.min(idx+1, n-1)
    else (if idx - 1 > 0 then idx - 1 else 0)                         // Math.max(idx-1, 0)
  }

  /** Inside the range a step forward and a step back return to where they began. */
  lemma AdjacentRoundTrip(idx: int, n: int)
    requires 0 <= idx < n
    ensures idx < n - 1 ==> Adjacent(Adjacent(idx, n, Next), n, Prev) == idx
    ensures 0 < idx ==> Adjacent(Adjacent(idx, n, Prev), n, Next) == idx
  {
  }

  /** The offset `goTo` requests from position `x`: that of the panel next to
      (or before) the nearest one, or none when there are no panels, where
      reading the missing panel's offset throws before any request. */
  function GoToOffset(ps: seq<Panel>, x: real, dir: Direction): (r: Option<real>)
    ensures r.Some? <==> |ps| > 0
    ensures r.Some? ==> exists j :: 0 <= j < |ps| && r.value == ps[j].offsetLeft
  {
    var j := Adjacent(NearestIn(ps, x, |ps|), |ps|, dir);
    if 0 <= j < |ps| then Some(ps[j].offsetLeft) else None
  }

  /** `goTo` requests a panel exactly when there are panels; from a position
      nearest to panel `i` it moves to panel `i + 1` (or `i - 1`), and stays on
      the last (or first) panel instead of wrapping around. */
  lemma GoToSteps(ps: seq<Panel>, x: real, dir: Direction)
    ensures GoToOffset(ps, x, dir).Some? <==> |ps| > 0
    ensures |ps| > 0 ==> var i := NearestIn(ps, x, |ps|);
      GoToOffset(ps, x, dir) == Some(ps[
        if dir == Next then (if i == |ps| - 1 then i else i + 1)
        else (if i == 0 then 0 else i - 1)].offsetLeft)
  {
  }

  /** `document.getElementById` over the panels: the first panel with that id. */
  function FindPanel(ps: seq<Panel>, id: string): (r: Option<nat>)
    ensures r.Some? ==> r.value < |ps| && ps[r.value].id == id
    ensures r.Some? ==> forall j :: 0 <= j < r.value ==> ps[j].id != id
    ensures r.None? <==> forall j :: 0 <= j < |ps| ==> ps[j].id != id
  {
    if ps == [] then None
    else if ps[0].id == id then Some(0)
    else match FindPanel(ps[1..], id)
      case None => None
      case Some(i) => Some(i + 1)
  }

  /** `Object.fromEntries` over the nav links' `data-target` values: a later link
      with the same target replaces an earlier one, so each target maps to the
      last link that names it. */
  function IdToLink(targets: seq<string>): (m: map<string, nat>)
    ensures forall t :: t in m <==> t in targets
    ensures forall t :: t in m ==> m[t] < |targets| && targets[m[t]] == t
    ensures forall t :: t in m ==> forall j :: m[t] < j < |targets| ==> targets[j] != t
    decreases |targets|
  {
    if targets == [] then map[]
    else
      var last := |targets| - 1;
      IdToLink(targets[..last])[targets[last] := last]
  }

  /** A link followed by another link with the same target is never the one
      the target maps to. */
  lemma LaterLinkShadowsEarlier(targets: seq<string>, i: nat, j: nat)
    requires i < j < |targets| && targets[i] == targets[j]
    ensures IdToLink(targets)[targets[i]] != i
  {
  }
}
