/** The pointer-interaction state machine of `App` (app.js): an ordered stack of
    dialogs painted back to front, one drag marker and the last pointer position.
    Each handler is a pure transition on a `Scene`; where the handler calls into
    a dialog, the transition also returns which dialog the call goes to. */
module App {
  import opened Wrappers
  import opened Seqs

  /** Number of dialogs the constructor creates (`this.total`). */
  const Total: nat := 3

  /** A dialog, identified by the index at which the constructor created it. */
  type PanelId = nat

  /** A pointer position. `Point.clone` is a value copy, so handing a clone to a
      dialog is handing it this value. */
  datatype Point = Point(x: int, y: int)

  /** The stage size read from the document body on every resize. */
  datatype Size = Size(width: int, height: int)

  /** `items` is the paint order (index 0 is drawn first, the last slot is frontmost),
      `curItem` the dialog being dragged, `mousePos` the last pointer position. */
  datatype Scene = Scene(items: seq<PanelId>, curItem: Option<PanelId>, mousePos: Point, stage: Size)

  /** The answer of `Dialog.down(point)`: whether the dialog claims the pointer.
      Its geometry lives in dialog.js, which is not part of this model. */
  type HitTest = (PanelId, Point) -> bool

  /** The result of `onDown`: the new scene, and the dialogs whose `down` was
      called, in call order. */
  datatype DownResult = DownResult(scene: Scene, probed: seq<PanelId>)

  /** The result of `onMove` and `onUp`: the new scene and the dialog the call is forwarded to. */
  datatype Forward = Forward(scene: Scene, target: PanelId)

  /** One `Dialog.resize(stageWidth, stageHeight)` call. */
  datatype ResizeCall = ResizeCall(panel: PanelId, width: int, height: int)

  /** The result of `resize`: the new scene and the calls made, in call order. */
  datatype ResizeResult = ResizeResult(scene: Scene, calls: seq<ResizeCall>)

  /** The creation order `[0, 1, .., Total - 1]` the constructor fills `items` with. */
  function Ids(): (ids: seq<PanelId>)
    ensures |ids| == Total
    ensures forall k :: 0 <= k < Total ==> ids[k] == k
  {
    seq(Total, k => k)
  }

  /** The invariant of every reachable scene: `items` is a reordering of the
      dialogs created at start-up (so it is never empty), and a dragged dialog,
      if any, is the frontmost one. */
  predicate Valid(s: Scene) {
    && |s.items| == Total
    && multiset(s.items) == multiset(Ids())
    && Distinct(s.items)
    && (s.curItem.Some? ==> s.curItem.value == s.items[|s.items| - 1])
  }

  /** Some dialog in `items` claims the point. */
  predicate AnyHit(items: seq<PanelId>, p: Point, hits: HitTest) {
    exists j :: 0 <= j < |items| && hits(items[j], p)
  }

  /** The scan of `onDown` over the slots below `n`: from `n - 1` down to 0,
      the first slot whose dialog claims the point. */
  function Scan(items: seq<PanelId>, n: nat, p: Point, hits: HitTest): (r: Option<nat>)
    requires n <= |items|
    ensures r.Some? ==> r.value < n && hits(items[r.value], p)
    ensures r.Some? ==> forall j :: r.value < j < n ==> !hits(items[j], p)
    ensures r.None? ==> forall j :: 0 <= j < n ==> !hits(items[j], p)
  {
    if n == 0 then None
    else if hits(items[n - 1], p) then Some(n - 1)
    else Scan(items, n - 1, p, hits)
  }

  /** `Scan` over all slots finds a slot exactly when some dialog claims the point. */
  lemma ScanFindsAnyHit(items: seq<PanelId>, p: Point, hits: HitTest)
    ensures Scan(items, |items|, p, hits).Some? <==> AnyHit(items, p, hits)
  {
    var r := Scan(items, |items|, p, hits);
    if r.Some? {
      assert hits(items[r.value], p);
    }
  }

  /** The dialogs a backwards scan that stops at slot `lo` calls `down` on, in call order. */
  function Visited(items: seq<PanelId>, lo: nat): (ps: seq<PanelId>)
    requires lo <= |items|
    ensures |ps| == |items| - lo
    ensures forall k :: 0 <= k < |ps| ==> ps[k] == items[|items| - 1 - k]
  {
    seq(|items| - lo, k requires 0 <= k < |items| - lo => items[|items| - 1 - k])
  }

  /** `onDown(e)`: the pointer position becomes `e`; the dialogs are asked
      `down` from the frontmost slot backwards, and the first one that claims
      the point becomes `curItem` and is moved (via `indexOf`, `splice` and
      `push`) to the front. When no dialog claims it, `items` and `curItem`
      stay as they were. */
  function OnDown(s: Scene, e: Point, hits: HitTest): (r: DownResult)
    ensures r.scene.mousePos == e && r.scene.stage == s.stage
    ensures multiset(r.scene.items) == multiset(s.items)
    // the scan visits slots from the front backwards, one `down` per slot
    ensures |r.probed| <= |s.items|
    ensures forall k :: 0 <= k < |r.probed| ==> r.probed[k] == s.items[|s.items| - 1 - k]
    // every visited dialog but the last one missed
    ensures forall k :: 0 <= k < |r.probed| - 1 ==> !hits(r.probed[k], e)
  {
    var n := |s.items|;
    match Scan(s.items, n, e, hits)
    case None =>
      DownResult(s.(mousePos := e), Visited(s.items, 0))
    case Some(i) =>
      var index := IndexOf(s.items, s.items[i]);
      MoveToEndPermutes(s.items, index);
      DownResult(Scene(MoveToEnd(s.items, index), Some(s.items[i]), e, s.stage), Visited(s.items, i))
  }

  /** A hit: the dialog visited last claimed the point, is dragged, and is now frontmost. */
  lemma OnDownHit(s: Scene, e: Point, hits: HitTest)
    requires AnyHit(s.items, e, hits)
    ensures var r := OnDown(s, e, hits);
            && 0 < |r.probed|
            && hits(r.probed[|r.probed| - 1], e)
            && r.scene.curItem == Some(r.probed[|r.probed| - 1])
            && r.scene.items[|r.scene.items| - 1] == r.probed[|r.probed| - 1]
  {
    ScanFindsAnyHit(s.items, e, hits);
  }

  /** A miss: every dialog was asked, and neither the order nor the drag marker changes. */
  lemma OnDownMiss(s: Scene, e: Point, hits: HitTest)
    requires !AnyHit(s.items, e, hits)
    ensures var r := OnDown(s, e, hits);
            && |r.probed| == |s.items|
            && r.scene.items == s.items
            && r.scene.curItem == s.curItem
  {
    ScanFindsAnyHit(s.items, e, hits);
  }

  /** The loop of `onDown` as written (slot `i` from `length - 1` down to 0,
      stopping at the first hit); it computes exactly `OnDown`. */
  method OnDownLoop(s: Scene, e: Point, hits: HitTest) returns (scene: Scene, probed: seq<PanelId>)
    ensures DownResult(scene, probed) == OnDown(s, e, hits)
  {
    scene := s.(mousePos := e);
    probed := [];
    var i := |s.items| - 1;
    while i >= 0
      invariant -1 <= i < |s.items|
      invariant |probed| == |s.items| - 1 - i
      invariant forall k :: 0 <= k < |probed| ==> probed[k] == s.items[|s.items| - 1 - k]
      invariant Scan(s.items, |s.items|, e, hits) == Scan(s.items, i + 1, e, hits)
      invariant scene == s.(mousePos := e)
    {
      probed := probed + [s.items[i]];
      if hits(s.items[i], e) {
        var index := IndexOf(s.items, s.items[i]);
        scene := scene.(curItem := Some(s.items[i]), items := MoveToEnd(s.items, index));
        return;
      }
      i := i - 1;
    }
  }

  /** `onMove(e)`: the pointer position becomes `e` and `move` goes to the
      frontmost dialog, whether or not it is being dragged. */
  function OnMove(s: Scene, e: Point): (r: Forward)
    requires |s.items| > 0
    ensures r.target == s.items[|s.items| - 1]
    ensures r.scene.mousePos == e
    ensures r.scene.items == s.items && r.scene.curItem == s.curItem && r.scene.stage == s.stage
  {
    Forward(s.(mousePos := e), s.items[|s.items| - 1])
  }

  /** `onUp()`: the drag marker is cleared and `up` goes to the frontmost
      dialog, whether or not a drag was active. */
  function OnUp(s: Scene): (r: Forward)
    requires |s.items| > 0
    ensures r.target == s.items[|s.items| - 1]
    ensures r.scene.curItem.None?
    ensures r.scene.items == s.items && r.scene.mousePos == s.mousePos && r.scene.stage == s.stage
  {
    Forward(s.(curItem := None), s.items[|s.items| - 1])
  }

  /** The panel-facing part of `resize()`: the stage takes the new size and
      every dialog, in slot order, is told it once. */
  function Resize(s: Scene, width: int, height: int): (r: ResizeResult)
    ensures r.scene.stage == Size(width, height)
    ensures r.scene.items == s.items && r.scene.curItem == s.curItem && r.scene.mousePos == s.mousePos
    ensures |r.calls| == |s.items|
    ensures forall k :: 0 <= k < |r.calls| ==> r.calls[k] == ResizeCall(s.items[k], width, height)
  {
    var calls := seq(|s.items|, k requires 0 <= k < |s.items| => ResizeCall(s.items[k], width, height));
    ResizeResult(s.(stage := Size(width, height)), calls)
  }

  /** The dialogs the resize calls go to, in call order. */
  function Receivers(calls: seq<ResizeCall>): seq<PanelId>
  {
    seq(|calls|, k requires 0 <= k < |calls| => calls[k].panel)
  }

  /** The constructor: `Total` fresh dialogs in creation order, no drag, the
      pointer at `new Point()` (given as `origin`, point.js is not part of this
      model), followed by the first `resize()`. */
  method Init(origin: Point, width: int, height: int) returns (s: Scene, calls: seq<ResizeCall>)
    ensures Valid(s)
    ensures s.items == Ids()
    ensures s.curItem == None && s.mousePos == origin && s.stage == Size(width, height)
    ensures Receivers(calls) == Ids()
    ensures forall k :: 0 <= k < |calls| ==> calls[k].width == width && calls[k].height == height
  {
    var items: seq<PanelId> := [];
    var i := 0;
    while i < Total
      invariant 0 <= i <= Total
      invariant |items| == i
      invariant forall k :: 0 <= k < i ==> items[k] == k
    {
      items := items + [i];
      i := i + 1;
    }
    assert items == Ids();
    // the stage size is undefined until the first resize sets it
    var r := Resize(Scene(items, None, origin, Size(0, 0)), width, height);
    s, calls := r.scene, r.calls;
  }

  /** The scan picks the frontmost claiming dialog: if slot `i` claims the point
      and every slot in front of it misses, that dialog is dragged and moved to
      the front, with all the others keeping their relative order. */
  lemma OnDownSelectsFrontmostHit(s: Scene, e: Point, hits: HitTest, i: nat)
    requires Distinct(s.items)
    requires i < |s.items|
    requires hits(s.items[i], e)
    requires forall j :: i < j < |s.items| ==> !hits(s.items[j], e)
    ensures OnDown(s, e, hits).scene.curItem == Some(s.items[i])
    ensures OnDown(s, e, hits).scene.items == MoveToEnd(s.items, i)
    ensures OnDown(s, e, hits).probed == Visited(s.items, i)
  {
    var hit := Scan(s.items, |s.items|, e, hits);
    assert hit == Some(i) by {
      ScanFindsAnyHit(s.items, e, hits);
    }
    IndexOfDistinct(s.items, i);
  }

  /** Of two claiming dialogs the one in the higher slot wins. */
  lemma OnDownPrefersHigherSlot(s: Scene, e: Point, hits: HitTest, j: nat, k: nat)
    requires Distinct(s.items)
    requires j < k < |s.items|
    requires hits(s.items[j], e) && hits(s.items[k], e)
    ensures OnDown(s, e, hits).scene.curItem != Some(s.items[j])
  {
    ScanFindsAnyHit(s.items, e, hits);
    var i := Scan(s.items, |s.items|, e, hits).value;
    assert k <= i;
    assert s.items[i] != s.items[j];
  }

  /** `onDown` keeps the scene invariant. */
  lemma OnDownValid(s: Scene, e: Point, hits: HitTest)
    requires Valid(s)
    ensures Valid(OnDown(s, e, hits).scene)
  {
    var hit := Scan(s.items, |s.items|, e, hits);
    if hit.Some? {
      IndexOfDistinct(s.items, hit.value);
      MoveToEndDistinct(s.items, hit.value);
    }
  }

  /** `onUp` is idempotent on the scene, and a second `onUp` goes to the same dialog. */
  lemma OnUpIdempotent(s: Scene)
    requires |s.items| > 0
    ensures OnUp(OnUp(s).scene) == OnUp(s)
  {
  }

  /** In a valid scene with an active drag, `move` and `up` reach the dragged
      dialog even though the handlers address the frontmost slot. */
  lemma ForwardReachesDragged(s: Scene, e: Point)
    requires Valid(s)
    requires s.curItem.Some?
    ensures OnMove(s, e).target == s.curItem.value
    ensures OnUp(s).target == s.curItem.value
  {
  }

  /** `resize` reaches every dialog of `items` exactly once and no other. */
  lemma ResizeReachesEachOnce(s: Scene, width: int, height: int, p: PanelId)
    requires Distinct(s.items)
    ensures p in s.items ==> multiset(Receivers(Resize(s, width, height).calls))[p] == 1
    ensures p !in s.items ==> p !in Receivers(Resize(s, width, height).calls)
  {
    var ps := Receivers(Resize(s, width, height).calls);
    assert ps == s.items;
    if p in s.items {
      DistinctOccursOnce(s.items, p);
    }
  }
}
