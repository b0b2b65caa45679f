/** Sequences of host events fed to `App`, and the invariant every reachable
    scene keeps. */
module Traces {
  import opened Wrappers
  import opened App

  /** The host notifications the constructor subscribes `App` to. A pointer-down
      carries the hit test in force at that moment: dialogs move and resize
      between events, so the same point may be claimed differently later. */
  datatype Event =
    | PointerDown(at: Point, hits: HitTest)
    | PointerMove(at: Point)
    | PointerUp
    | WindowResize(width: int, height: int)

  /** One event handled by the matching `App` handler; only the scene is kept. */
  function Step(s: Scene, ev: Event): (r: Scene)
    requires Valid(s)
    ensures Valid(r)
    ensures multiset(r.items) == multiset(s.items)
    ensures !ev.PointerDown? ==> r.items == s.items
  {
    match ev
    case PointerDown(p, hits) =>
      OnDownValid(s, p, hits);
      OnDown(s, p, hits).scene
    case PointerMove(p) => OnMove(s, p).scene
    case PointerUp => OnUp(s).scene
    case WindowResize(w, h) => Resize(s, w, h).scene
  }

  /** The scene after handling `evs` in order. */
  function Run(s: Scene, evs: seq<Event>): (r: Scene)
    requires Valid(s)
    ensures Valid(r)
    decreases |evs|
  {
    if |evs| == 0 then s else Run(Step(s, evs[0]), evs[1..])
  }

  /** Whatever the events, the dialogs created at start-up are all still in
      `items`, each once, so the frontmost slot read by `onMove` and `onUp`
      always exists; and while a drag is active, `move` and `up` reach the
      dragged dialog. */
  lemma RunRoutesToDragged(s: Scene, evs: seq<Event>, e: Point)
    requires Valid(s)
    ensures var r := Run(s, evs);
            && |r.items| == Total
            && multiset(r.items) == multiset(s.items)
            && (r.curItem.Some? ==> OnMove(r, e).target == r.curItem.value)
            && (r.curItem.Some? ==> OnUp(r).target == r.curItem.value)
  {
  }

  /** The worked scenario: dialogs in slots [0, 1, 2] and a pointer-down that
      dialog 2 misses and dialog 1 claims. Dialog 1 is dragged and promoted,
      giving [0, 2, 1]. */
  lemma DragMiddleDialog(s: Scene, p: Point, hits: HitTest)
    requires s.items == [0, 1, 2]
    requires hits(1, p) && !hits(2, p)
    ensures OnDown(s, p, hits).scene.items == [0, 2, 1]
    ensures OnDown(s, p, hits).scene.curItem == Some(1)
  {
    OnDownSelectsFrontmostHit(s, p, hits, 1);
  }

  /** In that scenario `down` is asked of dialog 2 and then of dialog 1, and of
      no other: the scan stops at the hit. */
  lemma DragMiddleDialogAsks(s: Scene, p: Point, hits: HitTest)
    requires s.items == [0, 1, 2]
    requires hits(1, p) && !hits(2, p)
    ensures OnDown(s, p, hits).probed == [2, 1]
  {
    OnDownSelectsFrontmostHit(s, p, hits, 1);
  }

  /** The same scenario continued: with [0, 2, 1] and dialog 1 dragged, a move
      reaches dialog 1, and an up clears the drag without reordering. */
  lemma ReleaseMiddleDialog(s: Scene, q: Point)
    requires s.items == [0, 2, 1] && s.curItem == Some(1)
    ensures OnMove(s, q).target == 1
    ensures OnUp(OnMove(s, q).scene).target == 1
    ensures OnUp(OnMove(s, q).scene).scene.items == [0, 2, 1]
    ensures OnUp(OnMove(s, q).scene).scene.curItem == None
  {
  }
}
