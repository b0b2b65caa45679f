# canvasDrag pointer state machine in Dafny

This project models the pointer-interaction core of the `App` class in
`app.js`. The canvas holds a fixed stack of three draggable dialogs. The state
is the paint order `items`, where index 0 is drawn first and the last slot is
frontmost. It also holds the drag marker `curItem` and the last pointer
position `mousePos`.

- `onDown` asks the dialogs `down(point)` from the frontmost slot backwards.
  The first dialog that claims the point becomes `curItem`. It is moved to the
  end of `items` with `indexOf`, `splice` and `push`, and the scan stops.
- `onMove` and `onUp` always forward to the frontmost slot. `onUp` also
  clears `curItem`.
- `resize` passes the new stage size to every dialog in slot order.

Each handler is a pure function from one `Scene` to the next. Where the
handler calls a dialog, the function also returns which dialog is called:
the dialogs `onDown` probed, the dialog `onMove`/`onUp` forwarded to, or the
list of resize calls. Dialogs are identified by their creation index. The hit
test `Dialog.down` is an arbitrary function parameter `hits(dialog, point)`,
because dialog.js is not part of this model.

Files:
- `wrappers.dfy`: `Option`, the nullable marker.
- `seqs.dfy`: the JavaScript array operations `indexOf` and
  `push(splice(k, 1)[0])` on sequences, with their permutation and ordering
  lemmas.
- `app.dfy`: the `Scene`, the handlers, the scene invariant `Valid`, and the
  lemmas about them.
- `traces.dfy`: event sequences, the invariant kept along any run, and the
  three-dialog drag scenario.

The invariant `Valid` says `items` is a reordering of the three dialogs
created at start-up, without repeats. It also says that a dragged dialog, if
any, sits in the frontmost slot. That last clause is preserved by every
handler. So whenever a drag is active, forwarding `move`/`up` to the frontmost
slot reaches the dragged dialog. The two routings differ only when no drag is
active.

Two details of app.js the model keeps as written:
- A pointer-down that hits nothing does not clear `curItem`. It keeps its
  previous value, which is non-null after a down that was never followed by
  an up (app.js:104-110).
- `resize` calls the dialogs in index order (app.js:57-59).

## Model

| member | source | states |
|---|---|---|
| Seqs.IndexOf | app.js:106 | the result is -1 exactly when the value is absent; otherwise the slot holds the value and no earlier slot does |
| Seqs.IndexOfDistinct | app.js:103-106 | with no repeated dialogs, `indexOf` of the dialog found at scan slot i is i, so the dialog that claimed the point is the one moved |
| Seqs.MoveToEnd | app.js:107 | splice-then-push keeps the length, puts the moved element last, leaves earlier slots in place and shifts later slots down by one |
| Seqs.MoveToEndPermutes | app.js:107 | splice-then-push only reorders: the multiset of dialogs is unchanged |
| Seqs.MoveToEndDistinct | app.js:107 | splice-then-push keeps `items` free of repeated dialogs |
| Seqs.MoveToEndKeepsOthersInOrder | app.js:107 | with the promoted dialog left out, the others keep their old relative order |
| Seqs.MoveLastToEnd | app.js:107 | promoting the dialog that is already frontmost leaves the order unchanged |
| App.Ids | app.js:18-24 | reference definition of the creation order: `total` = 3 dialogs, the dialog created i-th in slot i; `Init` proves the constructor loop builds it |
| App.Scan | app.js:100-105 | the scan returns a slot whose dialog claims the point, with every higher slot missing; it returns nothing only when every slot misses |
| App.ScanFindsAnyHit | app.js:100-110 | the scan finds a slot exactly when some dialog claims the point |
| App.Visited | app.js:100-103 | reference definition of the `down` calls of a scan that stops at slot lo: slots length-1 down to lo, frontmost first; `OnDownLoop` proves the loop as written makes exactly these calls |
| App.OnDown | app.js:92-111 | `mousePos` becomes the event point; `items` is a permutation of the old one; `down` is called frontmost-first, one slot at a time, and every dialog called except the last one missed |
| App.OnDownHit | app.js:100-108 | on a hit, the last dialog called claimed the point, becomes `curItem`, and is now frontmost |
| App.OnDownMiss | app.js:92-111 | on a miss, every dialog was asked, `items` is unchanged and `curItem` keeps its previous value |
| App.OnDownLoop | app.js:100-110 | the descending loop with `break`, as written, computes exactly the scene and call list of `OnDown` |
| App.OnDownSelectsFrontmostHit | app.js:100-108 | if slot i claims the point and every higher slot misses, that dialog is dragged, the new order is the old one with slot i moved to the end, and the scan stopped at i |
| App.OnDownPrefersHigherSlot | app.js:100-108 | of two dialogs that both claim the point, the one in the lower slot is never selected |
| App.OnDownValid | app.js:92-111 | `onDown` keeps the scene invariant: the same three dialogs, no repeats, and a dragged dialog is frontmost |
| App.OnMove | app.js:112-116 | `move` goes to the frontmost slot; `mousePos` becomes the event point; `items`, `curItem` and the stage are unchanged |
| App.OnUp | app.js:120-124 | `curItem` is cleared; `up` goes to the frontmost slot; `items` and `mousePos` are unchanged |
| App.OnUpIdempotent | app.js:120-124 | a second `onUp` gives the same scene and the same target as the first |
| App.ForwardReachesDragged | app.js:105-123 | in a valid scene with an active drag, `move` and `up` reach the dragged dialog |
| App.Resize | app.js:57-59 | the stage takes the new size; one resize call per slot, in slot order, each with the new size; the scene is otherwise unchanged |
| App.ResizeReachesEachOnce | app.js:57-59 | with no repeated dialogs, each dialog in `items` receives exactly one resize call, and no other dialog receives one |
| App.Init | app.js:14-28 | the constructor creates dialogs 0, 1, 2 in that order, with no drag and the pointer at its initial point; then the first resize reaches each dialog once in creation order; the result satisfies the invariant |
| Traces.Step | app.js:27-33 | every host event, a pointer-down with whatever hit test holds at that moment, keeps the scene invariant and the set of dialogs; only a pointer-down can reorder `items` |
| Traces.Run | app.js:27-33 | any sequence of host events from a valid scene, each pointer-down with its own hit test, ends in a valid scene |
| Traces.RunRoutesToDragged | app.js:18-24 | after any events, `items` still holds the three start-up dialogs, so the frontmost slot exists; during a drag, `move` and `up` reach the dragged dialog |
| Traces.DragMiddleDialog | app.js:100-108 | with order [0, 1, 2], a down that dialog 2 misses and dialog 1 claims gives order [0, 2, 1] with dialog 1 dragged |
| Traces.DragMiddleDialogAsks | app.js:100-108 | in that scenario `down` is asked of dialog 2 and then dialog 1 only |
| Traces.ReleaseMiddleDialog | app.js:112-124 | continuing the scenario, `move` and `up` reach dialog 1, and `up` clears the drag without reordering |

## Left out

- DOM and canvas set-up, event-listener registration and the `window.onload` bootstrap (app.js:7-9, 27-36, 130-132) are host plumbing. `Traces.Event` stands for the subscribed events.
- Device-pixel-ratio scaling, `ctx.scale`, and the shadow and line-width settings (app.js:11, 43-54) are canvas side effects. The stage size read from `document.body` is a parameter of `Resize`.
- The `animate` frame loop (app.js:61-91) is pure rendering. It uses floating-point arcs and reschedules itself with `requestAnimationFrame`. The drag guide is drawn only when `curItem` is non-null (app.js:67). The drawing itself is not modelled.
- Dialog internals are left out because dialog.js is not part of this model. These are the hit geometry, the drag offset, and `move`, `up`, `resize` and `animate` inside a dialog. Their effects are only the calls the handlers make.
- The model assumes `Dialog.down` returns the dialog itself on a hit.
- The model does not say what `down` does to a dialog that misses.
- Point is not part of this model. `Point.clone` is treated as a value copy, and the initial `new Point()` is the `origin` parameter of `Init`.
- Pointer coordinates are integers in the model. Browsers may report fractional `clientX`/`clientY`. The handlers only store and forward these values.
- The commented-out loops that broadcast `move` and `up` to every dialog (app.js:117-119, 125-127) are dead code.
- A scene with empty `items` is outside what `onMove` and `onUp` handle, since they read `items[items.length - 1]`. Their models require a non-empty `items`, which `Valid` guarantees in every reachable scene.
