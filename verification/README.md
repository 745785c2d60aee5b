# Prefab pools and cameras of MosComponentPile, in Dafny

This project models four Unity components of MosComponentPile and proves properties of them.

- **The prefab pools.**
  - `PrefabPool` keeps inactive clones of one prefab and lends them out.
  - `PrefabPoolManager` registers pools by prefab id and routes requests to them.
  - `PoolablePrefab` is the component on every clone. It records the clone's transform subtree and writes it back when the clone is returned.
- **`Camera2DController`**, a 2D follow camera.
  - It keeps its target inside a deadzone and can snap its position to a pixel grid.
  - It tweens its rotation between a fixed world orientation and the target's yaw.
- **`SplitscreenCamera`**, up to four cameras that share one process-wide table of four slots. Each camera lays itself out from the slots that are occupied.

The engine is modelled in `engine.dfy`:

- A GameObject is its instance id.
- The object table (`Scene.objects`) maps every live scene object to its state.
- Prefab assets are a separate table that never changes.
- An id that is in neither table is a destroyed object. This is what the engine's `!obj` test observes.
- Rotations are symbolic terms. They record the engine operation that made them (`Quaternion.Euler`, `Quaternion.Slerp`, the yaw-only rotation of a target) and are never evaluated.

The files:

| file | contents |
|---|---|
| `engine.dfy` | the object table, GameObject state, fresh instance ids |
| `transform_snapshot.dfy` | the subtree walk of `CacheActiveStates`, capture and restore as functions, the round trip |
| `pool_spec.dfy` | growth-count clamps, the loan-id counter, start-up registration as a fold |
| `pooling.dfy` | `PoolablePrefab`, `PrefabPool`, `PrefabPoolManager` as classes |
| `camera2d.dfy` | deadzone clamp, pixel snap, rotation tween, `Camera2DController` as a class |
| `splitscreen.dfy` | layout tables, slot ranks, `SplitscreenCamera` over the shared slot array |

Fields that the source updates in place are class fields:

- the pool's instance map and available set;
- the handle's loan id and snapshot;
- the manager's pool list and id map;
- the camera's tween state;
- the split-screen slot table, which is an `array` shared by every camera.

The methods are proved against specification functions:

- `Restore` and `CaptureAll` for the handle.
- `GrowCount`, `NextLoanId` and `Registered` for the pools.
- `Followed`, `TweenRatio` and `Tweened` for the camera.
- `Placement` and `LayoutIndex` for the split-screen layout.

Lemmas prove what those functions promise.

## Model

| member | source | states |
|---|---|---|
| TransformSnapshot.VisitOrderCoversTree | Assets/Scripts/Pooling/PoolablePrefab.cs:34-49 | The stack walk records every node of the subtree exactly once, starting with the root. |
| TransformSnapshot.PendingOrderCoversForest | Assets/Scripts/Pooling/PoolablePrefab.cs:34-49 | The nodes still pending on the stack are exactly the nodes of the stacked subtrees. |
| TransformSnapshot.PendingOrderAppend | Assets/Scripts/Pooling/PoolablePrefab.cs:47-48 | Children pushed on the stack are all visited before anything below them. |
| TransformSnapshot.PopVisitsTop | Assets/Scripts/Pooling/PoolablePrefab.cs:36-48 | One step of the walk visits the top node next, and its children then lie above the rest of the stack. |
| TransformSnapshot.CaptureAll | Assets/Scripts/Pooling/PoolablePrefab.cs:38-46 | The snapshot has one entry per visited node. Each entry names its node and holds exactly that node's state. |
| TransformSnapshot.CaptureThenApply | Assets/Scripts/Pooling/PoolablePrefab.cs:38-59 | Writing back a captured entry reproduces the captured state exactly. |
| TransformSnapshot.CaptureLeaf | Assets/Scripts/Pooling/PoolablePrefab.cs:34-49 | A node without children is recorded as a single entry. |
| TransformSnapshot.RestoreTouchesOnlyRecorded | Assets/Scripts/Pooling/PoolablePrefab.cs:54-61 | Restoring creates and destroys nothing, and leaves every node without an entry unchanged. |
| TransformSnapshot.RestoreCaptured | Assets/Scripts/Pooling/PoolablePrefab.cs:54-61 | Round trip: however recorded nodes changed after the capture, restoring gives each surviving node its captured state. |
| Pooling.PoolablePrefab.constructor | Assets/Scripts/Pooling/PoolablePrefab.cs:17-22 | A new handle holds its prefab reference, is not on loan (id 0) and has nothing cached. |
| Pooling.PoolablePrefab.CacheActiveStates | Assets/Scripts/Pooling/PoolablePrefab.cs:28-52 | Caches only once. Given the object's whole transform subtree in the object table (IsSubtree: every child names its node as parent, and every object parented to a node is among its children), the first call stores the capture of that subtree in walk order and reports true. Later calls report false and change nothing. |
| Pooling.PoolablePrefab.ResetActiveStates | Assets/Scripts/Pooling/PoolablePrefab.cs:54-61 | The object table becomes the old table with the cached snapshot restored, in list order. |
| Pooling.PoolablePrefab.SetPrefab | Assets/Scripts/Pooling/PoolablePrefab.cs:63-66 | The reference is replaced exactly when it is unset, names a destroyed object, or points at the handle's own object. A reference to any other live object is kept. |
| Pooling.PoolablePrefab.ReturnToPool | Assets/Scripts/Pooling/PoolablePrefab.cs:73-85 | A snapshot is needed only when the store will succeed. Succeeds exactly when the prefab and manager are live and the routed pool accepts the object. On success: the object becomes available, the loan id is 0, and the snapshot is restored over the parked state. On failure nothing changes. Other pools never change. |
| Pooling.PoolablePrefab.RemoveFromPool | Assets/Scripts/Pooling/PoolablePrefab.cs:87-98 | Succeeds exactly when a pool is routed and the object is live. On success the object leaves that pool's map and available set, and the loan id is 0. Otherwise the id is kept. |
| Pooling.PoolablePrefab.OnDestroy | Assets/Scripts/Pooling/PoolablePrefab.cs:68-71 | While the application is quitting nothing changes. Otherwise the effect is that of RemoveFromPool. |
| Pooling.ReturnedCloneState | Assets/Scripts/Pooling/PoolablePrefab.cs:24-26 | A returned clone of an active prefab comes back in the prefab's instantiated state, not parked. A clone of an inactive prefab comes back parked. No other object changes. |
| Pooling.LoanCounter.constructor | Assets/Scripts/Pooling/PrefabPoolManager.cs:24 | The loan counter starts at 1. |
| Pooling.PrefabPool.constructor | Assets/Scripts/Pooling/PrefabPoolManager.cs:7-27 | A deserialised pool has sizes 8, 8 and 128, no instances and no root. |
| Pooling.PrefabPool.Initialize | Assets/Scripts/Pooling/PrefabPoolManager.cs:29-60 | Without a live manager nothing changes. Otherwise: it adopts a live prefab argument; makes a fresh root under the manager's object; takes each non-negative size; grows by the clamped initial size. Every new clone is parked at the root and available, and no existing object changes. |
| Pooling.PrefabPool.SetSizes | Assets/Scripts/Pooling/PrefabPoolManager.cs:50-57 | Each size is replaced exactly when its argument is non-negative. |
| Pooling.PrefabPool.CreateRoot | Assets/Scripts/Pooling/PrefabPoolManager.cs:47-48 | Adds exactly one fresh, empty object under the given parent and makes it the root. |
| Pooling.PrefabPool.GrowUnderNewRoot | Assets/Scripts/Pooling/PrefabPoolManager.cs:59 | The initial growth step adds GrowCount(initialSize) to the counted size. Every new clone is parked at the origin root and available. |
| Pooling.PrefabPool.SanitizeAvailableGameObjects | Assets/Scripts/Pooling/PrefabPoolManager.cs:62-72 | Afterwards an id is available exactly when it is known, its object exists, and that object is inactive. |
| Pooling.PrefabPool.Instantiate | Assets/Scripts/Pooling/PrefabPoolManager.cs:91-92 | A fresh root-level copy of the prefab with its own handle. The handle points at the copy. It caches its snapshot right away exactly when the prefab is active. |
| Pooling.PrefabPool.AddClone | Assets/Scripts/Pooling/PrefabPoolManager.cs:91-103 | One new id: parked under the root at the root's position, available, and its handle pointing at the pool's prefab with a one-entry snapshot. Nothing else changes. |
| Pooling.PrefabPool.CloneLoop | Assets/Scripts/Pooling/PrefabPoolManager.cs:90-104 | The loop counting down from n to 0 adds exactly n + 1 new parked, available clones and changes no existing entry. |
| Pooling.PrefabPool.CreateInstances | Assets/Scripts/Pooling/PrefabPoolManager.cs:74-108 | Without a prefab, or with no room after clamping, nothing changes. Otherwise the counted size grows by the clamped count c, while c + 1 clones are created, all parked and available. |
| Pooling.PrefabPool.Expand | Assets/Scripts/Pooling/PrefabPoolManager.cs:153 | Growth by growAmount. Known entries are kept, every newly available id can be lent, and the pool adds nothing only when it cannot grow. |
| Pooling.PrefabPool.StoreInstance | Assets/Scripts/Pooling/PrefabPoolManager.cs:110-129 | Accepts exactly a live, known object that is not the prefab. It is parked under the root at the root's position and made available. A refusal changes nothing. |
| Pooling.PrefabPool.RemoveInstance | Assets/Scripts/Pooling/PrefabPoolManager.cs:131-141 | For exactly a live object, the id leaves both the map and the available set. Otherwise nothing changes. |
| Pooling.PrefabPool.ScanPooled | Assets/Scripts/Pooling/PrefabPoolManager.cs:164-181 | The scan, in any set order, returns a lendable available id if there is one. Every id it marks for removal is one that cannot be lent. |
| Pooling.PrefabPool.Lend | Assets/Scripts/Pooling/PrefabPoolManager.cs:203-213 | The id leaves the available set. Its handle gets the current loan id and the counter advances by NextLoanId. The object is unparented, moved and activated. |
| Pooling.PrefabPool.GetInstanceHandle | Assets/Scripts/Pooling/PrefabPoolManager.cs:149-215 | Lends a previously available, lendable instance (or a new clone). Only unlendable ids are dropped, and no other object changes. Null leaves the available set empty, and with expansion the pool cannot grow. |
| Pooling.PrefabPool.LendScanned | Assets/Scripts/Pooling/PrefabPoolManager.cs:159-213 | The purge-and-lend step, including the one retry after growth. It gives the same guarantees as GetInstanceHandle. |
| Pooling.PrefabPool.GetInstance | Assets/Scripts/Pooling/PrefabPoolManager.cs:143-148 | Returns the lent instance's object, active and unparented at the position and stamped with the loan id. None means nothing is available. Every other instance keeps its loan id, only unlendable ids leave the available set, and no other scene object changes. |
| PoolSpec.GrowCount | Assets/Scripts/Pooling/PrefabPoolManager.cs:78-82 | The clamped count is at most the room below maxSize and at most the request raised to 1, and it equals one of the two. |
| PoolSpec.ZeroGrowAmountStillGrows | Assets/Scripts/Pooling/PrefabPoolManager.cs:12-13 | A growth amount of 0, documented as switching growth off, still counts one instance while there is room. |
| PoolSpec.GrowCountWithinCap | Assets/Scripts/Pooling/PrefabPoolManager.cs:82-106 | A growth step that counts anything keeps the counted size within maxSize. |
| PoolSpec.NextLoanId | Assets/Scripts/Pooling/PrefabPoolManager.cs:205-207 | The next loan id is below the modulus. It is the successor until the modulus is reached, then 0. |
| PoolSpec.LoanIdAfterCounts | Assets/Scripts/Pooling/PrefabPoolManager.cs:205-207 | After n loans the counter is (start + n) modulo 0x7FFFFFFFFFFFFFFF. |
| PoolSpec.LoanIdsDistinctWithinPeriod | Assets/Scripts/Pooling/PrefabPoolManager.cs:205-207 | No two loans within one period share an id. |
| PoolSpec.LoanIdReachesZero | Assets/Scripts/Pooling/PrefabPoolManager.cs:24 | Starting from 1, the counter reaches the "no loan" value 0 after 0x7FFFFFFFFFFFFFFE loans. |
| PoolSpec.RegisteredMapsHighestIndex | Assets/Scripts/Pooling/PrefabPoolManager.cs:255-272 | The reverse registration loop keeps existing entries, and maps exactly the ids present. Each new id gets the highest index of a pool with that prefab. |
| Pooling.ManagerStatics.constructor | Assets/Scripts/Pooling/PrefabPoolManager.cs:231-236 | Before start-up no manager has woken, none is current, and the application is not quitting. |
| Pooling.PrefabPoolManager.constructor | Assets/Scripts/Pooling/PrefabPoolManager.cs:220-229 | Default sizes are 16, 16 and 128; the configured pools are kept and nothing is registered. |
| Pooling.PrefabPoolManager.GetPoolFindsRegistered | Assets/Scripts/Pooling/PrefabPoolManager.cs:317-333 | With a consistent registry, the lookup finds a pool exactly for registered ids. That pool holds that prefab or none. |
| Pooling.PrefabPoolManager.Awake | Assets/Scripts/Pooling/PrefabPoolManager.cs:243-273 | Counts the manager. It becomes the current manager only as the first one with no live manager. Registration is the Registered fold of the pools' prefab ids. |
| Pooling.PrefabPoolManager.RegisterPools | Assets/Scripts/Pooling/PrefabPoolManager.cs:252-272 | The loop from the last pool to the first produces Registered(old map, ids, 0). Prefabs are unchanged and no existing object changes. |
| Pooling.PrefabPoolManager.RegisterPool | Assets/Scripts/Pooling/PrefabPoolManager.cs:256-271 | The pool is initialised with its own prefab and sizes (InitializedInPlace). The sizes and known instances are kept. With a live manager: a fresh root under the manager's object, growth by GrowCount(initialSize), every new clone parked and available. Without one the pool is unchanged. Its prefab id is mapped to its index unless already mapped. |
| Pooling.PrefabPoolManager.OnEnable | Assets/Scripts/Pooling/PrefabPoolManager.cs:238-241 | Behaves as Awake exactly when no manager has woken, and changes nothing otherwise. |
| Pooling.PrefabPoolManager.OnApplicationQuit | Assets/Scripts/Pooling/PrefabPoolManager.cs:275-277 | Sets the quit flag. |
| Pooling.PrefabPoolManager.OnDestroy | Assets/Scripts/Pooling/PrefabPoolManager.cs:279-283 | The manager count drops by one. |
| Pooling.PrefabPoolManager.AddPool | Assets/Scripts/Pooling/PrefabPoolManager.cs:285-315 | Adds a pool exactly for a live, unregistered prefab. The pool is appended at the next index and registered there. Negative sizes take the manager defaults. Otherwise nothing changes. |
| Pooling.PrefabPoolManager.GetPoolOfPrefab | Assets/Scripts/Pooling/PrefabPoolManager.cs:334-344 | Finds a pool exactly for a live prefab that is registered, or for which creation is asked; a new pool is appended. The result is the registered pool. |
| Pooling.PrefabPoolManager.GetInstanceOf | Assets/Scripts/Pooling/PrefabPoolManager.cs:346-351 | Lends from the registered pool: the instance is out on loan at the position with the old counter value. None leaves the counter alone. Every other pool, every other handle's loan id and every other existing scene object are unchanged. |
| Pooling.PrefabPoolManager.GetInstanceOfPrefab | Assets/Scripts/Pooling/PrefabPoolManager.cs:352-357 | The same, through the prefab reference, creating the pool when asked. The pool found is the one registered for the prefab's id, so the lending goes through GetInstanceOf. The same frame holds: only the lent object, the new clones and the lending pool change. |
| Pooling.PrefabPoolManager.GetInstanceHandleOf | Assets/Scripts/Pooling/PrefabPoolManager.cs:359-364 | Lends from the registered pool and returns the lent object's own handle. Every other pool, every other handle's loan id and every other existing scene object are unchanged. |
| Pooling.PrefabPoolManager.GetInstanceHandleOfPrefab | Assets/Scripts/Pooling/PrefabPoolManager.cs:365-370 | The same, through the prefab reference, creating the pool when asked. The lending goes through GetInstanceHandleOf and has the same frame. |
| Pooling.PrefabPoolManager.StoreInstanceOf | Assets/Scripts/Pooling/PrefabPoolManager.cs:372-377 | Stores exactly when the registered pool accepts the object, with StoreInstance's effect. Other pools do not change. |
| Pooling.PrefabPoolManager.StoreInstanceOfPrefab | Assets/Scripts/Pooling/PrefabPoolManager.cs:378-383 | The same, through the prefab reference. |
| Pooling.PrefabPoolManager.StoreInstanceHandleOf | Assets/Scripts/Pooling/PrefabPoolManager.cs:385-392 | The same for a handle's object. A null handle is refused. |
| Pooling.PrefabPoolManager.StoreInstanceHandleOfPrefab | Assets/Scripts/Pooling/PrefabPoolManager.cs:393-400 | The same, through the prefab reference. |
| Pooling.PrefabPoolManager.RemoveInstanceOf | Assets/Scripts/Pooling/PrefabPoolManager.cs:402-407 | Removes exactly when a pool is registered and the object is live. Other pools do not change. |
| Pooling.PrefabPoolManager.RemoveInstanceOfPrefab | Assets/Scripts/Pooling/PrefabPoolManager.cs:408-413 | The same, through the prefab reference. |
| Pooling.PrefabPoolManager.RemoveInstanceHandleOf | Assets/Scripts/Pooling/PrefabPoolManager.cs:415-422 | The same for a handle's object. A null handle is refused. |
| Pooling.PrefabPoolManager.RemoveInstanceHandleOfPrefab | Assets/Scripts/Pooling/PrefabPoolManager.cs:423-430 | The same, through the prefab reference. |
| Camera2D.Clamp | Assets/Scripts/Camera/Camera2DController.cs:107 | The clamped value lies in a well-ordered range, is the value when inside it, and is the violated bound otherwise. |
| Camera2D.ClampBetween | Assets/Scripts/Camera/Camera2DController.cs:106-114 | With corners in either order, the result lies between them. It is the value when that already does, and the nearer corner otherwise. |
| Camera2D.Followed | Assets/Scripts/Camera/Camera2DController.cs:98-118 | The new camera position keeps the target inside the deadzone. A target already inside does not move the camera. On each axis where the target lies beyond the deadzone, the camera moves just far enough to put the target on the nearer edge. The height is fixed. |
| Camera2D.RoundHalfEven | Assets/Scripts/Camera/Camera2DController.cs:124 | Rounds to within one half; an exact half goes to the even integer. |
| Camera2D.SnapWithinHalfStride | Assets/Scripts/Camera/Camera2DController.cs:120-125 | Snapping moves a coordinate by at most half a pixel stride. |
| Camera2D.SnapIdempotent | Assets/Scripts/Camera/Camera2DController.cs:120-125 | A coordinate on the pixel grid stays put when snapped again. |
| Camera2D.SnappedXY | Assets/Scripts/Camera/Camera2DController.cs:120-125 | Only x and y are snapped, each within half a stride; z is kept. |
| Camera2D.OrthographicSize | Assets/Scripts/Camera/Camera2DController.cs:81-83 | The view's full height shows exactly the viewport's pixel height at the effective pixels per unit. |
| Camera2D.TimerStep | Assets/Scripts/Camera/Camera2DController.cs:139-141 | The timer never passes tweenTime and does not go back for a non-negative frame. |
| Camera2D.TweenRatio | Assets/Scripts/Camera/Camera2DController.cs:164-167 | The ratio is non-negative. It is exactly 1 or below 0.99999, and it is 0 exactly when the timer is. |
| Camera2D.TweenEndpoints | Assets/Scripts/Camera/Camera2DController.cs:164-174 | For tweenTime at least 1e-6: origin at timer 0, exactly the goal at timer tweenTime, and the Slerp at the elapsed fraction in between. |
| Camera2D.GoalReachedOnlyAboveMinimum | Assets/Scripts/Camera/Camera2DController.cs:141-167 | A completed timer gives ratio exactly 1 when tweenTime is at least 0.99999e-6. For any shorter tween time, 0 included, the ratio stays below 0.99999 at every timer value, so the goal is never shown. |
| Camera2D.TimerStaysInRange | Assets/Scripts/Camera/Camera2DController.cs:139-141 | Over any run of non-negative frames the timer stays within [start, tweenTime]. |
| Camera2D.TweenCompletes | Assets/Scripts/Camera/Camera2DController.cs:139-174 | Once the frames add up to the time still to go, the timer equals tweenTime, so the camera shows the goal. |
| Camera2D.ZeroTweenTimeHoldsOrigin | Assets/Scripts/Camera/Camera2DController.cs:139-170 | With tweenTime 0 the timer stays 0 and the camera stays at the tween origin however many frames pass. |
| Camera2D.Camera2DController.constructor | Assets/Scripts/Camera/Camera2DController.cs:15-59 | The inspector defaults. |
| Camera2D.Camera2DController.PixelsPerUnit | Assets/Scripts/Camera/Camera2DController.cs:63 | At least 1e-6, and the scaled value whenever that is at least 1e-6. |
| Camera2D.Camera2DController.GetCameraTarget | Assets/Scripts/Camera/Camera2DController.cs:177-179 | The hijacking object wins whenever it is live. There is something to follow exactly when either reference is live. |
| Camera2D.Camera2DController.GetCameraTargetType | Assets/Scripts/Camera/Camera2DController.cs:181-189 | Target mode exactly when rotateWithTarget is set or a live hijacking object other than the target is followed. |
| Camera2D.Camera2DController.PositionAfter | Assets/Scripts/Camera/Camera2DController.cs:86-127 | The followed position at cameraHeight; with pixel-perfect positioning, within half a stride of it on x and y. |
| Camera2D.Camera2DController.RotationAfter | Assets/Scripts/Camera/Camera2DController.cs:130-175 | The mode is GetCameraTargetType. A mode change resets the timer and shows the origin: the target's yaw toward world, the current rotation toward target. Otherwise the timer counts on within [0, tweenTime]. The goal is the target's yaw or defaultRotation, and is shown once the timer completes. |
| Camera2D.Camera2DController.Update | Assets/Scripts/Camera/Camera2DController.cs:74-84 | Nothing happens without a live target. Otherwise: the position and rotation updates, and the pixel-perfect orthographic size when a Camera is present and autosizing is on. |
| Camera2D.Camera2DController.PositionUpdate | Assets/Scripts/Camera/Camera2DController.cs:86-128 | The camera moves to PositionAfter when something live is followed and corners exist; otherwise it stays. |
| Camera2D.Camera2DController.RotationUpdate | Assets/Scripts/Camera/Camera2DController.cs:130-175 | The rotation state becomes RotationAfter when something live is followed; otherwise it is unchanged. |
| Splitscreen.ViewRects | Assets/Scripts/Camera/SplitscreenCamera.cs:145-165 | The table chosen for 1 to 4 cameras has an entry for every camera. |
| Splitscreen.LayoutsDoNotOverlap | Assets/Scripts/Camera/SplitscreenCamera.cs:25-49 | Whatever the flags, every camera of a layout, a single one included, gets a rectangle on the screen, and two different cameras get rectangles that do not overlap. |
| Splitscreen.PaddingKeepsCentre | Assets/Scripts/Camera/SplitscreenCamera.cs:170-175 | Padding shrinks a rectangle about its centre: each side moves in by the padding. |
| Splitscreen.CountOccupied | Assets/Scripts/Camera/SplitscreenCamera.cs:122-124 | Counts the occupied slots among the first n, never more than n. |
| Splitscreen.LayoutIndexIsRank | Assets/Scripts/Camera/SplitscreenCamera.cs:119-133 | A camera in its own slot gets the rank of that slot among the occupied ones, a valid index below the camera count. |
| Splitscreen.ShiftStopsShortInLastSlot | Assets/Scripts/Camera/SplitscreenCamera.cs:127-133 | A camera alone in the last slot has running number 1, and only the cap brings it to 0. |
| Splitscreen.SplitscreenCamera.constructor | Assets/Scripts/Camera/SplitscreenCamera.cs:14-55 | The inspector defaults, with "never laid out" remembered. |
| Splitscreen.SplitscreenCamera.PlacedAtRank | Assets/Scripts/Camera/SplitscreenCamera.cs:112-177 | A camera with a Camera component in its own slot is always placed, at the (padded) table entry of its rank. |
| Splitscreen.SplitscreenCamera.Update | Assets/Scripts/Camera/SplitscreenCamera.cs:68-77 | Sets up again exactly when the screen number, screen size or a flag changed. Afterwards, for a screen number between first and fourth, the check finds nothing to do. An invalid number changes nothing, so the check fires again on every frame. This camera keeps its screen number, flags, padding and Camera component, so every joined camera adopts the flags it had. A displaced camera is untouched. No other joined camera's screen number or Camera component changes. |
| Splitscreen.SplitscreenCamera.OnDisable | Assets/Scripts/Camera/SplitscreenCamera.cs:63-66 | Frees this camera's slot and forgets the screen number, so that the next Update sets up again. Every other camera still joined shows the new layout. No camera's flags, padding, screen number or Camera component change, and a camera that leaves the table is otherwise untouched. With an invalid number only the forgotten screen number changes: the other cameras are unchanged and this camera keeps its rectangle. |
| Splitscreen.SplitscreenCamera.SetupCamera | Assets/Scripts/Camera/SplitscreenCamera.cs:79-97 | Takes the slot of its screen number. Every joined camera takes this camera's flags and padding and shows the new layout. A displaced camera is untouched. An invalid number changes nothing. No other camera's screen number or Camera component changes. |
| Splitscreen.SplitscreenCamera.RemoveCamera | Assets/Scripts/Camera/SplitscreenCamera.cs:99-110 | Frees the slot, and every camera still joined shows the new layout. An invalid number changes nothing. No camera's flags or padding change, and no other camera's screen number or Camera component changes. |
| Splitscreen.SplitscreenCamera.ShareSettings | Assets/Scripts/Camera/SplitscreenCamera.cs:89-96 | After the loop every camera in the table has the shared settings and shows the layout of the table. |
| Splitscreen.SplitscreenCamera.RelayoutAll | Assets/Scripts/Camera/SplitscreenCamera.cs:107-109 | After the loop every camera in the table shows the layout of the table. |
| Splitscreen.SplitscreenCamera.AdoptSettings | Assets/Scripts/Camera/SplitscreenCamera.cs:90-95 | One camera takes the settings and shows the layout, whether met for the first time or again. |
| Splitscreen.SplitscreenCamera.Refresh | Assets/Scripts/Camera/SplitscreenCamera.cs:108-109 | One camera shows the layout, whether met for the first time or again. |
| Splitscreen.SplitscreenCamera.ScanSlots | Assets/Scripts/Camera/SplitscreenCamera.cs:119-128 | The loop yields the occupied count, the running screen number, and whether this camera is in the table. |
| Splitscreen.SplitscreenCamera.InitializeViewingRectangle | Assets/Scripts/Camera/SplitscreenCamera.cs:112-178 | Remembers what it laid out with. The rectangle becomes the camera's placement, or stays when it has none. |
| Splitscreen.SplitscreenCamera.SetRect | Assets/Scripts/Camera/SplitscreenCamera.cs:167-177 | The rectangle is the table entry, padded when more than one camera is joined. |

## Where the code differs from what its names and comments suggest

The model follows the code in each case below.

- **A growth step makes one clone too many.** The creation loop of `CreateInstances` runs from the clamped count down to 0 inclusive, so it creates count + 1 clones. The counted size grows by count only (`CreateInstances`, `CloneLoop`). A pool with initial size 2, growth 2 and maximum 3 therefore makes 3 clones at start-up, and 2 more on the fourth request. That fourth request is served, although a maximum of 3 suggests that it fails.
- **Growth cannot be switched off.** The tooltip of `growAmount` (PrefabPoolManager.cs:12-13) says that 0 disables growing. But `CreateInstances` raises a count of 0 or less to 1 and then makes count + 1 clones, so a growth amount of 0 still adds two clones per step while there is room (`ZeroGrowAmountStillGrows`, `CreateInstances`).
- **The retry after a purge keeps expansion on.** After purging unusable ids with nothing found, `GetInstanceHandle` grows and calls itself again. The comment at PrefabPoolManager.cs:194 says the call is made without the automatic expansion, but the argument is left out, so `expandPoolIfEmpty` takes its default, true. The retry happens at most once: the scan that follows a growth step finds every available id usable (`LendScanned`).
- **The loan id reaches 0.** The comment at PrefabPoolManager.cs:24 reserves 0 as the invalid id. The loan counter starts at 1 and counts modulo 0x7FFFFFFFFFFFFFFF. After 0x7FFFFFFFFFFFFFFE loans it stamps a loan with 0, the "not on loan" value (`LoanIdReachesZero`).
- **A returned clone of an active prefab comes back active.** A clone's Awake runs inside Instantiate and caches its snapshot while the clone is active, at the prefab's position and without a parent. The later caching in the growth step then does nothing. So returning such a clone parks it and then restores that snapshot: the object comes back active and outside the pool root (`ReturnedCloneState`, `ReturnToPool`). The next lending scan then drops its id as unusable.
- **`AddPool` can register a pool without a prefab.** When no manager is live, `Initialize` returns early, and the new pool keeps no prefab. It is still registered under the prefab's id.
- **Hijacking with the configured target itself changes nothing.** `GetCameraTargetType` compares the followed object with `target`. When `targetOther` is the same live object as `target`, the mode stays world unless `rotateWithTarget` is set.
- **The tween ratio is not clamped.** It is the absolute value of timer / max(tweenTime, 1e-6), not a clamp to [0, 1].
- **The goal is not always reached.** With a tween time of 0, the timer is held at 0, so the camera stays at the tween origin for good (`ZeroTweenTimeHoldsOrigin`). A tween time of at least 0.99999e-6 reaches the goal exactly once the timer completes (`TweenEndpoints`, `GoalReachedOnlyAboveMinimum`). Any shorter tween time never does.
- **The split-screen layout index is a rank only because of a cap.** The placement loop's running number is the rank of the camera's slot only thanks to the cap at cameraCt - 1. With only the last slot occupied, the running number stops at 1 (`ShiftStopsShortInLastSlot`).

## Left out

- Locks, logging, object names, gizmo drawing and `DontDestroyOnLoad` are not modelled. They do not change what is computed.
- Engine operations appear as their effect on the object table, not as engine code:
  - `Instantiate` copies only the root node of the prefab (clones of prefabs with children are not modelled);
  - new ids are drawn above every id in use;
  - prefab references are loaded assets that never change.
- Floating point is modelled with exact reals: single and double precision rounding, `(float)` casts and `Mathf` tolerance are not modelled.
- Pooling.PrefabPool.Initialize requires a prefab asset (argument or configured) when a manager is live. The source would fail with a null reference without any prefab; adding the component to a prefab is not modelled. It adopts an argument only when it is a prefab asset, where the source adopts any live object.
- Pooling.PoolablePrefab.ResetActiveStates requires a cached snapshot. The source would fail with a null reference otherwise.
- Pooling.PrefabPool.RootPosition falls back to the origin, and `AddClone` and `StoreInstance` park without a parent, when the pool has no root. This covers a root that was destroyed, and a root never created because `Initialize` returned early without a manager (PrefabPoolManager.cs:30-33). The source fails with a null reference at `Root.gameObject` in both cases.
- Pooling.PoolablePrefab.ResetActiveStates skips a recorded node that was destroyed after the capture. The source fails with a null reference there (PoolablePrefab.cs:56). That failure stops the restore partway, and in `ReturnToPool` it comes after the store and after the loan id was cleared. The model carries on with the remaining entries instead.
- Pooling.PrefabPoolManager.AddPool treats a live scene object that is not a prefab asset as no prefab and refuses it. The source registers a pool for any live object and clones it. Pools whose template is a scene object, which can be destroyed or changed while clones are made, are not modelled.
- Pooling.PrefabPoolManager.GetPoolOfPrefab, `PoolOfPrefab` and the routers that take a prefab reference likewise find no pool for a live scene object that is not a prefab asset. The same holds for `PoolablePrefab.ReturnToPool` and `RemoveFromPool` on a handle whose reference names such an object. The source looks its id up in the registry.
- The `prefabIdToIndex == null` branches of `AddPool` and `GetPool` cannot occur in the model, whose map always exists.
- Pooling.PrefabPoolManager.StoreInstanceHandleOf, Pooling.PrefabPoolManager.StoreInstanceHandleOfPrefab, Pooling.PrefabPoolManager.RemoveInstanceHandleOf and Pooling.PrefabPoolManager.RemoveInstanceHandleOfPrefab treat a handle as live exactly while its game object is. Destroying only the PoolablePrefab component while its object lives is not modelled, so the case where the manager refuses such a handle at PrefabPoolManager.cs:386, :394, :416 and :424 is absent.
- Pooling.PrefabPool.GetInstance does not model its second test on the handle. A handle just lent always belongs to a live object, so that test never fails.
- Pooling.PrefabPoolManager.Awake states the registry it builds, not the per-pool effects of `Initialize` on each pool.
- Pooling.PrefabPoolManager.RegisterPools likewise states the registry and the unchanged prefabs only. The per-pool effect of each step is stated by `RegisterPool`.
- Screen.width and Screen.height are parameters of the split-screen methods and must be positive. The source divides by them.
- The split-screen layout tables are the constant defaults; edits made to them in the inspector are not modelled.
- `Camera2DController.GetCameraDeadzoneCorners` (frustum corners, deadzone scaling, origin shift) is engine geometry. Its result is a parameter of `PositionUpdate` and `Update`: `None` when there is no Camera component.
- Camera2D.Camera2DController.PositionUpdate treats the camera transform as unrotated and of unit scale when it converts the target offset between world and local space.
- Camera2D.Camera2DController.Update takes the viewport's pixel height as parameters.
- `Start` and the two `Awake` methods that only look up components, and logging, are not modelled.
