/** The split-screen viewport layout: up to four cameras join a shared,
    process-wide table of four slots, and every joined camera places itself
    on screen from the slots that are occupied and the number of cameras.

    Screen.width and Screen.height are passed in as parameters; a camera's
    `hasCamera` field stands for its Camera component being present, and
    `rect` for that component's viewport rectangle. */
module Splitscreen {
  import opened Engine

  datatype ScreenNumber = First | Second | Third | Fourth | Invalid
  {
    /** The enum's underlying value, which is also the camera's slot. */
    function Ordinal(): int
    {
      match this
      case First => 0
      case Second => 1
      case Third => 2
      case Fourth => 3
      case Invalid => 4
    }

    /** Whether the number lies between `first` and `fourth`. */
    predicate InRange()
    {
      First.Ordinal() <= Ordinal() <= Fourth.Ordinal()
    }
  }

  /** A viewport rectangle in normalised screen coordinates. */
  datatype Rect = Rect(x: real, y: real, width: real, height: real)

  datatype Vector2Int = Vector2Int(x: int, y: int)

  const Rects4Player: seq<Rect> :=
    [Rect(0.0, 0.5, 0.5, 0.5), Rect(0.5, 0.5, 0.5, 0.5), Rect(0.0, 0.0, 0.5, 0.5), Rect(0.5, 0.0, 0.5, 0.5)]
  const Rects3Player: seq<Rect> :=
    [Rect(0.0, 0.5, 1.0, 0.5), Rect(0.0, 0.0, 0.5, 0.5), Rect(0.5, 0.0, 0.5, 0.5)]
  const Rects2Player: seq<Rect> :=
    [Rect(0.0, 0.0, 0.5, 1.0), Rect(0.5, 0.0, 0.5, 1.0)]
  const Rects2PlayerHorizontal: seq<Rect> :=
    [Rect(0.0, 0.5, 1.0, 0.5), Rect(0.0, 0.0, 1.0, 0.5)]
  const FullScreen: seq<Rect> := [Rect(0.0, 0.0, 1.0, 1.0)]

  /** The layout table for `cameraCt` cameras. Every index a layout can ask
      for, 0 to cameraCt - 1, lies inside the table chosen for it. */
  function ViewRects(cameraCt: int, vertical2PRects: bool, long3PRect: bool): (rects: seq<Rect>)
    ensures 1 <= cameraCt <= 4 ==> cameraCt <= |rects|
    ensures |rects| >= 1
  {
    if cameraCt == 2 then (if vertical2PRects then Rects2Player else Rects2PlayerHorizontal)
    else if cameraCt == 3 then (if long3PRect then Rects3Player else Rects4Player)
    else if cameraCt == 4 then Rects4Player
    else FullScreen
  }

  /** Two rectangles share no interior point. */
  predicate Disjoint(a: Rect, b: Rect)
  {
    a.x + a.width <= b.x || b.x + b.width <= a.x || a.y + a.height <= b.y || b.y + b.height <= a.y
  }

  /** A rectangle lies on the screen. */
  predicate OnScreen(r: Rect)
  {
    0.0 <= r.x && 0.0 <= r.y && r.x + r.width <= 1.0 && r.y + r.height <= 1.0 && r.width > 0.0 && r.height > 0.0
  }

  /** Whatever the flags, the cameras of one layout get rectangles on the
      screen that do not overlap. */
  lemma LayoutsDoNotOverlap(cameraCt: int, vertical2PRects: bool, long3PRect: bool, i: int, j: int)
    requires 1 <= cameraCt <= 4 && 0 <= i < cameraCt && 0 <= j < cameraCt
    ensures OnScreen(ViewRects(cameraCt, vertical2PRects, long3PRect)[i])
    ensures i != j ==> Disjoint(ViewRects(cameraCt, vertical2PRects, long3PRect)[i], ViewRects(cameraCt, vertical2PRects, long3PRect)[j])
  {
  }

  /** The rectangle moved in by the padding, in pixels, on every side. */
  function Padded(r: Rect, padding: Vector2Int, screenWidth: int, screenHeight: int): (p: Rect)
    requires screenWidth > 0 && screenHeight > 0
  {
    Rect(r.x + padding.x as real / screenWidth as real,
         r.y + padding.y as real / screenHeight as real,
         r.width - (2 * padding.x) as real / screenWidth as real,
         r.height - (2 * padding.y) as real / screenHeight as real)
  }

  /** Padding shrinks a rectangle about its centre: the centre stays put
      and each side moves in by the padding. */
  lemma PaddingKeepsCentre(r: Rect, padding: Vector2Int, screenWidth: int, screenHeight: int)
    requires screenWidth > 0 && screenHeight > 0
    ensures var p := Padded(r, padding, screenWidth, screenHeight);
      p.x + p.width / 2.0 == r.x + r.width / 2.0 &&
      p.y + p.height / 2.0 == r.y + r.height / 2.0 &&
      p.x - r.x == padding.x as real / screenWidth as real &&
      (r.x + r.width) - (p.x + p.width) == padding.x as real / screenWidth as real
  {
    var dx := padding.x as real / screenWidth as real;
    assert (2 * padding.x) as real / screenWidth as real == 2.0 * dx;
    var dy := padding.y as real / screenHeight as real;
    assert (2 * padding.y) as real / screenHeight as real == 2.0 * dy;
  }

  /** Which slots hold a camera. */
  function Occupied(slots: seq<SplitscreenCamera?>): (occupied: seq<bool>)
    ensures |occupied| == |slots|
    ensures forall i :: 0 <= i < |slots| ==> occupied[i] == (slots[i] != null)
  {
    seq(|slots|, i requires 0 <= i < |slots| => slots[i] != null)
  }

  /** How many of the first `n` slots are occupied. */
  function CountOccupied(occupied: seq<bool>, n: nat): (c: nat)
    requires n <= |occupied|
    ensures c <= n
  {
    if n == 0 then 0 else CountOccupied(occupied, n - 1) + (if occupied[n - 1] then 1 else 0)
  }

  /** An occupied slot among the first `n` is counted. */
  lemma {:induction false} OccupiedCounted(occupied: seq<bool>, j: nat, n: nat)
    requires j < n <= |occupied| && occupied[j]
    ensures CountOccupied(occupied, n) >= 1
    decreases n
  {
    if j < n - 1 {
      OccupiedCounted(occupied, j, n - 1);
    }
  }

  /** The running screen number of the placement loop after it has looked at
      the first `n` slots: every empty slot at or below the running number
      moves it down by one. */
  function Shifted(occupied: seq<bool>, start: int, n: nat): int
    requires n <= |occupied|
  {
    if n == 0 then start
    else
      var t := Shifted(occupied, start, n - 1);
      if !occupied[n - 1] && n - 1 <= t then t - 1 else t
  }

  function Min(a: int, b: int): int
  {
    if a < b then a else b
  }

  /** The layout index: the running number, capped at the last camera. */
  function LayoutIndex(occupied: seq<bool>, start: int): int
    requires |occupied| == 4
  {
    Min(Shifted(occupied, start, 4), CountOccupied(occupied, 4) - 1)
  }

  /** A camera that sits in the slot of its own screen number is placed at
      the rank of that slot among the occupied ones: the cameras keep their
      slot order and close up the gaps. (The cap in LayoutIndex is needed:
      with only slot 3 occupied the running number stops at 1.) */
  lemma LayoutIndexIsRank(occupied: seq<bool>, slot: int)
    requires |occupied| == 4 && 0 <= slot < 4 && occupied[slot]
    ensures LayoutIndex(occupied, slot) == CountOccupied(occupied, slot)
    ensures 0 <= LayoutIndex(occupied, slot) < CountOccupied(occupied, 4)
  {
    var c1 := CountOccupied(occupied, 1);
    var c2 := CountOccupied(occupied, 2);
    var c3 := CountOccupied(occupied, 3);
    var c4 := CountOccupied(occupied, 4);
    assert c1 == (if occupied[0] then 1 else 0);
    var t1 := Shifted(occupied, slot, 1);
    var t2 := Shifted(occupied, slot, 2);
    var t3 := Shifted(occupied, slot, 3);
    var t4 := Shifted(occupied, slot, 4);
    assert Shifted(occupied, slot, 0) == slot;
    assert t1 == if !occupied[0] && 0 <= slot then slot - 1 else slot;
    assert t2 == if !occupied[1] && 1 <= t1 then t1 - 1 else t1;
    assert t3 == if !occupied[2] && 2 <= t2 then t2 - 1 else t2;
    assert t4 == if !occupied[3] && 3 <= t3 then t3 - 1 else t3;
    assert c2 == c1 + (if occupied[1] then 1 else 0);
    assert c3 == c2 + (if occupied[2] then 1 else 0);
    assert c4 == c3 + (if occupied[3] then 1 else 0);
  }

  /** The running number stops short of the rank for a camera alone in the
      last slot; only the cap brings it to 0. */
  lemma ShiftStopsShortInLastSlot()
    ensures Shifted([false, false, false, true], 3, 4) == 1
    ensures LayoutIndex([false, false, false, true], 3) == 0
  {
  }

  /** A camera in the slot table `slots` after a relayout: it holds the
      flags and padding given and shows the layout of the table. */
  ghost predicate Adopted(c: SplitscreenCamera, slots: seq<SplitscreenCamera?>, vertical: bool, long3: bool,
                          padding: Vector2Int, screenWidth: int, screenHeight: int, before: Rect)
    requires |slots| == 4 && screenWidth > 0 && screenHeight > 0
    reads c
  {
    c.vertical2PRects == vertical && c.long3PRect == long3 && c.joinedCameraPadding == padding &&
    c.ShowsLayout(slots, screenWidth, screenHeight, before)
  }

  /** A camera in the table is counted among the occupied slots. */
  lemma MemberCounted(slots: seq<SplitscreenCamera?>, c: SplitscreenCamera)
    requires c in slots
    ensures CountOccupied(Occupied(slots), |slots|) >= 1
  {
    var j :| 0 <= j < |slots| && slots[j] == c;
    OccupiedCounted(Occupied(slots), j, |slots|);
  }

  /** One split-screen camera. `joined` is the process-wide slot table that
      every camera shares. */
  class SplitscreenCamera {
    const joined: array<SplitscreenCamera?>
    var screenNumber: ScreenNumber
    var vertical2PRects: bool
    var long3PRect: bool
    var joinedCameraPadding: Vector2Int
    var prevScreenNumber: ScreenNumber
    var prevScreenWidth: int
    var prevScreenHeight: int
    var prevVertical2PRects: bool
    var prevLong3PRect: bool
    var hasCamera: bool
    var rect: Rect

    /** A camera as configured by default; its Camera component's rectangle
        starts as the whole screen. */
    constructor (joined: array<SplitscreenCamera?>, hasCamera: bool)
      ensures this.joined == joined && this.hasCamera == hasCamera
      ensures screenNumber == First && vertical2PRects && !long3PRect && joinedCameraPadding == Vector2Int(1, 1)
      ensures prevScreenNumber == Invalid && prevScreenWidth == 0 && prevScreenHeight == 0
      ensures prevVertical2PRects && !prevLong3PRect && rect == Rect(0.0, 0.0, 1.0, 1.0)
    {
      this.joined := joined;
      this.hasCamera := hasCamera;
      screenNumber := First;
      vertical2PRects := true;
      long3PRect := false;
      joinedCameraPadding := Vector2Int(1, 1);
      prevScreenNumber := Invalid;
      prevScreenWidth := 0;
      prevScreenHeight := 0;
      prevVertical2PRects := true;
      prevLong3PRect := false;
      rect := Rect(0.0, 0.0, 1.0, 1.0);
    }

    /** The cameras in the slot table. */
    ghost function Cameras(): set<SplitscreenCamera>
      reads joined
    {
      set i | 0 <= i < joined.Length && joined[i] != null :: joined[i]
    }

    /** The table has four slots, and every camera in it shares it. */
    ghost predicate Valid()
      reads this, joined, Cameras()
    {
      joined.Length == 4 && forall i :: 0 <= i < joined.Length && joined[i] != null ==> joined[i].joined == joined
    }

    /** Whether anything the layout depends on differs from what the camera
        last laid itself out with. */
    predicate NeedsSetup(screenWidth: int, screenHeight: int)
      reads this
    {
      screenNumber != prevScreenNumber || prevScreenWidth != screenWidth || prevScreenHeight != screenHeight ||
      vertical2PRects != prevVertical2PRects || long3PRect != prevLong3PRect
    }

    /** The rectangle the camera gives itself from the slot table `slots`;
        none when it is in no slot, has no Camera component, or its layout
        index is negative. */
    ghost function Placement(slots: seq<SplitscreenCamera?>, screenWidth: int, screenHeight: int): Option<Rect>
      requires |slots| == 4 && screenWidth > 0 && screenHeight > 0
      reads this`screenNumber, this`vertical2PRects, this`long3PRect, this`joinedCameraPadding, this`hasCamera
    {
      var occupied := Occupied(slots);
      var cameraCt := CountOccupied(occupied, 4);
      var index := LayoutIndex(occupied, screenNumber.Ordinal());
      if this !in slots || !hasCamera || index < 0 || 4 < index then None
      else
        MemberCounted(slots, this);
        var r := ViewRects(cameraCt, vertical2PRects, long3PRect)[index];
        Some(if cameraCt > 1 then Padded(r, joinedCameraPadding, screenWidth, screenHeight) else r)
    }

    /** A camera with a Camera component that sits in the slot of its own
        screen number is always placed, and gets the table entry at the rank
        of its slot among the occupied ones. */
    lemma PlacedAtRank(slots: seq<SplitscreenCamera?>, screenWidth: int, screenHeight: int)
      requires |slots| == 4 && screenWidth > 0 && screenHeight > 0
      requires hasCamera && screenNumber.InRange() && slots[screenNumber.Ordinal()] == this
      ensures var occupied := Occupied(slots);
        CountOccupied(occupied, screenNumber.Ordinal()) < CountOccupied(occupied, 4) <= 4
      ensures var occupied := Occupied(slots);
        var cameraCt := CountOccupied(occupied, 4);
        var r := ViewRects(cameraCt, vertical2PRects, long3PRect)[CountOccupied(occupied, screenNumber.Ordinal())];
        Placement(slots, screenWidth, screenHeight) ==
          Some(if cameraCt > 1 then Padded(r, joinedCameraPadding, screenWidth, screenHeight) else r)
    {
      LayoutIndexIsRank(Occupied(slots), screenNumber.Ordinal());
    }

    /** The camera has laid itself out from `slots` for this screen size:
        nothing the layout depends on has changed since, and its rectangle
        is its placement, or what it was `before` when it has none. */
    ghost predicate ShowsLayout(slots: seq<SplitscreenCamera?>, screenWidth: int, screenHeight: int, before: Rect)
      requires |slots| == 4 && screenWidth > 0 && screenHeight > 0
      reads this
    {
      !NeedsSetup(screenWidth, screenHeight) &&
      rect == (if Placement(slots, screenWidth, screenHeight).Some? then Placement(slots, screenWidth, screenHeight).value
               else before)
    }

    /** The per-frame check: with a Camera component present, the camera is
        set up again exactly when its screen number, the screen size or a
        layout flag differs from what it last laid itself out with. Once set
        up, the check finds nothing to do until one of them changes. */
    method Update(screenWidth: int, screenHeight: int)
      requires Valid() && screenWidth > 0 && screenHeight > 0
      modifies joined, this, Cameras()
      ensures Valid()
      ensures !old(hasCamera && NeedsSetup(screenWidth, screenHeight)) ==>
                unchanged(joined) && unchanged(this) && unchanged(old(Cameras()))
      ensures old(hasCamera && NeedsSetup(screenWidth, screenHeight)) && screenNumber.InRange() ==>
                joined[..] == old(joined[..])[screenNumber.Ordinal() := this] &&
                forall j :: 0 <= j < 4 && joined[j] != null ==>
                  var c := joined[j];
                  Adopted(c, joined[..], vertical2PRects, long3PRect, joinedCameraPadding,
                          screenWidth, screenHeight, old(c.rect))
      ensures old(hasCamera && NeedsSetup(screenWidth, screenHeight)) && !screenNumber.InRange() ==>
                unchanged(joined) && unchanged(this) && unchanged(old(Cameras()))
      ensures hasCamera && screenNumber.InRange() ==> !NeedsSetup(screenWidth, screenHeight)
      ensures forall c :: c in old(Cameras()) && c != this ==>
                c.screenNumber == old(c.screenNumber) && c.hasCamera == old(c.hasCamera)
      ensures forall c :: c in old(Cameras()) && c !in Cameras() ==> unchanged(c)
      ensures screenNumber == old(screenNumber) && vertical2PRects == old(vertical2PRects)
      ensures long3PRect == old(long3PRect) && joinedCameraPadding == old(joinedCameraPadding)
      ensures hasCamera == old(hasCamera)
    {
      if !hasCamera {
        return;
      }
      if NeedsSetup(screenWidth, screenHeight) {
        SetupCamera(screenWidth, screenHeight);
        if screenNumber.InRange() {
          assert joined[screenNumber.Ordinal()] == this;
        }
      }
    }

    /** Leaves the table and forgets the screen number laid out with, so that
        the next Update joins again. */
    method OnDisable(screenWidth: int, screenHeight: int)
      requires Valid() && screenWidth > 0 && screenHeight > 0
      modifies joined, this, Cameras()
      ensures Valid()
      ensures old(screenNumber.InRange()) ==> joined[..] == old(joined[..])[old(screenNumber).Ordinal() := null]
      ensures !old(screenNumber.InRange()) ==> unchanged(joined)
      ensures prevScreenNumber == Invalid && screenNumber == old(screenNumber)
      ensures old(screenNumber.InRange()) ==>
                forall j :: 0 <= j < 4 && joined[j] != null && joined[j] != this ==>
                  var c := joined[j];
                  c.ShowsLayout(joined[..], screenWidth, screenHeight, old(c.rect))
      ensures screenNumber.InRange() ==> NeedsSetup(screenWidth, screenHeight)
      ensures forall c :: c in old(Cameras()) && c != this ==>
                c.screenNumber == old(c.screenNumber) && c.hasCamera == old(c.hasCamera)
      ensures forall c :: c in old(Cameras()) ==>
                c.vertical2PRects == old(c.vertical2PRects) && c.long3PRect == old(c.long3PRect) &&
                c.joinedCameraPadding == old(c.joinedCameraPadding)
      ensures screenNumber == old(screenNumber) && vertical2PRects == old(vertical2PRects)
      ensures long3PRect == old(long3PRect) && joinedCameraPadding == old(joinedCameraPadding)
      ensures hasCamera == old(hasCamera)
      ensures forall c :: c in old(Cameras()) && c !in Cameras() && c != this ==> unchanged(c)
      ensures !old(screenNumber.InRange()) ==> unchanged(old(Cameras()) - {this})
      ensures !old(screenNumber.InRange()) || this !in Cameras() ==>
                rect == old(rect) && prevScreenWidth == old(prevScreenWidth) &&
                prevScreenHeight == old(prevScreenHeight) && prevVertical2PRects == old(prevVertical2PRects) &&
                prevLong3PRect == old(prevLong3PRect)
    {
      RemoveCamera(screenWidth, screenHeight);
      prevScreenNumber := Invalid;
    }

    /** Joins the table at the slot of this camera's screen number and makes
        every joined camera take this camera's flags and padding and lay
        itself out again. A screen number out of range changes nothing. */
    method SetupCamera(screenWidth: int, screenHeight: int)
      requires Valid() && screenWidth > 0 && screenHeight > 0
      modifies joined, this, Cameras()
      ensures Valid()
      ensures !screenNumber.InRange() ==> unchanged(joined) && unchanged(this) && unchanged(old(Cameras()))
      ensures screenNumber.InRange() ==>
                joined[..] == old(joined[..])[screenNumber.Ordinal() := this] &&
                forall j :: 0 <= j < 4 && joined[j] != null ==>
                  var c := joined[j];
                  Adopted(c, joined[..], vertical2PRects, long3PRect, joinedCameraPadding,
                          screenWidth, screenHeight, old(c.rect))
      ensures forall c :: c in old(Cameras()) && c !in Cameras() ==> unchanged(c)
      ensures screenNumber == old(screenNumber) && vertical2PRects == old(vertical2PRects)
      ensures long3PRect == old(long3PRect) && joinedCameraPadding == old(joinedCameraPadding)
      ensures hasCamera == old(hasCamera)
      ensures forall c :: c in old(Cameras()) && c != this ==>
                c.screenNumber == old(c.screenNumber) && c.hasCamera == old(c.hasCamera)
    {
      if !screenNumber.InRange() {
        return;
      }
      joined[screenNumber.Ordinal()] := this;
      ShareSettings(screenWidth, screenHeight);
    }

    /** Leaves the table and makes every camera still in it lay itself out
        again. A screen number out of range changes nothing. */
    method RemoveCamera(screenWidth: int, screenHeight: int)
      requires Valid() && screenWidth > 0 && screenHeight > 0
      modifies joined, this, Cameras()
      ensures Valid()
      ensures !screenNumber.InRange() ==> unchanged(joined) && unchanged(this) && unchanged(old(Cameras()))
      ensures screenNumber.InRange() ==>
                joined[..] == old(joined[..])[screenNumber.Ordinal() := null] &&
                forall j :: 0 <= j < 4 && joined[j] != null ==>
                  var c := joined[j];
                  c.ShowsLayout(joined[..], screenWidth, screenHeight, old(c.rect))
      ensures forall c :: c in old(Cameras()) && c !in Cameras() ==> unchanged(c)
      ensures this !in Cameras() ==> unchanged(this)
      ensures forall c :: c in old(Cameras()) && c != this ==>
                c.screenNumber == old(c.screenNumber) && c.hasCamera == old(c.hasCamera)
      ensures forall c :: c in old(Cameras()) ==>
                c.vertical2PRects == old(c.vertical2PRects) && c.long3PRect == old(c.long3PRect) &&
                c.joinedCameraPadding == old(c.joinedCameraPadding)
      ensures screenNumber == old(screenNumber) && vertical2PRects == old(vertical2PRects)
      ensures long3PRect == old(long3PRect) && joinedCameraPadding == old(joinedCameraPadding)
      ensures hasCamera == old(hasCamera)
    {
      if !screenNumber.InRange() {
        return;
      }
      joined[screenNumber.Ordinal()] := null;
      RelayoutAll(screenWidth, screenHeight);
    }

    /** SetupCamera's loop over the table: every camera in it takes this
        camera's flags and padding and lays itself out again. */
    method ShareSettings(screenWidth: int, screenHeight: int)
      requires Valid() && screenWidth > 0 && screenHeight > 0
      modifies Cameras()`vertical2PRects, Cameras()`long3PRect, Cameras()`joinedCameraPadding
      modifies Cameras()`prevScreenNumber, Cameras()`prevVertical2PRects, Cameras()`prevLong3PRect
      modifies Cameras()`prevScreenWidth, Cameras()`prevScreenHeight, Cameras()`rect
      ensures Valid()
      ensures forall j :: 0 <= j < 4 && joined[j] != null ==>
                var c := joined[j];
                Adopted(c, joined[..], old(vertical2PRects), old(long3PRect), old(joinedCameraPadding),
                        screenWidth, screenHeight, old(c.rect))
    {
      var vertical, long3, padding := vertical2PRects, long3PRect, joinedCameraPadding;
      ghost var slots := joined[..];
      for i := 0 to joined.Length
        invariant joined[..] == slots
        invariant Valid()
        invariant forall j :: 0 <= j < i && slots[j] != null ==>
                    var c := slots[j];
                    Adopted(c, slots, vertical, long3, padding, screenWidth, screenHeight, old(c.rect))
        invariant forall j :: i <= j < 4 && slots[j] != null && slots[j] !in slots[..i] ==> unchanged(slots[j])
      {
        var camera := joined[i];
        if camera != null {
          AdoptSettings(camera, slots, vertical, long3, padding, screenWidth, screenHeight, old(camera.rect));
        }
        assert slots[..i + 1] == slots[..i] + [slots[i]];
      }
    }

    /** RemoveCamera's loop over the table: every camera in it lays itself
        out again. */
    method RelayoutAll(screenWidth: int, screenHeight: int)
      requires Valid() && screenWidth > 0 && screenHeight > 0
      modifies Cameras()`prevScreenNumber, Cameras()`prevVertical2PRects, Cameras()`prevLong3PRect
      modifies Cameras()`prevScreenWidth, Cameras()`prevScreenHeight, Cameras()`rect
      ensures Valid()
      ensures forall j :: 0 <= j < 4 && joined[j] != null ==>
                var c := joined[j];
                c.ShowsLayout(joined[..], screenWidth, screenHeight, old(c.rect))
    {
      ghost var slots := joined[..];
      for i := 0 to joined.Length
        invariant joined[..] == slots
        invariant Valid()
        invariant forall j :: 0 <= j < i && slots[j] != null ==>
                    var c := slots[j];
                    c.ShowsLayout(slots, screenWidth, screenHeight, old(c.rect))
        invariant forall j :: i <= j < 4 && slots[j] != null && slots[j] !in slots[..i] ==> unchanged(slots[j])
      {
        var camera := joined[i];
        if camera != null {
          Refresh(camera, slots, screenWidth, screenHeight, old(camera.rect));
        }
        assert slots[..i + 1] == slots[..i] + [slots[i]];
      }
    }

    /** One step of SetupCamera's loop, for `camera` in slot table `slots`:
        whether it is met for the first time (its rectangle still `before`)
        or again (already laid out), it ends up laid out with the flags and
        padding given. */
    method AdoptSettings(camera: SplitscreenCamera, ghost slots: seq<SplitscreenCamera?>,
                         vertical: bool, long3: bool, padding: Vector2Int,
                         screenWidth: int, screenHeight: int, ghost before: Rect)
      requires camera.joined.Length == 4 && camera.joined[..] == slots && screenWidth > 0 && screenHeight > 0
      requires camera.rect == before || Adopted(camera, slots, vertical, long3, padding, screenWidth, screenHeight, before)
      modifies camera`vertical2PRects, camera`long3PRect, camera`joinedCameraPadding
      modifies camera`prevScreenNumber, camera`prevVertical2PRects, camera`prevLong3PRect
      modifies camera`prevScreenWidth, camera`prevScreenHeight, camera`rect
      ensures Adopted(camera, slots, vertical, long3, padding, screenWidth, screenHeight, before)
    {
      camera.vertical2PRects := vertical;
      camera.long3PRect := long3;
      camera.joinedCameraPadding := padding;
      camera.InitializeViewingRectangle(screenWidth, screenHeight);
    }

    /** One step of RemoveCamera's loop: met for the first time or again,
        `camera` ends up laid out from `slots`. */
    method Refresh(camera: SplitscreenCamera, ghost slots: seq<SplitscreenCamera?>,
                   screenWidth: int, screenHeight: int, ghost before: Rect)
      requires camera.joined.Length == 4 && camera.joined[..] == slots && screenWidth > 0 && screenHeight > 0
      requires camera.rect == before || camera.ShowsLayout(slots, screenWidth, screenHeight, before)
      modifies camera`prevScreenNumber, camera`prevVertical2PRects, camera`prevLong3PRect
      modifies camera`prevScreenWidth, camera`prevScreenHeight, camera`rect
      ensures camera.ShowsLayout(slots, screenWidth, screenHeight, before)
    {
      camera.InitializeViewingRectangle(screenWidth, screenHeight);
    }

    /** The placement loop: counts the occupied slots, tracks the running
        screen number, and finds whether this camera is in a slot. */
    method ScanSlots() returns (cameraCt: int, thisScreenNum: int, isActive: bool)
      requires joined.Length == 4
      ensures cameraCt == CountOccupied(Occupied(joined[..]), 4)
      ensures thisScreenNum == Shifted(Occupied(joined[..]), screenNumber.Ordinal(), 4)
      ensures isActive <==> this in joined[..]
    {
      ghost var occupied := Occupied(joined[..]);
      cameraCt, thisScreenNum := 0, screenNumber.Ordinal();
      isActive := false;
      for i := 0 to joined.Length
        invariant cameraCt == CountOccupied(occupied, i)
        invariant thisScreenNum == Shifted(occupied, screenNumber.Ordinal(), i)
        invariant isActive <==> this in joined[..i]
      {
        if joined[i] != null {
          cameraCt := cameraCt + 1;
          if joined[i] == this {
            isActive := true;
          }
        } else if i <= thisScreenNum {
          thisScreenNum := thisScreenNum - 1;
        }
        assert joined[..i + 1] == joined[..i] + [joined[i]];
      }
      assert joined[..joined.Length] == joined[..];
    }

    /** Records what the layout is computed from, then counts the occupied
        slots and the running screen number over the table and, when this
        camera is in it, sets its rectangle from the chosen layout table,
        moved in by the padding when more than one camera is joined. */
    method InitializeViewingRectangle(screenWidth: int, screenHeight: int)
      requires joined.Length == 4 && screenWidth > 0 && screenHeight > 0
      modifies this`prevScreenNumber, this`prevVertical2PRects, this`prevLong3PRect
      modifies this`prevScreenWidth, this`prevScreenHeight, this`rect
      ensures ShowsLayout(joined[..], screenWidth, screenHeight, old(rect))
    {
      prevScreenNumber := screenNumber;
      prevVertical2PRects := vertical2PRects;
      prevLong3PRect := long3PRect;
      prevScreenWidth := screenWidth;
      prevScreenHeight := screenHeight;

      var cameraCt, thisScreenNum, isActive := ScanSlots();
      if !isActive {
        return;
      }
      thisScreenNum := Min(thisScreenNum, cameraCt - 1);
      if !hasCamera {
        return;
      }
      if thisScreenNum < 0 || 4 < thisScreenNum {
        return;
      }
      var viewRects := ViewRects(cameraCt, vertical2PRects, long3PRect);
      SetRect(viewRects[thisScreenNum], cameraCt, screenWidth, screenHeight);
    }

    /** The camera rectangle from the chosen table entry, moved in by the
        padding when more than one camera is joined. */
    method SetRect(r: Rect, cameraCt: int, screenWidth: int, screenHeight: int)
      requires screenWidth > 0 && screenHeight > 0
      modifies this`rect
      ensures rect == if cameraCt > 1 then Padded(r, joinedCameraPadding, screenWidth, screenHeight) else r
    {
      var x, width := r.x, r.width;
      var y, height := r.y, r.height;
      if cameraCt > 1 {
        x := x + joinedCameraPadding.x as real / screenWidth as real;
        y := y + joinedCameraPadding.y as real / screenHeight as real;
        width := width - (2 * joinedCameraPadding.x) as real / screenWidth as real;
        height := height - (2 * joinedCameraPadding.y) as real / screenHeight as real;
      }
      rect := Rect(x, y, width, height);
    }
  }
}
