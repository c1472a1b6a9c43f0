/** The edit state of the camera screen (components/CameraWithFilters.tsx):
    rotation, retake, the crop box with its preset sizes, pan and resize
    gestures, and the decision `handleConfirm` takes. Coordinates are exact
    reals; the crop box is in percent of the photo container, whose pixel
    size comes from layout. Taking the picture and running the filter
    pipeline are calls outside the model: their results are parameters. */
module CameraCrop {
  import opened Wrappers
  import SeqUtil

  /** A container side in pixels. */
  type Extent = r: real | r > 0.0 witness 1.0

  datatype Container = Container(width: Extent, height: Extent)

  /** Left, top, width and height in percent of the container. */
  datatype CropArea = CropArea(x: real, y: real, width: real, height: real)

  datatype DragStart = DragStart(x: real, y: real, offsetX: real, offsetY: real)

  datatype FilterKind = NoFilter | Grayscale | Sepia

  /** `resizeCorner`; `NoCorner` is the empty string it starts as. */
  datatype Corner = NoCorner | TopLeft | TopRight | BottomLeft | BottomRight

  datatype Editor = Editor(
    captured: Option<string>,
    cropped: Option<string>,
    filter: FilterKind,
    intensity: real,
    rotation: nat,
    cropMode: bool,
    crop: CropArea,
    dragging: bool,
    resizing: bool,
    corner: Corner,
    dragStart: DragStart,
    container: Container)

  /** The crop box a fresh or retaken photo starts with. */
  const DefaultCrop: CropArea := CropArea(20.0, 20.0, 60.0, 60.0)

  /** The screen's state when it opens: no photo, no filter at full
      intensity, upright, crop mode off with the default box, no gesture in
      progress, and a 300 by 400 container until the first layout. There is
      nothing to confirm yet. */
  function InitialEditor(): (r: Editor)
    ensures r.captured.None? && r.cropped.None?
    ensures r.filter == NoFilter && r.intensity == 1.0 && r.rotation == 0
    ensures !r.cropMode && r.crop == DefaultCrop
    ensures !r.dragging && !r.resizing && r.corner == NoCorner
    ensures r.dragStart == DragStart(0.0, 0.0, 0.0, 0.0)
    ensures r.container.width == 300.0 && r.container.height == 400.0
    ensures Confirm(r) == NoPhoto
  {
    Editor(None, None, NoFilter, 1.0, 0, false, DefaultCrop, false, false, NoCorner,
           DragStart(0.0, 0.0, 0.0, 0.0), Container(300.0, 400.0))
  }

  /** JavaScript truthiness of a `string | null`: the empty string is
      falsy too. */
  predicate Truthy(s: Option<string>) {
    s.Some? && s.value != ""
  }

  function Max(a: real, b: real): (m: real)
    ensures m >= a && m >= b && (m == a || m == b)
  {
    if a >= b then a else b
  }

  function Min(a: real, b: real): (m: real)
    ensures m <= a && m <= b && (m == a || m == b)
  {
    if a <= b then a else b
  }

  function Abs(a: real): (m: real)
    ensures m >= 0.0 && (m == a || m == -a)
  {
    if a < 0.0 then -a else a
  }

  // ---------------------------------------------------------------------
  // Rotation and retake

  /** `handleRotate`: a quarter turn clockwise, kept below a full turn. */
  function Rotate(rotation: nat): (r: nat)
    ensures r < 360
    ensures r % 90 == rotation % 90
    ensures rotation < 270 ==> r == rotation + 90
  {
    (rotation + 90) % 360
  }

  function RotateTimes(rotation: nat, n: nat): nat {
    if n == 0 then rotation else Rotate(RotateTimes(rotation, n - 1))
  }

  /** After n presses the rotation is the start plus n quarter turns,
      reduced modulo a full turn. */
  lemma {:induction false} RotateTimesFormula(rotation: nat, n: nat)
    requires rotation < 360
    ensures RotateTimes(rotation, n) == (rotation + 90 * n) % 360
  {
    if n > 0 {
      RotateTimesFormula(rotation, n - 1);
      var prev := (rotation + 90 * (n - 1)) % 360;
      var q := (rotation + 90 * (n - 1)) / 360;
      assert rotation + 90 * n == 360 * q + (prev + 90);
      ModShift(prev + 90, q);
    }
  }

  lemma ModShift(a: nat, q: nat)
    ensures (360 * q + a) % 360 == a % 360
  {
  }

  /** Starting from 0, the rotation is always a whole number of quarter
      turns. */
  lemma {:induction false} RotationsStayQuarterTurns(n: nat)
    ensures RotateTimes(0, n) in {0, 90, 180, 270}
  {
    if n > 0 {
      RotationsStayQuarterTurns(n - 1);
    }
  }

  /** Four presses bring any reachable rotation back to itself. */
  lemma FourRotationsIdentity(rotation: nat)
    requires rotation < 360
    ensures RotateTimes(rotation, 4) == rotation
  {
    RotateTimesFormula(rotation, 4);
    ModShift(rotation, 1);
  }

  /** The rotate button: only the rotation changes. */
  function PressRotate(e: Editor): (r: Editor)
    ensures r == e.(rotation := r.rotation)
    ensures r.rotation < 360 && r.rotation % 90 == e.rotation % 90
  {
    e.(rotation := Rotate(e.rotation))
  }

  /** `handleRetake`: back to the camera with no edits. */
  function Retake(e: Editor): (r: Editor)
    ensures r.captured == None && r.cropped == None
    ensures r.rotation == 0 && !r.cropMode && r.crop == DefaultCrop
    ensures r.filter == e.filter && r.intensity == e.intensity && r.container == e.container
    ensures r.dragging == e.dragging && r.resizing == e.resizing
  {
    e.(captured := None, cropped := None, rotation := 0, cropMode := false, crop := DefaultCrop)
  }

  /** `toggleCropMode`. Leaving crop mode with a photo runs the crop through
      the filter pipeline, whose result is `applied` (None when it throws,
      which only raises an alert). Either way the mode flips and the box
      stays where it is. */
  function ToggleCropMode(e: Editor, applied: Option<string>): (r: Editor)
    ensures r.cropMode == !e.cropMode
    ensures r.crop == e.crop && r.captured == e.captured && r.rotation == e.rotation
    ensures e.cropMode && Truthy(e.captured) && applied.Some? ==> r.cropped == applied
    ensures !(e.cropMode && Truthy(e.captured) && applied.Some?) ==> r.cropped == e.cropped
  {
    var cropped := if e.cropMode && Truthy(e.captured) && applied.Some? then applied else e.cropped;
    e.(cropped := cropped, cropMode := !e.cropMode)
  }

  // ---------------------------------------------------------------------
  // Preset crop sizes

  datatype Size = Size(width: real, height: real)

  /** Large square, medium square, small square, landscape, portrait. */
  const CropSizes: seq<Size> := [Size(80.0, 80.0), Size(60.0, 60.0), Size(40.0, 40.0), Size(70.0, 50.0), Size(50.0, 70.0)]

  /** A box counts as having a preset size when both sides are within 5. */
  predicate Near(s: Size, c: CropArea) {
    Abs(s.width - c.width) < 5.0 && Abs(s.height - c.height) < 5.0
  }

  function NearIndex(c: CropArea): (i: int)
    ensures -1 <= i < |CropSizes|
    ensures i == -1 <==> forall k :: 0 <= k < |CropSizes| ==> !Near(CropSizes[k], c)
    ensures 0 <= i ==> Near(CropSizes[i], c) && forall k :: 0 <= k < i ==> !Near(CropSizes[k], c)
  {
    SeqUtil.FindIndex(CropSizes, (s: Size) => Near(s, c))
  }

  /** A box of the given size centred in the container. */
  function Centred(s: Size): (c: CropArea)
    ensures c.width == s.width && c.height == s.height
    ensures c.x + c.width + c.x == 100.0 && c.y + c.height + c.y == 100.0
  {
    CropArea((100.0 - s.width) / 2.0, (100.0 - s.height) / 2.0, s.width, s.height)
  }

  /** The box one press of the size button gives: the preset after the
      first one the box is near (the first preset when it is near none),
      centred. The cycle length is `sizes.length`, which is 5. */
  function NextCrop(c: CropArea): (r: CropArea)
    ensures exists k :: 0 <= k < |CropSizes| && r == Centred(CropSizes[k])
    ensures (forall k :: 0 <= k < |CropSizes| ==> !Near(CropSizes[k], c)) ==> r == Centred(CropSizes[0])
  {
    Centred(CropSizes[(NearIndex(c) + 1) % 5])
  }

  /** `adjustCropSize`: outside crop mode nothing happens; inside, only the
      box changes. */
  function AdjustCropSize(e: Editor): (r: Editor)
    ensures !e.cropMode ==> r == e
    ensures e.cropMode ==> r == e.(crop := NextCrop(e.crop))
  {
    if !e.cropMode then e else e.(crop := NextCrop(e.crop))
  }

  /** The first near preset decides: the box becomes the one after it. */
  lemma NextAfterNearest(c: CropArea, k: nat)
    requires k < |CropSizes|
    requires Near(CropSizes[k], c)
    requires forall j :: 0 <= j < k ==> !Near(CropSizes[j], c)
    ensures NextCrop(c) == Centred(CropSizes[(k + 1) % 5])
  {
    assert NearIndex(c) == k;
  }

  /** A box of exactly a preset size is near that preset and no earlier
      one: the presets are at least 10 apart on some side. */
  lemma PresetIsOwnNearest(c: CropArea, k: nat)
    requires k < |CropSizes|
    requires c.width == CropSizes[k].width && c.height == CropSizes[k].height
    ensures Near(CropSizes[k], c)
    ensures forall j :: 0 <= j < k ==> !Near(CropSizes[j], c)
  {
  }

  /** One press from a box of preset size k gives preset k + 1, centred. */
  lemma NextFromPreset(c: CropArea, k: nat)
    requires k < |CropSizes|
    requires c.width == CropSizes[k].width && c.height == CropSizes[k].height
    ensures NextCrop(c) == Centred(CropSizes[(k + 1) % 5])
  {
    PresetIsOwnNearest(c, k);
    NextAfterNearest(c, k);
  }

  function AdjustTimes(e: Editor, n: nat): Editor {
    if n == 0 then e else AdjustCropSize(AdjustTimes(e, n - 1))
  }

  lemma FiveStepsModFive(k: nat)
    requires k < 5
    ensures (((((k + 1) % 5 + 1) % 5 + 1) % 5 + 1) % 5 + 1) % 5 == k
  {
  }

  /** Five presses from a centred preset box give back the same editor. */
  lemma FivePressesReturn(e: Editor, k: nat)
    requires e.cropMode && k < |CropSizes|
    requires e.crop == Centred(CropSizes[k])
    ensures AdjustTimes(e, 5) == e
  {
    var k1 := (k + 1) % 5;
    var k2 := (k1 + 1) % 5;
    var k3 := (k2 + 1) % 5;
    var k4 := (k3 + 1) % 5;
    FiveStepsModFive(k);
    assert (k4 + 1) % 5 == k;
    var c0 := e.crop;
    NextFromPreset(c0, k);
    var c1 := NextCrop(c0);
    NextFromPreset(c1, k1);
    var c2 := NextCrop(c1);
    NextFromPreset(c2, k2);
    var c3 := NextCrop(c2);
    NextFromPreset(c3, k3);
    var c4 := NextCrop(c3);
    NextFromPreset(c4, k4);
    assert NextCrop(c4) == Centred(CropSizes[k]);
    assert AdjustTimes(e, 1) == e.(crop := c1);
    assert AdjustTimes(e, 2) == e.(crop := c2);
    assert AdjustTimes(e, 3) == e.(crop := c3);
    assert AdjustTimes(e, 4) == e.(crop := c4);
  }

  // ---------------------------------------------------------------------
  // Panning

  /** Moves the box to the requested position, clamped so that it stays in
      the container; the size is kept. */
  function ClampPosition(c: CropArea, nx: real, ny: real): (r: CropArea)
    ensures r.width == c.width && r.height == c.height
    ensures c.width <= 100.0 ==> 0.0 <= r.x <= 100.0 - c.width
    ensures c.height <= 100.0 ==> 0.0 <= r.y <= 100.0 - c.height
    ensures 0.0 <= nx <= 100.0 - c.width ==> r.x == nx
    ensures 0.0 <= ny <= 100.0 - c.height ==> r.y == ny
    ensures nx < 0.0 ==> r.x == 0.0
    ensures ny < 0.0 ==> r.y == 0.0
  {
    c.(x := Max(0.0, Min(100.0 - c.width, nx)), y := Max(0.0, Min(100.0 - c.height, ny)))
  }

  /** `handleCropPanStart`: remembers where inside the box it was grabbed. */
  function PanStart(e: Editor, locX: real, locY: real): (r: Editor)
    ensures !e.cropMode || e.resizing ==> r == e
    ensures e.cropMode && !e.resizing ==>
      r.dragging && r.crop == e.crop &&
      r.dragStart.x == locX && r.dragStart.y == locY &&
      locX - r.dragStart.offsetX == e.crop.x / 100.0 * e.container.width &&
      locY - r.dragStart.offsetY == e.crop.y / 100.0 * e.container.height
  {
    if !e.cropMode || e.resizing then e
    else
      var px := e.crop.x / 100.0 * e.container.width;
      var py := e.crop.y / 100.0 * e.container.height;
      e.(dragging := true, dragStart := DragStart(locX, locY, locX - px, locY - py))
  }

  /** `handleCropPanMove`: the box's corner follows the finger, less the
      grab offset, clamped. */
  function PanMove(e: Editor, locX: real, locY: real): (r: Editor)
    ensures !e.dragging || !e.cropMode || e.resizing ==> r == e
    ensures e.dragging && e.cropMode && !e.resizing ==>
      r == e.(crop := ClampPosition(e.crop,
                                    (locX - e.dragStart.offsetX) / e.container.width * 100.0,
                                    (locY - e.dragStart.offsetY) / e.container.height * 100.0))
  {
    if !e.dragging || !e.cropMode || e.resizing then e
    else
      var nx := (locX - e.dragStart.offsetX) / e.container.width * 100.0;
      var ny := (locY - e.dragStart.offsetY) / e.container.height * 100.0;
      e.(crop := ClampPosition(e.crop, nx, ny))
  }

  lemma PercentRoundTrip(p: real, size: Extent)
    ensures (p / 100.0 * size) / size * 100.0 == p
  {
  }

  /** Grabbing the box and moving to the very same point leaves a box that
      lies inside the container where it was. */
  lemma GrabWithoutMoving(e: Editor, locX: real, locY: real)
    requires e.cropMode && !e.resizing
    requires 0.0 <= e.crop.x <= 100.0 - e.crop.width
    requires 0.0 <= e.crop.y <= 100.0 - e.crop.height
    ensures PanMove(PanStart(e, locX, locY), locX, locY).crop == e.crop
  {
    var s := PanStart(e, locX, locY);
    PercentRoundTrip(e.crop.x, e.container.width);
    PercentRoundTrip(e.crop.y, e.container.height);
    assert locX - s.dragStart.offsetX == e.crop.x / 100.0 * e.container.width;
    assert locY - s.dragStart.offsetY == e.crop.y / 100.0 * e.container.height;
  }

  /** The box's own touch-start handler: starts a drag from this point. */
  function TouchStart(e: Editor, locX: real, locY: real): (r: Editor)
    ensures r.dragging && r.dragStart == DragStart(locX, locY, 0.0, 0.0)
    ensures r.crop == e.crop
  {
    e.(dragging := true, dragStart := DragStart(locX, locY, 0.0, 0.0))
  }

  /** The box's own touch-move handler: the box moves by the finger's
      movement since the last event, clamped, and that event becomes the
      new reference point. */
  function TouchMove(e: Editor, locX: real, locY: real): (r: Editor)
    ensures !e.dragging ==> r == e
    ensures e.dragging ==>
      r.crop == ClampPosition(e.crop,
                              e.crop.x + (locX - e.dragStart.x) / e.container.width * 100.0,
                              e.crop.y + (locY - e.dragStart.y) / e.container.height * 100.0) &&
      r.dragStart == DragStart(locX, locY, 0.0, 0.0) && r.dragging
  {
    if !e.dragging then e
    else
      var nx := e.crop.x + (locX - e.dragStart.x) / e.container.width * 100.0;
      var ny := e.crop.y + (locY - e.dragStart.y) / e.container.height * 100.0;
      e.(crop := ClampPosition(e.crop, nx, ny), dragStart := DragStart(locX, locY, 0.0, 0.0))
  }

  /** A touch move that does not move leaves a box inside the container
      where it was. */
  lemma TouchMoveInPlace(e: Editor)
    requires e.dragging
    requires 0.0 <= e.crop.x <= 100.0 - e.crop.width
    requires 0.0 <= e.crop.y <= 100.0 - e.crop.height
    ensures TouchMove(e, e.dragStart.x, e.dragStart.y).crop == e.crop
  {
  }

  /** The crop box's touch-end handler, and `handleCropPanEnd`, which does the same. */
  function PanEnd(e: Editor): (r: Editor)
    ensures !r.dragging && r.crop == e.crop
  {
    e.(dragging := false)
  }

  // ---------------------------------------------------------------------
  // Resizing

  /** `handleResizeStart`. */
  function ResizeStart(e: Editor, corner: Corner, locX: real, locY: real): (r: Editor)
    ensures !e.cropMode ==> r == e
    ensures e.cropMode ==> r.resizing && r.corner == corner && r.dragStart == DragStart(locX, locY, 0.0, 0.0) && r.crop == e.crop
  {
    if !e.cropMode then e
    else e.(resizing := true, corner := corner, dragStart := DragStart(locX, locY, 0.0, 0.0))
  }

  /** Dragging the left (top) edge along one axis: the edge goes to the
      finger, in percent, and the size is what is left up to the far edge,
      computed through pixels as the handler does. */
  function MoveNearEdge(start: real, size: real, loc: real, extent: Extent): (r: (real, real))
    ensures r.0 == loc / extent * 100.0
    ensures r.0 + r.1 == start + size
  {
    var pixels := (start + size) / 100.0 * extent - (loc / extent) * extent;
    assert (loc / extent) * extent == loc;
    (loc / extent * 100.0, pixels / extent * 100.0)
  }

  /** The box the dragged corner asks for, before the size clamp. The
      opposite corner stays put. */
  function RawResize(c: CropArea, corner: Corner, locX: real, locY: real, box: Container): (r: CropArea)
    ensures corner == NoCorner ==> r == c
    ensures corner in {TopLeft, BottomLeft} ==> r.x + r.width == c.x + c.width && r.x == locX / box.width * 100.0
    ensures corner in {TopRight, BottomRight} ==> r.x == c.x && r.x + r.width == locX / box.width * 100.0
    ensures corner in {TopLeft, TopRight} ==> r.y + r.height == c.y + c.height && r.y == locY / box.height * 100.0
    ensures corner in {BottomLeft, BottomRight} ==> r.y == c.y && r.y + r.height == locY / box.height * 100.0
  {
    var cw, ch := box.width, box.height;
    match corner
    case NoCorner => c
    case TopLeft =>
      var (x, w) := MoveNearEdge(c.x, c.width, locX, cw);
      var (y, h) := MoveNearEdge(c.y, c.height, locY, ch);
      CropArea(x, y, w, h)
    case TopRight =>
      var (y, h) := MoveNearEdge(c.y, c.height, locY, ch);
      CropArea(c.x, y, locX / cw * 100.0 - c.x, h)
    case BottomLeft =>
      var (x, w) := MoveNearEdge(c.x, c.width, locX, cw);
      CropArea(x, c.y, w, locY / ch * 100.0 - c.y)
    case BottomRight =>
      CropArea(c.x, c.y, locX / cw * 100.0 - c.x, locY / ch * 100.0 - c.y)
  }

  /** The size clamp: at least 10 on each side and, where that allows, no
      further than the container's right and bottom edges. */
  function ClampSize(c: CropArea): (r: CropArea)
    ensures r.x == c.x && r.y == c.y
    ensures r.width >= 10.0 && r.height >= 10.0
    ensures Min(100.0 - c.x, c.width) >= 10.0 ==> r.width == Min(100.0 - c.x, c.width)
    ensures Min(100.0 - c.y, c.height) >= 10.0 ==> r.height == Min(100.0 - c.y, c.height)
    ensures 10.0 <= c.width <= 100.0 - c.x ==> r.width == c.width
    ensures 10.0 <= c.height <= 100.0 - c.y ==> r.height == c.height
    ensures c.x <= 90.0 ==> r.x + r.width <= 100.0
    ensures c.y <= 90.0 ==> r.y + r.height <= 100.0
  {
    c.(width := Max(10.0, Min(100.0 - c.x, c.width)), height := Max(10.0, Min(100.0 - c.y, c.height)))
  }

  /** `handleResizeMove`. */
  function ResizeMove(e: Editor, locX: real, locY: real): (r: Editor)
    ensures !e.resizing || !e.cropMode ==> r == e
    ensures e.resizing && e.cropMode ==>
      r == e.(crop := ClampSize(RawResize(e.crop, e.corner, locX, locY, e.container)))
    ensures e.resizing && e.cropMode ==> r.crop.width >= 10.0 && r.crop.height >= 10.0
  {
    if !e.resizing || !e.cropMode then e
    else e.(crop := ClampSize(RawResize(e.crop, e.corner, locX, locY, e.container)))
  }

  /** Dragging the bottom-right corner to a point inside the container, at
      least 10 right of and below the box's corner, makes that point the
      box's new bottom-right corner. */
  lemma BottomRightFollowsFinger(e: Editor, locX: real, locY: real)
    requires e.resizing && e.cropMode && e.corner == BottomRight
    requires var px := locX / e.container.width * 100.0;
      e.crop.x + 10.0 <= px <= 100.0
    requires var py := locY / e.container.height * 100.0;
      e.crop.y + 10.0 <= py <= 100.0
    ensures var c := ResizeMove(e, locX, locY).crop;
      c.x == e.crop.x && c.y == e.crop.y &&
      c.x + c.width == locX / e.container.width * 100.0 &&
      c.y + c.height == locY / e.container.height * 100.0
  {
  }

  /** Dragging the top-left corner within bounds keeps the right and
      bottom edges where they were. */
  lemma TopLeftKeepsFarEdges(e: Editor, locX: real, locY: real)
    requires e.resizing && e.cropMode && e.corner == TopLeft
    requires e.crop.x + e.crop.width <= 100.0 && e.crop.y + e.crop.height <= 100.0
    requires locX / e.container.width * 100.0 <= e.crop.x + e.crop.width - 10.0
    requires locY / e.container.height * 100.0 <= e.crop.y + e.crop.height - 10.0
    ensures var c := ResizeMove(e, locX, locY).crop;
      c.x + c.width == e.crop.x + e.crop.width && c.y + c.height == e.crop.y + e.crop.height
  {
  }

  /** `handleResizeEnd`. */
  function ResizeEnd(e: Editor): (r: Editor)
    ensures !r.resizing && r.corner == NoCorner && r.crop == e.crop
  {
    e.(resizing := false, corner := NoCorner)
  }

  // ---------------------------------------------------------------------
  // Confirming

  /** What `handleConfirm` does with the photo. */
  datatype Plan =
    | NoPhoto
    | UseCropped(uri: string)
    | ApplyFilters(source: string, kind: FilterKind, intensity: real, rotation: nat, crop: Option<CropArea>)
    | UseOriginal(uri: string)

  /** `handleConfirm`: the cropped photo wins; otherwise the filter
      pipeline runs on the original only when a filter or a rotation is
      set, passing the box only while crop mode is still on. */
  function Confirm(e: Editor): (p: Plan)
    ensures !Truthy(e.captured) <==> p.NoPhoto?
    ensures Truthy(e.captured) && Truthy(e.cropped) ==> p == UseCropped(e.cropped.value)
    ensures p.ApplyFilters? <==>
      Truthy(e.captured) && !Truthy(e.cropped) && (e.filter != NoFilter || e.rotation != 0)
    ensures p.ApplyFilters? ==>
      (p.source == e.captured.value && p.kind == e.filter &&
       p.rotation == e.rotation && p.intensity == e.intensity &&
       (p.crop.Some? <==> e.cropMode) && (p.crop.Some? ==> p.crop.value == e.crop))
    ensures p.UseOriginal? ==> p.uri == e.captured.value && e.filter == NoFilter && e.rotation == 0
  {
    if !Truthy(e.captured) then NoPhoto
    else if Truthy(e.cropped) then UseCropped(e.cropped.value)
    else if e.filter != NoFilter || e.rotation != 0 then
      ApplyFilters(e.captured.value, e.filter, e.intensity, e.rotation, if e.cropMode then Some(e.crop) else None)
    else UseOriginal(e.captured.value)
  }

  /** Right after a retake there is nothing to confirm. */
  lemma RetakeLeavesNothingToConfirm(e: Editor)
    ensures Confirm(Retake(e)) == NoPhoto
  {
  }
}
