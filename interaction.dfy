/**
 * The pointer and keyboard interaction of the screenshot window as values: the
 * state the handlers read and write, one function per handler giving the state
 * it leaves behind, and what the save and copy buttons hand on to the clipboard
 * or the file system. Pointer positions arrive in the coordinates of the
 * displayed image, which is always scaled to DISPLAY.
 */
module Interaction {
  import opened Options
  import opened Geometry
  import opened Scaling
  import opened FileNames

  datatype MouseButton = LeftButton | RightButton | MiddleButton
  datatype Key = Escape | OtherKey(code: int)

  /** An arrow painted onto the captured image, its endpoints in capture coordinates. */
  datatype Arrow = Arrow(tail: Point, head: Point)

  /** What "Save Crop" would write: the file name and the region of the capture. */
  datatype SavedCrop = SavedCrop(fileName: string, region: Rect)

  datatype State = State(
    image: Size,              // size of the captured image
    origin: Point,            // where the last left-button press happened
    isDrawing: bool,          // an arrow drag is in progress
    bandVisible: bool,        // the rubber band is shown
    band: Rect,               // the rubber band's geometry
    cropRect: Option<Rect>,   // the last selection committed by a release
    arrowChecked: bool,       // the "Add Arrows" button is checked
    arrows: seq<Arrow>)       // arrows painted so far, oldest first

  /** The state right after the capture is displayed. QRubberBand starts with Qt's default child geometry. */
  function Initial(image: Size): State {
    State(image, Point(0, 0), false, false, Rect(0, 0, 100, 30), None, false, [])
  }

  /** The rubber band geometries the handlers produce: a press's empty rectangle or a normalised one. */
  predicate IsSelection(r: Rect) {
    (r.width >= 0 && r.height >= 0) || r == EmptyAt(Point(r.x, r.y))
  }

  predicate WellFormed(s: State) {
    IsSelection(s.band) && (s.cropRect.Some? ==> IsSelection(s.cropRect.value))
  }

  /** `on_mouse_press` */
  function Press(s: State, button: MouseButton, pos: Point): (t: State)
    ensures button != LeftButton ==> t == s
    ensures button == LeftButton ==> t.origin == pos
    ensures button == LeftButton && s.arrowChecked ==>
      t.isDrawing && t.bandVisible == s.bandVisible && t.band == s.band
    ensures button == LeftButton && !s.arrowChecked ==>
      t.bandVisible && t.band.x == pos.x && t.band.y == pos.y && !IsValid(t.band) &&
      t.isDrawing == s.isDrawing
    ensures t.image == s.image && t.cropRect == s.cropRect
    ensures t.arrowChecked == s.arrowChecked && t.arrows == s.arrows
  {
    if button != LeftButton then s
    else if s.arrowChecked then s.(origin := pos, isDrawing := true)
    else s.(origin := pos, band := EmptyAt(pos), bandVisible := true)
  }

  /** `on_mouse_move`: an arrow drag only repaints; otherwise a shown band follows the pointer. */
  function Move(s: State, pos: Point): (t: State)
    ensures (s.isDrawing && s.arrowChecked) || !s.bandVisible ==> t == s
    ensures !(s.isDrawing && s.arrowChecked) && s.bandVisible ==>
      t == s.(band := Normalized(Spanned(s.origin, pos))) &&
      t.band.width >= 0 && t.band.height >= 0
  {
    if s.isDrawing && s.arrowChecked then s
    else if s.bandVisible then s.(band := Normalized(Spanned(s.origin, pos)))
    else s
  }

  /** `draw_arrow`: the two endpoints are mapped to capture coordinates and one arrow is painted. */
  function DrawArrow(s: State, start: Point, end: Point): (t: State)
    ensures t == s.(arrows := t.arrows)
    ensures |t.arrows| == |s.arrows| + 1 && t.arrows[..|s.arrows|] == s.arrows
    ensures t.arrows[|s.arrows|] == Arrow(MapPoint(start, s.image, DISPLAY), MapPoint(end, s.image, DISPLAY))
  {
    s.(arrows := s.arrows + [Arrow(MapPoint(start, s.image, DISPLAY), MapPoint(end, s.image, DISPLAY))])
  }

  /** `on_mouse_release`: finish an arrow, or commit the band's geometry as the crop selection. */
  function Release(s: State, button: MouseButton, pos: Point): (t: State)
    ensures button != LeftButton ==> t == s
    ensures button == LeftButton && s.isDrawing && s.arrowChecked ==>
      t == DrawArrow(s, s.origin, pos).(isDrawing := false)
    ensures button == LeftButton && !(s.isDrawing && s.arrowChecked) && s.bandVisible ==>
      t == s.(cropRect := Some(s.band))
    ensures button == LeftButton && !(s.isDrawing && s.arrowChecked) && !s.bandVisible ==> t == s
  {
    if button != LeftButton then s
    else if s.isDrawing && s.arrowChecked then DrawArrow(s, s.origin, pos).(isDrawing := false)
    else if s.bandVisible then s.(cropRect := Some(s.band))
    else s
  }

  /** `keyPressEvent`: Escape hides a shown rubber band and nothing else. */
  function KeyPress(s: State, key: Key): (t: State)
    ensures key == Escape ==> t == s.(bandVisible := false)
    ensures key != Escape ==> t == s
  {
    if key == Escape && s.bandVisible then s.(bandVisible := false) else s
  }

  /** A click on the checkable "Add Arrows" button. */
  function ToggleArrowButton(s: State): (t: State)
    ensures t == s.(arrowChecked := !s.arrowChecked)
  {
    s.(arrowChecked := !s.arrowChecked)
  }

  /** `save_full_image` and `copy_full_to_clipboard` only uncheck the arrow button. */
  function FullImageHandled(s: State): (t: State)
    ensures !t.arrowChecked && t == s.(arrowChecked := false)
  {
    s.(arrowChecked := false)
  }

  /** The guard of the crop buttons: a selection exists and is a valid rectangle. */
  predicate CropAvailable(s: State) {
    s.cropRect.Some? && IsValid(s.cropRect.value)
  }

  /** `save_cropped_area` and `copy_cropped_to_clipboard`: uncheck arrows; hide the band if a crop is available. */
  function CropHandled(s: State): (t: State)
    ensures !t.arrowChecked
    ensures CropAvailable(s) ==> t == s.(arrowChecked := false, bandVisible := false)
    ensures !CropAvailable(s) ==> t == s.(arrowChecked := false)
  {
    if CropAvailable(s) then s.(arrowChecked := false, bandVisible := false)
    else s.(arrowChecked := false)
  }

  /**
   * The region of the capture the crop buttons copy: the selection mapped by
   * `_scale_rect`, present exactly when a crop is available. It has a
   * non-negative size, and lies inside the capture when the selection lies
   * inside the displayed image.
   */
  function CropRegion(s: State): (region: Option<Rect>)
    ensures region.Some? <==> CropAvailable(s)
    ensures region.Some? ==>
      region.value == ScaleRect(s.cropRect.value, s.image, DISPLAY) &&
      region.value.width >= 0 && region.value.height >= 0
    ensures (region.Some? && s.cropRect.value.x >= 0 && s.cropRect.value.y >= 0 &&
             s.cropRect.value.x + s.cropRect.value.width <= DISPLAY.width &&
             s.cropRect.value.y + s.cropRect.value.height <= DISPLAY.height) ==>
      0 <= region.value.x && region.value.x + region.value.width <= s.image.width &&
      0 <= region.value.y && region.value.y + region.value.height <= s.image.height
  {
    if CropAvailable(s) then
      var r := s.cropRect.value;
      ScaleCoordNonNegative(r.width, s.image.width, DISPLAY.width);
      ScaleCoordNonNegative(r.height, s.image.height, DISPLAY.height);
      if r.x >= 0 && r.y >= 0 && r.x + r.width <= DISPLAY.width && r.y + r.height <= DISPLAY.height then
        ScaleRectInside(r, s.image, DISPLAY);
        Some(ScaleRect(r, s.image, DISPLAY))
      else
        Some(ScaleRect(r, s.image, DISPLAY))
    else None
  }

  /** What "Save Crop" computes from a crop and the random number n. */
  function SaveCropResult(s: State, n: int): (saved: Option<SavedCrop>)
    requires 1000 <= n <= 9999
    ensures saved.Some? <==> CropAvailable(s)
    ensures saved.Some? ==>
      saved.value.fileName == RandomFileName("cropped_screenshot", n) &&
      Some(saved.value.region) == CropRegion(s)
  {
    if CropAvailable(s) then Some(SavedCrop(RandomFileName("cropped_screenshot", n), CropRegion(s).value))
    else None
  }

  // ---------------------------------------------------------------------------
  // Event sequences

  datatype Event =
    | PressEvent(button: MouseButton, pos: Point)
    | MoveEvent(pos: Point)
    | ReleaseEvent(button: MouseButton, pos: Point)
    | KeyEvent(key: Key)
    | ArrowButtonClicked
    | SaveFullClicked
    | CopyFullClicked
    | SaveCropClicked
    | CopyCropClicked

  function Step(s: State, e: Event): State {
    match e
    case PressEvent(b, p) => Press(s, b, p)
    case MoveEvent(p) => Move(s, p)
    case ReleaseEvent(b, p) => Release(s, b, p)
    case KeyEvent(k) => KeyPress(s, k)
    case ArrowButtonClicked => ToggleArrowButton(s)
    case SaveFullClicked => FullImageHandled(s)
    case CopyFullClicked => FullImageHandled(s)
    case SaveCropClicked => CropHandled(s)
    case CopyCropClicked => CropHandled(s)
  }

  function Run(s: State, events: seq<Event>): State
    decreases |events|
  {
    if events == [] then s else Run(Step(s, events[0]), events[1..])
  }

  function Moves(points: seq<Point>): (events: seq<Event>)
    ensures |events| == |points|
    ensures forall i :: 0 <= i < |points| ==> events[i] == MoveEvent(points[i])
  {
    if points == [] then [] else [MoveEvent(points[0])] + Moves(points[1..])
  }

  /** Every handler keeps the band and the crop selection in the shapes IsSelection allows. */
  lemma StepPreservesWellFormed(s: State, e: Event)
    requires WellFormed(s)
    ensures WellFormed(Step(s, e))
  {
  }

  lemma {:induction false} RunPreservesWellFormed(s: State, events: seq<Event>)
    requires WellFormed(s)
    ensures WellFormed(Run(s, events))
    decreases |events|
  {
    if events != [] {
      StepPreservesWellFormed(s, events[0]);
      RunPreservesWellFormed(Step(s, events[0]), events[1..]);
    }
  }

  lemma {:induction false} RunConcat(s: State, xs: seq<Event>, ys: seq<Event>)
    ensures Run(s, xs + ys) == Run(Run(s, xs), ys)
    decreases |xs|
  {
    if xs != [] {
      assert (xs + ys)[0] == xs[0] && (xs + ys)[1..] == xs[1..] + ys;
      RunConcat(Step(s, xs[0]), xs[1..], ys);
    } else {
      assert xs + ys == ys;
    }
  }

  /** While an arrow is being drawn, pointer moves change nothing. */
  lemma {:induction false} MovesWhileDrawing(s: State, points: seq<Point>)
    requires s.isDrawing && s.arrowChecked
    ensures Run(s, Moves(points)) == s
    decreases |points|
  {
    if points != [] {
      assert Moves(points)[1..] == Moves(points[1..]);
      MovesWhileDrawing(s, points[1..]);
    }
  }

  /** While selecting, the band spans the origin and the latest pointer position. */
  lemma {:induction false} MovesWhileSelecting(s: State, points: seq<Point>)
    requires !s.arrowChecked && s.bandVisible
    ensures Run(s, Moves(points)) ==
      if points == [] then s else s.(band := Normalized(Spanned(s.origin, points[|points| - 1])))
    decreases |points|
  {
    if points != [] {
      assert Moves(points)[1..] == Moves(points[1..]);
      MovesWhileSelecting(Move(s, points[0]), points[1..]);
    }
  }

  /**
   * An arrow gesture: in arrow mode, a left press at a, any moves and a left
   * release at b paint exactly one arrow, from a to b mapped to capture
   * coordinates, and leave the rubber band and the crop selection alone.
   */
  lemma {:induction false} ArrowGesture(s: State, a: Point, points: seq<Point>, b: Point)
    requires s.arrowChecked
    ensures Run(s, [PressEvent(LeftButton, a)] + Moves(points) + [ReleaseEvent(LeftButton, b)]) ==
      s.(origin := a, isDrawing := false,
         arrows := s.arrows + [Arrow(MapPoint(a, s.image, DISPLAY), MapPoint(b, s.image, DISPLAY))])
  {
    var pressed := Press(s, LeftButton, a);
    RunConcat(s, [PressEvent(LeftButton, a)] + Moves(points), [ReleaseEvent(LeftButton, b)]);
    RunConcat(s, [PressEvent(LeftButton, a)], Moves(points));
    assert Run(s, [PressEvent(LeftButton, a)]) == pressed;
    MovesWhileDrawing(pressed, points);
    assert Run(pressed, [ReleaseEvent(LeftButton, b)]) == Release(pressed, LeftButton, b);
  }

  /**
   * A crop gesture: outside arrow mode, a left press at a, moves and a left
   * release commit as the crop selection the band spanned by a and the last
   * move (the release position itself is not used); without a move the
   * selection is the press's empty rectangle. Arrows are untouched.
   */
  lemma {:induction false} CropGesture(s: State, a: Point, points: seq<Point>, b: Point)
    requires !s.arrowChecked
    ensures var t := Run(s, [PressEvent(LeftButton, a)] + Moves(points) + [ReleaseEvent(LeftButton, b)]);
      t.cropRect == Some(if points == [] then EmptyAt(a) else Normalized(Spanned(a, points[|points| - 1]))) &&
      t.bandVisible && t.band == t.cropRect.value && t.origin == a &&
      t.arrows == s.arrows && t.arrowChecked == s.arrowChecked
  {
    var pressed := Press(s, LeftButton, a);
    RunConcat(s, [PressEvent(LeftButton, a)] + Moves(points), [ReleaseEvent(LeftButton, b)]);
    RunConcat(s, [PressEvent(LeftButton, a)], Moves(points));
    assert Run(s, [PressEvent(LeftButton, a)]) == pressed;
    MovesWhileSelecting(pressed, points);
    var moved := Run(pressed, Moves(points));
    assert Run(moved, [ReleaseEvent(LeftButton, b)]) == Release(moved, LeftButton, b);
  }

  /**
   * A crop gesture makes "Save Crop" and "Copy Crop" act exactly when the
   * pointer moved and its last position was not one pixel left of or above
   * the press; a click without a drag never selects anything.
   */
  lemma {:induction false} CropGestureAvailable(s: State, a: Point, points: seq<Point>, b: Point)
    requires !s.arrowChecked
    ensures CropAvailable(Run(s, [PressEvent(LeftButton, a)] + Moves(points) + [ReleaseEvent(LeftButton, b)])) <==>
      points != [] && points[|points| - 1].x != a.x - 1 && points[|points| - 1].y != a.y - 1
  {
    CropGesture(s, a, points, b);
    if points != [] {
      DragValidity(a, points[|points| - 1]);
    }
  }

  /**
   * Escape hides the band but keeps the committed selection, so the crop
   * buttons still act on it afterwards.
   */
  lemma EscapeKeepsSelection(s: State)
    ensures !KeyPress(s, Escape).bandVisible
    ensures CropRegion(KeyPress(s, Escape)) == CropRegion(s)
  {
  }

  /** Every save and copy button leaves arrow mode off. */
  lemma ButtonsUncheckArrow(s: State, e: Event)
    requires e in {SaveFullClicked, CopyFullClicked, SaveCropClicked, CopyCropClicked}
    ensures !Step(s, e).arrowChecked
    ensures Step(s, e).arrows == s.arrows && Step(s, e).cropRect == s.cropRect
  {
  }
}
