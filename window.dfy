/**
 * The screenshot window: the fields its event handlers assign and one method per
 * handler. Each method is specified by the Interaction function of the same
 * handler, through Model(), the state as a value; the lemmas of Interaction
 * then describe what sequences of these calls do.
 */
module Window {
  import opened Options
  import opened Geometry
  import opened Scaling
  import opened FileNames
  import opened Interaction

  class ScreenshotTool {
    const image: Size
    var origin: Point
    var isDrawing: bool
    var bandVisible: bool
    var bandGeometry: Rect
    var cropRect: Option<Rect>
    var arrowChecked: bool
    var arrows: seq<Arrow>

    function Model(): State
      reads this
    {
      State(image, origin, isDrawing, bandVisible, bandGeometry, cropRect, arrowChecked, arrows)
    }

    ghost predicate Valid()
      reads this
    {
      WellFormed(Model())
    }

    /** The window right after a capture of the given size is displayed. */
    constructor (captured: Size)
      ensures Valid() && Model() == Initial(captured)
    {
      image := captured;
      origin := Point(0, 0);
      isDrawing := false;
      bandVisible := false;
      bandGeometry := Rect(0, 0, 100, 30);
      cropRect := None;
      arrowChecked := false;
      arrows := [];
    }

    method OnMousePress(button: MouseButton, pos: Point)
      requires Valid()
      modifies this
      ensures Valid() && Model() == Press(old(Model()), button, pos)
    {
      if button == LeftButton {
        origin := pos;
        if arrowChecked {
          isDrawing := true;
        } else {
          bandGeometry := EmptyAt(origin);
          bandVisible := true;
        }
      }
    }

    method OnMouseMove(pos: Point)
      requires Valid()
      modifies this
      ensures Valid() && Model() == Move(old(Model()), pos)
    {
      if isDrawing && arrowChecked {
        // only a repaint is requested
      } else if bandVisible {
        bandGeometry := Normalized(Spanned(origin, pos));
      }
    }

    method OnMouseRelease(button: MouseButton, pos: Point)
      requires Valid()
      modifies this
      ensures Valid() && Model() == Release(old(Model()), button, pos)
    {
      if button == LeftButton {
        if isDrawing && arrowChecked {
          isDrawing := false;
          DrawArrow(origin, pos);
        } else if bandVisible {
          cropRect := Some(bandGeometry);
        }
      }
    }

    /** Paints one arrow between two displayed-image points onto the capture. */
    method DrawArrow(start: Point, end: Point)
      modifies this`arrows
      ensures Model() == Interaction.DrawArrow(old(Model()), start, end)
    {
      var startOrig := MapPoint(start, image, DISPLAY);
      var endOrig := MapPoint(end, image, DISPLAY);
      arrows := arrows + [Arrow(startOrig, endOrig)];
    }

    method KeyPressEvent(key: Key)
      requires Valid()
      modifies this
      ensures Valid() && Model() == KeyPress(old(Model()), key)
    {
      if key == Escape {
        if bandVisible {
          bandVisible := false;
        }
      }
    }

    /** Qt's own handling of a click on the checkable "Add Arrows" button. */
    method ClickArrowButton()
      requires Valid()
      modifies this
      ensures Valid() && Model() == ToggleArrowButton(old(Model()))
    {
      arrowChecked := !arrowChecked;
    }

    /** Returns the name the full screenshot would be saved under; n is the random number. */
    method SaveFullImage(n: int) returns (fileName: string)
      requires Valid() && 1000 <= n <= 9999
      modifies this
      ensures Valid() && Model() == FullImageHandled(old(Model()))
      ensures fileName == RandomFileName("full_screenshot", n)
    {
      arrowChecked := false;
      fileName := RandomFileName("full_screenshot", n);
    }

    method CopyFullToClipboard()
      requires Valid()
      modifies this
      ensures Valid() && Model() == FullImageHandled(old(Model()))
    {
      arrowChecked := false;
    }

    /** Returns the file name and the capture region a crop would be saved as, if a crop is available. */
    method SaveCroppedArea(n: int) returns (saved: Option<SavedCrop>)
      requires Valid() && 1000 <= n <= 9999
      modifies this
      ensures Valid() && Model() == CropHandled(old(Model()))
      ensures saved == SaveCropResult(old(Model()), n)
    {
      arrowChecked := false;
      if cropRect.Some? && IsValid(cropRect.value) {
        bandVisible := false;
        var fileName := RandomFileName("cropped_screenshot", n);
        var region := ScaleRect(cropRect.value, image, DISPLAY);
        saved := Some(SavedCrop(fileName, region));
      } else {
        saved := None;
      }
    }

    /** Returns the capture region put on the clipboard, if a crop is available. */
    method CopyCroppedToClipboard() returns (copied: Option<Rect>)
      requires Valid()
      modifies this
      ensures Valid() && Model() == CropHandled(old(Model()))
      ensures copied == CropRegion(old(Model()))
    {
      arrowChecked := false;
      if cropRect.Some? && IsValid(cropRect.value) {
        bandVisible := false;
        copied := Some(ScaleRect(cropRect.value, image, DISPLAY));
      } else {
        copied := None;
      }
    }
  }
}
