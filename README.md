# Screenshot tool: coordinate mapping and interaction model

This project models the core of YonScreenshotTool, a PyQt desktop utility.
The tool captures the whole screen and shows the capture scaled to 1650×700 pixels.
On it the user either drags a crop selection with a rubber band or, with the
"Add Arrows" button checked, drags an arrow that is painted onto the
full-resolution capture. Buttons save or copy the full capture or the cropped
region.

The model has five modules:

- `Geometry` (geometry.dfy): points, sizes and rectangles with Qt 5's `QRect`
  semantics. Edges are inclusive, so width is `right - left + 1`. Also
  `QRect(p1, p2)`, `QRect(p, QSize())`, `normalized()` and `isValid()`.
- `Scaling` (scaling.dfy): the mapping from display coordinates to capture
  coordinates. Each coordinate is multiplied by `original / scaled` of its axis
  and truncated toward zero, as Python's `int()` does. This is the point
  mapping of `draw_arrow` and the rectangle mapping of `_scale_rect`.
- `FileNames` (file_names.dfy): `generate_random_filename`. The random number
  is a parameter in 1000..9999.
- `Interaction` (interaction.dfy): the window's state as a value, one function
  per event handler, and lemmas about sequences of events (gestures).
- `Window` (window.dfy): the class `ScreenshotTool`. Its fields are the ones
  the handlers assign, and it has one method per handler. Each method is
  proved to leave `Model()` equal to the matching `Interaction` function
  applied to the old state.

Three facts about the code shape the model:

- A drag that leaves the label gives negative positions, and `int()`
  truncates them toward zero.
- The save handlers compute a file name and a region and write nothing.
- The display size is the constant 1650×700, so a zero scaled size cannot occur.

## Model

| member | source | states |
|---|---|---|
| Geometry.Spanned | YonScreenshotTool.py:150 | `QRect(p1, p2)` has p1 as its top-left corner and p2 as its inclusive bottom-right corner |
| Geometry.EmptyAt | YonScreenshotTool.py:142 | `QRect(origin, QSize())` has its top-left corner at the origin and is not valid |
| Geometry.Normalized | YonScreenshotTool.py:150 | `normalized()` gives a non-negative width and height, swapping left/right edges exactly when the width is negative and top/bottom exactly when the height is negative |
| Geometry.DragRectangle | YonScreenshotTool.py:145-150 | the band of a drag runs per axis from the smaller to the larger of origin and pointer, except that a pointer exactly one pixel left of (above) the origin gives width (height) 0 |
| Geometry.DragValidity | YonScreenshotTool.py:150 | a dragged band is valid exactly when the pointer is not one pixel left of or above the origin |
| Scaling.TruncDiv | YonScreenshotTool.py:242-245 | `int()` of a quotient: the floor for non-negative numerators, the ceiling for negative ones |
| Scaling.ScaleCoord | YonScreenshotTool.py:242 | one coordinate times original/scaled, truncated toward zero: bounded by the exact product on both sides |
| Scaling.MapPoint | YonScreenshotTool.py:164-169 | `draw_arrow`'s point conversion; a non-negative coordinate maps to a non-negative one no larger than the exact product |
| Scaling.ScaleRect | YonScreenshotTool.py:237-246 | `_scale_rect` maps x, y, width and height independently; with non-negative inputs every output component is non-negative |
| Scaling.TruncDivOdd | YonScreenshotTool.py:242-245 | truncation toward zero is symmetric about zero |
| Scaling.ScaleCoordNegative | YonScreenshotTool.py:168-169 | a negative coordinate maps to minus the mapping of its magnitude, never below the exact product |
| Scaling.ScaleCoordNonNegative | YonScreenshotTool.py:242-245 | non-negative coordinates map to non-negative coordinates |
| Scaling.ScaleCoordMonotone | YonScreenshotTool.py:168-169 | the per-axis mapping is monotone for all integers |
| Scaling.ScaleCoordFullExtent | YonScreenshotTool.py:239-240 | the far edge of the display maps to the far edge of the capture |
| Scaling.ScaleCoordIdentity | YonScreenshotTool.py:239-246 | with equal original and display extents a coordinate is unchanged |
| Scaling.ScaleCoordSuperadditive | YonScreenshotTool.py:242-245 | mapping an offset and a length separately never exceeds mapping their sum |
| Scaling.ScaleCoordInside | YonScreenshotTool.py:168-169 | a coordinate inside the display maps inside the capture |
| Scaling.ScaleRectInside | YonScreenshotTool.py:239-245 | a crop rectangle inside the display maps to a rectangle inside the capture: mapped x + mapped width ≤ capture width, likewise for y |
| Scaling.MapPointMonotone | YonScreenshotTool.py:168-169 | point mapping is monotone on each axis |
| Scaling.ScaleCoordOdd | YonScreenshotTool.py:168-169 | the per-axis mapping of -c is minus the mapping of c |
| Scaling.RectOriginMapsAsPoint | YonScreenshotTool.py:164-169 | for every pair of sizes, a rectangle's mapped origin is its origin mapped as an arrow endpoint is |
| Scaling.MappingIdentity | YonScreenshotTool.py:239-246 | with equal sizes points and rectangles map to themselves |
| Scaling.MapPointInside | YonScreenshotTool.py:164-169 | an arrow endpoint inside the display maps to a pixel of the capture |
| Scaling.ScaleCoordRoundTrip | YonScreenshotTool.py:164-169 | for every integer coordinate, mapping to the capture and back with the inverse ratio loses at most one unit, toward zero, when the capture is at least as large as the display |
| Scaling.ScalingExamples | YonScreenshotTool.py:124-126 | on a 1920×1080 capture the display centre (825, 350) maps to (960, 540), and (-1, -1) maps to (-1, -1) |
| FileNames.DigitChar | YonScreenshotTool.py:58 | a digit value becomes the matching decimal character |
| FileNames.DecimalString | YonScreenshotTool.py:58 | `str(n)`: decimal digits with no leading zero that read back as n |
| FileNames.FourDigits | YonScreenshotTool.py:57-58 | every number in 1000..9999 has exactly four digits |
| FileNames.RandomFileName | YonScreenshotTool.py:55-58 | the name is the base, `_`, four digits reading back as n (first not `0`) and `.png` |
| FileNames.RandomFileNameInjective | YonScreenshotTool.py:55-58 | two names for the same base are equal exactly when the random numbers are |
| Interaction.Press | YonScreenshotTool.py:135-143 | left press: origin becomes the position; in arrow mode drawing starts and the band is untouched, otherwise the band shows an empty rectangle at the origin; other buttons change nothing |
| Interaction.Move | YonScreenshotTool.py:145-150 | while not drawing and the band is shown, the band becomes the normalised rectangle of origin and pointer; otherwise nothing changes |
| Interaction.DrawArrow | YonScreenshotTool.py:162-176 | exactly one arrow is appended, its endpoints the two points mapped to capture coordinates; nothing else changes |
| Interaction.Release | YonScreenshotTool.py:152-160 | left release: a drawing ends and paints one arrow from the origin to the release point; otherwise a shown band's geometry becomes the crop selection and the band stays shown |
| Interaction.KeyPress | YonScreenshotTool.py:248-252 | Escape hides the band and changes nothing else; other keys change nothing |
| Interaction.ToggleArrowButton | YonScreenshotTool.py:76-77 | a click on the checkable arrow button flips its checked state |
| Interaction.FullImageHandled | YonScreenshotTool.py:194-209 | the full-image buttons uncheck arrow mode and change nothing else |
| Interaction.CropHandled | YonScreenshotTool.py:211-234 | the crop buttons uncheck arrow mode; they hide the band exactly when a valid selection exists, and change nothing else |
| Interaction.CropRegion | YonScreenshotTool.py:229-231 | a region exists exactly when the selection is set and valid; it is the selection mapped by `_scale_rect`, has non-negative size and lies inside the capture when the selection lies inside the display |
| Interaction.SaveCropResult | YonScreenshotTool.py:216-220 | "Save Crop" yields a file name and region exactly when a valid selection exists |
| Interaction.Moves | YonScreenshotTool.py:145 | a list of pointer positions as move events, in order |
| Interaction.StepPreservesWellFormed | YonScreenshotTool.py:135-160 | every handler keeps the band and the selection either normalised or the empty press rectangle |
| Interaction.RunPreservesWellFormed | YonScreenshotTool.py:135-252 | any sequence of events keeps that invariant |
| Interaction.MovesWhileDrawing | YonScreenshotTool.py:145-148 | moves during an arrow drag change nothing |
| Interaction.MovesWhileSelecting | YonScreenshotTool.py:145-150 | during a selection the band spans the origin and the latest pointer position |
| Interaction.ArrowGesture | YonScreenshotTool.py:135-160 | in arrow mode, press, moves and release paint exactly one arrow from the mapped press point to the mapped release point and leave band and selection alone |
| Interaction.CropGesture | YonScreenshotTool.py:135-160 | outside arrow mode, press, moves and release commit the band of origin and last move (or the empty press rectangle) as the selection; the release position is not used |
| Interaction.CropGestureAvailable | YonScreenshotTool.py:152-160 | after a crop gesture the crop buttons act exactly when the pointer moved and did not end one pixel left of or above the press |
| Interaction.EscapeKeepsSelection | YonScreenshotTool.py:248-252 | Escape hides the band but the crop buttons still act on the committed selection |
| Interaction.ButtonsUncheckArrow | YonScreenshotTool.py:194-234 | every save and copy button leaves arrow mode off and keeps arrows and selection |
| Window.ScreenshotTool.constructor | YonScreenshotTool.py:40-46 | the window starts with no selection, no drawing, a hidden band and arrow mode off |
| Window.ScreenshotTool.OnMousePress | YonScreenshotTool.py:135-143 | updates the fields exactly as `Interaction.Press` on the whole state |
| Window.ScreenshotTool.OnMouseMove | YonScreenshotTool.py:145-150 | updates the fields exactly as `Interaction.Move` on the whole state |
| Window.ScreenshotTool.OnMouseRelease | YonScreenshotTool.py:152-160 | updates the fields exactly as `Interaction.Release` on the whole state |
| Window.ScreenshotTool.DrawArrow | YonScreenshotTool.py:162-176 | appends the mapped arrow as `Interaction.DrawArrow` |
| Window.ScreenshotTool.KeyPressEvent | YonScreenshotTool.py:248-252 | updates the fields exactly as `Interaction.KeyPress` on the whole state |
| Window.ScreenshotTool.ClickArrowButton | YonScreenshotTool.py:76-77 | flips the arrow button's checked state |
| Window.ScreenshotTool.SaveFullImage | YonScreenshotTool.py:194-200 | unchecks arrow mode and returns the name `full_screenshot_<n>.png` |
| Window.ScreenshotTool.CopyFullToClipboard | YonScreenshotTool.py:202-209 | unchecks arrow mode and changes nothing else |
| Window.ScreenshotTool.SaveCroppedArea | YonScreenshotTool.py:211-221 | as `Interaction.CropHandled`, returning `cropped_screenshot_<n>.png` and the mapped region exactly when a valid selection exists |
| Window.ScreenshotTool.CopyCroppedToClipboard | YonScreenshotTool.py:224-234 | as `Interaction.CropHandled`, returning the mapped region exactly when a valid selection exists |

## Left out

- Screen capture with `mss` and building the `QImage` (YonScreenshotTool.py:106-120). This is an external library doing I/O. The constructor takes the size of a successful capture. A failed capture leaves no image and no pointer handlers installed, and it is not modelled.
- Window, layout and button construction, and the "Close App" button (YonScreenshotTool.py:13-38, 61-97). These are UI only.
- Image resampling with `QImage.scaled` and showing the pixmap (YonScreenshotTool.py:122-133). The display size is the constant `DISPLAY` = 1650×700. Re-running `display_image` after painting changes no modelled state.
- Painting with `QPainter` and `QPen`. A painted arrow is recorded as one `Arrow` with its shaft endpoints in capture coordinates, appended to a list. Pixels are not modelled.
- The arrowhead wingtips (YonScreenshotTool.py:179-186). They use floating-point `atan2`, `cos` and `sin`. They are a fixed function of the two mapped endpoints and are not modelled.
- Floating-point rounding of `original / scaled`. The model multiplies by the exact rational ratio before truncating. Python's float product can land just below an integer and truncate one lower.
- The clipboard, the Documents path and file writing (YonScreenshotTool.py:51-53, 200, 208-209, 219, 233-234). The copy and save methods return the region or file name they compute. The source never writes a file.
- `QImage.copy` of a region partly outside the capture. Qt fills the outside with zero pixels, and this is not modelled.
- `random.randint(1000, 9999)`. The number is a parameter of the save methods.
- Qt's repaint request `update()` during an arrow drag. It changes no modelled state.
- Clamping of negative sizes by `QWidget.setGeometry`. The band's geometry is modelled as the `QRect` handed to it. Clamping could only affect the width -1 press rectangle, which is invalid either way.
- PyQt's truth value of a `QRect` (`not isNull()`) in the crop guards. It is implied by `isValid()`, so the guard is modelled as "set and valid".
- Scaling.ScaleCoordRoundTrip: proved, for negative and non-negative coordinates alike, only when the capture is at least as large as the display on that axis. With a smaller capture the loss can exceed one unit: an axis 1 pixel wide shown 3 wide maps 2 to 0 and back to 0.
