# plant-density: point-cloud parser and rotation controller

This project models the core of the `plant-density` p5.js sketch
(`plant-density/sketch.js`) in Dafny and proves properties of the model.

* **The point-cloud parser `parsePointCloud`** (`point_cloud.dfy`, on top of
  `text.dfy`). It splits the PLY-like text on newlines and visits every line
  except the last element of the split. It skips the header up to a line
  containing `end_header`. For each later line it reads the first three
  space-separated tokens with `parseFloat`, negates the second, and scales
  and offsets all three. It pushes them onto the flat `vertices` buffer,
  together with three `1.0` components onto `colors`, unless one of them is
  NaN. The class `PointBuffers` holds the two global buffers. Its method
  `ParsePointCloud` is the loop. It is proved against the functional
  reference `Cloud`/`Body` ("the accepted data lines, in order").
  `text.dfy` gives the JavaScript string operations the parser relies on:
  `split` with a one-character separator, and `includes`. It also defines
  `Join`, which the parser does not use. `Join` is the inverse of `Split` and
  only serves the round-trip lemmas, which build input text out of lines and
  tokens.
* **The rotation and segment state machine** (`angles.dfy`,
  `controller.dfy`). `draw` does the following each frame:
  * while auto-rotating, it advances the view angle by `rotationSpeed` and
    resets it to zero at a full turn;
  * while dragging, it turns the view by `0.005` radians per pixel;
  * it normalises the angle with JavaScript's truncating `%`;
  * it computes the current segment out of `totalSegments`;
  * it calls `updateContainers` only when the segment changed.

  `updateContainers` deactivates every segment's top/bottom container. Then,
  unless auto-rotating, it activates the pair of the given segment. A press
  (mouse or touch) stops auto-rotation for good, starts a drag and refreshes
  the containers. A release ends the drag. A touch move turns the view while
  dragging. `RotationController` holds the sketch's globals as fields. Its
  invariant `Valid` keeps the following true at all times:
  * the segment is in range;
  * dragging implies no auto-rotation;
  * the auto-rotating angle stays in `[0, turn)`;
  * after a segment change, `previousSegment == currentSegment`;
  * once any refresh has happened, exactly the current segment's pair is
    shown, and none while auto-rotating.

The page's `container-<k>-top`/`-bottom` elements are two arrays of `active`
flags. Entry `i` stands for `k = i + 1`. An index past the end of an array
is an element the page lacks, and the sketch skips it.

The modelled state machine does what `sketch.js` does:
* auto-rotation goes on after each wrap: the angle is reset to zero and the
  next frame advances it again (`sketch.js:99-103`);
* `updateContainers` leaves every container hidden for as long as
  auto-rotation lasts (`sketch.js:171-174`);
* a press (mouse or touch) refreshes the containers at once, showing the
  current segment's pair (`sketch.js:189`, `sketch.js:200`).

The segment width is `segmentAngle = 2π / totalSegments` (`sketch.js:16`),
modelled by `SegmentAngle`.

## Model

| member | source | states |
|---|---|---|
| Text.Split | plant-density/sketch.js:140 | `split` on one character always yields at least one piece, and no piece contains the separator |
| Text.JoinSplit | plant-density/sketch.js:140 | joining the pieces of a split with the separator gives the original text back |
| Text.SplitJoin | plant-density/sketch.js:140 | splitting the join of separator-free pieces gives the pieces back (the inverse direction) |
| Text.SplitExtendLast | plant-density/sketch.js:140-142 | appending separator-free text changes only the last piece of the split, never the number of pieces or the earlier pieces |
| Text.Includes | plant-density/sketch.js:143 | a pattern longer than the text is never included, and the empty pattern always is |
| Text.IncludesOccurs | plant-density/sketch.js:143 | `includes` holds exactly when the pattern occurs at some index |
| PointCloud.Field | plant-density/sketch.js:149-151 | a token index past the end of the split reads as NaN (`parseFloat(undefined)`) |
| PointCloud.ParseLine | plant-density/sketch.js:148-152 | a line yields a point only if its space split has at least three tokens |
| PointCloud.ParseLineFormula | plant-density/sketch.js:148-155 | a line whose first three tokens read as x, y, z yields `(x*scale+xAdd, -y*scale+yAdd, z*scale+zAdd)`, whatever tokens follow |
| PointCloud.ParseLineRejects | plant-density/sketch.js:149-152 | a line is rejected exactly when it has fewer than three tokens or one of the first three reads as NaN |
| PointCloud.LineRoundTrip | plant-density/sketch.js:148-155 | formatting three numeric tokens (and any extra ones) with spaces and parsing the line gives the point of the formula |
| PointCloud.LinePoints | plant-density/sketch.js:152-156 | a data line contributes at most one point, and exactly one when it parses |
| PointCloud.Accept | plant-density/sketch.js:143-157 | a line after the header yields at most one point, none if it contains `end_header`, and one exactly when it is not a sentinel and parses |
| PointCloud.Body | plant-density/sketch.js:143-157 | reference definition of the data section: every point it yields is the point of one of its accepted lines |
| PointCloud.Step | plant-density/sketch.js:143-157 | one loop iteration keeps every point pushed so far and pushes at most one more; a sentinel ends the header, the header never restarts, and nothing is pushed while in the header |
| PointCloud.ScanFrom | plant-density/sketch.js:142-158 | the loop never removes a point, pushes at most one point per visited line, and never re-enters the header |
| PointCloud.Cloud | plant-density/sketch.js:139-159 | the parse yields fewer points than the newline split has elements, because the last element is never visited |
| PointCloud.Positions | plant-density/sketch.js:153-155 | the flat vertex layout has three entries per point |
| PointCloud.PositionsAt | plant-density/sketch.js:153-155 | entries 3i, 3i+1, 3i+2 of the vertex layout are x, y, z of point i |
| PointCloud.Colors | plant-density/sketch.js:156 | the colour layout has three entries per point |
| PointCloud.PositionsAppend | plant-density/sketch.js:153-155 | the vertex layout of a concatenation is the concatenation of the layouts (push order is kept) |
| PointCloud.ColorsAppend | plant-density/sketch.js:156 | the colour layout of a concatenation is the concatenation of the layouts |
| PointCloud.BuffersInStep | plant-density/sketch.js:153-156 | the two layouts of the same points have equal length, a multiple of three, and every colour component is white |
| PointCloud.ScanFromAppend | plant-density/sketch.js:142-158 | the visit of a concatenation of line sequences is the visit of the first followed by the visit of the second |
| PointCloud.HeaderContributesNothing | plant-density/sketch.js:141-147 | lines before the first `end_header` line push nothing and leave the header flag set |
| PointCloud.DataSectionIsBody | plant-density/sketch.js:143-157 | once the header is over, the loop appends exactly the reference points of the remaining lines |
| PointCloud.ScanIsBodyAfterSentinel | plant-density/sketch.js:141-158 | with the first sentinel at line k, the result is the reference points of the lines after k; the header and the sentinel contribute nothing |
| PointCloud.BodyAppend | plant-density/sketch.js:142-157 | points come out in input order: the points of a concatenation are the concatenation of the points |
| PointCloud.BodyLength | plant-density/sketch.js:143-157 | the data section yields exactly as many points as it has accepted lines (`AcceptedCount`), so at most one per line, and one per line exactly when every line is accepted |
| PointCloud.MalformedLineSkipped | plant-density/sketch.js:152 | removing a malformed data line changes nothing in the result |
| PointCloud.UnterminatedTailIgnored | plant-density/sketch.js:142 | text after the last newline never contributes: the last element of the split is not visited |
| PointCloud.DocumentCloud | plant-density/sketch.js:139-159 | a newline-terminated file of header lines, the sentinel and data rows yields exactly the reference points of the data rows |
| PointCloud.PointBuffers.constructor | plant-density/sketch.js:21-22 | the buffers start empty and in step |
| PointCloud.PointBuffers.PushDataLine | plant-density/sketch.js:148-156 | one data line appends its point's coordinates and three white components, or nothing when one field is NaN; the buffers stay the layouts of the pushed points |
| PointCloud.PointBuffers.ParsePointCloud | plant-density/sketch.js:139-159 | the buffers grow by exactly the layouts of `Cloud(data)` and stay in step (equal length, multiple of three, all white) |
| Angles.TruncBounds | plant-density/sketch.js:111 | truncation rounds toward zero: the result is within one of the argument, on the side of zero |
| Angles.JsRemBounds | plant-density/sketch.js:111 | JavaScript `%` by a positive modulus lies strictly between `-m` and `m` and has the sign of the dividend |
| Angles.FloorMod | plant-density/sketch.js:111 | the mathematical residue lies in `[0, m)` |
| Angles.ResidueUnique | plant-density/sketch.js:111 | a value of `[0, m)` that differs from `a` by a multiple of `m` is the residue of `a` |
| Angles.Normalize | plant-density/sketch.js:111 | the normalised angle lies in `[0, 2π)` for every angle, negative ones included |
| Angles.NormalizeIsFloorMod | plant-density/sketch.js:111 | the double truncating remainder equals the mathematical residue modulo a turn |
| Angles.NormalizePeriodic | plant-density/sketch.js:111 | whole turns do not change the normalised angle |
| Angles.NormalizeKeepsTurn | plant-density/sketch.js:111 | an angle already in `[0, 2π)` is left unchanged |
| Angles.NormalizeIdempotent | plant-density/sketch.js:111 | normalising twice is normalising once |
| Angles.NormalizeShift | plant-density/sketch.js:111 | turning by at most a full turn moves the normalised angle by the same amount, less one turn when it passes `2π` |
| Angles.SegmentAngle | plant-density/sketch.js:16 | the segment width is positive, at most a turn, and `totalSegments` widths make exactly one turn |
| Angles.SegmentOf | plant-density/sketch.js:112 | the current segment lies in `[0, totalSegments)` |
| Angles.SegmentIsQuotientFloor | plant-density/sketch.js:112 | the trailing `% totalSegments` never wraps: the segment is the floor of the normalised angle over the segment width |
| Angles.QuotientFloor | plant-density/sketch.js:112 | the floor of `n / w` is k exactly when `n` lies in `[k*w, (k+1)*w)` |
| Angles.SegmentBounds | plant-density/sketch.js:112 | the angle is in segment k exactly when its normalised value lies in `[k*segmentAngle, (k+1)*segmentAngle)` |
| Angles.SlotFloor | plant-density/sketch.js:112 | for an angle in `[0, turn)`, `floor(n / w) % totalSegments` is k exactly when `n` lies in `[k*w, (k+1)*w)` |
| Angles.SlotAdvance | plant-density/sketch.js:111-112 | turning a normalised angle by one segment width moves `floor(n / w) % totalSegments` to the next segment, wrapping from the last to 0 |
| Angles.SegmentStep | plant-density/sketch.js:111-112 | turning any angle by `segmentAngle` (`sketch.js:16`) moves the current segment to the next one, modulo `totalSegments` |
| Angles.AutoAdvance | plant-density/sketch.js:99-103 | auto-rotation keeps an angle of `[0, 2π)` in `[0, 2π)` |
| Angles.AutoRotateLinear | plant-density/sketch.js:99-103 | before the first wrap, the angle after k frames is `k * rotationSpeed` |
| Angles.AutoRotateWraps | plant-density/sketch.js:101-103 | the first frame whose advance reaches a full turn resets the angle to exactly zero |
| Angles.FullTurnFrames | plant-density/sketch.js:99-103 | at 0.003 rad per frame and a turn of 2π, the angle is 6.282 after 2094 frames and wraps to 0 on frame 2095 |
| Angles.Dragged | plant-density/sketch.js:104-107 | a drag step turns the view in the direction of the pointer movement, and not at all without movement |
| Angles.DragTelescopes | plant-density/sketch.js:208-213 | a drag's total rotation is `(last x - start x) * 0.005`, whatever the intermediate positions |
| Rotation.RotationController.constructor | plant-density/sketch.js:4-18 | the initial state: auto-rotating, not dragging, angle 0, segment 0, no previous segment |
| Rotation.RotationController.UpdateContainers | plant-density/sketch.js:162-182 | every segment's pair is deactivated, then the given segment's pair (and only it) is activated unless auto-rotating; elements past `totalSegments` keep their state |
| Rotation.RotationController.Draw | plant-density/sketch.js:99-118 | the angle advances (auto) or follows the pointer (drag); the segment is `SegmentOf(angle)`; `updateContainers` is called exactly when the segment changed, and the containers are unchanged otherwise; afterwards `previousSegment == currentSegment`, only the current pair is shown, and the auto-rotation flag is unchanged |
| Rotation.RotationController.MousePressed | plant-density/sketch.js:185-190 | auto-rotation off, dragging on, `lastMouseX` recorded, containers refreshed so that exactly the current segment's pair is shown |
| Rotation.RotationController.TouchStarted | plant-density/sketch.js:196-202 | the same as a press, at the touch position |
| Rotation.RotationController.MouseReleased | plant-density/sketch.js:192-194 | dragging off; nothing else changes, so auto-rotation stays off |
| Rotation.RotationController.TouchEnded | plant-density/sketch.js:204-206 | the same as a mouse release |
| Rotation.RotationController.TouchMoved | plant-density/sketch.js:208-215 | while dragging, the angle moves by `(x - lastMouseX) * 0.005` and `lastMouseX := x`; otherwise nothing changes |
| Rotation.PressAndDrag | plant-density/sketch.js:185-215 | press at 100, touch move to 150, one frame: angle 0.25, auto-rotation off, segment 0, its pair shown |

## Left out

- Rendering is not modelled (`setup`, the shaders, the buffer uploads, `windowResized`, the wheel handler, the intro text, `draw` after line 118, including its empty-buffer guard): it is WebGL and DOM work with no state the core reads back.
- Loading the file with `httpGet` from the fixed URL is left out. `ParsePointCloud` takes the response text as a parameter.
- `parseFloat` is a parameter `string -> Option<real>`, with `None` standing for NaN and a missing token counted as NaN. JavaScript's prefix-parsing rules are not modelled.
- Numbers are exact reals, not IEEE doubles. Accumulated rounding in the angle, and the float behaviour of `%` near multiples of 2π, are not modelled.
- `Math.PI` has no exact value here. The full turn is the constructor parameter `turn`, which stands for `totalRotation` and for the `2 * Math.PI` of the normalisation and of `segmentAngle`. `FullTurnFrames` pins it to a range around 2π, and `PressAndDrag` fixes it to 6.283185307179586, the double nearest 2π.
- The pointer position (`mouseX`, `touches[0].x`) is a method parameter. A touch handler called with no touches is not modelled.
- The `return false` of the touch handlers, which suppresses the browser's default action, is not modelled.
- `document.getElementById` lookups are fixed arrays of flags. Elements created or removed while the sketch runs are not modelled.
- `rotationSpeed` and `totalRotation` are `let` globals that nothing reassigns, so they are constant fields.
- Rotation.RotationController.Draw: the guarantee that the auto-rotating angle stays in `[0, turn)` assumes a non-negative `rotationSpeed` (the sketch's is 0.003).
