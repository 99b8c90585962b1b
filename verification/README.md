# Flip-card GIF frame schedule

This is a Dafny model of the frame schedule used by the image-to-GIF tool's `createGif`.
The tool takes a front image and a back image and exports a 240-frame GIF of a card.
The card holds one face, flips, holds the other face and flips back.

The model covers these pieces:

- `easing.dfy` (module `Easing`): the quadratic ease-in-out curve `easeInOutQuad`, over exact reals.
- `schedule.dfy` (module `Schedule`): the constants and the split of a frame index into cycle and position. It also gives the pure per-frame decision `FrameAt`: a hold of one face, or a flip frame drawing some face, mirrored or not, with its 33 ms delay.
- `canvas_transform.dfy` (module `CanvasTransform`): the horizontal part of the canvas transform stack of a flip frame, as an affine map of x.
- `flip_properties.dfy` (module `FlipProperties`): properties that span frames. The face switches once per flip, and each flip ends on the face the next cycle holds. The edge-on frame is discussed below. The section "Findings" covers the orientation of that face and a corrected schedule.
- `gif_export.dfy` (module `GifExport`): the missing-image guard, and the loop that draws the 240 frames and hands them to the encoder in index order. Drawing stops at the first frame whose image did not decode.

`Math.cos` is not modelled. For eased progress `e` in `[0, 1]`, `cos(e·π)` is positive exactly when `e < 1/2` and negative when `e > 1/2`. The model uses that threshold in place of the cosine.

The one frame per flip where the eased progress is exactly 1/2 is the edge-on frame: frame 30 of the flip, which is frames 90 and 210. Here real arithmetic gives `cos(π/2) = 0`, which is not positive, so the other face would be drawn mirrored. IEEE doubles give `Math.cos(0.5 * Math.PI) ≈ 6e-17 > 0`, so JavaScript draws the current face at zero width. The model takes this choice as the parameter `EdgeOn` (`RealZero` or `FloatPositive`). Every general property is proved for both readings. `FlipProperties.EdgeOnFrame` and `FlipProperties.OnlyEdgeOnDiffers` show that these two frames are the only place the readings differ.

## Model

| member | source | states |
|---|---|---|
| Easing.Ease | src/ImageToGifTool.js:73 | On `[0,1]` the eased value stays in `[0,1]` and fixes 0 and 1. It is below 1/2 exactly when its argument is, and equal to 1/2 exactly when its argument is. |
| Easing.BranchesMeetAtHalf | src/ImageToGifTool.js:73 | The two branches, `2t²` and `-1+(4-2t)t`, both give 1/2 at `t = 1/2`, so the curve has no jump where it changes branch. |
| Easing.EaseOutIsReflectedEaseIn | src/ImageToGifTool.js:73 | The upper branch is the lower branch reflected through the point (1/2, 1/2). |
| Easing.EaseMonotone | src/ImageToGifTool.js:73 | The curve never decreases on `[0,1]`. |
| Easing.EaseSymmetric | src/ImageToGifTool.js:73 | `ease(1-t) = 1 - ease(t)` on `[0,1]`: the second half of a flip replays the first half in reverse. |
| Schedule.Split | src/ImageToGifTool.js:78-79 | For every index below 240, the cycle is 0 or 1 and the position in the cycle is below 120. Together they reconstruct the index as `cycle·120 + position`. |
| Schedule.Progress | src/ImageToGifTool.js:86 | Flip progress lies in `[0, 59/60]`, so it is never 1. It is 1/2 exactly at flip frame 30 and below 1/2 exactly before it. |
| Schedule.CycleFaceAlternates | src/ImageToGifTool.js:83 | The face a cycle holds (front on even cycles, back on odd ones) alternates from one cycle to the next and repeats every two cycles. |
| Schedule.CosSignSymmetric | src/ImageToGifTool.js:88-95 | Mirrors `cos(π−x) = −cos x`: away from 1/2, the face-switch test `cos(e·π) > 0` gives opposite answers at `e` and `1−e`. |
| Schedule.CosSignMonotone | src/ImageToGifTool.js:88-95 | Mirrors cosine decreasing on `[0, π]`: the test holds at 0 and fails at 1, and once it fails for some `e` it fails for every larger `e`. |
| Schedule.EasedClearOfHalf | src/ImageToGifTool.js:86-88 | Every flip frame other than frame 30 eases to a value below 0.47 or above 0.53, so double rounding cannot move it across the face-switch threshold. |
| Schedule.FrameAt | src/ImageToGifTool.js:75-106 | Every frame has delay 33. Frames 0-59 hold the front and 120-179 hold the back, with no mirroring, and no other frame is a hold. In a flip frame, `local` is the index modulo 120 minus 60. The frame is mirrored exactly when it draws the face the cycle does not hold. Before flip frame 30 it draws the cycle's face unmirrored; after frame 30 it draws the other face mirrored. |
| FlipProperties.FaceSwitchesOnce | src/ImageToGifTool.js:86-100 | Each flip has one switch point `k`, which is 30 or 31 (`SwitchPoint`). A flip frame is mirrored, showing the other face, exactly when `local >= k`, so the face switches exactly once per flip. |
| FlipProperties.EdgeOnFrame | src/ImageToGifTool.js:86-100 | The flip frame with `local = 30` is frame 90 or frame 210. It switches face under real arithmetic and keeps the current face under floating point. |
| FlipProperties.OnlyEdgeOnDiffers | src/ImageToGifTool.js:88-100 | Every frame except 90 and 210 is the same under both readings of the edge-on cosine. |
| FlipProperties.NextCycleStart | src/ImageToGifTool.js:78 | The start of the next cycle, wrapping from the last cycle to frame 0, is a cycle boundary inside the animation. It differs from the start of the current cycle. |
| FlipProperties.FlipEndsOnNextFace | src/ImageToGifTool.js:83-100 | Every flip frame past the switch shows the face that the next cycle holds, including across the wrap from frame 239 to frame 0. This is about the face, not its orientation. |
| FlipProperties.FlipsEndOnNextHold | src/ImageToGifTool.js:83-100 | Frame 119 and frame 120 both show the back. Frame 239 and frame 0 both show the front. |
| CanvasTransform.Then | src/ImageToGifTool.js:91-99 | Appending a step to the canvas transform applies that step to a drawn point first, then the transform so far. |
| CanvasTransform.FlipTransform | src/ImageToGifTool.js:90-99 | The stack translate, scale by `\|cos\|`, translate back, and for a mirrored frame translate by the width and scale by −1. Its net map is `w/2 + a(x − w/2)` unmirrored and `w/2 + a(w/2 − x)` mirrored. |
| CanvasTransform.FlipTransformOrder | src/ImageToGifTool.js:90-99 | With a positive factor, a mirrored flip frame reverses the image left to right and an unmirrored one keeps its order. Both keep the image centre on the canvas centre line. |
| FlipProperties.ReversedIffMirrored | src/ImageToGifTool.js:83-103 | A mirrored flip frame draws its face reversed left to right; a hold or an unmirrored flip frame draws it the right way round. |
| FlipProperties.OrientationJumpsAtCycleEnd | src/ImageToGifTool.js:83-100 | As written, frames 119 and 120 show the same face, the first reversed and the second not. Frames 239 and 0 behave the same way. |
| FlipProperties.CorrectedFrameAt | src/ImageToGifTool.js:95-100 | The corrected schedule has the same faces, holds and delays as `FrameAt`, without the extra reflection in the second half of a flip. |
| FlipProperties.CorrectedLoopSeamless | src/ImageToGifTool.js:83-100 | In the corrected schedule no frame is drawn reversed, and the last frame of each cycle draws the next cycle's hold face. Every cycle boundary, including 239 to 0, therefore shows the same face in the same orientation. |
| FlipProperties.FirstBackFrame | src/ImageToGifTool.js:83-100 | Every frame before flip frame `SwitchPoint` of the first flip (frame 90 or 91) draws the front, and that frame draws the back. |
| GifExport.CreateGif | src/ImageToGifTool.js:50-107 | If either image slot is empty or holds the empty string, export fails with `MissingImage` and draws nothing. If both images decode, it produces exactly 240 frames, frame `i` equal to `FrameAt(i)`, each with delay 33. Otherwise it stops at the first frame that draws an undecodable image: frame 0 if the front is broken, or frame 90 or 91 if only the back is. The result depends only on its inputs, so exporting twice gives the same result. |

## Left out

- React state, hooks, the JSX layout and the `isLoading` busy flag: these are UI, not schedule logic.
- The react-spring preview animation: it is an external library.
- Loading the default images and uploaded files with `fetch`, `FileReader` and data URLs: this is browser I/O. An image slot is modelled as an optional data-URL string with JavaScript truthiness.
- The `alert` shown when an image is missing: it is modelled only as the `MissingImage` failure.
- GifExport.CreateGif: the model treats an image as either decoded or broken when export starts. An image still decoding, which `drawImage` silently skips, is not modelled.
- GifExport.CreateGif: when drawing a broken image throws, the frames already passed to `addFrame` are not modelled, and neither is the busy flag left set. `render` is never reached, so no GIF is produced.
- Construction of the `gif.js` encoder, its worker threads, `render` and the `finished` callback: the encoder is opaque and concurrent. The model's result is the list of frames that `addFrame` would receive.
- Canvas pixels, the vertical axis and `clearRect`: these belong to the rendering API. Of the transform stack, only its horizontal map is modelled, as a function of the factor `|cos|`.
- The foreshortened width `|cos(eased·π)|`: this is floating-point trigonometry.
- Schedule.FrameAt: the edge-on frames 90 and 210 are left to the `EdgeOn` parameter instead of fixed to the browser's floating-point result.
- Schedule.FrameAt: progress and easing are computed over exact reals, not doubles. `Schedule.EasedClearOfHalf` proves that every other flip frame eases to more than 0.03 from 1/2. Double rounding therefore cannot change which side of 1/2 any other frame falls on.

## Findings

| source | as written | input that shows it | evidently intended | confidence | as-written member | corrected member |
|---|---|---|---|---|---|---|
| src/ImageToGifTool.js:92-100 | After the edge-on point the canvas is squeezed by `\|cos\|`, which is already positive. It is then also reflected by `translate(width)` and `scale(-1, 1)`, so the incoming face is drawn reversed left to right. The hold that follows draws it the right way round. | At frames 119 → 120 and 239 → 0, frame 119 draws the back reversed at almost full width (`\|cos\|` ≈ 0.99998). Frame 120 draws the back unreversed, so the picture flips left to right at the loop's cycle boundaries. | The second half of a flip draws the incoming face unreversed, so the last flip frame matches the hold that follows. | medium; not executed | FlipProperties.OrientationJumpsAtCycleEnd | FlipProperties.CorrectedLoopSeamless |

`Schedule.FrameAt` and `GifExport.CreateGif` keep the program's behaviour, with the reflection. `FlipProperties.CorrectedFrameAt` is the schedule without it.
