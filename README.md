# Photobooth session and strip geometry, in Dafny

A model of the logic inside the browser photobooth page `script.js`. Most of
that file is glue to camera, canvas and DOM calls. The model keeps the parts
that can be stated and proved:

- **Session state** (`photobooth.dfy`, class `Photobooth.Booth`). The page's
  `captures` array, the thumbnail gallery, whether the strip and clear buttons
  are shown, the countdown intervals still running, and the `invertImg` flag.
  The capture-button click, the countdown tick, the strip button, the clear
  button and the camera selection are methods. The class invariant says:
  - at most three captures are held;
  - both buttons are shown exactly when three captures are held;
  - the gallery shows the captures newest first, or in array order once a
    strip has reversed the array in place.
  Three scenario methods replay click sequences and prove their results:
  - a strip before three captures is refused;
  - successive strips alternate between newest-first and oldest-first;
  - a countdown started while three captures are held is never cleared while
    three captures are held, so after Clear it captures a frame that nobody
    requested.
- **Facing flag** (`facing.dfy`). The case-insensitive label tests
  `/front|user/i` and `/back|rear|environment/i` and the camera lookup by id.
  `invert(deviceId)` is the function `FacingAfter`: the back test runs
  second, and an unknown id or an unclassified label keeps the old value.
- **Crop window** (`crop.dfy`). The capture window is the full width and a
  centred 16:9 band, over exact reals. The integer canvas height is the
  truncated band height.
- **Strip layout** (`strip_layout.dfy`). The canvas width is the maximum
  image width and the canvas height is the sum of the original heights. The
  `forEach` loop places each image at a running `y` and scales narrower
  images with `Math.round`. NaN and Infinity from an image that failed to
  load are modelled as `NonFinite`.
- **`dataURLToBlob`** (`data_url.dfy`). Splitting on commas, the
  `/:(.*?);/` MIME match with its `image/png` default, and the `while (n--)`
  copy of character codes into a `Uint8Array`, and the type normalisation
  the `Blob` constructor applies. `atob` is a parameter that returns the
  decoded string or fails.

`wrappers.dfy` holds the `Option` type.

Assumptions:
- Arithmetic is exact. Rationals are Dafny `real`. `Math.round(x)` for
  non-negative x is `(2a + b) div 2b` for x = a/b.
- Both buttons start hidden. The page's HTML is not part of this model.

Notable behaviour of the code:
- Composing adds no margin or background fill.
- A capture tick that finds three captures held does not stop its countdown.
- The strip button reverses `captures` in place, so the strip order changes
  from one strip to the next.

## Model

| member | source | states |
|---|---|---|
| Photobooth.Booth.constructor | script.js:10-11 | the session starts with no captures, an empty gallery, both buttons hidden, no countdown running and `invertImg` 0, and satisfies the invariant |
| Photobooth.Booth.SelectCamera | script.js:49-63 | selecting a device sets `invertImg` to `FacingAfter` of the old value and keeps the invariant (flag stays 0 or 1) |
| Photobooth.Booth.StartCountdown | script.js:74-77 | a capture click starts one more interval |
| Photobooth.Booth.Tick | script.js:82-155 | before the deadline nothing changes; at the deadline both buttons become shown if two or more were held (checked before the cap); with three held captures, gallery and running intervals are unchanged (the interval is not cleared); otherwise the frame is appended at the end, prepended to the gallery and one interval stops; the invariant (at most 3, buttons shown iff 3 held) is kept |
| Photobooth.Booth.Clear | script.js:265-270 | captures and gallery become empty and both buttons hidden; running intervals and the facing flag are untouched |
| Photobooth.Booth.RequestStrip | script.js:205-212 | with other than three captures the request is refused and nothing changes; with three the array becomes its reversal and the strip uses that order |
| Photobooth.Reversed | script.js:212 | the result has the same length and element i is element n-1-i of the input |
| Photobooth.ReversedTwice | script.js:212 | reversing twice restores the order, so two strips in a row leave `captures` as it was |
| Photobooth.ReversedSnoc | script.js:150-151 | appending a capture at the end of the array prepends it to the reversed view, which is what the gallery shows |
| Photobooth.EarlyStripRefused | script.js:205-209 | after two captures the strip is refused and both captures stay held in order |
| Photobooth.StripOrderAlternates | script.js:205-212 | after captures a, b, c the first strip is [c, b, a] like the gallery and the second is [a, b, c] |
| Photobooth.LeftoverTimerCapturesAfterClear | script.js:138-153 | a fourth countdown started with three held keeps running; after Clear its next tick captures frame e, stops, and the buttons stay hidden |
| Facing.ContainsIgnoringCase | script.js:54 | true exactly when the word occurs at some position of the label, letters compared case-insensitively |
| Facing.LooksFront | script.js:54 | the front test passes exactly when "front" or "user" occurs at some position, ignoring case |
| Facing.LooksBack | script.js:59 | the back test passes exactly when "back", "rear" or "environment" occurs at some position, ignoring case |
| Facing.FindCamera | script.js:51-52 | None exactly when no camera has the id; otherwise the first camera with that id |
| Facing.FacingAfter | script.js:49-63 | unknown id keeps the value; a back-like label gives 0 even if also front-like; front-like only gives 1; neither keeps the value |
| Facing.FacingStaysBinary | script.js:49-63 | starting from 0 or 1 the flag stays 0 or 1 |
| Facing.FacingIdempotent | script.js:50-63 | selecting the same device twice gives the same flag as once |
| Facing.ClassifiedLabelForgetsPrevious | script.js:54-62 | a label matching either test decides the flag whatever it was before |
| Facing.FrontLabel | script.js:54-57 | a camera labelled "Front" sets the flag to 1 |
| Facing.BackLabel | script.js:59-62 | a camera labelled "camera2 0, facing back" sets the flag to 0 |
| Facing.BothLabel | script.js:54-62 | "USER rear" matches both tests and ends at 0 because the back test runs second |
| Facing.NeutralLabel | script.js:51-63 | an unclassified label, or an id not in the list, leaves the flag unchanged |
| Crop.CropWindow | script.js:87-89 | the window is the full width, its height is 9/16 of that width, and 2*sy + height equals the frame height |
| Crop.CropCentred | script.js:89 | the rows above the window equal the rows below it |
| Crop.CropInsideFrame | script.js:87-89 | the window lies inside the frame exactly when 9*vw <= 16*vh |
| Crop.CanvasHeight | script.js:92 | the integer canvas height h satisfies 16h <= 9vw < 16(h+1) |
| Crop.CanvasHeightExact | script.js:87-92 | for widths that are multiples of 16 the canvas height equals the window height, vw/16*9 |
| Crop.HighDefinitionFrame | script.js:83-92 | 1280x720 gives the whole frame at sy 0 |
| Crop.StandardDefinitionFrame | script.js:83-92 | 640x480 gives a 640x360 window at sy 60 |
| StripLayout.MaxWidth | script.js:228 | the canvas width is at least every image width and equals one of them |
| StripLayout.TotalHeight | script.js:229 | the canvas height is at least the height of every image |
| StripLayout.TotalHeightAppend | script.js:229 | the summed height of a concatenation is the sum of the parts' summed heights |
| StripLayout.Plus | script.js:243-246 | `y += h` is a number exactly when both operands are, and then it is their sum; NaN or Infinity otherwise |
| StripLayout.RoundedQuotient | script.js:241 | the result q is the nearest integer to a/b, ties upward: 2bq <= 2a+b < 2bq+2b |
| StripLayout.DrawnHeight | script.js:240-247 | an image as wide as the canvas keeps its height; a narrower loaded one gets its height times W/w rounded to the nearest integer; a zero-width one gives NaN or Infinity |
| StripLayout.Stacked | script.js:237-248 | the running `y`, when it is a number, is never negative |
| StripLayout.StackedFiniteIff | script.js:237-248 | the running `y` after the loop is a number exactly when every drawn height is one |
| StripLayout.LayOut | script.js:227-248 | the width is the maximum width, the height is the sum of heights, and image i is drawn at the stacked height of images 0..i-1 with its drawn height; the final y is the stacked height of all |
| StripLayout.ScaledNotShorter | script.js:240-243 | a loaded image no wider than the canvas is drawn at least as tall as its own height |
| StripLayout.EqualWidthsFillCanvas | script.js:237-248 | with all widths equal the final y equals the canvas height |
| StripLayout.ScaledImagesReachCanvas | script.js:237-248 | with all images loaded the offsets are finite and the final y is at least the canvas height |
| StripLayout.StripOverflowsCanvas | script.js:228-248 | a 2x1 and a 1x1 image give a 2x2 canvas but a final y of 3 |
| StripLayout.FailedImagePoisonsOffsets | script.js:237-248 | an image of width 0 beside a wider one makes the final y NaN or Infinity |
| DataUrl.Split | script.js:192 | the parts contain no comma, there is at least one, and joining them with commas gives back the string |
| DataUrl.Header | script.js:192 | `arr[0]` is the comma-free prefix of the URL that ends at its end or at its first comma |
| DataUrl.Payload | script.js:192-195 | without a comma `arr[1]` is missing and `atob` receives "undefined"; otherwise it is the comma-free text right after the first comma, ending at the end or at the next comma |
| DataUrl.SplitNone | script.js:192 | a string without a comma splits into itself |
| DataUrl.SplitAt | script.js:192 | the text before the first comma is the first part and the rest splits on its own |
| DataUrl.LazyToSemicolon | script.js:193 | the group yields the text up to the first ';' when no line terminator precedes it, and nothing otherwise |
| DataUrl.MatchFrom | script.js:193 | the search yields the leftmost successful attempt at a ':', or nothing when no attempt succeeds |
| DataUrl.Mime | script.js:193-194 | the type is "image/png" when no attempt at a ':' succeeds, and otherwise the capture of the leftmost successful attempt |
| DataUrl.LeftmostAttemptWins | script.js:193 | when every attempt before a ':' fails and the attempt there succeeds, the search yields that attempt |
| DataUrl.NoColonMeansPng | script.js:193-194 | a header without ':' gives "image/png" |
| DataUrl.LazyStopsAtSemicolon | script.js:193 | text free of ';' and line breaks followed by ';' is captured whole |
| DataUrl.MimeOfDataHeader | script.js:193-194 | the header "data:" + t + ";base64" yields the type t |
| DataUrl.EmptyTypeIsKept | script.js:193-194 | "data:;base64" yields the empty type, not the default |
| DataUrl.DataUrlParts | script.js:192-195 | "data:t;base64,p" splits into header "data:t;base64" and payload p |
| DataUrl.LaterSegmentsIgnored | script.js:192-195 | only the segment between the first and second commas is decoded |
| DataUrl.NoCommaPayload | script.js:192-195 | without a comma the header is the whole URL and `atob` receives "undefined" |
| DataUrl.ToUint8 | script.js:199 | a code below 256 is stored unchanged |
| DataUrl.CopyCodes | script.js:196-200 | a freshly allocated array of the decoded string's length whose byte i is the code of character i (mod 256) |
| DataUrl.LowerAll | script.js:201 | the result has the input's length and each character is the ASCII lower-case of the input's |
| DataUrl.BlobType | script.js:201 | the `Blob` constructor's type is empty if any character lies outside U+0020 to U+007E, and otherwise the type with ASCII letters lower-cased |
| DataUrl.BlobTypeIdempotent | script.js:201 | normalising a blob type twice gives the same as once |
| DataUrl.CanvasTypeKept | script.js:201 | "image/png", the type a canvas data URL carries, is kept unchanged |
| DataUrl.MixedCaseTypeLowered | script.js:201 | "Image/PNG" becomes "image/png" |
| DataUrl.DataUrlToBlob | script.js:191-202 | the conversion fails exactly when `atob` fails on the payload; otherwise the blob type is the normalised MIME of the header (lower-cased, or empty when it holds a non-printable character) and its bytes are the codes of the decoded string |

## Left out

- Camera access and streams are left out because they are asynchronous platform I/O: `getUserMedia`, `enumerateDevices`, `startStream`/`stopStream` track handling, `video.srcObject` and the device option list. `SelectCamera` models only the `invert` call that runs once a stream is bound. A failed stream request does not reach it.
- Canvas drawing is left out because it is foreign rendering: `drawImage`, the `scale(-1, 1)` double draw that mirrors the capture, `strokeRect`, `toDataURL` and `toBlob`. Only the `invertImg` flag is kept. Each capture's data URL and each image's size arrive as parameters.
- Image loading with `Promise.all` and `onload`/`onerror` is left out because it is asynchronous. `LayOut` starts from the loaded sizes, and a failed load is a size of width 0.
- The countdown's clock arithmetic and its on-screen seconds are left out because they depend on the clock. `Tick` receives the remaining milliseconds.
- The clipboard write, the download link, object URLs and alerts are left out because they are platform side effects. An alert is the `NoCapturesYet` result, and a thrown `atob` is `DecodeFailed`.
- `atob` is a parameter and is not re-implemented.
- Floating point is left out. The crop window needs no rounding in doubles: `(vw / 16) * 9` divides by a power of two and `(vh - targetH) / 2` halves an exact difference, so for any real frame size the browser computes exactly the reals the model does. Only the scaling ratio `width / img.width` in the strip layout can round, so a scaled height can differ from the exact one where the ratio is not representable.
- Strings are Dafny character sequences of Unicode scalar values, while JavaScript strings hold UTF-16 code units. The two differ only for characters beyond U+FFFF and unpaired surrogates; decoded Base64, camera labels and canvas data URLs contain neither.
- StripLayout.MaxWidth: requires a non-empty list, because `Math.max()` of nothing is -Infinity; the handler always passes three images.
- dropdown.js is left out because it only wires DOM events and has no state to model.
