/**
 * The capture window cut out of a video frame (script.js, lines 83-92): the
 * full frame width, a band of height 9/16 of that width, centred vertically.
 * The source computes in floating point; the model uses exact reals, which
 * agree with the doubles here: the width is divided by 16, a power of two,
 * and the margin is an exact difference halved.
 */
module Crop {

  /** The source rectangle: `sy` rows from the top, `width` by `height`. */
  datatype Window = Window(sy: real, width: real, height: real)

  /** The window for a `vw` by `vh` video frame. */
  function CropWindow(vw: nat, vh: nat): (w: Window)
    ensures w.width == vw as real
    ensures w.height * 16.0 == w.width * 9.0
    ensures 2.0 * w.sy + w.height == vh as real
  {
    var targetH := (vw as real / 16.0) * 9.0;
    var targetW := vw as real;
    Window((vh as real - targetH) / 2.0, targetW, targetH)
  }

  /** The band leaves as many rows above it as below it. */
  lemma CropCentred(vw: nat, vh: nat)
    ensures var w := CropWindow(vw, vh);
            w.sy == vh as real - (w.sy + w.height)
  {
  }

  /** The band starts inside the frame exactly when the frame is at least as
      tall as 16:9; a wider frame makes `sy` negative and the band overhangs
      both edges by the same amount. */
  lemma CropInsideFrame(vw: nat, vh: nat)
    ensures CropWindow(vw, vh).sy >= 0.0 <==> 9 * vw <= 16 * vh
    ensures CropWindow(vw, vh).sy + CropWindow(vw, vh).height <= vh as real <==> 9 * vw <= 16 * vh
  {
  }

  /**
   * The height stored into the capture canvas: the `height` attribute is an
   * unsigned integer, so the fractional band height is truncated.
   */
  function CanvasHeight(vw: nat): (h: nat)
    ensures 16 * h <= 9 * vw < 16 * (h + 1)
  {
    var exact := (vw as real / 16.0) * 9.0;
    assert exact >= 0.0;
    exact.Floor
  }

  /** For the usual capture sizes (width a multiple of 16) nothing is lost:
      the canvas is exactly the band. */
  lemma CanvasHeightExact(vw: nat)
    requires vw % 16 == 0
    ensures CanvasHeight(vw) as real == CropWindow(vw, 0).height
    ensures CanvasHeight(vw) == vw / 16 * 9
  {
  }

  /** A 1280x720 camera is already 16:9: the window is the whole frame. */
  lemma HighDefinitionFrame()
    ensures CropWindow(1280, 720) == Window(0.0, 1280.0, 720.0)
    ensures CanvasHeight(1280) == 720
  {
  }

  /** A 640x480 (4:3) camera keeps a 640x360 band starting at row 60. */
  lemma StandardDefinitionFrame()
    ensures CropWindow(640, 480) == Window(60.0, 640.0, 360.0)
    ensures CanvasHeight(640) == 360
  {
  }
}
