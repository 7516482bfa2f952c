/**
 * Layout of the composed strip (script.js, lines 227-248): the canvas is as
 * wide as the widest capture and as tall as the sum of the captures' own
 * heights; the captures are then drawn one under another at a running `y`,
 * a narrower one stretched to the canvas width with its height scaled and
 * rounded.  The scaled heights are not fed back into the canvas height.
 *
 * Arithmetic is exact: `Math.round(h * (W / w))` is taken as the rational
 * h*W/w rounded half up.  An image that failed to load has width 0; scaling
 * it divides by zero, which JavaScript turns into NaN or Infinity, and
 * `NonFinite` stands for both.
 */
module StripLayout {

  /** The decoded dimensions of one capture. */
  datatype Size = Size(width: nat, height: nat)

  /** A JavaScript number as it occurs here: an integer, or NaN/Infinity. */
  datatype Coord = Finite(value: int) | NonFinite

  /** Number addition: a NaN or an Infinity swallows everything after it. */
  function Plus(a: Coord, b: Coord): (r: Coord)
    ensures r.Finite? <==> a.Finite? && b.Finite?
    ensures r.Finite? ==> r.value == a.value + b.value
  {
    if a.Finite? && b.Finite? then Finite(a.value + b.value) else NonFinite
  }

  /** One `drawImage` call: its top edge and the height it is drawn at. */
  datatype Placement = Placement(y: Coord, height: Coord)

  /** `Math.max(...imgs.map(i => i.width))` */
  function MaxWidth(imgs: seq<Size>): (w: nat)
    requires |imgs| > 0
    ensures forall i :: 0 <= i < |imgs| ==> imgs[i].width <= w
    ensures exists i :: 0 <= i < |imgs| && imgs[i].width == w
  {
    if |imgs| == 1 then imgs[0].width
    else
      var rest := MaxWidth(imgs[1..]);
      assert forall i :: 1 <= i < |imgs| ==> imgs[i] == imgs[1..][i - 1];
      if imgs[0].width > rest then imgs[0].width else rest
  }

  /** `imgs.reduce((s, i) => s + i.height, 0)`, a left fold. */
  function TotalHeight(imgs: seq<Size>): (h: nat)
    ensures forall i :: 0 <= i < |imgs| ==> imgs[i].height <= h
  {
    if imgs == [] then 0
    else
      var init := imgs[..|imgs| - 1];
      assert forall i :: 0 <= i < |init| ==> imgs[i] == init[i];
      TotalHeight(init) + imgs[|imgs| - 1].height
  }

  /** The sum splits over a concatenation. */
  lemma {:induction false} TotalHeightAppend(a: seq<Size>, b: seq<Size>)
    ensures TotalHeight(a + b) == TotalHeight(a) + TotalHeight(b)
    decreases |b|
  {
    if b != [] {
      var last := |b| - 1;
      assert (a + b)[..|a + b| - 1] == a + b[..last];
      TotalHeightAppend(a, b[..last]);
    } else {
      assert a + b == a;
    }
  }

  /**
   * `Math.round(a / b)` for non-negative `a` and positive `b`: the integer
   * nearest to a/b, a tie going up, which is (2a + b) div 2b.
   */
  function RoundedQuotient(a: nat, b: nat): (q: nat)
    requires b > 0
    ensures 2 * b * q <= 2 * a + b < 2 * b * q + 2 * b
  {
    var n, d := 2 * a + b, 2 * b;
    assert n == d * (n / d) + n % d;
    n / d
  }

  /** The height an image is drawn at on a canvas `canvasWidth` wide. */
  function DrawnHeight(img: Size, canvasWidth: nat): (h: Coord)
    ensures img.width == canvasWidth ==> h == Finite(img.height)
    ensures 0 < img.width != canvasWidth ==>
              h.Finite? && h.value >= 0
              && 2 * img.width * h.value <= 2 * img.height * canvasWidth + img.width
                                         < 2 * img.width * h.value + 2 * img.width
    ensures img.width == 0 < canvasWidth ==> h.NonFinite?
  {
    if img.width != canvasWidth then
      if img.width == 0 then NonFinite
      else Finite(RoundedQuotient(img.height * canvasWidth, img.width))
    else Finite(img.height)
  }

  /** The running `y` after the images of `imgs` are drawn in order. */
  function Stacked(imgs: seq<Size>, canvasWidth: nat): (y: Coord)
    ensures y.Finite? ==> y.value >= 0
  {
    if imgs == [] then Finite(0)
    else Plus(Stacked(imgs[..|imgs| - 1], canvasWidth), DrawnHeight(imgs[|imgs| - 1], canvasWidth))
  }

  /** The running `y` stays a number exactly when every drawn height is one. */
  lemma {:induction false} StackedFiniteIff(imgs: seq<Size>, canvasWidth: nat)
    ensures Stacked(imgs, canvasWidth).Finite? <==>
              forall i :: 0 <= i < |imgs| ==> DrawnHeight(imgs[i], canvasWidth).Finite?
  {
    if imgs != [] {
      var init := imgs[..|imgs| - 1];
      StackedFiniteIff(init, canvasWidth);
      assert forall i :: 0 <= i < |init| ==> imgs[i] == init[i];
    }
  }

  /** Where and how tall image `i` is drawn: at the stacked height of the
      images before it, at its drawn height. */
  function PlacementOf(imgs: seq<Size>, canvasWidth: nat, i: nat): Placement
    requires i < |imgs|
  {
    Placement(Stacked(imgs[..i], canvasWidth), DrawnHeight(imgs[i], canvasWidth))
  }

  /**
   * The strip handler from the point its images have loaded: canvas size,
   * then the `forEach` loop that draws each image at the running `y`.
   */
  method LayOut(imgs: seq<Size>) returns (width: nat, height: nat, draws: seq<Placement>, y: Coord)
    requires |imgs| > 0
    ensures forall i :: 0 <= i < |imgs| ==> imgs[i].width <= width
    ensures exists i :: 0 <= i < |imgs| && imgs[i].width == width
    ensures height == TotalHeight(imgs)
    ensures |draws| == |imgs|
    ensures forall i :: 0 <= i < |imgs| ==> draws[i] == PlacementOf(imgs, width, i)
    ensures y == Stacked(imgs, width)
  {
    width := MaxWidth(imgs);
    height := TotalHeight(imgs);
    y := Finite(0);
    draws := [];
    var i := 0;
    while i < |imgs|
      invariant 0 <= i <= |imgs|
      invariant |draws| == i
      invariant y == Stacked(imgs[..i], width)
      invariant forall j :: 0 <= j < i ==> draws[j] == PlacementOf(imgs, width, j)
    {
      var h := DrawnHeight(imgs[i], width);
      draws := draws + [Placement(y, h)];
      assert imgs[..i + 1][..i] == imgs[..i];
      y := Plus(y, h);
      i := i + 1;
    }
    assert imgs[..i] == imgs;
  }

  /** With all widths equal nothing is scaled and the images exactly fill
      the canvas: the last `y` is the canvas height. */
  lemma {:induction false} EqualWidthsFillCanvas(imgs: seq<Size>, w: nat)
    requires forall i :: 0 <= i < |imgs| ==> imgs[i].width == w
    ensures Stacked(imgs, w) == Finite(TotalHeight(imgs))
  {
    if imgs != [] {
      EqualWidthsFillCanvas(imgs[..|imgs| - 1], w);
    }
  }

  /** When every image loaded (positive width) and none is wider than the
      canvas, every offset is finite and the images reach at least the
      canvas height: scaling up never shrinks an image. */
  lemma {:induction false} ScaledImagesReachCanvas(imgs: seq<Size>, w: nat)
    requires forall i :: 0 <= i < |imgs| ==> 0 < imgs[i].width <= w
    ensures Stacked(imgs, w).Finite?
    ensures Stacked(imgs, w).value >= TotalHeight(imgs)
  {
    if imgs != [] {
      var last := imgs[|imgs| - 1];
      ScaledImagesReachCanvas(imgs[..|imgs| - 1], w);
      ScaledNotShorter(last, w);
    }
  }

  /** A loaded image no wider than the canvas is drawn at least as tall as
      it is. */
  lemma ScaledNotShorter(img: Size, w: nat)
    requires 0 < img.width <= w
    ensures DrawnHeight(img, w).Finite? && DrawnHeight(img, w).value >= img.height
  {
    if img.width != w {
      var d := DrawnHeight(img, w).value;
      MulMonotone(img.height, img.width, w);
      CancelFactor(img.width, img.height, d + 1);
    }
  }

  /** A positive factor can be cancelled from a strict inequality. */
  lemma CancelFactor(a: nat, x: int, y: int)
    requires a > 0 && a * x < a * y
    ensures x < y
  {
    MulMonotone(a, y, x);
  }

  /** Multiplying by a non-negative number keeps an inequality; stated as an
      implication so that it needs no precondition. */
  lemma MulMonotone(a: nat, b: int, c: int)
    ensures b <= c ==> a * b <= a * c
  {
    assert a * c == a * b + a * (c - b);
  }

  /** The mismatch the source leaves in place: a 2x1 and a 1x1 image make a
      2x2 canvas, but the second is drawn 2 rows tall and ends at y = 3, so
      its bottom row falls off the canvas. */
  lemma StripOverflowsCanvas()
    ensures var imgs := [Size(2, 1), Size(1, 1)];
            MaxWidth(imgs) == 2 && TotalHeight(imgs) == 2 && Stacked(imgs, 2) == Finite(3)
  {
    var imgs := [Size(2, 1), Size(1, 1)];
    assert imgs[1..] == [Size(1, 1)];
    assert MaxWidth(imgs) == 2;
    assert imgs[..1] == [Size(2, 1)];
    assert [Size(2, 1)][..0] == [];
    assert TotalHeight([Size(2, 1)]) == 1;
    assert Stacked([Size(2, 1)], 2) == Finite(1);
    assert RoundedQuotient(2, 1) == 2;
    assert DrawnHeight(Size(1, 1), 2) == Finite(2);
  }

  /** An image that failed to load (width 0) beside a loaded one turns the
      running `y`, and every offset after it, into NaN or Infinity. */
  lemma {:induction false} FailedImagePoisonsOffsets(imgs: seq<Size>, w: nat, k: nat)
    requires k < |imgs| && imgs[k].width == 0 < w
    ensures Stacked(imgs, w).NonFinite?
  {
    if k < |imgs| - 1 {
      FailedImagePoisonsOffsets(imgs[..|imgs| - 1], w, k);
    }
  }
}
