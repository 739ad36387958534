/** The rule that sizes the camera view to the browser window: never wider
    than 640 pixels, always at a 4:3 aspect ratio. */
module Viewport {

  const MaxWidth: int := 640
  const BaseHeight: int := 480

  /** Width in whole CSS pixels; height may be fractional. */
  datatype Dimensions = Dimensions(width: int, height: real)

  /** Sizes the view for a window `innerWidth` pixels wide: the width is the
      smaller of the window width and 640, and the height keeps 640:480. */
  function FitToWindow(innerWidth: int): (d: Dimensions)
    ensures d.width <= MaxWidth && d.width <= innerWidth
    ensures d.width == MaxWidth || d.width == innerWidth
    ensures d.height * (MaxWidth as real) == (d.width as real) * (BaseHeight as real)
    ensures d.height <= BaseHeight as real
  {
    var targetWidth := if innerWidth > MaxWidth then MaxWidth else innerWidth;
    var targetHeight := (targetWidth * BaseHeight) as real / MaxWidth as real;
    Dimensions(targetWidth, targetHeight)
  }

  /** A window at most 640 wide keeps its width, and sizing an already-sized
      view again changes nothing. */
  lemma FitToWindowIdempotent(innerWidth: int)
    ensures innerWidth <= MaxWidth ==> FitToWindow(innerWidth).width == innerWidth
    ensures FitToWindow(FitToWindow(innerWidth).width) == FitToWindow(innerWidth)
  {
  }

  /** Sizing is monotone: a wider window never gives a smaller view. */
  lemma FitToWindowMonotone(a: int, b: int)
    requires a <= b
    ensures FitToWindow(a).width <= FitToWindow(b).width
    ensures FitToWindow(a).height <= FitToWindow(b).height
  {
  }
}
