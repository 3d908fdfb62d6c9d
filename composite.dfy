/**
 * The export composite: both current images brought to a shared height
 * (side by side) or a shared width (one above the other), the canvas that
 * holds them, and the region each one occupies on it.
 */
module Composite {
  import opened Geometry

  datatype Orientation = Horizontal | Vertical

  /**
   * The toolkit's aspect-preserving smooth scaling, as two functions: the width
   * an image gets when scaled to a given height, and the height it gets when
   * scaled to a given width. The shared dimension itself is the one asked for.
   */
  datatype Scaler = Scaler(widthAtHeight: (Size, nat) -> nat, heightAtWidth: (Size, nat) -> nat)

  /** The canvas and the region of each scaled image on it. */
  datatype Layout = Layout(canvas: Size, region1: Rect, region2: Rect)

  function Min(a: nat, b: nat): (r: nat)
    ensures r <= a && r <= b && (r == a || r == b)
  {
    if a <= b then a else b
  }

  /** Every canvas point lies in exactly one of the two regions, and no region point lies off the canvas. */
  ghost predicate Tiles(l: Layout) {
    && (forall x, y :: Inside(Rect(0, 0, l.canvas.w, l.canvas.h), x, y) <==> Inside(l.region1, x, y) || Inside(l.region2, x, y))
    && (forall x, y :: !(Inside(l.region1, x, y) && Inside(l.region2, x, y)))
  }

  /** The size and placement arithmetic of `save_combined_images`. */
  function Compose(o: Orientation, image1: Size, image2: Size, sc: Scaler): (l: Layout)
    ensures o == Horizontal ==>
      && l.canvas.h == Min(image1.h, image2.h)
      && l.canvas.w == l.region1.w + l.region2.w
      && l.region1 == Rect(0, 0, sc.widthAtHeight(image1, l.canvas.h), l.canvas.h)
      && l.region2 == Rect(l.region1.w, 0, sc.widthAtHeight(image2, l.canvas.h), l.canvas.h)
    ensures o == Vertical ==>
      && l.canvas.w == Min(image1.w, image2.w)
      && l.canvas.h == l.region1.h + l.region2.h
      && l.region1 == Rect(0, 0, l.canvas.w, sc.heightAtWidth(image1, l.canvas.w))
      && l.region2 == Rect(0, l.region1.h, l.canvas.w, sc.heightAtWidth(image2, l.canvas.w))
    ensures Tiles(l)
  {
    match o
    case Horizontal =>
      var targetH := Min(image1.h, image2.h);
      var s1 := Size(sc.widthAtHeight(image1, targetH), targetH);
      var s2 := Size(sc.widthAtHeight(image2, targetH), targetH);
      Layout(Size(s1.w + s2.w, targetH), Rect(0, 0, s1.w, s1.h), Rect(s1.w, 0, s2.w, s2.h))
    case Vertical =>
      var targetW := Min(image1.w, image2.w);
      var s1 := Size(targetW, sc.heightAtWidth(image1, targetW));
      var s2 := Size(targetW, sc.heightAtWidth(image2, targetW));
      Layout(Size(targetW, s1.h + s2.h), Rect(0, 0, s1.w, s1.h), Rect(0, s1.h, s2.w, s2.h))
  }
}
