/**
  NavigationArrows: the two triangles beside the progress bar and the section
  steps their clicks make. Redrawing the markers after a step is rendering
  and is not part of the model.
 */
module Navigation {

  /** Side of the arrow triangle, in pixels. */
  const ArrowSize: int := 20
  /** Gap between the bar and an arrow tip, in pixels. */
  const ArrowPadding: int := 10
  /** Bar position used while the bar's canvas reports a negative x or y. */
  const FallbackX: int := 159
  const FallbackY: int := 640

  datatype Point = Point(x: int, y: int)

  /** A triangle: its tip, then the upper and lower corners of its base. */
  datatype Arrow = Arrow(tip: Point, upper: Point, lower: Point)

  /** The section indices the arrows act on: the parent's and the progress-bar handle's. */
  datatype Sections = Sections(parentSection: int, handleSection: int)

  /** Python's `//`, which rounds toward negative infinity (for a positive divisor). */
  function FloorDiv(a: int, b: int): (q: int)
    requires b > 0
    ensures q * b <= a < q * b + b
  {
    a / b
  }

  /** The bar's origin: the reported coordinate, or the fallback while it is negative. */
  function BarOrigin(winX: int, winY: int): (p: Point)
    ensures p.x >= 0 && p.y >= 0
    ensures p.x == (if winX >= 0 then winX else FallbackX)
    ensures p.y == (if winY >= 0 then winY else FallbackY)
  {
    Point(if winX >= 0 then winX else FallbackX, if winY >= 0 then winY else FallbackY)
  }

  /**
    createArrows: the left arrow points left from `ArrowPadding` before the
    bar's left edge, the right arrow points right from `ArrowPadding` after
    its right edge, both centred on the bar's middle row.
   */
  function CreateArrows(winX: int, winY: int, width: int, height: int): (r: (Arrow, Arrow))
    ensures var o := BarOrigin(winX, winY);
      var centerY := o.y + FloorDiv(height, 2);
      && r.0.tip == Point(o.x - ArrowPadding, centerY)
      && r.1.tip == Point(o.x + width + ArrowPadding, centerY)
  {
    var o := BarOrigin(winX, winY);
    var centerY := o.y + FloorDiv(height, 2);
    var half := FloorDiv(ArrowSize, 2);
    var lx := o.x - ArrowPadding;
    var rx := o.x + width + ArrowPadding;
    (Arrow(Point(lx, centerY), Point(lx + ArrowSize, centerY - half), Point(lx + ArrowSize, centerY + half)),
     Arrow(Point(rx, centerY), Point(rx - ArrowSize, centerY - half), Point(rx - ArrowSize, centerY + half)))
  }

  /** `q` is `p` reflected in the vertical line `2 * x == axis2`. */
  predicate Mirrored(p: Point, q: Point, axis2: int) {
    p.x + q.x == axis2 && p.y == q.y
  }

  /**
    The two arrows are mirror images about the bar's vertical centre line,
    each is an isosceles triangle of width ArrowSize and height ArrowSize
    pointing away from the bar, and the bar's edges lie strictly between
    their tips.
   */
  lemma {:induction false} ArrowsMirror(winX: int, winY: int, width: int, height: int)
    ensures var (l, r) := CreateArrows(winX, winY, width, height);
      var o := BarOrigin(winX, winY);
      && Mirrored(l.tip, r.tip, 2 * o.x + width)
      && Mirrored(l.upper, r.upper, 2 * o.x + width)
      && Mirrored(l.lower, r.lower, 2 * o.x + width)
      && l.upper.x == l.lower.x == l.tip.x + ArrowSize
      && l.lower.y - l.upper.y == ArrowSize
      && l.upper.y < l.tip.y < l.lower.y
      && l.tip.x < o.x && (width >= 0 ==> o.x + width < r.tip.x)
  {
    var o := BarOrigin(winX, winY);
    var half := FloorDiv(ArrowSize, 2);
    assert half == 10;
  }

  /** navigateLeft: step the handle's section back by one while it is above 0. */
  function NavigateLeft(s: Sections): (r: Sections)
    ensures r.parentSection == s.parentSection
    ensures s.handleSection > 0 ==> r.handleSection == s.handleSection - 1
    ensures s.handleSection <= 0 ==> r == s
  {
    if s.handleSection > 0 then s.(handleSection := s.handleSection - 1) else s
  }

  /**
    `len(chunks) // chunksInView`: only whole sections count, a trailing
    partial section does not.
   */
  function TotalSections(chunks: nat, chunksInView: nat): (t: nat)
    requires chunksInView > 0
    ensures t * chunksInView <= chunks < (t + 1) * chunksInView
  {
    chunks / chunksInView
  }

  /**
    navigateRight: step the handle's section on by one when the PARENT's
    section is before the last whole section.
   */
  function NavigateRight(s: Sections, chunks: nat, chunksInView: nat): (r: Sections)
    requires chunksInView > 0
    ensures r.parentSection == s.parentSection
    ensures s.parentSection < TotalSections(chunks, chunksInView) - 1 ==> r.handleSection == s.handleSection + 1
    ensures s.parentSection >= TotalSections(chunks, chunksInView) - 1 ==> r == s
  {
    if s.parentSection < TotalSections(chunks, chunksInView) - 1 then s.(handleSection := s.handleSection + 1)
    else s
  }

  /** navigateLeft never takes a non-negative handle section below 0. */
  lemma {:induction false} NavigateLeftStaysNonNegative(s: Sections, k: nat)
    requires s.handleSection >= 0
    ensures IterateLeft(s, k).handleSection == if s.handleSection >= k then s.handleSection - k else 0
    ensures IterateLeft(s, k).parentSection == s.parentSection
  {
    if k > 0 {
      NavigateLeftStaysNonNegative(s, k - 1);
    }
  }

  /** `k` clicks on the left arrow. */
  function IterateLeft(s: Sections, k: nat): Sections {
    if k == 0 then s else NavigateLeft(IterateLeft(s, k - 1))
  }

  /**
    The right arrow's guard reads the parent's section but the step moves the
    handle's: while the parent's section stays put, repeated clicks move the
    handle past the last section.
   */
  lemma {:induction false} NavigateRightPassesLastSection(chunks: nat, chunksInView: nat, k: nat)
    requires chunksInView > 0 && chunks >= 2 * chunksInView
    ensures var s := IterateRight(Sections(0, 0), chunks, chunksInView, k);
      s.handleSection == k && s.parentSection == 0
  {
    if k > 0 {
      NavigateRightPassesLastSection(chunks, chunksInView, k - 1);
      assert TotalSections(chunks, chunksInView) >= 2;
    }
  }

  /** `k` clicks on the right arrow. */
  function IterateRight(s: Sections, chunks: nat, chunksInView: nat, k: nat): Sections
    requires chunksInView > 0
  {
    if k == 0 then s else NavigateRight(IterateRight(s, chunks, chunksInView, k - 1), chunks, chunksInView)
  }

  /** A click on the right arrow that moves the handle is undone by a click on the left one. */
  lemma {:induction false} LeftUndoesRight(s: Sections, chunks: nat, chunksInView: nat)
    requires chunksInView > 0 && s.handleSection >= 0
    requires s.parentSection < TotalSections(chunks, chunksInView) - 1
    ensures NavigateLeft(NavigateRight(s, chunks, chunksInView)) == s
  {
  }
}
