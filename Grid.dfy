/**
 * The nine-cell layout of the lucky wheel: the cell size, the nine cell
 * rectangles in the order the view stores them, and the containment test
 * used for touches.
 */
module Grid {
  import JavaInt

  /** An axis-aligned rectangle (the view's `RectF`), in view-local pixels. */
  datatype Rect = Rect(left: int, top: int, right: int, bottom: int)

  function Width(r: Rect): int { r.right - r.left }
  function Height(r: Rect): int { r.bottom - r.top }

  /**
   * `RectF.contains(x, y)`: the rectangle is non-empty and the point lies in
   * it, with the left and top edges inside and the right and bottom edges
   * outside.
   */
  predicate Contains(r: Rect, x: real, y: real): (inside: bool)
    ensures inside ==> 0 < Width(r) && 0 < Height(r)
  {
    r.left < r.right && r.top < r.bottom &&
    r.left as real <= x < r.right as real &&
    r.top as real <= y < r.bottom as real
  }

  /** Two rectangles whose interiors do not meet. */
  predicate Disjoint(a: Rect, b: Rect) {
    a.right <= b.left || b.right <= a.left || a.bottom <= b.top || b.bottom <= a.top
  }

  /** Two rectangles side by side (same rows) or stacked (same columns), touching. */
  predicate SharesEdge(a: Rect, b: Rect) {
    (a.top == b.top && a.bottom == b.bottom && (a.right == b.left || b.right == a.left)) ||
    (a.left == b.left && a.right == b.right && (a.bottom == b.top || b.bottom == a.top))
  }

  /** Ring cell `i` shares an edge with the next ring cell, cell 7 with cell 0. */
  predicate RingNeighbours(cells: seq<Rect>, i: int)
    requires 8 <= |cells| && 0 <= i < 8
  {
    SharesEdge(cells[i], cells[(i + 1) % 8])
  }

  /** Number of cells, and the index of the centre "Go" cell. */
  const CellCount := 9
  const Centre := 8

  /** `rectSize = Math.min(w, h) / 3`, with Java's integer division. */
  function Size(w: int, h: int): (s: int)
    ensures 0 <= w && 0 <= h ==> 0 <= s && 3 * s <= JavaInt.Min(w, h) < 3 * s + 3
    ensures 0 <= w && 0 <= h && JavaInt.Min(w, h) < 3 ==> s == 0
  {
    JavaInt.Div(JavaInt.Min(w, h), 3)
  }

  /** Cell `x` of the top row, counted from the left edge. */
  function TopCell(x: int, s: int): Rect {
    Rect(x * s, 0, (x + 1) * s, s)
  }

  /** Cell `k` (1, 2 or 3) of the bottom row, counted from the right edge `w`. */
  function BottomCell(k: int, w: int, s: int): Rect {
    Rect(w - k * s, 2 * s, w - (k - 1) * s, 3 * s)
  }

  /**
   * The cells for width `w` and cell size `s`: the top row left to right,
   * the right-hand cell of the middle row, the bottom row right to left
   * (anchored on `w`), the left-hand cell of the middle row, then the centre.
   */
  function Cells(w: int, s: int): seq<Rect> {
    [TopCell(0, s), TopCell(1, s), TopCell(2, s),
     Rect(w - s, s, w, 2 * s),
     BottomCell(1, w, s), BottomCell(2, w, s), BottomCell(3, w, s),
     Rect(0, s, s, 2 * s),
     Rect(s, s, 2 * s, 2 * s)]
  }

  /** The layout built for a view of size `w` x `h`. */
  function Layout(w: int, h: int): (cells: seq<Rect>)
    ensures |cells| == CellCount
  {
    Cells(w, Size(w, h))
  }

  /** Every cell of the layout is a square of side `Size(w, h)`. */
  lemma CellsAreSquares(w: int, h: int)
    ensures forall i :: 0 <= i < CellCount ==>
              Width(Layout(w, h)[i]) == Size(w, h) && Height(Layout(w, h)[i]) == Size(w, h)
  {
  }

  /**
   * When the width is exactly three cells, the eight ring cells are pairwise
   * disjoint, each shares an edge with the next one round the ring (7 with 0
   * included), and the centre cell overlaps none of them.
   */
  lemma RingIsNineGrid(w: int, h: int)
    requires 0 <= h && w == 3 * Size(w, h)
    ensures forall i, j :: 0 <= i < j < CellCount ==> Disjoint(Layout(w, h)[i], Layout(w, h)[j])
    ensures forall i :: 0 <= i < 8 ==> RingNeighbours(Layout(w, h), i)
  {
    // Spelling out the nine cells with s = w / 3 keeps the case split
    // below the resource limit.
    var s := Size(w, h);
    assert Layout(w, h) == [Rect(0, 0, s, s), Rect(s, 0, 2 * s, s), Rect(2 * s, 0, 3 * s, s),
                            Rect(2 * s, s, 3 * s, 2 * s),
                            Rect(2 * s, 2 * s, 3 * s, 3 * s), Rect(s, 2 * s, 2 * s, 3 * s),
                            Rect(0, 2 * s, s, 3 * s),
                            Rect(0, s, s, 2 * s),
                            Rect(s, s, 2 * s, 2 * s)];
  }

  /** Disjoint rectangles have no point in common. */
  lemma DisjointHaveNoCommonPoint(a: Rect, b: Rect, x: real, y: real)
    requires Disjoint(a, b)
    ensures !(Contains(a, x, y) && Contains(b, x, y))
  {
  }

  /**
   * When the width is exactly three cells, every point of the 3s x 3s square
   * lies in exactly one cell; the lemma names that cell.
   */
  lemma CellAt(w: int, h: int, x: real, y: real) returns (i: int)
    requires 0 <= h && w == 3 * Size(w, h)
    requires 0.0 <= x < w as real && 0.0 <= y < w as real
    ensures 0 <= i < CellCount && Contains(Layout(w, h)[i], x, y)
    ensures forall j :: 0 <= j < CellCount && j != i ==> !Contains(Layout(w, h)[j], x, y)
  {
    var s := Size(w, h);
    var c := Layout(w, h);
    var sr := s as real;
    var col := if x < sr then 0 else if x < 2.0 * sr then 1 else 2;
    i := if y < sr then col
         else if y < 2.0 * sr then (if col == 0 then 7 else if col == 1 then 8 else 3)
         else 6 - col;
    RingIsNineGrid(w, h);
    forall j | 0 <= j < CellCount && j != i
      ensures !Contains(c[j], x, y)
    {
      if i < j {
        DisjointHaveNoCommonPoint(c[i], c[j], x, y);
      } else {
        DisjointHaveNoCommonPoint(c[j], c[i], x, y);
      }
    }
  }

  /**
   * A point is in the centre cell exactly when the cell size is positive and
   * the point lies in [s, 2s) x [s, 2s); with a zero cell size no point is.
   */
  lemma CentreContains(w: int, h: int, x: real, y: real)
    ensures Contains(Layout(w, h)[Centre], x, y) <==>
              var s := Size(w, h) as real;
              0.0 < s && s <= x < 2.0 * s && s <= y < 2.0 * s
  {
  }

  /**
   * The right-hand middle cell always sits on the bottom row. With a
   * positive cell size the rest of the ring closes (that cell meets the top
   * row, the bottom row meets the left column) exactly when the width
   * is three cells: the right column and the bottom row are anchored on the
   * width, the rest of the grid on the left edge.
   */
  lemma RingClosesIffSquare(w: int, h: int)
    requires 0 < Size(w, h)
    ensures SharesEdge(Layout(w, h)[3], Layout(w, h)[4])
    ensures SharesEdge(Layout(w, h)[2], Layout(w, h)[3]) && SharesEdge(Layout(w, h)[6], Layout(w, h)[7])
            <==> w == 3 * Size(w, h)
  {
  }

  /** The 300 x 300 view: cells of side 100 at the expected places. */
  lemma Layout300()
    ensures Size(300, 300) == 100
    ensures Layout(300, 300)[0] == Rect(0, 0, 100, 100)
    ensures Layout(300, 300)[3] == Rect(200, 100, 300, 200)
    ensures Layout(300, 300)[6] == Rect(0, 200, 100, 300)
    ensures Layout(300, 300)[Centre] == Rect(100, 100, 200, 200)
  {
  }
}
