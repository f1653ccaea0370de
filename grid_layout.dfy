/** The layout of the exported PNG: N square thumbnails of side S placed row-major in a
    grid of ten columns on a canvas just large enough to hold them. */
module GridLayout {

  /** Thumbnails per row (segmentsPerRow). */
  const Columns: nat := 10

  /** Pixel origin (top-left corner) of a grid cell. */
  datatype Origin = Origin(x: nat, y: nat)

  /** Math.ceil(n / 10): the number of rows the thumbnails occupy. */
  function Rows(n: nat): (r: nat)
    ensures r * Columns >= n
    ensures n >= 1 ==> (r - 1) * Columns < n
    ensures n == 0 <==> r == 0
  {
    if n % Columns == 0 then n / Columns else n / Columns + 1
  }

  /** Canvas width: one thumbnail per item when fewer than a full row, otherwise a full row. */
  function Width(n: nat, s: nat): nat {
    if n < Columns then s * n else s * Columns
  }

  /** Canvas height: one thumbnail height per row. */
  function Height(n: nat, s: nat): nat {
    s * Rows(n)
  }

  /** Where thumbnail i is drawn: column i mod 10, row i div 10. */
  function Cell(i: nat, s: nat): Origin {
    Origin((i % Columns) * s, (i / Columns) * s)
  }

  /** Two s-by-s squares at these origins share no pixel. */
  predicate Apart(a: Origin, b: Origin, s: nat) {
    a.x + s <= b.x || b.x + s <= a.x || a.y + s <= b.y || b.y + s <= a.y
  }

  /** An s-by-s square at this origin lies inside a w-by-h canvas. */
  predicate Inside(a: Origin, s: nat, w: nat, h: nat) {
    a.x + s <= w && a.y + s <= h
  }

  lemma MulMonotone(a: nat, b: nat, s: nat)
    requires a <= b
    ensures a * s <= b * s
  {
  }

  /** One more row or column moves a cell a full side further. */
  lemma MulStep(a: nat, b: nat, s: nat)
    requires a < b
    ensures a * s + s <= b * s
  {
    MulMonotone(a + 1, b, s);
    assert (a + 1) * s == a * s + s;
  }

  /** Every cell of the n thumbnails lies inside the canvas. */
  lemma CellInside(n: nat, s: nat, i: nat)
    requires i < n
    ensures Inside(Cell(i, s), s, Width(n, s), Height(n, s))
  {
    var col, row := i % Columns, i / Columns;
    var used := if n < Columns then n else Columns;
    assert col < used;
    MulStep(col, used, s);
    assert Width(n, s) == used * s;
    RowBelowRows(n, i);
    MulStep(row, Rows(n), s);
    assert Height(n, s) == Rows(n) * s;
  }

  /** Thumbnail i of n lies in one of the Rows(n) rows. */
  lemma RowBelowRows(n: nat, i: nat)
    requires i < n
    ensures i / Columns < Rows(n)
  {
    assert (i / Columns) * Columns <= i;
  }

  /** Distinct thumbnails never overlap. */
  lemma CellsApart(s: nat, i: nat, j: nat)
    requires i != j
    ensures Apart(Cell(i, s), Cell(j, s), s)
  {
    var ci, cj, ri, rj := i % Columns, j % Columns, i / Columns, j / Columns;
    assert i == ri * Columns + ci && j == rj * Columns + cj;
    if ci < cj {
      MulStep(ci, cj, s);
    } else if cj < ci {
      MulStep(cj, ci, s);
    } else if ri < rj {
      MulStep(ri, rj, s);
    } else {
      assert rj < ri;
      MulStep(rj, ri, s);
    }
  }

  /** The canvas is no larger than needed: some cell touches its right edge and the
      last cell touches its bottom edge. */
  lemma CanvasTight(n: nat, s: nat)
    requires n >= 1
    ensures var last := if n < Columns then n - 1 else Columns - 1;
      Cell(last, s).x + s == Width(n, s)
    ensures Cell(n - 1, s).y + s == Height(n, s)
  {
    var r := (n - 1) / Columns;
    assert Rows(n) == r + 1;
  }

  /** 23 thumbnails of side 80: an 800 by 240 canvas, thumbnail 10 at (0, 80) and
      thumbnail 22 at (160, 160). */
  lemma TwentyThreeThumbnails()
    ensures Width(23, 80) == 800 && Height(23, 80) == 240
    ensures Cell(0, 80) == Origin(0, 0) && Cell(10, 80) == Origin(0, 80)
    ensures Cell(22, 80) == Origin(160, 160)
  {
  }
}
