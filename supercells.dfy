/** The `SuperCell` modifier: a fixed partition of a `width x height` context
    into square cells of side `K`, consecutive cells overlapping by at most
    `o` pixels. */
module SuperCells {

  /** A cell coordinate `(cx, cy)`. */
  type Cell = (nat, nat)

  /** The geometry, fixed at construction. `wcell x hcell` is the cell grid;
      `colStart[cx]` and `rowStart[cy]` are the event-space lower corners of
      cell column `cx` and cell row `cy`; `wmax` and `hmax` bound the part of
      the context the cells reach. */
  datatype SuperCell = SuperCell(
    width: nat, height: nat, K: nat, o: nat,
    wcell: nat, hcell: nat, wmax: nat, hmax: nat,
    colStart: seq<nat>, rowStart: seq<nat>)
  {
    /** The layout invariant: one start per column and per row; consecutive
        columns (rows) start at least `K - o` apart, so two neighbouring
        cells share at most `o` pixels; every cell ends within `wmax` and
        `hmax`, and the processed extent `wmax x hmax` lies inside the
        `width x height` context. */
    predicate Valid() {
      && 0 < K && o < K
      && wmax <= width && hmax <= height
      && |colStart| == wcell && |rowStart| == hcell
      && (forall i :: 0 < i < wcell ==> colStart[i - 1] + (K - o) <= colStart[i])
      && (forall j :: 0 < j < hcell ==> rowStart[j - 1] + (K - o) <= rowStart[j])
      && (forall i :: 0 <= i < wcell ==> colStart[i] + K <= wmax)
      && (forall j :: 0 <= j < hcell ==> rowStart[j] + K <= hmax)
    }

    /** The size of the context, `(width, height)`. */
    function GetSize(): (r: (nat, nat))
      ensures r.0 == width && r.1 == height
    {
      (width, height)
    }

    /** The number of horizontal and vertical cells. */
    function GetCellSizes(): (r: (nat, nat))
      requires Valid()
      ensures r.0 == |colStart| && r.1 == |rowStart|
    {
      (wcell, hcell)
    }

    /** Whether event coordinates `(ex, ey)` lie in cell `(cx, cy)`: the
        cell is the `K x K` square at its lower corner, inclusive at the
        lower edges and exclusive at the upper ones. A cell outside the
        grid contains nothing. */
    function IsInCell(cx: nat, cy: nat, ex: nat, ey: nat): (r: bool)
      requires Valid()
      ensures r ==> cx < wcell && cy < hcell && ex < wmax && ey < hmax
      ensures r ==> ex < width && ey < height
    {
      && cx < wcell && cy < hcell
      && colStart[cx] <= ex < colStart[cx] + K
      && rowStart[cy] <= ey < rowStart[cy] + K
    }

    /** The centre of cell `(cx, cy)` in event space: a pixel of the cell
        within half a pixel of its geometric centre on each axis. */
    function GetCellCenter(cx: nat, cy: nat): (r: (nat, nat))
      requires Valid() && cx < wcell && cy < hcell
      ensures IsInCell(cx, cy, r.0, r.1)
      ensures -1 <= 2 * r.0 - (2 * colStart[cx] + K - 1) <= 1
      ensures -1 <= 2 * r.1 - (2 * rowStart[cy] + K - 1) <= 1
    {
      (colStart[cx] + K / 2, rowStart[cy] + K / 2)
    }

    /** The cells of the first `n` columns of row `cy` that contain
        `(ex, ey)`, left to right. */
    function CellsInRow(ex: nat, ey: nat, cy: nat, n: nat): (r: seq<Cell>)
      requires Valid() && n <= wcell
      ensures forall c :: c in r <==> c.1 == cy && c.0 < n && IsInCell(c.0, c.1, ex, ey)
      ensures forall i, j :: 0 <= i < j < |r| ==> r[i].0 < r[j].0
      decreases n
    {
      if n == 0 then []
      else
        CellsInRow(ex, ey, cy, n - 1) + (if IsInCell(n - 1, cy, ex, ey) then [(n - 1, cy)] else [])
    }

    /** The cells of the first `m` rows that contain `(ex, ey)`, row by row. */
    function CellsInRows(ex: nat, ey: nat, m: nat): (r: seq<Cell>)
      requires Valid() && m <= hcell
      ensures forall c :: c in r <==> c.1 < m && IsInCell(c.0, c.1, ex, ey)
      ensures forall i, j :: 0 <= i < j < |r| ==> r[i] != r[j]
      ensures forall i :: 0 <= i < |r| ==> r[i].1 < m
      decreases m
    {
      if m == 0 then []
      else
        var before := CellsInRows(ex, ey, m - 1);
        var row := CellsInRow(ex, ey, m - 1, wcell);
        assert forall i :: 0 <= i < |row| ==> row[i].1 == m - 1 by {
          forall i | 0 <= i < |row| ensures row[i].1 == m - 1 {
            assert row[i] in row;
          }
        }
        before + row
    }

    /** The cells that contain event coordinates `(ex, ey)`: exactly the grid
        cells `(cx, cy)` with `IsInCell(cx, cy, ex, ey)`, each once. */
    function FindCells(ex: nat, ey: nat): (r: seq<Cell>)
      requires Valid()
      ensures forall c :: c in r <==> IsInCell(c.0, c.1, ex, ey)
      ensures forall c :: c in r ==> c.0 < wcell && c.1 < hcell
      ensures forall i, j :: 0 <= i < j < |r| ==> r[i] != r[j]
    {
      CellsInRows(ex, ey, hcell)
    }
  }

  /** Starts of cells `i < j` in one line are at least `K - o` apart. */
  lemma {:induction false} StartsApart(starts: seq<nat>, step: nat, i: nat, j: nat)
    requires forall k :: 0 < k < |starts| ==> starts[k - 1] + step <= starts[k]
    requires i < j < |starts|
    ensures starts[i] + step <= starts[j]
    decreases j - i
  {
    if i + 1 < j {
      StartsApart(starts, step, i, j - 1);
    }
  }

  /** Without overlap, no two cells share a pixel. */
  lemma DisjointWithoutOverlap(g: SuperCell, c1: Cell, c2: Cell, ex: nat, ey: nat)
    requires g.Valid() && g.o == 0
    requires g.IsInCell(c1.0, c1.1, ex, ey) && g.IsInCell(c2.0, c2.1, ex, ey)
    ensures c1 == c2
  {
    if c1.0 < c2.0 {
      StartsApart(g.colStart, g.K, c1.0, c2.0);
    } else if c2.0 < c1.0 {
      StartsApart(g.colStart, g.K, c2.0, c1.0);
    }
    if c1.1 < c2.1 {
      StartsApart(g.rowStart, g.K, c1.1, c2.1);
    } else if c2.1 < c1.1 {
      StartsApart(g.rowStart, g.K, c2.1, c1.1);
    }
  }

  /** With `overlap == 0`, `FindCells` returns at most one cell. */
  lemma AtMostOneCellWithoutOverlap(g: SuperCell, ex: nat, ey: nat)
    requires g.Valid() && g.o == 0
    ensures |g.FindCells(ex, ey)| <= 1
  {
    var r := g.FindCells(ex, ey);
    if |r| >= 2 {
      assert r[0] in r && r[1] in r;
      DisjointWithoutOverlap(g, r[0], r[1], ex, ey);
    }
  }

  /** Coordinates past `wmax` or `hmax` lie in no cell. */
  lemma NoCellPastExtent(g: SuperCell, ex: nat, ey: nat)
    requires g.Valid() && (ex >= g.wmax || ey >= g.hmax)
    ensures forall c :: c !in g.FindCells(ex, ey)
  {
  }

  /** Only coordinates inside the context reported by `GetSize` lie in a
      cell. */
  lemma FoundOnlyInContext(g: SuperCell, ex: nat, ey: nat)
    requires g.Valid() && |g.FindCells(ex, ey)| > 0
    ensures ex < g.GetSize().0 && ey < g.GetSize().1
  {
    assert g.FindCells(ex, ey)[0] in g.FindCells(ex, ey);
  }

  /** A cell is among the cells found at its own centre. */
  lemma CenterFindsItsCell(g: SuperCell, cx: nat, cy: nat)
    requires g.Valid() && cx < g.wcell && cy < g.hcell
    ensures var (x, y) := g.GetCellCenter(cx, cy);
            (cx, cy) in g.FindCells(x, y)
  {
  }

  /** Worked example: in a 10 x 10 context, the given layout of 5 x 5
      cells without overlap starting at 0 and 5 on each axis (a 2 x 2 grid)
      is valid, and event (7, 7) lies in cell (1, 1) only. */
  lemma TilingExample()
    ensures var g := SuperCell(10, 10, 5, 0, 2, 2, 10, 10, [0, 5], [0, 5]);
            && g.Valid()
            && g.GetCellSizes() == (2, 2)
            && g.FindCells(7, 7) == [(1, 1)]
  {
    var g := SuperCell(10, 10, 5, 0, 2, 2, 10, 10, [0, 5], [0, 5]);
    assert g.Valid();
    var r := g.FindCells(7, 7);
    assert (1, 1) in r;
    AtMostOneCellWithoutOverlap(g, 7, 7);
  }

}
