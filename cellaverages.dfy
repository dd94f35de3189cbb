/** The `SuperCellAverage` modifier: a supercell partition that keeps, for
    every cell, the running mean of the time surfaces the cell received. */
module CellAverages {

  import opened SuperCells
  import opened Arithmetic

  /** A time surface, flattened to its components. */
  type TimeSurface = seq<real>

  /** The memory of one cell: the running mean of the time surfaces it
      received, and how many it received. */
  datatype CellMem = CellMem(ts: TimeSurface, count: nat)

  /** Every time surface in `xs` has `n` components. */
  predicate SameSize(xs: seq<TimeSurface>, n: nat) {
    forall x <- xs :: |x| == n
  }

  /** Component `j` summed over `xs`. */
  function SumAt(xs: seq<TimeSurface>, j: nat): real
    requires forall x <- xs :: j < |x|
    decreases |xs|
  {
    if xs == [] then 0.0 else SumAt(xs[..|xs| - 1], j) + xs[|xs| - 1][j]
  }

  /** The component-wise mean of a non-empty history of time surfaces. */
  function Mean(xs: seq<TimeSurface>): (r: TimeSurface)
    requires |xs| > 0 && SameSize(xs, |xs[0]|)
    ensures |r| == |xs[0]|
    ensures forall j :: 0 <= j < |r| ==> r[j] * (|xs| as real) == SumAt(xs, j)
  {
    seq(|xs[0]|, j requires 0 <= j < |xs[0]| => SumAt(xs, j) / (|xs| as real))
  }

  /** One step of the running mean of `n` surfaces: `avg + (ts - avg) / (n + 1)`. */
  function RunningMean(avg: TimeSurface, ts: TimeSurface, n: nat): (r: TimeSurface)
    requires |avg| == |ts|
    ensures |r| == |ts|
  {
    seq(|ts|, j requires 0 <= j < |ts| => avg[j] + (ts[j] - avg[j]) / ((n + 1) as real))
  }

  /** `m` is the memory of a cell that received exactly `xs`, in order. */
  ghost predicate Remembers(m: CellMem, xs: seq<TimeSurface>) {
    && m.count == |xs|
    && (|xs| > 0 ==> SameSize(xs, |m.ts|) && m.ts == Mean(xs))
  }

  /** Index of cell `(cx, cy)` in the flat memory of a grid `w` cells wide. */
  function CellIndex(w: nat, cx: nat, cy: nat): nat {
    cy * w + cx
  }

  /** In a `w x h` grid the flat index is in range, and distinct cells have
      distinct indices. */
  lemma CellIndexInRange(w: nat, h: nat, cx: nat, cy: nat)
    requires cx < w && cy < h
    ensures CellIndex(w, cx, cy) < w * h
  {
    assert cy * w + cx < w * (cy + 1);
    MulMonotone(w, cy + 1, h);
  }

  lemma CellIndexInjective(w: nat, cx1: nat, cy1: nat, cx2: nat, cy2: nat)
    requires cx1 < w && cx2 < w
    requires CellIndex(w, cx1, cy1) == CellIndex(w, cx2, cy2)
    ensures cx1 == cx2 && cy1 == cy2
  {
    assert (cy1 - cy2) * w == cx2 - cx1;
    ZeroMultiple(cy1 - cy2, w);
  }

  /** The running-mean step on reals: averaging `n` values to `s / n` and
      folding one more value `x` in gives the mean of all `n + 1`. */
  lemma RunningMeanStep(s: real, x: real, n: real)
    requires n > 0.0
    ensures s / n + (x - s / n) / (n + 1.0) == (s + x) / (n + 1.0)
  {
    var a := s / n;
    assert a * n == s;
    assert a + (x - a) / (n + 1.0) == (a * (n + 1.0) + x - a) / (n + 1.0);
    assert a * (n + 1.0) - a == a * n;
  }

  /** The running mean of the mean of `xs` with one more surface `ts` is the
      mean of `xs` followed by `ts`. */
  lemma RunningMeanIsMean(xs: seq<TimeSurface>, ts: TimeSurface)
    requires |xs| > 0 && SameSize(xs, |ts|)
    ensures SameSize(xs + [ts], |ts|)
    ensures RunningMean(Mean(xs), ts, |xs|) == Mean(xs + [ts])
  {
    var ys := xs + [ts];
    assert ys[..|ys| - 1] == xs;
    assert SameSize(ys, |ys[0]|);
    var left := RunningMean(Mean(xs), ts, |xs|);
    var right := Mean(ys);
    forall j | 0 <= j < |ts| ensures left[j] == right[j] {
      assert SumAt(ys, j) == SumAt(xs, j) + ts[j];
      RunningMeanStep(SumAt(xs, j), ts[j], |xs| as real);
    }
  }

  /** Feeding the same surface `n >= 1` times gives that surface back. */
  lemma {:induction false} SumOfCopies(ts: TimeSurface, n: nat, j: nat)
    requires j < |ts|
    ensures SumAt(seq(n, _ => ts), j) == (n as real) * ts[j]
    decreases n
  {
    if n > 0 {
      var xs := seq(n, _ => ts);
      assert xs[..n - 1] == seq(n - 1, _ => ts);
      SumOfCopies(ts, n - 1, j);
    }
  }

  lemma MeanOfCopies(ts: TimeSurface, n: nat)
    requires n > 0
    ensures SameSize(seq(n, _ => ts), |ts|)
    ensures Mean(seq(n, _ => ts)) == ts
  {
    var xs := seq(n, _ => ts);
    forall j | 0 <= j < |ts| ensures Mean(xs)[j] == ts[j] {
      SumOfCopies(ts, n, j);
    }
  }

  /** Supercells with a running mean of time surfaces per cell. The memory is
      one flat array, cell `(cx, cy)` at `cy * wcell + cx`, sized once at
      construction; `received` is the history of each cell, for the proof. */
  class SuperCellAverage {
    const grid: SuperCell
    const cells: array<CellMem>
    ghost var received: seq<seq<TimeSurface>>

    ghost predicate Valid()
      reads this, cells
    {
      && grid.Valid()
      && cells.Length == grid.wcell * grid.hcell
      && |received| == cells.Length
      && forall i :: 0 <= i < cells.Length ==> Remembers(cells[i], received[i])
    }

    /** Every cell starts with an empty memory. */
    constructor (grid: SuperCell)
      requires grid.Valid()
      ensures Valid() && this.grid == grid && fresh(cells)
      ensures forall i :: 0 <= i < cells.Length ==> cells[i].count == 0 && received[i] == []
    {
      this.grid := grid;
      cells := new CellMem[grid.wcell * grid.hcell](_ => CellMem([], 0));
      received := seq(grid.wcell * grid.hcell, _ => []);
    }

    /** Whether `ts` can be folded into cell `(cx, cy)`: a cell that has
        already averaged a surface only takes surfaces of the same size. */
    ghost predicate FitsCell(ts: TimeSurface, cx: nat, cy: nat)
      reads this, cells
      requires Valid() && cx < grid.wcell && cy < grid.hcell
    {
      CellIndexInRange(grid.wcell, grid.hcell, cx, cy);
      var m := cells[CellIndex(grid.wcell, cx, cy)];
      m.count > 0 ==> |ts| == |m.ts|
    }

    /** Fold time surface `ts` into the mean of cell `(cx, cy)` and return the
        new mean: on the first call the cell takes `ts`, afterwards
        `avg + (ts - avg) / (count + 1)`. The cell's count goes up by one and
        no other cell changes. */
    method AverageTS(ts: TimeSurface, cx: nat, cy: nat) returns (avg: TimeSurface)
      requires Valid()
      requires cx < grid.wcell && cy < grid.hcell
      requires FitsCell(ts, cx, cy)
      modifies this, cells
      ensures Valid()
      ensures (CellIndexInRange(grid.wcell, grid.hcell, cx, cy);
               var i := CellIndex(grid.wcell, cx, cy);
               && received == old(received)[i := old(received[i]) + [ts]]
               && cells[..] == old(cells[..])[i := CellMem(avg, old(cells[i].count) + 1)]
               && avg == Mean(received[i]))
    {
      CellIndexInRange(grid.wcell, grid.hcell, cx, cy);
      var i := CellIndex(grid.wcell, cx, cy);
      var m := cells[i];
      if m.count == 0 {
        avg := ts;
        assert [ts] == seq(1, _ => ts);
        MeanOfCopies(ts, 1);
      } else {
        avg := RunningMean(m.ts, ts, m.count);
        RunningMeanIsMean(received[i], ts);
      }
      cells[i] := CellMem(avg, m.count + 1);
      received := received[i := received[i] + [ts]];
    }
  }

}
