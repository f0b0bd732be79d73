/** The flat buffers a grid builder produces.

    Points are laid out row-major: cell (r, c) of a grid with `cols` columns
    is point number r * cols + c. The position buffer holds three numbers per
    point (x, y, 0) and the texture-coordinate buffer two (u, v). */
module GridLayout {
  import opened GridCell

  /** Point number of cell (r, c) in row-major order. */
  function PointIndex(r: nat, c: nat, cols: nat): nat {
    r * cols + c
  }

  /** Cell (r, c) has its texture coordinate (u, v) stored at its slot. */
  predicate UvStored(uvs: seq<real>, r: nat, c: nat, rows: nat, cols: nat)
    requires r < rows && c < cols
  {
    var k := PointIndex(r, c, cols);
    && 2 * k + 1 < |uvs|
    && uvs[2 * k] == CellCentre(c, cols)
    && uvs[2 * k + 1] == CellCentre(r, rows)
  }

  /** Cell (r, c) has its position (x, y, 0) stored at its slot. */
  predicate PositionStored(pts: seq<real>, r: nat, c: nat, rows: nat, cols: nat, aspect: real)
    requires r < rows && c < cols
  {
    var k := PointIndex(r, c, cols);
    && 3 * k + 2 < |pts|
    && pts[3 * k] == X(c, cols, aspect)
    && pts[3 * k + 1] == Y(r, rows)
    && pts[3 * k + 2] == 0.0
  }

  /** uvs is the texture-coordinate buffer of a rows x cols grid. */
  predicate IsUvBuffer(uvs: seq<real>, rows: nat, cols: nat) {
    && |uvs| == 2 * (rows * cols)
    && forall r: nat, c: nat | r < rows && c < cols :: UvStored(uvs, r, c, rows, cols)
  }

  /** pts is the position buffer of a rows x cols grid with the given aspect ratio. */
  predicate IsPositionBuffer(pts: seq<real>, rows: nat, cols: nat, aspect: real) {
    && |pts| == 3 * (rows * cols)
    && forall r: nat, c: nat | r < rows && c < cols :: PositionStored(pts, r, c, rows, cols, aspect)
  }

  lemma MulLeftMono(a: nat, b: nat, n: nat)
    requires a <= b
    ensures a * n <= b * n
  {
  }

  /** Every point number below rows * cols is the slot of exactly one cell:
      the row-major numbering covers the whole buffer. */
  lemma CellOf(k: nat, rows: nat, cols: nat) returns (r: nat, c: nat)
    requires k < rows * cols
    ensures r < rows && c < cols
    ensures PointIndex(r, c, cols) == k
  {
    r := k / cols;
    c := k % cols;
    if r >= rows {
      MulLeftMono(rows, r, cols);
      assert false;
    }
  }

  /** Distinct cells occupy distinct slots. */
  lemma PointIndexInjective(r1: nat, c1: nat, r2: nat, c2: nat, cols: nat)
    requires c1 < cols && c2 < cols
    requires PointIndex(r1, c1, cols) == PointIndex(r2, c2, cols)
    ensures r1 == r2 && c1 == c2
  {
    if r1 < r2 {
      MulLeftMono(r1 + 1, r2, cols);
      assert false;
    } else if r2 < r1 {
      MulLeftMono(r2 + 1, r1, cols);
      assert false;
    }
  }

  /** The last cell of a grid is number rows * cols - 1, so the builder's
      slots are exactly 0 .. rows * cols - 1. */
  lemma SlotBelowCount(r: nat, c: nat, rows: nat, cols: nat)
    requires r < rows && c < cols
    ensures PointIndex(r, c, cols) < rows * cols
  {
    MulLeftMono(r + 1, rows, cols);
  }

  /** Appending to a buffer keeps every cell already stored in it. */
  lemma StoredKeptByAppend(pts: seq<real>, uvs: seq<real>, morePts: seq<real>, moreUvs: seq<real>,
                           r: nat, c: nat, rows: nat, cols: nat, aspect: real)
    requires r < rows && c < cols
    requires PositionStored(pts, r, c, rows, cols, aspect)
    requires UvStored(uvs, r, c, rows, cols)
    ensures PositionStored(pts + morePts, r, c, rows, cols, aspect)
    ensures UvStored(uvs + moreUvs, r, c, rows, cols)
  {
  }

  /** Every cell before (r, c) in row-major order is stored. */
  predicate StoredBefore(pts: seq<real>, uvs: seq<real>, r: nat, c: nat, rows: nat, cols: nat, aspect: real) {
    forall r': nat, c': nat | r' < rows && c' < cols && (r' < r || (r' == r && c' < c)) ::
      PositionStored(pts, r', c', rows, cols, aspect) && UvStored(uvs, r', c', rows, cols)
  }

  /** One step of a builder: appending cell (r, c)'s position and texture
      coordinate to buffers that hold every earlier cell stores (r, c) too. */
  lemma AppendCell(pts: seq<real>, uvs: seq<real>, r: nat, c: nat, rows: nat, cols: nat, aspect: real)
    requires r < rows && c < cols
    requires |pts| == 3 * PointIndex(r, c, cols) && |uvs| == 2 * PointIndex(r, c, cols)
    requires StoredBefore(pts, uvs, r, c, rows, cols, aspect)
    ensures StoredBefore(pts + [X(c, cols, aspect), Y(r, rows), 0.0],
                         uvs + [CellCentre(c, cols), CellCentre(r, rows)],
                         r, c + 1, rows, cols, aspect)
  {
    var pts' := pts + [X(c, cols, aspect), Y(r, rows), 0.0];
    var uvs' := uvs + [CellCentre(c, cols), CellCentre(r, rows)];
    forall r': nat, c': nat | r' < rows && c' < cols && (r' < r || (r' == r && c' < c + 1))
      ensures PositionStored(pts', r', c', rows, cols, aspect) && UvStored(uvs', r', c', rows, cols)
    {
      if r' == r && c' == c {
        assert PositionStored(pts', r, c, rows, cols, aspect);
      } else {
        StoredKeptByAppend(pts, uvs, [X(c, cols, aspect), Y(r, rows), 0.0],
                           [CellCentre(c, cols), CellCentre(r, rows)], r', c', rows, cols, aspect);
      }
    }
  }

  /** A finished row is the start of the next one. */
  lemma NextRow(pts: seq<real>, uvs: seq<real>, r: nat, rows: nat, cols: nat, aspect: real)
    requires StoredBefore(pts, uvs, r, cols, rows, cols, aspect)
    ensures StoredBefore(pts, uvs, r + 1, 0, rows, cols, aspect)
  {
    forall r': nat, c': nat | r' < rows && c' < cols && (r' < r + 1 || (r' == r + 1 && c' < 0))
      ensures PositionStored(pts, r', c', rows, cols, aspect) && UvStored(uvs, r', c', rows, cols)
    {
      assert r' < r || (r' == r && c' < cols);
    }
  }

  /** Once every row is done, the buffers are the grid's buffers. */
  lemma AllRowsStored(pts: seq<real>, uvs: seq<real>, rows: nat, cols: nat, aspect: real)
    requires |pts| == 3 * (rows * cols) && |uvs| == 2 * (rows * cols)
    requires StoredBefore(pts, uvs, rows, 0, rows, cols, aspect)
    ensures IsPositionBuffer(pts, rows, cols, aspect)
    ensures IsUvBuffer(uvs, rows, cols)
  {
    forall r: nat, c: nat | r < rows && c < cols
      ensures PositionStored(pts, r, c, rows, cols, aspect) && UvStored(uvs, r, c, rows, cols)
    {
    }
  }

  /** Reads cell (r, c) back out of a position buffer. */
  lemma PositionAt(pts: seq<real>, rows: nat, cols: nat, aspect: real, r: nat, c: nat)
    requires IsPositionBuffer(pts, rows, cols, aspect)
    requires r < rows && c < cols
    ensures var k := PointIndex(r, c, cols);
            && 3 * k + 2 < |pts|
            && pts[3 * k] == X(c, cols, aspect)
            && pts[3 * k + 1] == Y(r, rows)
            && pts[3 * k + 2] == 0.0
  {
    assert PositionStored(pts, r, c, rows, cols, aspect);
  }

  /** The texture-coordinate buffer of a grid is determined by its dimensions. */
  lemma UvBufferUnique(a: seq<real>, b: seq<real>, rows: nat, cols: nat)
    requires IsUvBuffer(a, rows, cols) && IsUvBuffer(b, rows, cols)
    ensures a == b
  {
    forall i | 0 <= i < |a|
      ensures a[i] == b[i]
    {
      var r, c := CellOf(i / 2, rows, cols);
      assert UvStored(a, r, c, rows, cols);
      assert UvStored(b, r, c, rows, cols);
    }
  }

  /** The position buffer of a grid is determined by its dimensions and aspect ratio. */
  lemma PositionBufferUnique(a: seq<real>, b: seq<real>, rows: nat, cols: nat, aspect: real)
    requires IsPositionBuffer(a, rows, cols, aspect) && IsPositionBuffer(b, rows, cols, aspect)
    ensures a == b
  {
    forall i | 0 <= i < |a|
      ensures a[i] == b[i]
    {
      var r, c := CellOf(i / 3, rows, cols);
      assert PositionStored(a, r, c, rows, cols, aspect);
      assert PositionStored(b, r, c, rows, cols, aspect);
    }
  }

  /** Every stored texture coordinate is a cell centre strictly inside the
      unit square. */
  lemma UvsInsideUnitSquare(uvs: seq<real>, rows: nat, cols: nat)
    requires IsUvBuffer(uvs, rows, cols)
    ensures forall i | 0 <= i < |uvs| :: 0.0 < uvs[i] < 1.0
  {
    forall i | 0 <= i < |uvs|
      ensures 0.0 < uvs[i] < 1.0
    {
      var r, c := CellOf(i / 2, rows, cols);
      assert UvStored(uvs, r, c, rows, cols);
    }
  }

  /** Every stored y lies strictly inside (-1, 1), every z is 0 and, for a
      non-negative aspect ratio, every x lies within [-aspect, aspect]
      (strictly inside for a positive one). */
  lemma PositionsBounded(pts: seq<real>, rows: nat, cols: nat, aspect: real)
    requires IsPositionBuffer(pts, rows, cols, aspect)
    requires aspect >= 0.0
    ensures forall k | 0 <= k < rows * cols ::
              && Abs(pts[3 * k]) <= aspect
              && (aspect > 0.0 ==> Abs(pts[3 * k]) < aspect)
              && -1.0 < pts[3 * k + 1] < 1.0
              && pts[3 * k + 2] == 0.0
  {
    forall k | 0 <= k < rows * cols
      ensures && Abs(pts[3 * k]) <= aspect
              && (aspect > 0.0 ==> Abs(pts[3 * k]) < aspect)
              && -1.0 < pts[3 * k + 1] < 1.0
              && pts[3 * k + 2] == 0.0
    {
      var r, c := CellOf(k, rows, cols);
      assert PositionStored(pts, r, c, rows, cols, aspect);
    }
  }

  /** Point symmetry about the origin: the cell mirrored through the grid
      centre, (rows-1-r, cols-1-c), is stored at the mirrored slot
      rows*cols-1-k and holds the negated position (-x, -y, 0). */
  lemma PositionsPointSymmetric(pts: seq<real>, rows: nat, cols: nat, aspect: real, r: nat, c: nat)
    requires IsPositionBuffer(pts, rows, cols, aspect)
    requires r < rows && c < cols
    ensures PointIndex(rows - 1 - r, cols - 1 - c, cols) == rows * cols - 1 - PointIndex(r, c, cols)
    ensures var k := PointIndex(r, c, cols);
            var m := PointIndex(rows - 1 - r, cols - 1 - c, cols);
            && 3 * k + 2 < |pts| && 3 * m + 2 < |pts|
            && pts[3 * m] == -pts[3 * k]
            && pts[3 * m + 1] == -pts[3 * k + 1]
            && pts[3 * m + 2] == pts[3 * k + 2] == 0.0
  {
    assert (rows - 1 - r) * cols == rows * cols - r * cols - cols;
    assert PositionStored(pts, r, c, rows, cols, aspect);
    assert PositionStored(pts, rows - 1 - r, cols - 1 - c, rows, cols, aspect);
    XMirror(c, cols, aspect);
    YMirror(r, rows);
  }
}
