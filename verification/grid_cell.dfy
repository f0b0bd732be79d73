/** Geometry of one cell of the dot grid.

    The unit interval [0, 1] is cut into n equal cells; cell i is sampled at
    its centre (i + 0.5) / n. A texture coordinate t in [0, 1] is mapped to
    normalised device coordinates by 2t - 1. Columns give x (optionally
    stretched by the viewport aspect ratio) and rows give y, flipped so that
    row 0 is at the top of the screen. */
module GridCell {
  import opened RealArith

  function Abs(a: real): real {
    if a < 0.0 then -a else a
  }

  /** The texture coordinate of the centre of cell i out of n. */
  function CellCentre(i: nat, n: nat): (t: real)
    requires i < n
    ensures (i as real) / (n as real) < t < ((i + 1) as real) / (n as real)
    ensures 0.0 < t < 1.0
  {
    var nr := n as real;
    DivStrictMono(i as real, i as real + 0.5, nr);
    DivStrictMono(i as real + 0.5, (i + 1) as real, nr);
    DivUnique(nr, 1.0, nr);
    DivStrictMono(i as real + 0.5, nr, nr);
    (i as real + 0.5) / nr
  }

  /** Maps a texture coordinate in [0, 1] onto the device range [-1, 1]. */
  function Ndc(t: real): (s: real)
    ensures (s + 1.0) / 2.0 == t
    ensures 0.0 < t < 1.0 ==> -1.0 < s < 1.0
  {
    t * 2.0 - 1.0
  }

  /** The x position of column c out of cols, stretched by the aspect ratio.
      It lies within the aspect ratio, and the column's texture coordinate
      can be read back from it. */
  function X(c: nat, cols: nat, aspect: real): (x: real)
    requires c < cols
    ensures aspect >= 0.0 ==> Abs(x) <= aspect
    ensures aspect > 0.0 ==> Abs(x) < aspect
    ensures aspect != 0.0 ==> (x / aspect + 1.0) / 2.0 == CellCentre(c, cols)
  {
    var s := Ndc(CellCentre(c, cols));
    ScaledBounds(s, aspect);
    s * aspect
  }

  /** The y position of row r out of rows, flipped so that rows grow
      downwards. It lies strictly inside (-1, 1), and the row's texture
      coordinate can be read back from it. */
  function Y(r: nat, rows: nat): (y: real)
    requires r < rows
    ensures -1.0 < y < 1.0
    ensures (1.0 - y) / 2.0 == CellCentre(r, rows)
  {
    -Ndc(CellCentre(r, rows))
  }

  /** Scaling a value of (-1, 1) by a ratio keeps it within the ratio, and
      dividing by the ratio recovers it. */
  lemma ScaledBounds(s: real, aspect: real)
    requires -1.0 < s < 1.0
    ensures aspect >= 0.0 ==> Abs(s * aspect) <= aspect
    ensures aspect > 0.0 ==> Abs(s * aspect) < aspect
    ensures aspect != 0.0 ==> (s * aspect) / aspect == s
  {
    if aspect > 0.0 {
      assert Abs(s * aspect) == Abs(s) * aspect;
      assert Abs(s) * aspect < 1.0 * aspect;
    }
    if aspect != 0.0 {
      DivUnique(s * aspect, s, aspect);
    }
  }

  /** The x values of one column under two aspect ratios are in the ratio
      of the aspect ratios. */
  lemma XRatio(c: nat, cols: nat, a1: real, a2: real)
    requires c < cols
    ensures X(c, cols, a1) * a2 == X(c, cols, a2) * a1
  {
    var s := Ndc(CellCentre(c, cols));
    assert s * a1 * a2 == s * a2 * a1;
  }

  /** Cell centres are strictly ordered by cell index. */
  lemma CentreStrictlyIncreasing(i: nat, j: nat, n: nat)
    requires i < j < n
    ensures CellCentre(i, n) < CellCentre(j, n)
  {
    DivStrictMono(i as real + 0.5, j as real + 0.5, n as real);
  }

  /** Mirroring the cell index mirrors the centre about 1/2. */
  lemma CentreMirror(i: nat, n: nat)
    requires i < n
    ensures CellCentre(n - 1 - i, n) == 1.0 - CellCentre(i, n)
  {
    var nr := n as real;
    assert ((n - 1 - i) as real + 0.5) == nr - (i as real + 0.5);
    DivComplement(i as real + 0.5, nr);
  }

  /** x grows strictly from left to right for a positive aspect ratio. */
  lemma XStrictlyIncreasing(c1: nat, c2: nat, cols: nat, aspect: real)
    requires c1 < c2 < cols
    requires aspect > 0.0
    ensures X(c1, cols, aspect) < X(c2, cols, aspect)
  {
    CentreStrictlyIncreasing(c1, c2, cols);
    var n1 := Ndc(CellCentre(c1, cols));
    var n2 := Ndc(CellCentre(c2, cols));
    assert n1 < n2;
    MulPos(n2 - n1, aspect);
    assert (n2 - n1) * aspect > 0.0;
    assert n1 * aspect < n2 * aspect;
  }

  /** The y axis is flipped: y falls strictly as the row index grows. */
  lemma YStrictlyDecreasing(r1: nat, r2: nat, rows: nat)
    requires r1 < r2 < rows
    ensures Y(r2, rows) < Y(r1, rows)
  {
    CentreStrictlyIncreasing(r1, r2, rows);
  }

  /** Rows in the upper half of the grid lie above the x axis, rows in the
      lower half below it, and a middle row (odd row count) lies on it. */
  lemma YSign(r: nat, rows: nat)
    requires r < rows
    ensures Y(r, rows) > 0.0 <==> 2 * r + 1 < rows
    ensures Y(r, rows) == 0.0 <==> 2 * r + 1 == rows
    ensures Y(r, rows) < 0.0 <==> 2 * r + 1 > rows
  {
    var nr := rows as real;
    var t := CellCentre(r, rows);
    assert t * nr == r as real + 0.5 by {
      DivUnique(r as real + 0.5, t, nr);
    }
    assert Y(r, rows) == 1.0 - 2.0 * t;
    assert Y(r, rows) * nr == nr - (2 * r + 1) as real;
  }

  /** Column c and column cols-1-c are mirror images about x = 0. */
  lemma XMirror(c: nat, cols: nat, aspect: real)
    requires c < cols
    ensures X(cols - 1 - c, cols, aspect) == -X(c, cols, aspect)
  {
    CentreMirror(c, cols);
    assert Ndc(CellCentre(cols - 1 - c, cols)) == -Ndc(CellCentre(c, cols));
  }

  /** Row r and row rows-1-r are mirror images about y = 0. */
  lemma YMirror(r: nat, rows: nat)
    requires r < rows
    ensures Y(rows - 1 - r, rows) == -Y(r, rows)
  {
    CentreMirror(r, rows);
  }
}
