/** The geometry rebuild of the rows x cols dot grid (the `Shader`
    component): one point per cell, positions spanning the whole device
    square, texture coordinates at the cell centres. */
module ShaderGrid {
  import opened GridCell
  import opened GridLayout

  /** Walks the cells in row-major order and appends (x, y, 0) to the
      position buffer and (u, v) to the texture-coordinate buffer. */
  method BuildGrid(rows: nat, cols: nat) returns (pts: seq<real>, uvs: seq<real>)
    ensures |pts| == 3 * (rows * cols) && |uvs| == 2 * (rows * cols)
    ensures rows == 0 || cols == 0 ==> pts == [] && uvs == []
    ensures IsPositionBuffer(pts, rows, cols, 1.0)
    ensures IsUvBuffer(uvs, rows, cols)
  {
    pts := [];
    uvs := [];
    var r := 0;
    while r < rows
      invariant r <= rows
      invariant |pts| == 3 * (r * cols) && |uvs| == 2 * (r * cols)
      invariant StoredBefore(pts, uvs, r, 0, rows, cols, 1.0)
    {
      var c := 0;
      while c < cols
        invariant c <= cols
        invariant |pts| == 3 * (r * cols + c) && |uvs| == 2 * (r * cols + c)
        invariant StoredBefore(pts, uvs, r, c, rows, cols, 1.0)
      {
        var u := (c as real + 0.5) / (cols as real);
        var v := (r as real + 0.5) / (rows as real);
        var x := u * 2.0 - 1.0;
        var y := -(v * 2.0 - 1.0);
        assert x == X(c, cols, 1.0) && y == Y(r, rows);
        AppendCell(pts, uvs, r, c, rows, cols, 1.0);
        pts := pts + [x, y, 0.0];
        uvs := uvs + [u, v];
        c := c + 1;
      }
      NextRow(pts, uvs, r, rows, cols, 1.0);
      assert r * cols + cols == (r + 1) * cols;
      r := r + 1;
    }
    AllRowsStored(pts, uvs, rows, cols, 1.0);
  }

  /** The two-by-two grid: four points at (+-1/2, +-1/2), symmetric about
      the origin, listed top-left, top-right, bottom-left, bottom-right. */
  lemma TwoByTwo(pts: seq<real>, uvs: seq<real>)
    requires IsPositionBuffer(pts, 2, 2, 1.0)
    requires IsUvBuffer(uvs, 2, 2)
    ensures pts == [-0.5, 0.5, 0.0,  0.5, 0.5, 0.0,  -0.5, -0.5, 0.0,  0.5, -0.5, 0.0]
    ensures uvs == [0.25, 0.25,  0.75, 0.25,  0.25, 0.75,  0.75, 0.75]
  {
    assert CellCentre(0, 2) == 0.25;
    assert CellCentre(1, 2) == 0.75;
    assert PositionStored(pts, 0, 0, 2, 2, 1.0) && UvStored(uvs, 0, 0, 2, 2);
    assert PositionStored(pts, 0, 1, 2, 2, 1.0) && UvStored(uvs, 0, 1, 2, 2);
    assert PositionStored(pts, 1, 0, 2, 2, 1.0) && UvStored(uvs, 1, 0, 2, 2);
    assert PositionStored(pts, 1, 1, 2, 2, 1.0) && UvStored(uvs, 1, 1, 2, 2);
  }
}
