/** The geometry rebuild of the square dot grid (the `DotShader`
    component): a size x size grid whose x positions are stretched by the
    viewport's aspect ratio so that the dots stay square on a wide or tall
    screen. Texture coordinates still cover the whole video frame. */
module DotShaderGrid {
  import opened RealArith
  import opened GridCell
  import opened GridLayout

  /** The viewport aspect ratio width / height: above 1 for a wide viewport,
      below 1 for a tall one, exactly 1 for a square one. */
  function Aspect(width: real, height: real): (a: real)
    requires height > 0.0
    ensures a * height == width
    ensures a > 1.0 <==> width > height
    ensures a == 1.0 <==> width == height
    ensures a < 1.0 <==> width < height
    ensures width >= 0.0 ==> a >= 0.0
  {
    RatioFacts(width, height);
    width / height
  }

  lemma RatioFacts(width: real, height: real)
    requires height > 0.0
    ensures (width / height > 1.0 <==> width > height)
    ensures (width / height == 1.0 <==> width == height)
    ensures (width / height < 1.0 <==> width < height)
    ensures width >= 0.0 ==> width / height >= 0.0
  {
    var a := width / height;
    assert a * height == width;
    DivUnique(height, 1.0, height);
    if width > height {
      DivStrictMono(height, width, height);
    } else if width < height {
      DivStrictMono(width, height, height);
    }
  }

  /** Walks the size x size cells in row-major order and appends
      ((2u - 1) * aspect, -(2v - 1), 0) to the position buffer and (u, v) to
      the texture-coordinate buffer. */
  method BuildGrid(size: nat, width: real, height: real) returns (pts: seq<real>, uvs: seq<real>)
    requires height > 0.0
    ensures |pts| == 3 * (size * size) && |uvs| == 2 * (size * size)
    ensures IsPositionBuffer(pts, size, size, Aspect(width, height))
    ensures IsUvBuffer(uvs, size, size)
  {
    var aspect := width / height;
    pts := [];
    uvs := [];
    var r := 0;
    while r < size
      invariant r <= size
      invariant |pts| == 3 * (r * size) && |uvs| == 2 * (r * size)
      invariant StoredBefore(pts, uvs, r, 0, size, size, aspect)
    {
      var c := 0;
      while c < size
        invariant c <= size
        invariant |pts| == 3 * (r * size + c) && |uvs| == 2 * (r * size + c)
        invariant StoredBefore(pts, uvs, r, c, size, size, aspect)
      {
        var u := (c as real + 0.5) / (size as real);
        var v := (r as real + 0.5) / (size as real);
        var x := (u * 2.0 - 1.0) * aspect;
        var y := -(v * 2.0 - 1.0);
        assert x == X(c, size, aspect) && y == Y(r, size);
        AppendCell(pts, uvs, r, c, size, size, aspect);
        pts := pts + [x, y, 0.0];
        uvs := uvs + [u, v];
        c := c + 1;
      }
      NextRow(pts, uvs, r, size, size, aspect);
      assert r * size + size == (r + 1) * size;
      r := r + 1;
    }
    AllRowsStored(pts, uvs, size, size, aspect);
  }

  /** Changing the viewport changes x only. Two square grids of the same
      size built for viewports (width1, height1) and (width2, height2) have
      identical texture coordinates and identical y and z; their x values
      are in the ratio of the two aspect ratios. */
  lemma ViewportAffectsOnlyX(size: nat, width1: real, height1: real, width2: real, height2: real,
                             pts1: seq<real>, uvs1: seq<real>, pts2: seq<real>, uvs2: seq<real>)
    requires height1 > 0.0 && height2 > 0.0
    requires IsPositionBuffer(pts1, size, size, Aspect(width1, height1)) && IsUvBuffer(uvs1, size, size)
    requires IsPositionBuffer(pts2, size, size, Aspect(width2, height2)) && IsUvBuffer(uvs2, size, size)
    ensures uvs1 == uvs2
    ensures |pts1| == |pts2|
    ensures forall k | 0 <= k < size * size ::
              && pts1[3 * k] * Aspect(width2, height2) == pts2[3 * k] * Aspect(width1, height1)
              && pts1[3 * k + 1] == pts2[3 * k + 1]
              && pts1[3 * k + 2] == pts2[3 * k + 2]
  {
    UvBufferUnique(uvs1, uvs2, size, size);
    var a1 := Aspect(width1, height1);
    var a2 := Aspect(width2, height2);
    forall k | 0 <= k < size * size
      ensures && pts1[3 * k] * a2 == pts2[3 * k] * a1
              && pts1[3 * k + 1] == pts2[3 * k + 1]
              && pts1[3 * k + 2] == pts2[3 * k + 2]
    {
      PointUnderTwoAspects(pts1, pts2, size, a1, a2, k);
    }
  }

  /** Point k of two square grids that differ only in their aspect ratio. */
  lemma PointUnderTwoAspects(pts1: seq<real>, pts2: seq<real>, size: nat, a1: real, a2: real, k: nat)
    requires IsPositionBuffer(pts1, size, size, a1) && IsPositionBuffer(pts2, size, size, a2)
    requires k < size * size
    ensures 3 * k + 2 < |pts1| && 3 * k + 2 < |pts2|
    ensures pts1[3 * k] * a2 == pts2[3 * k] * a1
    ensures pts1[3 * k + 1] == pts2[3 * k + 1]
    ensures pts1[3 * k + 2] == pts2[3 * k + 2]
  {
    var r, c := CellOf(k, size, size);
    PositionAt(pts1, size, size, a1, r, c);
    PositionAt(pts2, size, size, a2, r, c);
    XRatio(c, size, a1, a2);
  }

  /** Aspect correction touches x only: for the same grid, the y and z of
      every point agree across viewports, and each x is the unstretched x
      times the aspect ratio. */
  lemma AspectScalesOnlyX(pts: seq<real>, unit: seq<real>, size: nat, aspect: real)
    requires IsPositionBuffer(pts, size, size, aspect)
    requires IsPositionBuffer(unit, size, size, 1.0)
    ensures |pts| == |unit|
    ensures forall k | 0 <= k < size * size ::
              && pts[3 * k] == unit[3 * k] * aspect
              && pts[3 * k + 1] == unit[3 * k + 1]
              && pts[3 * k + 2] == unit[3 * k + 2]
  {
    forall k | 0 <= k < size * size
      ensures && pts[3 * k] == unit[3 * k] * aspect
              && pts[3 * k + 1] == unit[3 * k + 1]
              && pts[3 * k + 2] == unit[3 * k + 2]
    {
      var r, c := CellOf(k, size, size);
      assert PositionStored(pts, r, c, size, size, aspect);
      assert PositionStored(unit, r, c, size, size, 1.0);
    }
  }

  /** On a square viewport the square grid is exactly the rows x cols grid
      with rows = cols = size: both builders produce the same buffers. */
  lemma SquareViewportMatchesShader(width: real, height: real, size: nat,
                                    pts: seq<real>, uvs: seq<real>,
                                    shaderPts: seq<real>, shaderUvs: seq<real>)
    requires height > 0.0 && width == height
    requires IsPositionBuffer(pts, size, size, Aspect(width, height))
    requires IsUvBuffer(uvs, size, size)
    requires IsPositionBuffer(shaderPts, size, size, 1.0)
    requires IsUvBuffer(shaderUvs, size, size)
    ensures pts == shaderPts && uvs == shaderUvs
  {
    PositionBufferUnique(pts, shaderPts, size, size, 1.0);
    UvBufferUnique(uvs, shaderUvs, size, size);
  }
}
