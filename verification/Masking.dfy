/** What the mask of `apply_contour` does, in the bytes of its planes. */
module Masking {
  import opened Bresenham
  import opened Conrec
  import opened Pruning
  import opened Pieces
  import opened ConrecScan
  import opened ApplyContour

  /** The heights of the grid in bytes: luma where the mask is at least 128, and 0 elsewhere; row 0 is the lowest. */
  lemma HeightsInBytes(luma: Plane, alpha: Plane, w: nat, h: nat, i: nat, j: nat)
    requires Holds(luma, w, h) && Holds(alpha, w, h) && i < h && j < w
    ensures var l, a := (h - 1 - i) * luma.stride + j, (h - 1 - i) * alpha.stride + j;
      var d := ImageGrid(luma, alpha, w, h).d;
      && 0 <= l < |luma.bytes| && 0 <= a < |alpha.bytes| && |d| == h && |d[i]| == w
      && d[i][j] == if alpha.bytes[a] >= 128 then luma.bytes[l] as real else 0.0
  {
    HoldsRow(luma, w, h, i);
    HoldsRow(alpha, w, h, i);
  }

  /** The byte of a plane in row i from the bottom and column j. */
  ghost predicate ByteIs(p: Plane, h: nat, i: nat, j: nat, v: byte)
    requires i < h
  {
    0 <= (h - 1 - i) * p.stride + j < |p.bytes| && p.bytes[(h - 1 - i) * p.stride + j] == v
  }

  /** The mask is closed everywhere. */
  ghost predicate AllMasked(alpha: Plane, w: nat, h: nat)
  {
    forall i: nat, j: nat, v: byte :: i < h && j < w && ByteIs(alpha, h, i, j, v) ==> v < 128
  }

  /** Two images agree wherever the mask is open. */
  ghost predicate AgreeWhereOpen(l1: Plane, l2: Plane, alpha: Plane, w: nat, h: nat)
  {
    forall i: nat, j: nat, u: byte, v: byte, m: byte | i < h && j < w && m >= 128 ::
      ByteIs(l1, h, i, j, u) && ByteIs(l2, h, i, j, v) && ByteIs(alpha, h, i, j, m) ==> u == v
  }

  /** A grid of this shape without any height. */
  ghost predicate Level0(g: Grid, w: nat, h: nat)
  {
    && g.ilb == 0 && g.iub == h - 1 && g.jlb == 0 && g.jub == w - 1 && |g.d| == h
    && forall i: nat, j: nat :: i < h && j < w ==> |g.d[i]| == w && g.d[i][j] == 0.0
  }

  lemma MaskedHeights(luma: Plane, alpha: Plane, w: nat, h: nat)
    requires Holds(luma, w, h) && Holds(alpha, w, h) && AllMasked(alpha, w, h)
    ensures Level0(ImageGrid(luma, alpha, w, h), w, h)
  {
    var d := ImageGrid(luma, alpha, w, h).d;
    forall i: nat, j: nat | i < h && j < w ensures |d[i]| == w && d[i][j] == 0.0 {
      HeightsInBytes(luma, alpha, w, h, i, j);
      assert ByteIs(alpha, h, i, j, alpha.bytes[(h - 1 - i) * alpha.stride + j]);
    }
    hide Masked, Holds, ByteIs;
  }

  lemma NothingAbove(g: Grid, w: nat, h: nat, level: real, n: Node)
    requires Level0(g, w, h) && n.In(g) && level > 0.0
    ensures Height(g, level, n) < 0.0
  {
  }

  lemma NothingCut(g: Grid, w: nat, h: nat, level: real, k: nat, n1: Node, n2: Node, n3: Node)
    requires Level0(g, w, h) && n1.In(g) && n2.In(g) && n3.In(g) && level > 0.0
    ensures TrianglePieces(g, level, k, n1, n2, n3) == []
  {
    NothingAbove(g, w, h, level, n1);
    NothingAbove(g, w, h, level, n2);
    NothingAbove(g, w, h, level, n3);
    hide Height;
  }

  lemma NoPieces(g: Grid, w: nat, h: nat, z: seq<real>)
    requires Level0(g, w, h) && g.Valid() && |z| > 0 && forall k :: 0 <= k < |z| ==> z[k] > 0.0
    ensures Contours(g, z) == []
  {
    RowsOfGrid(g, z, g.jub - 1);
    var ps := Contours(g, z);
    hide Contours, RowsDown, TrianglePieces, Vertex, Level0;
    if ps != [] {
      var p := ps[0];
      assert OfGrid(g, z, p);
      var i: int, j: int, m: nat :| PieceOf(g, z, p, i, j, m);
      CellTriangle(g, i, j, m);
      NothingCut(g, w, h, z[p.k], p.k, Vertex(i, j, m), Vertex(i, j, 0), Vertex(i, j, if m != 4 then m + 1 else 1));
    }
  }

  lemma LevelsPositive(nc: nat)
    requires nc > 0
    ensures forall k :: 0 <= k < nc ==> Levels(nc)[k] > 0.0
  {
    LevelsIncrease(nc);
    hide Levels, Increasing;
  }

  /** An image whose mask is closed everywhere leaves the canvas as it was. */
  lemma MaskedImage(luma: Plane, alpha: Plane, w: nat, h: nat, nc: nat, a: seq<byte>, b: seq<byte>)
    requires Contoured(luma, alpha, w, h, nc, a, b) && AllMasked(alpha, w, h)
    ensures b == a
  {
    MaskedHeights(luma, alpha, w, h);
    LevelsPositive(nc);
    hide ImageGrid, Levels, Holds, AllMasked, Contours, Level0;
    NoPieces(ImageGrid(luma, alpha, w, h), w, h, Levels(nc));
  }

  /** Luma where the mask is closed has no effect. */
  lemma LumaUnderMask(l1: Plane, l2: Plane, alpha: Plane, w: nat, h: nat, nc: nat, a: seq<byte>, b: seq<byte>)
    requires Holds(l1, w, h) && Holds(l2, w, h) && Holds(alpha, w, h) && AgreeWhereOpen(l1, l2, alpha, w, h)
    ensures Contoured(l1, alpha, w, h, nc, a, b) <==> Contoured(l2, alpha, w, h, nc, a, b)
  {
    var g1, g2 := ImageGrid(l1, alpha, w, h), ImageGrid(l2, alpha, w, h);
    forall i: nat, j: nat | i < h && j < w ensures g1.d[i][j] == g2.d[i][j] {
      HeightsInBytes(l1, alpha, w, h, i, j);
      HeightsInBytes(l2, alpha, w, h, i, j);
      assert ByteIs(l1, h, i, j, l1.bytes[(h - 1 - i) * l1.stride + j]);
      assert ByteIs(l2, h, i, j, l2.bytes[(h - 1 - i) * l2.stride + j]);
      assert ByteIs(alpha, h, i, j, alpha.bytes[(h - 1 - i) * alpha.stride + j]);
    }
    hide Masked, Holds, ByteIs, Drawn, Contours, Levels;
    forall i: nat | i < h ensures g1.d[i] == g2.d[i] {
      assert |g1.d[i]| == |g2.d[i]| == w;
      assert forall j: nat :: j < w ==> g1.d[i][j] == g2.d[i][j];
    }
    assert g1.d == g2.d;
  }
}
