/** Packing the live subpages that GC has read into as few write requests as possible. */
module Compaction {
  import opened Nand
  import opened Geometry

  /** One subpage buffer of a request: a hole, or data with its OOB. */
  datatype Kp = Hole | Full(cell: Cell)

  type Request = seq<Kp>

  /** The data of one request, in order. */
  function CellsIn(r: Request): seq<Cell> {
    if r == [] then []
    else CellsIn(r[..|r| - 1]) + (if r[|r| - 1].Full? then [r[|r| - 1].cell] else [])
  }

  /** The data of a list of requests, in order. */
  function Cells(rs: seq<Request>): seq<Cell> {
    if rs == [] then [] else Cells(rs[..|rs| - 1]) + CellsIn(rs[|rs| - 1])
  }

  /** The requests hold exactly `cells`, packed from the first buffer on. */
  ghost predicate Packed(rs: seq<Request>, width: nat, cells: seq<Cell>) {
    forall q, k | 0 <= q < |rs| && 0 <= k < width ::
      |rs[q]| == width &&
      rs[q][k] == if q * width + k < |cells| then Full(cells[q * width + k]) else Hole
  }

  predicate Uniform(rs: seq<Request>, width: nat) {
    forall i | 0 <= i < |rs| :: |rs[i]| == width
  }

  lemma {:induction false} SameDigits(q: nat, k: nat, r: nat, m: nat, width: nat)
    requires k < width && m < width
    ensures q * width + k == r * width + m <==> q == r && k == m
  {
    DivMod(q, k, width);
    DivMod(r, m, width);
  }

  /** Writing the next cell at its place extends the packed prefix by one. */
  lemma {:induction false} PackOne(rs: seq<Request>, width: nat, cells: seq<Cell>, r: nat, m: nat, c: Cell)
    requires Packed(rs, width, cells) && Uniform(rs, width)
    requires r < |rs| && m < width && |cells| == r * width + m
    ensures Packed(rs[r := rs[r][m := Full(c)]], width, cells + [c])
    ensures Uniform(rs[r := rs[r][m := Full(c)]], width)
  {
    var rs' := rs[r := rs[r][m := Full(c)]];
    forall q, k | 0 <= q < |rs'| && 0 <= k < width
      ensures |rs'[q]| == width
      ensures rs'[q][k] == if q * width + k < |cells| + 1 then Full((cells + [c])[q * width + k]) else Hole
    {
      SameDigits(q, k, r, m, width);
      assert rs[q][k] == if q * width + k < |cells| then Full(cells[q * width + k]) else Hole;
    }
  }

  lemma {:induction false} CellsInBound(r: Request)
    ensures |CellsIn(r)| <= |r|
    ensures |CellsIn(r)| == |r| ==> forall k | 0 <= k < |r| :: r[k].Full?
  {
    if r != [] { CellsInBound(r[..|r| - 1]); }
  }

  lemma {:induction false} CellsBound(rs: seq<Request>, width: nat)
    requires Uniform(rs, width)
    ensures |Cells(rs)| <= |rs| * width
  {
    if rs != [] {
      CellsBound(rs[..|rs| - 1], width);
      CellsInBound(rs[|rs| - 1]);
      assert |rs| * width == (|rs| - 1) * width + width;
    }
  }

  /** Compaction keeps the exact sequence of live subpages, packed, in floor(n / width) + 1
      requests; that fits the request array exactly when the source has a hole. */
  method WriteCompaction(src: seq<Request>, width: nat) returns (dst: seq<Request>, nr: nat)
    requires width > 0 && Uniform(src, width)
    ensures |dst| == |src| && Uniform(dst, width)
    ensures Packed(dst, width, Cells(src))
    ensures nr == |Cells(src)| / width + 1
    ensures nr <= |dst| <==> |Cells(src)| < |src| * width
  {
    dst := seq(|src|, _ => seq(width, _ => Hole));
    nr := 1;
    var r, kp := 0, 0;
    for i := 0 to |src|
      invariant |dst| == |src| && Uniform(dst, width)
      invariant Packed(dst, width, Cells(src[..i]))
      invariant kp < width && nr == r + 1 && |Cells(src[..i])| == r * width + kp
    {
      ghost var done := Cells(src[..i]);
      assert src[i][..0] == [];
      for k := 0 to width
        invariant |dst| == |src| && Uniform(dst, width)
        invariant Packed(dst, width, done + CellsIn(src[i][..k]))
        invariant kp < width && nr == r + 1 && |done + CellsIn(src[i][..k])| == r * width + kp
      {
        assert src[i][..k + 1][..k] == src[i][..k];
        if src[i][k].Full? {
          assert r < |dst| by { Fits(src, width, i, k, r, kp); }
          ghost var now := done + CellsIn(src[i][..k]);
          PackOne(dst, width, now, r, kp, src[i][k].cell);
          assert now + [src[i][k].cell] == done + CellsIn(src[i][..k + 1]);
          dst := dst[r := dst[r][kp := src[i][k]]];
          kp := kp + 1;
          if kp == width {
            assert (r + 1) * width == r * width + width;
            kp := 0;
            r := r + 1;
            nr := nr + 1;
          }
        } else {
          assert CellsIn(src[i][..k + 1]) == CellsIn(src[i][..k]);
        }
      }
      assert src[i][..width] == src[i];
      assert src[..i + 1][..i] == src[..i];
    }
    assert src[..|src|] == src;
    DivMod(r, kp, width);
    CellsBound(src, width);
    if r < |src| { TwoDigits(r, kp, |src|, width); } else { MulLe(|src|, r, width); }
  }

  /** While a cell is left to copy, the destination has a request left to fill. */
  lemma {:induction false} Fits(src: seq<Request>, width: nat, i: nat, k: nat, r: nat, kp: nat)
    requires width > 0 && Uniform(src, width) && i < |src| && k < width && kp < width
    requires |Cells(src[..i]) + CellsIn(src[i][..k])| == r * width + kp
    ensures r < |src|
  {
    CellsBound(src[..i], width);
    CellsInBound(src[i][..k]);
    assert (i + 1) * width == i * width + width;
    if r >= |src| { MulLe(i + 1, r, width); }
  }
}
