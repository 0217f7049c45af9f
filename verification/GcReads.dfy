/** Building the read requests of a garbage collection and what they return. */
module GcReads {
  import opened Nand
  import opened Geometry
  import opened GcTheory
  import opened Compaction

  function CellAt(flash: Flash, loc: Loc): Cell {
    if loc in flash then flash[loc] else Cell([], -1)
  }

  function ReadCells(flash: Flash, locs: seq<Loc>): seq<Cell> {
    seq(|locs|, i requires 0 <= i < |locs| => CellAt(flash, locs[i]))
  }

  /** The live subpages of a block below offset `to`. */
  function LiveTo(pst: seq<Subpage>, b: int, to: nat): seq<Loc>
    requires to <= |pst|
  {
    if to == 0 then [] else LiveTo(pst, b, to - 1) + if pst[to - 1].NotInvalid? then [Loc(b, to - 1)] else []
  }

  lemma {:induction false} LiveSplit(pst: seq<Subpage>, b: int, to: nat)
    requires to <= |pst|
    ensures LiveTo(pst, b, to) + LiveIn(pst, b, to) == LiveIn(pst, b, 0)
  {
    if to > 0 {
      LiveSplit(pst, b, to - 1);
      var mid: seq<Loc> := if pst[to - 1].NotInvalid? then [Loc(b, to - 1)] else [];
      assert LiveTo(pst, b, to) + LiveIn(pst, b, to) == LiveTo(pst, b, to - 1) + (mid + LiveIn(pst, b, to));
    }
  }

  lemma {:induction false} LiveLocsAppend(blocks: seq<Block>, vs: seq<nat>, v: nat)
    requires Listed(blocks, vs) && v < |blocks|
    ensures LiveLocs(blocks, vs + [v]) == LiveLocs(blocks, vs) + LiveIn(blocks[v].pst, v, 0)
  {
    if vs != [] {
      assert (vs + [v])[1..] == vs[1..] + [v];
      LiveLocsAppend(blocks, vs[1..], v);
    }
  }

  function Holes(width: nat): Request { seq(width, _ => Hole) }

  lemma {:induction false} CellsInHoles(width: nat)
    ensures CellsIn(Holes(width)) == []
  {
    if width > 0 {
      assert Holes(width)[..width - 1] == Holes(width - 1);
      CellsInHoles(width - 1);
    }
  }

  lemma {:induction false} CellsTail(rs: seq<Request>, n: nat, width: nat)
    requires n <= |rs| && forall i | n <= i < |rs| :: rs[i] == Holes(width)
    ensures Cells(rs) == Cells(rs[..n])
  {
    if n < |rs| {
      CellsTail(rs[..|rs| - 1], n, width);
      CellsInHoles(width);
      assert rs[..|rs| - 1][..n] == rs[..n];
    } else {
      assert rs[..n] == rs;
    }
  }

  lemma {:induction false} CellsPush(rs: seq<Request>, n: nat)
    requires n < |rs|
    ensures Cells(rs[..n + 1]) == Cells(rs[..n]) + CellsIn(rs[n])
  {
    assert rs[..n + 1][..n] == rs[..n];
  }

  /** One page: its live subpages become data buffers, the others stay holes. */
  method ReadPage(blocks: seq<Block>, flash: Flash, v: nat, base: nat, width: nat) returns (r: Request, hasValid: bool)
    requires v < |blocks| && base + width <= |blocks[v].pst|
    ensures |r| == width
    ensures ReadCells(flash, LiveTo(blocks[v].pst, v, base)) + CellsIn(r) == ReadCells(flash, LiveTo(blocks[v].pst, v, base + width))
    ensures hasValid <==> CellsIn(r) != []
    ensures !hasValid ==> r == Holes(width)
  {
    r := Holes(width);
    hasValid := false;
    ghost var pst := blocks[v].pst;
    assert r[..0] == [];
    for k := 0 to width
      invariant |r| == width && forall i | k <= i < width :: r[i] == Hole
      invariant ReadCells(flash, LiveTo(pst, v, base)) + CellsIn(r[..k]) == ReadCells(flash, LiveTo(pst, v, base + k))
      invariant hasValid <==> CellsIn(r[..k]) != []
      invariant !hasValid ==> r == Holes(width)
    {
      ghost var was := r;
      if blocks[v].pst[base + k].NotInvalid? {
        hasValid := true;
        r := r[k := Full(CellAt(flash, Loc(v, base + k)))];
      }
      assert r[..k + 1][..k] == was[..k];
      assert ReadCells(flash, LiveTo(pst, v, base + k + 1))
          == ReadCells(flash, LiveTo(pst, v, base + k)) + (if r[k].Full? then [r[k].cell] else []);
      assert CellsIn(r[..k + 1]) == CellsIn(was[..k]) + (if r[k].Full? then [r[k].cell] else []);
    }
    assert r[..width] == r;
  }

  /** One victim: its pages with live subpages go to the next free requests. */
  method ReadBlock(blocks: seq<Block>, flash: Flash, v: nat, pages: nat, width: nat, rs: seq<Request>, n: nat)
    returns (reqs: seq<Request>, nr: nat)
    requires v < |blocks| && |blocks[v].pst| == width * pages
    requires Uniform(rs, width) && n + pages <= |rs|
    requires forall i | n <= i < |rs| :: rs[i] == Holes(width)
    ensures |reqs| == |rs| && Uniform(reqs, width) && n <= nr <= n + pages
    ensures forall i | nr <= i < |reqs| :: reqs[i] == Holes(width)
    ensures Cells(reqs[..nr]) == Cells(rs[..n]) + ReadCells(flash, LiveIn(blocks[v].pst, v, 0))
    ensures nr == 0 <==> n == 0 && LiveIn(blocks[v].pst, v, 0) == []
  {
    hide CellsIn, ReadCells, LiveIn;
    reqs, nr := rs, n;
    ghost var pst := blocks[v].pst;
    ghost var got := ReadCells(flash, LiveTo(pst, v, 0));
    assert Cells(rs[..n]) + got == Cells(rs[..n]) by { ReadNone(flash); }
    for j := 0 to pages
      invariant |reqs| == |rs| && Uniform(reqs, width) && n <= nr <= n + j
      invariant forall i | nr <= i < |reqs| :: reqs[i] == Holes(width)
      invariant 0 <= width * j <= |pst| && got == ReadCells(flash, LiveTo(pst, v, width * j))
      invariant Cells(reqs[..nr]) == Cells(rs[..n]) + got
      invariant nr == 0 <==> n == 0 && got == []
    {
      assert width * (j + 1) == width * j + width;
      MulLe(j + 1, pages, width);
      var r, hasValid := ReadPage(blocks, flash, v, width * j, width);
      ghost var was, before := reqs, got;
      got := before + CellsIn(r);
      if hasValid {
        reqs := reqs[nr := r];
        CellsPush(reqs, nr);
        assert reqs[..nr] == was[..nr];
        assert Cells(rs[..n]) + got == (Cells(rs[..n]) + before) + CellsIn(r);
        nr := nr + 1;
      } else {
        assert before + [] == before;
      }
    }
    LiveWhole(pst, v);
    ReadEmpty(flash, LiveIn(pst, v, 0));
  }

  lemma {:induction false} ReadNone(flash: Flash)
    ensures ReadCells(flash, []) == []
  {
  }

  lemma {:induction false} ReadEmpty(flash: Flash, locs: seq<Loc>)
    ensures ReadCells(flash, locs) == [] <==> locs == []
  {
    assert |ReadCells(flash, locs)| == |locs|;
  }

  lemma {:induction false} LiveWhole(pst: seq<Subpage>, b: int)
    ensures LiveTo(pst, b, |pst|) == LiveIn(pst, b, 0)
  {
    LiveSplit(pst, b, |pst|);
    assert LiveTo(pst, b, |pst|) + [] == LiveTo(pst, b, |pst|);
  }

  lemma {:induction false} NothingRead(blocks: seq<Block>, flash: Flash)
    ensures Listed(blocks, []) && Cells([]) == ReadCells(flash, LiveLocs(blocks, [])) && LiveLocs(blocks, []) == []
  {
  }

  lemma {:induction false} ReadAppend(flash: Flash, locs: seq<Loc>, more: seq<Loc>)
    ensures ReadCells(flash, locs + more) == ReadCells(flash, locs) + ReadCells(flash, more)
  {
  }

  lemma {:induction false} NextRoom(i: nat, n: nat, pages: nat)
    requires i < n
    ensures (i + 1) * pages == i * pages + pages <= n * pages
  {
    MulLe(i + 1, n, pages);
  }

  /** All victims: the requests return exactly the live subpages, in order. */
  method BuildReads(blocks: seq<Block>, flash: Flash, vs: seq<nat>, pages: nat, width: nat)
    returns (reqs: seq<Request>, nr: nat)
    requires Listed(blocks, vs)
    requires forall i | 0 <= i < |vs| :: |blocks[vs[i]].pst| == width * pages
    ensures |reqs| == |vs| * pages && Uniform(reqs, width) && nr <= |reqs|
    ensures Cells(reqs) == ReadCells(flash, LiveLocs(blocks, vs))
    ensures nr == 0 <==> LiveLocs(blocks, vs) == []
  {
    MulLe(0, |vs|, pages);
    hide LiveLocs, ReadCells, Cells, LiveIn;
    reqs := seq(|vs| * pages, _ => Holes(width));
    nr := 0;
    assert vs[..0] == [] && reqs[..0] == [];
    NothingRead(blocks, flash);
    ghost var room := 0;
    for i := 0 to |vs|
      invariant |reqs| == |vs| * pages && Uniform(reqs, width) && nr <= room == i * pages <= |reqs|
      invariant forall q | nr <= q < |reqs| :: reqs[q] == Holes(width)
      invariant Cells(reqs[..nr]) == ReadCells(flash, LiveLocs(blocks, vs[..i]))
      invariant nr == 0 <==> LiveLocs(blocks, vs[..i]) == []
    {
      NextRoom(i, |vs|, pages);
      assert vs[..i + 1] == vs[..i] + [vs[i]];
      LiveLocsAppend(blocks, vs[..i], vs[i]);
      ReadAppend(flash, LiveLocs(blocks, vs[..i]), LiveIn(blocks[vs[i]].pst, vs[i], 0));
      reqs, nr := ReadBlock(blocks, flash, vs[i], pages, width, reqs, nr);
      room := room + pages;
    }
    assert vs[..|vs|] == vs;
    CellsTail(reqs, nr, width);
  }
}
