/** The blocks a garbage collection works on: one per parallel unit, in use, not active. */
module Victims {
  import opened Common
  import opened Nand
  import opened Mapping
  import opened Cursor
  import opened GcTheory
  import opened Compaction
  import opened GcReads

  ghost predicate VictimsOk(blocks: seq<Block>, ac: seq<nat>, vs: seq<nat>) {
    && |vs| == |ac|
    && forall u | 0 <= u < |vs| ::
         vs[u] < |blocks| && blocks[vs[u]].punit == u && InUse(blocks[vs[u]]) && ac[u] != vs[u]
  }

  lemma {:induction false} VictimsFull(blocks: seq<Block>, wp: seq<nat>, ac: seq<nat>, turns: seq<nat>, puid: nat, base: nat, width: nat, vs: seq<nat>)
    requires VictimsOk(blocks, ac, vs) && CursorOk(blocks, wp, ac, turns, puid, base, width)
    ensures UsedUp(blocks, wp, vs)
  {
  }

  /** An active block is no victim, whether it is still active or just replaced. */
  lemma {:induction false} VictimsActive(blocks: seq<Block>, ac: seq<nat>, vs: seq<nat>, u: nat, b: nat)
    requires VictimsOk(blocks, ac, vs) && u < |ac| && b == ac[u] < |blocks| && blocks[b].punit == u
    ensures b !in vs
  {
  }

  /** Fresh active blocks were FREE, so none of them is a victim. */
  lemma {:induction false} VictimsSwitch(blocks: seq<Block>, blocks': seq<Block>, ac: seq<nat>, ac': seq<nat>, vs: seq<nat>)
    requires VictimsOk(blocks, ac, vs) && RenewedTo(blocks, blocks', ac', |ac'|) && |ac'| == |ac|
    ensures VictimsOk(blocks', ac', vs)
  {
    forall u | 0 <= u < |vs| ensures ac'[u] != vs[u] {
      assert Renewed(blocks, blocks', ac', u);
    }
  }

  lemma {:induction false} VictimsFrame(blocks: seq<Block>, blocks': seq<Block>, ac: seq<nat>, vs: seq<nat>)
    requires VictimsOk(blocks, ac, vs) && SameShape(blocks, blocks')
    ensures VictimsOk(blocks', ac, vs)
  {
  }

  lemma {:induction false} LiveActivated(blocks: seq<Block>, blocks': seq<Block>, wp: seq<nat>, vs: seq<nat>)
    requires Activated(blocks, blocks') && UsedUp(blocks, wp, vs)
    ensures UsedUp(blocks', wp, vs) && LiveLocs(blocks', vs) == LiveLocs(blocks, vs)
  {
    LiveLocsFrame(blocks, blocks', vs);
  }

  /** What allocating and mapping one page of carried subpages does, block table and cursor aside. */
  lemma {:induction false} RewriteStep(blocks: seq<Block>, mt: Table, vflash: Flash, wp: seq<nat>, ac: seq<nat>, vs: seq<nat>, b: nat, slots: seq<Slot>)
    requires MapInv(blocks, mt, vflash, wp) && Room(blocks, wp, b, |slots|)
    requires UsedUp(blocks, wp, vs) && b !in vs && VictimsOk(blocks, ac, vs)
    requires Carries(vflash, LiveLocs(blocks, vs), slots)
    ensures SlotsOk(slots, |mt|) && Store(Logical(mt, vflash), slots) == Logical(mt, vflash)
    ensures var blocks' := MapSlots(blocks, mt, Loc(b, wp[b]), slots).0;
            var locs := LiveLocs(blocks, vs);
            && SameShape(blocks, blocks') && VictimsOk(blocks', ac, vs)
            && Listed(blocks', vs) && LiveLocs(blocks', vs) == locs[Min(|slots|, |locs|)..]
  {
    hide MapInv, LiveLocs, Logical, Store, MapSlots, SameShape;
    GcSlotsStep(blocks, mt, vflash, wp, b, vs, slots);
    SlotsFrame(blocks, mt, vflash, wp, b, slots);
    VictimsFrame(blocks, MapSlots(blocks, mt, Loc(b, wp[b]), slots).0, ac, vs);
  }

  // ---- carrying the live subpages over -------------------------------------------------------

  /** The write request built from a compacted request: LPAs come from the OOB, holes are padding. */
  function SlotsOf(r: Request): seq<Slot> {
    seq(|r|, k requires 0 <= k < |r| => if r[k].Full? then Slot(r[k].cell.oob, r[k].cell.data) else Slot(-1, []))
  }

  /** `vflash` still holds what was read from the victims. */
  ghost predicate Kept(flash: Flash, vflash: Flash, locs: seq<Loc>) {
    forall q | 0 <= q < |locs| :: locs[q] in flash && locs[q] in vflash && vflash[locs[q]] == flash[locs[q]]
  }

  lemma {:induction false} PackedCarries(flash: Flash, vflash: Flash, locs: seq<Loc>, dst: seq<Request>, width: nat, i: nat)
    requires Packed(dst, width, ReadCells(flash, locs)) && Uniform(dst, width) && i < |dst|
    requires Kept(flash, vflash, locs)
    ensures 0 <= i * width && Carries(vflash, locs[Min(i * width, |locs|)..], SlotsOf(dst[i]))
  {
    var m := Min(i * width, |locs|);
    var rest, slots := locs[m..], SlotsOf(dst[i]);
    forall k | 0 <= k < |slots|
      ensures if k < |rest| then rest[k] in vflash && slots[k] == Slot(vflash[rest[k]].oob, vflash[rest[k]].data)
              else slots[k].lpa == -1
    {
      assert dst[i][k] == if i * width + k < |locs| then Full(ReadCells(flash, locs)[i * width + k]) else Hole;
      if k < |rest| { assert rest[k] == locs[i * width + k]; }
    }
  }

  lemma {:induction false} UniformAt(dst: seq<Request>, width: nat, i: nat)
    requires Uniform(dst, width) && i < |dst|
    ensures |dst[i]| == width && |SlotsOf(dst[i])| == width
  {
  }

  lemma {:induction false} LiveInFlash(blocks: seq<Block>, mt: Table, flash: Flash, wp: seq<nat>, vs: seq<nat>)
    requires MapInv(blocks, mt, flash, wp) && UsedUp(blocks, wp, vs)
    ensures Kept(flash, flash, LiveLocs(blocks, vs))
  {
    var locs := LiveLocs(blocks, vs);
    forall q | 0 <= q < |locs| ensures locs[q] in flash {
      LiveLocsIn(blocks, vs, q);
      assert Live(blocks, wp, locs[q]);
    }
  }

  lemma {:induction false} KeptAfter(flash: Flash, vflash: Flash, blocks: seq<Block>, vs: seq<nat>, loc: Loc, slots: seq<Slot>)
    requires Listed(blocks, vs) && Kept(flash, vflash, LiveLocs(blocks, vs)) && (forall i | 0 <= i < |vs| :: vs[i] != loc.blk)
    ensures Kept(flash, Program(vflash, loc, slots), LiveLocs(blocks, vs))
  {
    ProgramFrame(vflash, loc, slots);
    var locs := LiveLocs(blocks, vs);
    forall q | 0 <= q < |locs| ensures locs[q].blk != loc.blk { LiveLocsIn(blocks, vs, q); }
  }

  /** Programming a list of pages, in order. */
  function ProgramAll(flash: Flash, pages: seq<(Loc, seq<Slot>)>): Flash {
    if pages == [] then flash
    else
      var last := pages[|pages| - 1];
      Program(ProgramAll(flash, pages[..|pages| - 1]), last.0, last.1)
  }

  lemma {:induction false} ProgramMore(flash: Flash, pages: seq<(Loc, seq<Slot>)>, loc: Loc, slots: seq<Slot>)
    ensures ProgramAll(flash, pages + [(loc, slots)]) == Program(ProgramAll(flash, pages), loc, slots)
  {
    assert (pages + [(loc, slots)])[..|pages|] == pages;
  }

  ghost predicate AllInvalid(blocks: seq<Block>, b: nat) {
    b < |blocks| && forall o | 0 <= o < |blocks[b].pst| :: blocks[b].pst[o].Invalid?
  }

  lemma {:induction false} NothingLive(blocks: seq<Block>, vs: seq<nat>)
    requires Listed(blocks, vs) && LiveLocs(blocks, vs) == []
    ensures forall i | 0 <= i < |vs| :: AllInvalid(blocks, vs[i])
  {
    forall i | 0 <= i < |vs| ensures AllInvalid(blocks, vs[i]) {
      forall o | 0 <= o < |blocks[vs[i]].pst| ensures blocks[vs[i]].pst[o].Invalid? { LiveLocsEmpty(blocks, vs, i, o); }
    }
  }

  /** No LPA points into a fully invalid block. */
  lemma {:induction false} VictimUnreferenced(blocks: seq<Block>, mt: Table, flash: Flash, wp: seq<nat>, b: nat, l: int)
    requires MapInv(blocks, mt, flash, wp) && b < |blocks| && AllInvalid(blocks, b) && 0 <= l < |mt| && mt[l].status.Mapped?
    ensures mt[l].loc.blk != b
  {
    MappedInUse(blocks, mt, flash, wp, l);
  }
}
