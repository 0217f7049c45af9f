/** Garbage collection on values: rewriting the live subpages of the victim blocks
    elsewhere leaves the victims fully invalid and the host's view unchanged. */
module GcTheory {
  import opened Common
  import opened Nand
  import opened Mapping

  /** The subpages of block b from `from` on that are not invalid, in order. */
  function LiveIn(pst: seq<Subpage>, b: int, from: nat): seq<Loc>
    requires from <= |pst|
    decreases |pst| - from
  {
    if from == |pst| then []
    else (if pst[from].NotInvalid? then [Loc(b, from)] else []) + LiveIn(pst, b, from + 1)
  }

  predicate Listed(blocks: seq<Block>, vs: seq<nat>) {
    forall i | 0 <= i < |vs| :: vs[i] < |blocks|
  }

  /** All live subpages of the victims, in the order GC visits them. */
  function LiveLocs(blocks: seq<Block>, vs: seq<nat>): seq<Loc>
    requires Listed(blocks, vs)
  {
    if vs == [] then [] else LiveIn(blocks[vs[0]].pst, vs[0], 0) + LiveLocs(blocks, vs[1..])
  }

  predicate Distinct(vs: seq<nat>) {
    forall i, j | 0 <= i < j < |vs| :: vs[i] != vs[j]
  }

  lemma {:induction false} LiveInMembers(pst: seq<Subpage>, b: int, from: nat)
    requires from <= |pst|
    ensures forall i | 0 <= i < |LiveIn(pst, b, from)| ::
              var x := LiveIn(pst, b, from)[i];
              x.blk == b && from <= x.off < |pst| && pst[x.off].NotInvalid?
    ensures forall o | from <= o < |pst| && pst[o].NotInvalid? :: Loc(b, o) in LiveIn(pst, b, from)
    decreases |pst| - from
  {
    if from < |pst| { LiveInMembers(pst, b, from + 1); }
  }

  lemma {:induction false} LiveInUpdateBelow(pst: seq<Subpage>, b: int, from: nat, o: nat)
    requires o < from <= |pst|
    ensures LiveIn(pst[o := Invalid], b, from) == LiveIn(pst, b, from)
    decreases |pst| - from
  {
    if from < |pst| { LiveInUpdateBelow(pst, b, from + 1, o); }
  }

  lemma {:induction false} LiveInHead(pst: seq<Subpage>, b: int, from: nat)
    requires from <= |pst| && LiveIn(pst, b, from) != []
    ensures var x := LiveIn(pst, b, from)[0];
            && x.blk == b && from <= x.off < |pst| && pst[x.off].NotInvalid?
            && LiveIn(pst[x.off := Invalid], b, from) == LiveIn(pst, b, from)[1..]
    decreases |pst| - from
  {
    if pst[from].NotInvalid? {
      LiveInUpdateBelow(pst, b, from + 1, from);
    } else {
      LiveInHead(pst, b, from + 1);
    }
  }

  lemma {:induction false} LiveLocsFrame(blocks: seq<Block>, blocks': seq<Block>, vs: seq<nat>)
    requires Listed(blocks, vs) && Listed(blocks', vs)
    requires forall i | 0 <= i < |vs| :: blocks'[vs[i]].pst == blocks[vs[i]].pst
    ensures LiveLocs(blocks', vs) == LiveLocs(blocks, vs)
  {
    if vs != [] { LiveLocsFrame(blocks, blocks', vs[1..]); }
  }

  /** Invalidating the first live subpage removes exactly it from the list. */
  lemma {:induction false} LiveLocsHead(blocks: seq<Block>, vs: seq<nat>)
    requires Listed(blocks, vs) && Distinct(vs) && LiveLocs(blocks, vs) != []
    ensures var x := LiveLocs(blocks, vs)[0];
            && InRange(blocks, x) && x.blk in vs && blocks[x.blk].pst[x.off].NotInvalid?
            && Listed(InvalidateAt(blocks, x), vs)
            && LiveLocs(InvalidateAt(blocks, x), vs) == LiveLocs(blocks, vs)[1..]
    decreases |vs|
  {
    var head := LiveIn(blocks[vs[0]].pst, vs[0], 0);
    if head == [] {
      LiveLocsHead(blocks, vs[1..]);
      var x := LiveLocs(blocks, vs[1..])[0];
      assert x.blk in vs[1..];
      assert InvalidateAt(blocks, x)[vs[0]] == blocks[vs[0]];
    } else {
      LiveInHead(blocks[vs[0]].pst, vs[0], 0);
      LiveLocsFrame(blocks, InvalidateAt(blocks, head[0]), vs[1..]);
    }
  }

  /** When nothing live is left, every victim is fully invalid. */
  lemma {:induction false} LiveLocsEmpty(blocks: seq<Block>, vs: seq<nat>, i: nat, o: nat)
    requires Listed(blocks, vs) && LiveLocs(blocks, vs) == []
    requires i < |vs| && o < |blocks[vs[i]].pst|
    ensures blocks[vs[i]].pst[o].Invalid?
  {
    if i == 0 {
      LiveInMembers(blocks[vs[0]].pst, vs[0], 0);
    } else {
      LiveLocsEmpty(blocks, vs[1..], i - 1, o);
    }
  }

  // ---- the space bound -----------------------------------------------------------

  lemma {:induction false} LiveInCount(pst: seq<Subpage>, b: int, from: nat)
    requires from <= |pst|
    ensures |LiveIn(pst, b, from)| + CountInvalid(pst[from..]) == |pst| - from
    decreases |pst| - from
  {
    if from < |pst| { LiveInCount(pst, b, from + 1); }
  }

  /** Each victim is DIRTY, so it contributes at most all but one of its subpages. */
  lemma {:induction false} LiveLocsBound(blocks: seq<Block>, vs: seq<nat>, nrSubpages: nat)
    requires Listed(blocks, vs)
    requires forall i | 0 <= i < |vs| :: BlockOk(blocks[vs[i]], nrSubpages) && blocks[vs[i]].status.Dirty?
    ensures |LiveLocs(blocks, vs)| + |vs| <= |vs| * nrSubpages
  {
    if vs != [] {
      var b := blocks[vs[0]];
      LiveInCount(b.pst, vs[0], 0);
      assert b.pst[0..] == b.pst;
      LiveLocsBound(blocks, vs[1..], nrSubpages);
      assert |vs| * nrSubpages == (|vs| - 1) * nrSubpages + nrSubpages;
    }
  }

  // ---- rewriting one page of live subpages ----------------------------------------------

  /** The slots carry the first live subpages, data and LPA, then padding. */
  predicate Carries(flash: Flash, locs: seq<Loc>, slots: seq<Slot>) {
    forall i | 0 <= i < |slots| ::
      if i < |locs| then locs[i] in flash && slots[i] == Slot(flash[locs[i]].oob, flash[locs[i]].data)
      else slots[i].lpa == -1
  }

  /** Victims are used up: every subpage has been handed out. */
  predicate UsedUp(blocks: seq<Block>, wp: seq<nat>, vs: seq<nat>) {
    && |wp| == |blocks| && Listed(blocks, vs) && Distinct(vs)
    && forall i | 0 <= i < |vs| :: wp[vs[i]] == |blocks[vs[i]].pst|
  }

  lemma {:induction false} GcSlotStep(blocks: seq<Block>, mt: Table, flash: Flash, wp: seq<nat>, b: int, vs: seq<nat>, s: Slot)
    requires MapInv(blocks, mt, flash, wp) && Room(blocks, wp, b, 1)
    requires UsedUp(blocks, wp, vs) && b !in vs
    requires Carries(flash, LiveLocs(blocks, vs), [s])
    ensures s.lpa == -1 || 0 <= s.lpa < |mt|
    ensures Store(Logical(mt, flash), [s]) == Logical(mt, flash)
    ensures var blocks' := MapSlot(blocks, mt, Loc(b, wp[b]), s.lpa).0;
            && UsedUp(blocks', wp[b := wp[b] + 1], vs)
            && LiveLocs(blocks', vs) ==
                 if LiveLocs(blocks, vs) == [] then [] else LiveLocs(blocks, vs)[1..]
  {
    hide EntriesOk, FreshOk, PointersOk;
    var locs := LiveLocs(blocks, vs);
    if locs == [] {
      assert [s][0].lpa == -1;
      LiveLocsFrame(blocks, InvalidateAt(blocks, Loc(b, wp[b])), vs);
    } else {
      LiveLocsHead(blocks, vs);
      assert Live(blocks, wp, locs[0]);
      assert Homed(mt, flash, locs[0]);
      assert [s][0] == Slot(flash[locs[0]].oob, flash[locs[0]].data);
    }
  }

  /** Rewriting a page of live subpages consumes them and changes nothing for the host. */
  lemma {:induction false} GcSlotsStep(blocks: seq<Block>, mt: Table, flash: Flash, wp: seq<nat>, b: int, vs: seq<nat>, slots: seq<Slot>)
    requires MapInv(blocks, mt, flash, wp) && Room(blocks, wp, b, |slots|)
    requires UsedUp(blocks, wp, vs) && b !in vs
    requires Carries(flash, LiveLocs(blocks, vs), slots)
    ensures SlotsOk(slots, |mt|)
    ensures Store(Logical(mt, flash), slots) == Logical(mt, flash)
    ensures var blocks' := MapSlots(blocks, mt, Loc(b, wp[b]), slots).0;
            var locs := LiveLocs(blocks, vs);
            && UsedUp(blocks', wp[b := wp[b] + |slots|], vs)
            && LiveLocs(blocks', vs) == locs[Min(|slots|, |locs|)..]
    decreases |slots|
  {
    hide MapInv, Logical, MapSlot, LiveLocs;
    if slots == [] {
      assert wp[b := wp[b] + |slots|] == wp;
    } else {
      var loc, s, locs := Loc(b, wp[b]), slots[0], LiveLocs(blocks, vs);
      GcSlotStep(blocks, mt, flash, wp, b, vs, s);
      SlotStep(blocks, mt, flash, wp, b, s);
      var (blocks', mt') := MapSlot(blocks, mt, loc, s.lpa);
      var flash', wp' := flash[loc := Cell(s.data, s.lpa)], wp[b := wp[b] + 1];
      forall i | 0 <= i < |locs| ensures locs[i].blk != b { LiveLocsIn(blocks, vs, i); }
      GcSlotsStep(blocks', mt', flash', wp', b, vs, slots[1..]);
      assert wp'[b := wp'[b] + |slots[1..]|] == wp[b := wp[b] + |slots|];
    }
  }

  /** Programming block b leaves every other block's cells alone. */
  lemma {:induction false} ProgramFrame(flash: Flash, loc: Loc, slots: seq<Slot>)
    ensures forall x | x in flash && x.blk != loc.blk ::
              x in Program(flash, loc, slots) && Program(flash, loc, slots)[x] == flash[x]
    decreases |slots|
  {
    if slots != [] {
      ProgramFrame(flash[loc := Cell(slots[0].data, slots[0].lpa)], Loc(loc.blk, loc.off + 1), slots[1..]);
    }
  }

  lemma {:induction false} LiveLocsIn(blocks: seq<Block>, vs: seq<nat>, i: nat)
    requires Listed(blocks, vs) && i < |LiveLocs(blocks, vs)|
    ensures LiveLocs(blocks, vs)[i].blk in vs && InRange(blocks, LiveLocs(blocks, vs)[i])
    ensures blocks[LiveLocs(blocks, vs)[i].blk].pst[LiveLocs(blocks, vs)[i].off].NotInvalid?
  {
    var head := LiveIn(blocks[vs[0]].pst, vs[0], 0);
    LiveInMembers(blocks[vs[0]].pst, vs[0], 0);
    if i >= |head| { LiveLocsIn(blocks, vs[1..], i - |head|); }
  }
}
