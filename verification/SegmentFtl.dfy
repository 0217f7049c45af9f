/** The segment FTL (ftl/algo/block_ftl.c): one block of every chip per segment, and page counters. */
module SegmentFtl {
  import opened Common
  import opened Nand
  import opened Lists
  import opened Geometry
  import opened BlockManager
  import opened Balance

  datatype PageState = PgFree | PgValid | PgInvalid

  /** A mapping entry: its block when allocated, the last page written (-1 for none), page states. */
  datatype Entry = Entry(blk: Option<nat>, rw: int, pst: seq<PageState>)

  type Segment = seq<Entry>

  datatype Target = At(blk: nat, page: nat) | NoBlock | Dead

  /** The parallel unit that serves the i-th block of a segment. */
  function ChipFor(g: Geometry, i: nat): nat
    requires g.Valid()
  {
    g.UnitAt(i)
  }

  // ---- addresses -------------------------------------------------------------------------------

  function PagesPerSeg(g: Geometry): nat { g.pagesPerBlock * g.Punits() }

  lemma {:induction false} SegPositive(g: Geometry)
    requires g.Valid()
    ensures g.Punits() > 0 && PagesPerSeg(g) > 0
  {
    Positive(g.channels, g.chips);
    Positive(g.pagesPerBlock, g.Punits());
  }

  function SegOf(g: Geometry, lpa: nat): nat
    requires g.Valid()
  {
    SegPositive(g);
    lpa / PagesPerSeg(g)
  }

  function BlkOf(g: Geometry, lpa: nat): nat
    requires g.Valid()
  {
    SegPositive(g);
    (lpa % PagesPerSeg(g)) % g.Punits()
  }

  function PgOf(g: Geometry, lpa: nat): nat
    requires g.Valid()
  {
    SegPositive(g);
    (lpa % PagesPerSeg(g)) / g.Punits()
  }

  /** The address at a segment, block and page. */
  function LpaOf(g: Geometry, seg: nat, blk: nat, pg: nat): nat {
    seg * PagesPerSeg(g) + (pg * g.Punits() + blk)
  }

  /** Addresses and (segment, block, page) triples correspond one to one. */
  lemma {:induction false} LpaSplits(g: Geometry, lpa: nat)
    requires g.Valid()
    ensures BlkOf(g, lpa) < g.Punits() && PgOf(g, lpa) < g.pagesPerBlock
    ensures LpaOf(g, SegOf(g, lpa), BlkOf(g, lpa), PgOf(g, lpa)) == lpa
    ensures lpa < g.blocksPerChip * PagesPerSeg(g) ==> SegOf(g, lpa) < g.blocksPerChip
  {
    SegPositive(g);
    DivBelow(lpa % PagesPerSeg(g), g.pagesPerBlock, g.Punits());
    if lpa < g.blocksPerChip * PagesPerSeg(g) { DivBelow(lpa, g.blocksPerChip, PagesPerSeg(g)); }
  }

  lemma {:induction false} LpaJoins(g: Geometry, seg: nat, blk: nat, pg: nat)
    requires g.Valid() && blk < g.Punits() && pg < g.pagesPerBlock
    ensures var lpa := LpaOf(g, seg, blk, pg); SegOf(g, lpa) == seg && BlkOf(g, lpa) == blk && PgOf(g, lpa) == pg
    ensures seg < g.blocksPerChip ==> LpaOf(g, seg, blk, pg) < g.blocksPerChip * PagesPerSeg(g)
  {
    SegPositive(g);
    TwoDigits(pg, blk, g.pagesPerBlock, g.Punits());
    DivMod(seg, pg * g.Punits() + blk, PagesPerSeg(g));
    DivMod(pg, blk, g.Punits());
    if seg < g.blocksPerChip { TwoDigits(seg, pg * g.Punits() + blk, g.blocksPerChip, PagesPerSeg(g)); }
  }

  // ---- page counts -------------------------------------------------------------------------------

  function CountPst(pst: seq<PageState>, st: PageState): nat {
    if pst == [] then 0 else (if pst[0] == st then 1 else 0) + CountPst(pst[1..], st)
  }

  /** The pages of a segment in a state. */
  function CountPages(seg: Segment, st: PageState): nat {
    if seg == [] then 0 else CountPst(seg[0].pst, st) + CountPages(seg[1..], st)
  }

  lemma {:induction false} CountPstUpdate(pst: seq<PageState>, p: nat, x: PageState, st: PageState)
    requires p < |pst|
    ensures CountPst(pst[p := x], st) == CountPst(pst, st) - (if pst[p] == st then 1 else 0) + (if x == st then 1 else 0)
  {
    if p == 0 {
      assert pst[p := x][1..] == pst[1..];
    } else {
      CountPstUpdate(pst[1..], p - 1, x, st);
      assert pst[p := x][1..] == pst[1..][p - 1 := x];
    }
  }

  lemma {:induction false} CountPagesUpdate(seg: Segment, i: nat, e: Entry, st: PageState)
    requires i < |seg|
    ensures CountPages(seg[i := e], st) == CountPages(seg, st) - CountPst(seg[i].pst, st) + CountPst(e.pst, st)
  {
    if i == 0 {
      assert seg[i := e][1..] == seg[1..];
    } else {
      CountPagesUpdate(seg[1..], i - 1, e, st);
      assert seg[i := e][1..] == seg[1..][i - 1 := e];
    }
  }

  /** Changing one page moves one count. */
  lemma {:induction false} PageChange(seg: Segment, i: nat, e: Entry, p: nat, x: PageState, st: PageState)
    requires i < |seg| && p < |seg[i].pst| && e.pst == seg[i].pst[p := x]
    ensures CountPages(seg[i := e], st) == CountPages(seg, st) - (if seg[i].pst[p] == st then 1 else 0) + (if x == st then 1 else 0)
    ensures seg[i].pst[p] == st ==> CountPages(seg, st) > 0
  {
    CountPagesUpdate(seg, i, e, st);
    CountPstUpdate(seg[i].pst, p, x, st);
    if seg[i].pst[p] == st { CountsSome(seg, i, p, st); }
  }

  lemma {:induction false} CountsSome(seg: Segment, i: nat, p: nat, st: PageState)
    requires i < |seg| && p < |seg[i].pst| && seg[i].pst[p] == st
    ensures CountPages(seg, st) > 0
  {
    if i == 0 { PstSome(seg[0].pst, p, st); } else { CountsSome(seg[1..], i - 1, p, st); }
  }

  lemma {:induction false} PstSome(pst: seq<PageState>, p: nat, st: PageState)
    requires p < |pst| && pst[p] == st
    ensures CountPst(pst, st) > 0
  {
    if p > 0 { PstSome(pst[1..], p - 1, st); }
  }

  function FreshPst(n: nat): seq<PageState> { seq(n, _ => PgFree) }

  lemma {:induction false} FreshCounts(n: nat, st: PageState)
    ensures CountPst(FreshPst(n), st) == if st == PgFree then n else 0
  {
    if n > 0 {
      assert FreshPst(n)[1..] == FreshPst(n - 1);
      FreshCounts(n - 1, st);
    }
  }

  lemma {:induction false} FreshSegment(seg: Segment, n: nat)
    requires forall i | 0 <= i < |seg| :: seg[i].pst == FreshPst(n)
    ensures CountPages(seg, PgValid) == 0 && CountPages(seg, PgInvalid) == 0
  {
    if seg != [] {
      FreshCounts(n, PgValid);
      FreshCounts(n, PgInvalid);
      FreshSegment(seg[1..], n);
    }
  }

  /** Changing entries' blocks but not their page states moves no count. */
  lemma {:induction false} SamePages(seg: Segment, seg': Segment, st: PageState)
    requires |seg'| == |seg| && forall i | 0 <= i < |seg| :: seg'[i].pst == seg[i].pst
    ensures CountPages(seg', st) == CountPages(seg, st)
  {
    if seg != [] { SamePages(seg[1..], seg'[1..], st); }
  }

  // ---- invariants ----------------------------------------------------------------------------------

  predicate Allocated(seg: Segment) {
    seg != [] && seg[0].blk.Some?
  }

  /** All entries of a segment are allocated, or none is. */
  predicate AllOrNothing(seg: Segment) {
    forall i | 0 <= i < |seg| :: seg[i].blk.Some? <==> Allocated(seg)
  }

  predicate SegmentShape(seg: Segment, g: Geometry) {
    |seg| == g.Punits() && forall i | 0 <= i < |seg| :: |seg[i].pst| == g.pagesPerBlock
  }

  /** An allocated entry holds a CLEAN block of its chip. */
  predicate EntryOk(blocks: seq<Block>, g: Geometry, e: Entry, i: int)
    requires g.Valid()
  {
    e.blk.Some? ==> 0 <= i && e.blk.value < |blocks| && blocks[e.blk.value].status.Clean? && blocks[e.blk.value].punit == ChipFor(g, i)
  }

  predicate Within(mt: seq<Segment>, s: int, i: int) { 0 <= s < |mt| && 0 <= i < |mt[s]| }

  ghost predicate Holds(blocks: seq<Block>, g: Geometry, mt: seq<Segment>)
    requires g.Valid()
  {
    && (forall s, i | Within(mt, s, i) :: EntryOk(blocks, g, mt[s][i], i))
    && forall s, i, s', i' | Within(mt, s, i) && Within(mt, s', i') && mt[s][i].blk.Some? && mt[s][i].blk == mt[s'][i'].blk ::
         s == s' && i == i'
  }

  ghost predicate CountersMatch(mt: seq<Segment>, nrValid: seq<nat>, nrTrim: seq<nat>) {
    && |nrValid| == |mt| && |nrTrim| == |mt|
    && forall s | 0 <= s < |mt| :: nrValid[s] == CountPages(mt[s], PgValid) && nrTrim[s] == CountPages(mt[s], PgInvalid)
  }

  ghost predicate TableShape(g: Geometry, mt: seq<Segment>) {
    |mt| == g.blocksPerChip && forall s | 0 <= s < |mt| :: SegmentShape(mt[s], g)
  }

  function AllocatedSegs(mt: seq<Segment>): nat {
    if mt == [] then 0 else (if Allocated(mt[0]) then 1 else 0) + AllocatedSegs(mt[1..])
  }

  lemma {:induction false} AllocatedUpdate(mt: seq<Segment>, s: nat, seg: Segment)
    requires s < |mt|
    ensures AllocatedSegs(mt[s := seg]) == AllocatedSegs(mt) - (if Allocated(mt[s]) then 1 else 0) + (if Allocated(seg) then 1 else 0)
  {
    if s == 0 {
      assert mt[s := seg][1..] == mt[1..];
    } else {
      AllocatedUpdate(mt[1..], s - 1, seg);
      assert mt[s := seg][1..] == mt[1..][s - 1 := seg];
    }
  }

  lemma {:induction false} AllocatedBelow(mt: seq<Segment>, s: nat)
    requires s < |mt| && !Allocated(mt[s])
    ensures AllocatedSegs(mt) < |mt|
  {
    if s == 0 { AllocatedMost(mt[1..]); } else { AllocatedBelow(mt[1..], s - 1); }
  }

  lemma {:induction false} AllocatedMost(mt: seq<Segment>)
    ensures AllocatedSegs(mt) <= |mt|
  {
    if mt != [] { AllocatedMost(mt[1..]); }
  }

  /** No block has been lost: each chip's free blocks are those no allocated segment uses. */
  ghost predicate NoLosses(lists: ListHeads, g: Geometry, mt: seq<Segment>) {
    forall u | 0 <= u < g.Punits() :: FreeLen(lists, u) + AllocatedSegs(mt) == g.blocksPerChip
  }

  /** Then every chip has a free block for an unallocated segment. */
  lemma {:induction false} FreeBlockForSegment(lists: ListHeads, g: Geometry, mt: seq<Segment>, s: nat)
    requires NoLosses(lists, g, mt) && |mt| == g.blocksPerChip && s < |mt| && !Allocated(mt[s])
    ensures forall u | 0 <= u < g.Punits() :: FreeLen(lists, u) > 0
  {
    AllocatedBelow(mt, s);
  }

  // ---- what allocation and erasure do to the table --------------------------------------------------

  /** A segment with one more block taken. */
  lemma {:induction false} TakeHolds(blocks: seq<Block>, g: Geometry, mt: seq<Segment>, s: nat, i: nat, b: nat)
    requires g.Valid() && Holds(blocks, g, mt) && Within(mt, s, i) && mt[s][i].blk.None?
    requires b < |blocks| && blocks[b].status.Free? && blocks[b].punit == ChipFor(g, i)
    ensures Holds(blocks[b := blocks[b].(status := Clean)], g, mt[s := mt[s][i := Entry(Some(b), -1, mt[s][i].pst)]])
  {
    hide ChipFor;
    var blocks', mt' := blocks[b := blocks[b].(status := Clean)], mt[s := mt[s][i := Entry(Some(b), -1, mt[s][i].pst)]];
    forall t, k | Within(mt', t, k) ensures EntryOk(blocks', g, mt'[t][k], k) {
      assert Within(mt, t, k);
      assert EntryOk(blocks, g, mt[t][k], k);
    }
    forall t, k, t', k' | Within(mt', t, k) && Within(mt', t', k') && mt'[t][k].blk.Some? && mt'[t][k].blk == mt'[t'][k'].blk
      ensures t == t' && k == k'
    {
      assert Within(mt, t, k) && Within(mt, t', k');
      assert EntryOk(blocks, g, mt[t][k], k) && EntryOk(blocks, g, mt[t'][k'], k');
    }
  }

  /** A segment with one block given back. */
  lemma {:induction false} DropHolds(blocks: seq<Block>, g: Geometry, mt: seq<Segment>, s: nat, i: nat, nb: Block)
    requires g.Valid() && Holds(blocks, g, mt) && Within(mt, s, i) && mt[s][i].blk.Some?
    ensures mt[s][i].blk.value < |blocks|
    ensures Holds(blocks[mt[s][i].blk.value := nb], g, mt[s := mt[s][i := mt[s][i].(blk := None)]])
  {
    hide ChipFor;
    var b := mt[s][i].blk.value;
    assert EntryOk(blocks, g, mt[s][i], i);
    var blocks', mt' := blocks[b := nb], mt[s := mt[s][i := mt[s][i].(blk := None)]];
    forall t, k | Within(mt', t, k) ensures EntryOk(blocks', g, mt'[t][k], k) {
      assert Within(mt, t, k);
      assert EntryOk(blocks, g, mt[t][k], k);
    }
    forall t, k, t', k' | Within(mt', t, k) && Within(mt', t', k') && mt'[t][k].blk.Some? && mt'[t][k].blk == mt'[t'][k'].blk
      ensures t == t' && k == k'
    {
      assert Within(mt, t, k) && Within(mt, t', k');
    }
  }

  /** Changing other fields of entries. */
  lemma {:induction false} SameHolds(blocks: seq<Block>, g: Geometry, mt: seq<Segment>, mt': seq<Segment>)
    requires g.Valid() && Holds(blocks, g, mt) && |mt'| == |mt|
    requires forall s | 0 <= s < |mt| :: |mt'[s]| == |mt[s]|
    requires forall s, i | Within(mt, s, i) :: mt'[s][i].blk == mt[s][i].blk
    ensures Holds(blocks, g, mt')
  {
    forall t, k | Within(mt', t, k) ensures EntryOk(blocks, g, mt'[t][k], k) {
      assert Within(mt, t, k);
      assert EntryOk(blocks, g, mt[t][k], k);
    }
    forall t, k, t', k' | Within(mt', t, k) && Within(mt', t', k') && mt'[t][k].blk.Some? && mt'[t][k].blk == mt'[t'][k'].blk
      ensures t == t' && k == k'
    {
      assert Within(mt, t, k) && Within(mt, t', k');
    }
  }

  function EmptySegment(g: Geometry): Segment {
    seq(g.Punits(), _ => Entry(None, -1, FreshPst(g.pagesPerBlock)))
  }

  class SegmentFtl {
    const abm: Abm
    const g: Geometry
    var mt: seq<Segment>
    var nrValid: seq<nat>
    var nrTrim: seq<nat>

    ghost predicate Valid()
      reads this, abm
    {
      && g.Valid() && abm.Valid() && abm.g == g && abm.nrPrepared == 0
      && TableShape(g, mt) && (forall s | 0 <= s < |mt| :: AllOrNothing(mt[s]))
      && Holds(abm.blocks, g, mt)
      && CountersMatch(mt, nrValid, nrTrim)
    }

    constructor (a: Abm)
      requires a.Valid() && a.Wired() && a.nrPrepared == 0 && a.blocks == NewTable(a.g)
      ensures Valid() && abm == a && g == a.g && NoLosses(abm.lists, g, mt)
      ensures |mt| == g.blocksPerChip && forall s | 0 <= s < |mt| :: mt[s] == EmptySegment(g)
      ensures nrValid == Zeros(g.blocksPerChip) && nrTrim == Zeros(g.blocksPerChip)
    {
      abm, g := a, a.g;
      mt := seq(a.g.blocksPerChip, _ => EmptySegment(a.g));
      nrValid, nrTrim := Zeros(a.g.blocksPerChip), Zeros(a.g.blocksPerChip);
      new;
      NothingAllocated(mt);
      FreshSegment(EmptySegment(g), g.pagesPerBlock);
      forall u | 0 <= u < g.Punits() ensures FreeLen(abm.lists, u) == g.blocksPerChip { NewFree(g, abm.blocks, abm.lists, u); }
    }

    /** Allocate a block on every chip. It succeeds exactly when every chip has one, and then the
        segment is allocated as a whole and nothing else changes. */
    method AllocateSegment(s: nat) returns (ok: bool)
      requires Valid() && s < |mt| && !Allocated(mt[s])
      modifies this`mt, abm
      ensures ok <==> forall u | 0 <= u < g.Punits() :: FreeLen(old(abm.lists), u) > 0
      ensures ok ==> Valid() && |mt| == |old(mt)| && Allocated(mt[s])
      ensures ok ==> forall t | 0 <= t < |old(mt)| && t != s :: mt[t] == old(mt)[t]
      ensures ok ==> forall i | 0 <= i < |old(mt)[s]| :: i < |mt[s]| && mt[s][i].pst == old(mt)[s][i].pst && mt[s][i].rw == -1
      ensures ok ==> forall u | 0 <= u < g.Punits() :: FreeLen(abm.lists, u) == FreeLen(old(abm.lists), u) - 1
      ensures ok ==> Opened(old(abm.blocks), abm.blocks, mt[s])
      ensures NoLosses(old(abm.lists), g, old(mt)) ==> ok && NoLosses(abm.lists, g, mt)
    {
      hide BlocksOk, ListsOk, CountersOk, Relink, Holds, CountersMatch, CountPages, ChipFor, FreeLen, AllocatedSegs, Opened;
      ghost var was := mt;
      if NoLosses(abm.lists, g, mt) { FreeBlockForSegment(abm.lists, g, mt, s); }
      BeginAllocation(was[s], g, abm.lists);
      OpenedNone(abm.blocks, was[s]);
      for i := 0 to g.Punits()
        invariant abm.Valid() && abm.nrPrepared == 0 && |mt| == |was| && mt == was[s := mt[s]]
        invariant Taken(was[s], mt[s], i) && |mt[s]| == g.Punits() && Holds(abm.blocks, g, mt)
        invariant Used(old(abm.lists), abm.lists, g, i) && Opened(old(abm.blocks), abm.blocks, mt[s])
      {
        var ok' := TakeEntry(s, i, was[s], old(abm.lists), old(abm.blocks));
        if !ok' { return false; }
      }
      ok := true;
      EndAllocation(was, mt, g, s, old(abm.lists), abm.lists);
      AllocatedCounters(was, mt, nrValid, nrTrim, s);
      AllocatedUpdate(was, s, mt[s]);
    }

    /** How many blocks of the segment are allocated: none or all. */
    method IsAllocated(s: nat) returns (n: nat)
      requires Valid() && s < |mt|
      ensures n == if Allocated(mt[s]) then g.Punits() else 0
    {
      n := 0;
      assert SegmentShape(mt[s], g) && AllOrNothing(mt[s]);
      for i := 0 to g.Punits()
        invariant n == if Allocated(mt[s]) then i else 0
      {
        if mt[s][i].blk.Some? { n := n + 1; }
      }
    }

    /** Record a write. It needs an allocated segment, the entry's own block and a free page. */
    method MapLpaToPpa(lpa: nat, blk: nat) returns (ok: bool)
      requires Valid() && SegOf(g, lpa) < |mt|
      modifies this`mt, this`nrValid
      ensures Valid() && |mt| == |old(mt)|
      ensures BlkOf(g, lpa) < |old(mt)[SegOf(g, lpa)]| && PgOf(g, lpa) < |old(mt)[SegOf(g, lpa)][BlkOf(g, lpa)].pst|
      ensures var e := old(mt)[SegOf(g, lpa)][BlkOf(g, lpa)];
              && (ok <==> e.pst[PgOf(g, lpa)] == PgFree && e.blk == Some(blk))
              && (ok ==> mt == old(mt)[SegOf(g, lpa) := old(mt)[SegOf(g, lpa)][BlkOf(g, lpa) :=
                                 Entry(e.blk, PgOf(g, lpa), e.pst[PgOf(g, lpa) := PgValid])]])
              && (!ok ==> mt == old(mt) && nrValid == old(nrValid))
    {
      hide SegOf, BlkOf, PgOf, LpaOf, PagesPerSeg, Holds, CountersMatch, BlocksOk, ListsOk, CountersOk, AllOrNothing;
      LpaSplits(g, lpa);
      var s, i, p := SegOf(g, lpa), BlkOf(g, lpa), PgOf(g, lpa);
      assert SegmentShape(mt[s], g);
      assert Within(mt, s, i) && |mt[s][i].pst| == g.pagesPerBlock;
      hide TableShape, SegmentShape;
      var e := mt[s][i];
      if e.pst[p] != PgFree || e.blk != Some(blk) { return false; }
      var e' := Entry(e.blk, p, e.pst[p := PgValid]);
      SetPageOk(abm.blocks, g, mt, nrValid, nrTrim, s, i, e', p, PgValid);
      nrValid := nrValid[s := nrValid[s] + 1];
      mt := mt[s := mt[s][i := e']];
      ok := true;
    }

    /** Trim a page: a valid or free page becomes invalid, an invalid one stays so. */
    method InvalidateLpa(lpa: nat)
      requires Valid() && SegOf(g, lpa) < |mt|
      modifies this`mt, this`nrValid, this`nrTrim
      ensures Valid() && |mt| == |old(mt)|
      ensures BlkOf(g, lpa) < |old(mt)[SegOf(g, lpa)]| && PgOf(g, lpa) < |old(mt)[SegOf(g, lpa)][BlkOf(g, lpa)].pst|
      ensures var e := old(mt)[SegOf(g, lpa)][BlkOf(g, lpa)];
              mt == old(mt)[SegOf(g, lpa) := old(mt)[SegOf(g, lpa)][BlkOf(g, lpa) := e.(pst := e.pst[PgOf(g, lpa) := PgInvalid])]]
    {
      hide SegOf, BlkOf, PgOf, LpaOf, PagesPerSeg, Holds, CountersMatch, BlocksOk, ListsOk, CountersOk, AllOrNothing;
      LpaSplits(g, lpa);
      var s, i, p := SegOf(g, lpa), BlkOf(g, lpa), PgOf(g, lpa);
      assert SegmentShape(mt[s], g);
      assert Within(mt, s, i) && |mt[s][i].pst| == g.pagesPerBlock;
      hide TableShape, SegmentShape;
      var e := mt[s][i];
      SetPageOk(abm.blocks, g, mt, nrValid, nrTrim, s, i, e.(pst := e.pst[p := PgInvalid]), p, PgInvalid);
      if e.pst[p].PgValid? { nrValid := nrValid[s := nrValid[s] - 1]; }
      if !e.pst[p].PgInvalid? {
        nrTrim := nrTrim[s := nrTrim[s] + 1];
        mt := mt[s := mt[s][i := e.(pst := e.pst[p := PgInvalid])]];
      } else {
        assert e.pst[p := PgInvalid] == e.pst;
        assert mt[s][i := e] == mt[s];
        assert mt[s := mt[s]] == mt;
      }
    }

    /** Give back one entry's block; `view` is the table without the entries given back. */
    method GiveBack(s: nat, i: nat, bad: bool, ghost view: seq<Segment>)
      requires g.Valid() && abm.Valid() && abm.g == g && abm.nrPrepared == 0 && Within(mt, s, i) && Within(view, s, i)
      requires |view[s]| == g.Punits() && mt[s][i].blk.Some? && view[s][i].blk == mt[s][i].blk && Holds(abm.blocks, g, view)
      modifies abm
      ensures abm.Valid() && abm.nrPrepared == 0
      ensures mt[s][i].blk.value < |old(abm.blocks)|
      ensures abm.blocks == old(abm.blocks)[mt[s][i].blk.value := EraseIn(old(abm.blocks)[mt[s][i].blk.value], bad)]
      ensures Holds(abm.blocks, g, view[s := view[s][i := view[s][i].(blk := None)]])
      ensures ChipFor(g, i) < g.Punits()
      ensures forall u | 0 <= u < g.Punits() ::
                FreeLen(abm.lists, u) == FreeLen(old(abm.lists), u) + if u == ChipFor(g, i) && !bad then 1 else 0
    {
      hide BlocksOk, ListsOk, CountersOk, Relink, Holds, ChipFor, FreeLen;
      var b := mt[s][i].blk.value;
      HeldBlock(abm.blocks, g, view, s, i);
      DropHolds(abm.blocks, g, view, s, i, EraseIn(abm.blocks[b], bad));
      abm.EraseAt(b, bad);
    }

    /** The first i entries have had their turn in this sweep. */
    ghost predicate Sweeping(s: nat, i: nat, bad: seq<bool>, second: bool, blocks0: seq<Block>, lists0: ListHeads)
      reads this, abm
    {
      && g.Valid() && abm.Valid() && abm.g == g && abm.nrPrepared == 0 && s < |mt| && i <= |mt[s]| == g.Punits() == |bad|
      && Holds(abm.blocks, g, mt[s := Dropped(mt[s], i, second)])
      && Returned(lists0, abm.lists, g, mt[s], bad, i, second) && Swept(blocks0, abm.blocks, mt[s], bad, i, second)
    }

    /** One entry's turn: the first sweep erases a block never written, the second one that was, with the
        device's verdict. */
    method SweepEntry(s: nat, i: nat, bad: seq<bool>, second: bool, ghost blocks0: seq<Block>, ghost lists0: ListHeads)
      requires Sweeping(s, i, bad, second, blocks0, lists0) && i < |mt[s]|
      modifies abm
      ensures Sweeping(s, i + 1, bad, second, blocks0, lists0)
    {
      hide BlocksOk, ListsOk, CountersOk, Relink, Holds, ChipFor, FreeLen, Swept, Returned;
      var seg := mt[s];
      ghost var view: seq<Segment> := mt[s := Dropped(seg, i, second)];
      SweptOne(blocks0, abm.blocks, seg, bad, i, second);
      DropStep(mt, s, i, second);
      if seg[i].blk.Some? && (seg[i].rw == -1) != second {
        ghost var lists := abm.lists;
        assert view[s][i].blk == seg[i].blk;
        hide Dropped;
        GiveBack(s, i, second && bad[i], view);
        ReturnOne(lists0, lists, abm.lists, g, seg, bad, i, second);
      } else {
        ReturnNone(lists0, abm.lists, g, seg, bad, i, second);
      }
    }

    /** Erase the blocks of a segment: those never written at once, the others with the device's
        verdict on each. */
    method EraseSegment(s: nat, bad: seq<bool>)
      requires Valid() && s < |mt| && |bad| == g.Punits()
      modifies abm
      ensures abm.Valid() && abm.nrPrepared == 0
      ensures Holds(abm.blocks, g, mt[s := Dropped(mt[s], |mt[s]|, true)])
      ensures Reclaimed(old(abm.blocks), abm.blocks, mt[s], bad) && FreedPerChip(old(abm.lists), abm.lists, g, mt[s], bad)
      ensures Allocated(mt[s]) && (forall i | 0 <= i < |bad| :: !bad[i]) ==>
                forall u | 0 <= u < g.Punits() :: FreeLen(abm.lists, u) == FreeLen(old(abm.lists), u) + 1
      ensures !Allocated(mt[s]) ==> forall u | 0 <= u < g.Punits() :: FreeLen(abm.lists, u) == FreeLen(old(abm.lists), u)
    {
      hide BlocksOk, ListsOk, CountersOk, Relink, Holds, ChipFor, FreeLen, CountersMatch, Swept, Apart, Returned, Dropped, Reclaimed, FreedPerChip;
      assert SegmentShape(mt[s], g) && AllOrNothing(mt[s]);
      hide TableShape;
      var seg := mt[s];
      EntriesApart(abm.blocks, g, mt, s);
      SweptNone(abm.blocks, seg, bad);
      ReturnedNone(abm.lists, g, seg, bad);
      assert mt[s := Dropped(seg, 0, false)] == mt by { NothingDropped(seg); assert mt[s := seg] == mt; }
      for i := 0 to |seg|
        invariant Sweeping(s, i, bad, false, old(abm.blocks), old(abm.lists))
      {
        SweepEntry(s, i, bad, false, old(abm.blocks), old(abm.lists));
      }
      BetweenSweeps(old(abm.lists), abm.lists, g, seg, bad);
      SweptTurn(old(abm.blocks), abm.blocks, seg, bad);
      for i := 0 to |seg|
        invariant Sweeping(s, i, bad, true, old(abm.blocks), old(abm.lists))
      {
        SweepEntry(s, i, bad, true, old(abm.blocks), old(abm.lists));
      }
      AllReturned(old(abm.lists), abm.lists, g, seg, bad);
      SweptAll(old(abm.blocks), abm.blocks, seg, bad);
    }

    /** Collect a segment. An allocated one becomes empty. For an unallocated one nothing is reset
        but the counters, so they agree with the page states exactly when no page was trimmed. */
    method DoGcSegment(s: nat, bad: seq<bool>)
      requires Valid() && s < |mt| && |bad| == g.Punits()
      modifies this`mt, this`nrValid, this`nrTrim, abm
      ensures |mt| == |old(mt)| && |nrTrim| == |old(nrTrim)| == |mt| == |nrValid| == |old(nrValid)|
      ensures nrTrim == old(nrTrim)[s := 0] && nrValid == old(nrValid)[s := 0]
      ensures Allocated(old(mt)[s]) ==> Valid() && mt == old(mt)[s := EmptySegment(g)]
      ensures !Allocated(old(mt)[s]) ==> mt == old(mt) && (Valid() <==> old(nrTrim)[s] == 0 && old(nrValid)[s] == 0)
      ensures Reclaimed(old(abm.blocks), abm.blocks, old(mt)[s], bad) && FreedPerChip(old(abm.lists), abm.lists, g, old(mt)[s], bad)
      ensures NoLosses(old(abm.lists), g, old(mt)) && (forall i | 0 <= i < |bad| :: !bad[i]) ==> NoLosses(abm.lists, g, mt)
    {
      hide BlocksOk, ListsOk, CountersOk, Holds, FreeLen, AllocatedSegs, CountersMatch, EmptySegment, FreshPst, Dropped, Reclaimed, FreedPerChip;
      MatchLengths(mt, nrValid, nrTrim);
      assert SegmentShape(mt[s], g) && AllOrNothing(mt[s]);
      EraseSegment(s, bad);
      ghost var was := mt;
      for i := 0 to g.Punits()
        invariant |mt| == |was| && mt == was[s := mt[s]] && |mt[s]| == |was[s]|
        invariant forall k | 0 <= k < |was[s]| ::
                    mt[s][k] == if k < i && was[s][k].blk.Some? then Entry(None, -1, FreshPst(g.pagesPerBlock)) else was[s][k]
        modifies this`mt
      {
        if mt[s][i].blk.Some? {
          mt := mt[s := mt[s][i := Entry(None, -1, FreshPst(g.pagesPerBlock))]];
        }
      }
      nrTrim := nrTrim[s := 0];
      nrValid := nrValid[s := 0];
      AllocatedUpdate(was, s, mt[s]);
      SegPositive(g);
      if Allocated(was[s]) {
        Emptied(was, mt, g, s);
        EmptiedOk(abm.blocks, was, g, s, old(nrValid), old(nrTrim));
      } else {
        assert mt[s] == was[s];
        assert mt == was;
        Untrimmed(abm.blocks, was, g, s, old(nrValid), old(nrTrim));
      }
    }

    /** The page an address is written to; the segment is allocated on its first write. A segment
        whose pages are all trimmed is collected, and the request then finds no block. */
    method GetFreePpa(lpa: nat, bad: seq<bool>) returns (r: Target)
      requires Valid() && SegOf(g, lpa) < |mt| && |bad| == g.Punits()
      modifies this`mt, this`nrValid, this`nrTrim, abm
      ensures r.NoBlock? <==>
                !Allocated(old(mt)[SegOf(g, lpa)]) && exists u :: 0 <= u < g.Punits() && FreeLen(old(abm.lists), u) == 0
      ensures NoLosses(old(abm.lists), g, old(mt)) ==> !r.NoBlock?
      ensures !r.NoBlock? ==> Valid() && (r.Dead? <==> old(nrTrim)[SegOf(g, lpa)] == PagesPerSeg(g))
      ensures r.At? ==>
                && Allocated(mt[SegOf(g, lpa)]) && BlkOf(g, lpa) < |mt[SegOf(g, lpa)]|
                && mt[SegOf(g, lpa)][BlkOf(g, lpa)].blk == Some(r.blk) && r.page == PgOf(g, lpa)
                && r.blk < |abm.blocks| && abm.blocks[r.blk].status.Clean? && abm.blocks[r.blk].punit == g.UnitAt(BlkOf(g, lpa))
                && nrTrim == old(nrTrim) && nrValid == old(nrValid)
                && |mt| == |old(mt)| && mt == old(mt)[SegOf(g, lpa) := mt[SegOf(g, lpa)]] && |mt[SegOf(g, lpa)]| == |old(mt)[SegOf(g, lpa)]|
                && (forall i | 0 <= i < |mt[SegOf(g, lpa)]| :: mt[SegOf(g, lpa)][i].pst == old(mt)[SegOf(g, lpa)][i].pst)
                && (if Allocated(old(mt)[SegOf(g, lpa)]) then mt == old(mt) && abm.blocks == old(abm.blocks) && abm.lists == old(abm.lists)
                    else Opened(old(abm.blocks), abm.blocks, mt[SegOf(g, lpa)]))
      ensures r.Dead? ==> |mt| == |old(mt)| && mt == old(mt)[SegOf(g, lpa) := EmptySegment(g)]
      ensures r.Dead? ==> nrTrim == old(nrTrim)[SegOf(g, lpa) := 0] && nrValid == old(nrValid)[SegOf(g, lpa) := 0]
      ensures r.Dead? && Allocated(old(mt)[SegOf(g, lpa)]) ==> Reclaimed(old(abm.blocks), abm.blocks, old(mt)[SegOf(g, lpa)], bad)
    {
      hide SegOf, BlkOf, PgOf, LpaOf, PagesPerSeg, BlocksOk, ListsOk, CountersOk, Holds, FreeLen, AllocatedSegs, CountersMatch, Opened, Reclaimed,
        EmptySegment, FreedPerChip;
      LpaSplits(g, lpa);
      var s := SegOf(g, lpa);
      assert |nrTrim| == |mt| by { MatchLengths(mt, nrValid, nrTrim); }
      var n := IsAllocated(s);
      SegPositive(g);
      if n == 0 {
        var ok := AllocateSegment(s);
        if !ok { return NoBlock; }
      }
      if nrTrim[s] == PagesPerSeg(g) {
        DoGcSegment(s, bad);
        return Dead;
      }
      assert SegmentShape(mt[s], g) && AllOrNothing(mt[s]);
      HeldBlock(abm.blocks, g, mt, s, BlkOf(g, lpa));
      r := At(mt[s][BlkOf(g, lpa)].blk.value, PgOf(g, lpa));
    }

    method TakeEntry(s: nat, i: nat, ghost was: Segment, ghost lists: ListHeads, ghost blocks0: seq<Block>) returns (ok: bool)
      requires g.Valid() && abm.Valid() && abm.g == g && abm.nrPrepared == 0 && s < |mt| && i < |mt[s]| == g.Punits()
      requires Taken(was, mt[s], i) && was[i].blk.None? && Holds(abm.blocks, g, mt) && Used(lists, abm.lists, g, i)
      requires Opened(blocks0, abm.blocks, mt[s])
      modifies this`mt, abm
      ensures abm.Valid() && abm.nrPrepared == 0
      ensures ok ==> |mt| == |old(mt)| && mt == old(mt)[s := mt[s]] && Taken(was, mt[s], i + 1) && Holds(abm.blocks, g, mt) && Used(lists, abm.lists, g, i + 1)
      ensures ok ==> Opened(blocks0, abm.blocks, mt[s])
      ensures !ok ==> exists u :: 0 <= u < g.Punits() && FreeLen(lists, u) == 0
    {
      hide BlocksOk, ListsOk, CountersOk, Relink, Holds, ChipFor, FreeLen, Opened;
      TurnRoundTrip(g, i);
      var u := (i % g.channels) * g.chips + i / g.channels;
      assert u == ChipFor(g, i) < g.Punits() by { UnitIs(g, i); }
      ghost var blocks, before := abm.blocks, abm.lists;
      var b := abm.TakeFreeBlock(u);
      if b.None? {
        assert FreeLen(lists, u) == 0;
        return false;
      }
      TakeHolds(blocks, g, mt, s, i, b.value);
      OpenedOne(blocks0, blocks, mt[s], i, b.value);
      mt := mt[s := mt[s][i := Entry(b, -1, mt[s][i].pst)]];
      UsedOne(lists, before, abm.lists, g, i);
      ok := true;
    }
  }

  /** The segment holds block b. */
  ghost predicate Names(seg: Segment, b: nat) {
    exists i :: 0 <= i < |seg| && seg[i].blk == Some(b)
  }

  /** The segment's blocks were FREE and are CLEAN; no other block has changed. */
  ghost predicate Opened(blocks0: seq<Block>, blocks: seq<Block>, seg: Segment) {
    && |blocks| == |blocks0|
    && forall b: nat | b < |blocks| ::
         if Names(seg, b) then blocks0[b].status.Free? && blocks[b] == blocks0[b].(status := Clean) else blocks[b] == blocks0[b]
  }

  lemma {:induction false} OpenedNone(blocks: seq<Block>, seg: Segment)
    requires forall i | 0 <= i < |seg| :: seg[i].blk.None?
    ensures Opened(blocks, blocks, seg)
  {
  }

  lemma {:induction false} OpenedOne(blocks0: seq<Block>, blocks: seq<Block>, seg: Segment, i: nat, x: nat)
    requires Opened(blocks0, blocks, seg) && i < |seg| && seg[i].blk.None? && x < |blocks| && blocks[x].status.Free?
    ensures Opened(blocks0, blocks[x := blocks[x].(status := Clean)], seg[i := Entry(Some(x), -1, seg[i].pst)])
  {
    var blocks', seg' := blocks[x := blocks[x].(status := Clean)], seg[i := Entry(Some(x), -1, seg[i].pst)];
    assert seg'[i].blk == Some(x);
    forall b: nat | b < |blocks| ensures Names(seg', b) <==> b == x || Names(seg, b) {
      if k :| 0 <= k < |seg| && seg[k].blk == Some(b) { assert seg'[k].blk == Some(b); }
    }
  }

  /** The first i entries have been given blocks. */
  predicate Taken(was: Segment, seg: Segment, i: nat) {
    && |seg| == |was|
    && forall k | 0 <= k < |was| ::
         seg[k].pst == was[k].pst && if k < i then seg[k].blk.Some? && seg[k].rw == -1 else seg[k] == was[k]
  }

  /** The first i chips have lost one free block each. */
  ghost predicate Used(lists: ListHeads, lists': ListHeads, g: Geometry, i: nat)
    requires g.Valid()
  {
    forall t | 0 <= t < g.Punits() ::
      && FreeLen(lists', ChipFor(g, t)) == FreeLen(lists, ChipFor(g, t)) - (if t < i then 1 else 0)
  }

  lemma {:induction false} UsedOne(lists: ListHeads, before: ListHeads, after: ListHeads, g: Geometry, i: nat)
    requires g.Valid() && i < g.Punits() && Used(lists, before, g, i)
    requires FreeLen(after, ChipFor(g, i)) == FreeLen(before, ChipFor(g, i)) - 1
    requires forall v | 0 <= v < g.Punits() && v != ChipFor(g, i) :: FreeLen(after, v) == FreeLen(before, v)
    ensures Used(lists, after, g, i + 1)
  {
    hide ChipFor, FreeLen;
    OtherTurns(g, i);
  }

  lemma {:induction false} BeginAllocation(was: Segment, g: Geometry, lists: ListHeads)
    requires g.Valid() && SegmentShape(was, g) && AllOrNothing(was) && !Allocated(was)
    ensures Taken(was, was, 0) && Used(lists, lists, g, 0) && forall i | 0 <= i < |was| :: was[i].blk.None?
  {
  }

  lemma {:induction false} EndAllocation(was: seq<Segment>, mt: seq<Segment>, g: Geometry, s: nat, lists: ListHeads, lists': ListHeads)
    requires g.Valid() && s < |was| && TableShape(g, was) && |mt| == |was| && mt == was[s := mt[s]]
    requires forall t | 0 <= t < |was| :: AllOrNothing(was[t])
    requires Taken(was[s], mt[s], g.Punits()) && Used(lists, lists', g, g.Punits())
    ensures TableShape(g, mt) && Allocated(mt[s]) && forall t | 0 <= t < |mt| :: AllOrNothing(mt[t])
    ensures forall u | 0 <= u < g.Punits() :: FreeLen(lists, u) > 0 && FreeLen(lists', u) == FreeLen(lists, u) - 1
  {
    SegPositive(g);
    hide FreeLen;
    assert SegmentShape(was[s], g);
    assert SegmentShape(mt[s], g) && AllOrNothing(mt[s]);
    EveryUnit(g);
    hide ChipFor;
    forall u | 0 <= u < g.Punits() ensures FreeLen(lists, u) > 0 && FreeLen(lists', u) == FreeLen(lists, u) - 1 {
      var t := g.TurnOf(u);
      assert ChipFor(g, t) == u;
    }
  }

  /** Setting the state of one page, and the counters that follow. */
  lemma {:induction false} SetPageOk(blocks: seq<Block>, g: Geometry, mt: seq<Segment>, nrValid: seq<nat>, nrTrim: seq<nat>,
                                     s: nat, i: nat, e: Entry, p: nat, x: PageState)
    requires g.Valid() && TableShape(g, mt) && (forall t | 0 <= t < |mt| :: AllOrNothing(mt[t])) && Holds(blocks, g, mt)
    requires CountersMatch(mt, nrValid, nrTrim) && Within(mt, s, i) && p < g.pagesPerBlock && x != PgFree
    requires |mt[s][i].pst| == g.pagesPerBlock && e.blk == mt[s][i].blk && e.pst == mt[s][i].pst[p := x]
    ensures |nrValid| == |mt| == |nrTrim|
    ensures var mt' := mt[s := mt[s][i := e]];
            && TableShape(g, mt') && (forall t | 0 <= t < |mt| :: AllOrNothing(mt'[t])) && Holds(blocks, g, mt')
            && (mt[s][i].pst[p].PgFree? && x.PgValid? ==> CountersMatch(mt', nrValid[s := nrValid[s] + 1], nrTrim))
            && (mt[s][i].pst[p].PgFree? && x.PgInvalid? ==> CountersMatch(mt', nrValid, nrTrim[s := nrTrim[s] + 1]))
            && (mt[s][i].pst[p].PgValid? ==> nrValid[s] > 0)
            && (mt[s][i].pst[p].PgValid? && x.PgInvalid? ==> CountersMatch(mt', nrValid[s := nrValid[s] - 1], nrTrim[s := nrTrim[s] + 1]))
  {
    var mt' := mt[s := mt[s][i := e]];
    assert SegmentShape(mt[s], g) && AllOrNothing(mt[s]);
    assert SegmentShape(mt'[s], g) && AllOrNothing(mt'[s]);
    SameHolds(blocks, g, mt, mt');
    hide Holds, EntryOk;
    PageChange(mt[s], i, e, p, x, PgValid);
    PageChange(mt[s], i, e, p, x, PgInvalid);
  }

  // ---- erasing a segment ----------------------------------------------------------------------------

  /** Entry i has been given back: in the first sweep those never written, in the second the others. */
  predicate Gone(seg: Segment, i: int, n: nat, second: bool)
    requires 0 <= i < |seg|
  {
    if second then seg[i].rw == -1 || i < n else seg[i].rw == -1 && i < n
  }

  /** The segment without the entries given back so far. */
  function Dropped(seg: Segment, n: nat, second: bool): Segment {
    seq(|seg|, i requires 0 <= i < |seg| => if Gone(seg, i, n, second) then seg[i].(blk := None) else seg[i])
  }

  lemma {:induction false} NothingDropped(seg: Segment)
    ensures Dropped(seg, 0, false) == seg
  {
  }

  lemma {:induction false} DropStep(mt: seq<Segment>, s: nat, i: nat, second: bool)
    requires Within(mt, s, i)
    ensures var seg, d := mt[s], Dropped(mt[s], i, second);
            && Dropped(seg, i + 1, second)
                 == (if (seg[i].rw == -1) != second && seg[i].blk.Some? then d[i := d[i].(blk := None)] else d)
            && mt[s := Dropped(seg, i + 1, second)] == mt[s := d][s := Dropped(seg, i + 1, second)]
            && mt[s := d][s] == d
  {
  }

  /** Free blocks per chip part way through. */
  ghost predicate Returned(lists: ListHeads, lists': ListHeads, g: Geometry, seg: Segment, bad: seq<bool>, n: nat, second: bool)
    requires g.Valid()
  {
    && |seg| == g.Punits() == |bad|
    && forall t | 0 <= t < |seg| ::
         FreeLen(lists', ChipFor(g, t)) == FreeLen(lists, ChipFor(g, t))
           + if seg[t].blk.Some? && Gone(seg, t, n, second) && (seg[t].rw == -1 || !bad[t]) then 1 else 0
  }

  /** Every chip has one more free block if its block of the segment was erased well, and none otherwise. */
  ghost predicate FreedPerChip(lists: ListHeads, lists': ListHeads, g: Geometry, seg: Segment, bad: seq<bool>)
    requires g.Valid()
  {
    && |seg| == g.Punits() == |bad|
    && forall t | 0 <= t < |seg| ::
         FreeLen(lists', ChipFor(g, t)) == FreeLen(lists, ChipFor(g, t)) + if seg[t].blk.Some? && !Failed(seg, bad, t) then 1 else 0
  }

  /** The device was asked to erase the block of entry i, and could not. */
  predicate Failed(seg: Segment, bad: seq<bool>, i: int)
    requires 0 <= i < |seg| == |bad|
  {
    seg[i].rw != -1 && bad[i]
  }

  /** Each block of the segment has been erased and is BAD if the device said so, FREE otherwise; no
      other block has changed. */
  ghost predicate Reclaimed(blocks0: seq<Block>, blocks: seq<Block>, seg: Segment, bad: seq<bool>) {
    && |blocks| == |blocks0| && |seg| == |bad|
    && (forall i | 0 <= i < |seg| && seg[i].blk.Some? ::
          var b := seg[i].blk.value;
          && b < |blocks| && blocks[b].status == (if Failed(seg, bad, i) then Bad else Free)
          && blocks[b].punit == blocks0[b].punit && blocks[b].eraseCount == blocks0[b].eraseCount + 1)
    && forall b: nat | b < |blocks| && !Names(seg, b) :: blocks[b] == blocks0[b]
  }

  ghost predicate Apart(seg: Segment, n: nat) {
    && (forall i | 0 <= i < |seg| && seg[i].blk.Some? :: seg[i].blk.value < n)
    && forall i, k | 0 <= i < k < |seg| && seg[i].blk.Some? :: seg[i].blk != seg[k].blk
  }

  lemma {:induction false} EntriesApart(blocks: seq<Block>, g: Geometry, mt: seq<Segment>, s: nat)
    requires g.Valid() && s < |mt| && Holds(blocks, g, mt)
    ensures Apart(mt[s], |blocks|)
  {
    hide ChipFor;
    forall i | 0 <= i < |mt[s]| && mt[s][i].blk.Some? ensures mt[s][i].blk.value < |blocks| {
      assert Within(mt, s, i);
      assert EntryOk(blocks, g, mt[s][i], i);
    }
    forall i, k | 0 <= i < k < |mt[s]| && mt[s][i].blk.Some? ensures mt[s][i].blk != mt[s][k].blk {
      assert Within(mt, s, i) && Within(mt, s, k);
    }
  }

  /** The block table part way through the two sweeps. */
  ghost predicate Swept(blocks0: seq<Block>, blocks: seq<Block>, seg: Segment, bad: seq<bool>, n: nat, second: bool) {
    && |blocks| == |blocks0| && |seg| == |bad| && Apart(seg, |blocks|)
    && (forall i | 0 <= i < |seg| && seg[i].blk.Some? ::
          var b := seg[i].blk.value;
          blocks[b] == if Gone(seg, i, n, second) then EraseIn(blocks0[b], Failed(seg, bad, i)) else blocks0[b])
    && forall b: nat | b < |blocks| && !Names(seg, b) :: blocks[b] == blocks0[b]
  }

  lemma {:induction false} SweptNone(blocks: seq<Block>, seg: Segment, bad: seq<bool>)
    requires Apart(seg, |blocks|) && |seg| == |bad|
    ensures Swept(blocks, blocks, seg, bad, 0, false)
  {
  }

  lemma {:induction false} SweptTurn(blocks0: seq<Block>, blocks: seq<Block>, seg: Segment, bad: seq<bool>)
    requires Swept(blocks0, blocks, seg, bad, |seg|, false)
    ensures Swept(blocks0, blocks, seg, bad, 0, true)
  {
  }

  /** One more entry: erased if it is its sweep's, untouched otherwise. */
  lemma {:induction false} SweptOne(blocks0: seq<Block>, blocks: seq<Block>, seg: Segment, bad: seq<bool>, i: nat, second: bool)
    requires Swept(blocks0, blocks, seg, bad, i, second) && i < |seg|
    ensures if seg[i].blk.Some? && ((seg[i].rw == -1) != second) then
              && seg[i].blk.value < |blocks|
              && Swept(blocks0, blocks[seg[i].blk.value := EraseIn(blocks[seg[i].blk.value], second && bad[i])], seg, bad, i + 1, second)
            else Swept(blocks0, blocks, seg, bad, i + 1, second)
  {
    hide EraseIn;
    if seg[i].blk.Some? && ((seg[i].rw == -1) != second) {
      var x := seg[i].blk.value;
      assert Names(seg, x);
      var blocks' := blocks[x := EraseIn(blocks[x], second && bad[i])];
      forall k | 0 <= k < |seg| && seg[k].blk.Some?
        ensures blocks'[seg[k].blk.value] ==
                if Gone(seg, k, i + 1, second) then EraseIn(blocks0[seg[k].blk.value], Failed(seg, bad, k)) else blocks0[seg[k].blk.value]
      {
        if k < i { assert seg[k].blk != seg[i].blk; }
        if i < k { assert seg[i].blk != seg[k].blk; }
      }
    }
  }

  lemma {:induction false} SweptAll(blocks0: seq<Block>, blocks: seq<Block>, seg: Segment, bad: seq<bool>)
    requires Swept(blocks0, blocks, seg, bad, |seg|, true)
    ensures Reclaimed(blocks0, blocks, seg, bad)
  {
  }

  lemma {:induction false} ReturnedNone(lists: ListHeads, g: Geometry, seg: Segment, bad: seq<bool>)
    requires g.Valid() && |seg| == g.Punits() == |bad|
    ensures Returned(lists, lists, g, seg, bad, 0, false)
  {
  }

  lemma {:induction false} ReturnOne(lists: ListHeads, before: ListHeads, after: ListHeads, g: Geometry, seg: Segment,
                                     bad: seq<bool>, i: nat, second: bool)
    requires g.Valid() && Returned(lists, before, g, seg, bad, i, second) && i < |seg|
    requires seg[i].blk.Some? && ((seg[i].rw == -1) != second) && ChipFor(g, i) < g.Punits()
    requires forall u | 0 <= u < g.Punits() ::
               FreeLen(after, u) == FreeLen(before, u) + if u == ChipFor(g, i) && !(bad[i] && second) then 1 else 0
    ensures Returned(lists, after, g, seg, bad, i + 1, second)
  {
    hide ChipFor, FreeLen;
    OtherTurns(g, i);
  }

  lemma {:induction false} ReturnNone(lists: ListHeads, lists': ListHeads, g: Geometry, seg: Segment, bad: seq<bool>, i: nat, second: bool)
    requires g.Valid() && Returned(lists, lists', g, seg, bad, i, second) && i < |seg|
    requires seg[i].blk.None? || ((seg[i].rw == -1) == second)
    ensures Returned(lists, lists', g, seg, bad, i + 1, second)
  {
    hide ChipFor, FreeLen;
  }

  lemma {:induction false} BetweenSweeps(lists: ListHeads, lists': ListHeads, g: Geometry, seg: Segment, bad: seq<bool>)
    requires g.Valid() && Returned(lists, lists', g, seg, bad, |seg|, false)
    ensures Returned(lists, lists', g, seg, bad, 0, true) && Dropped(seg, |seg|, false) == Dropped(seg, 0, true)
  {
    hide ChipFor, FreeLen;
  }

  lemma {:induction false} AllReturned(lists: ListHeads, lists': ListHeads, g: Geometry, seg: Segment, bad: seq<bool>)
    requires g.Valid() && Returned(lists, lists', g, seg, bad, |seg|, true) && AllOrNothing(seg)
    ensures FreedPerChip(lists, lists', g, seg, bad)
    ensures Allocated(seg) && (forall i | 0 <= i < |bad| :: !bad[i]) ==>
              forall u | 0 <= u < g.Punits() :: FreeLen(lists', u) == FreeLen(lists, u) + 1
    ensures !Allocated(seg) ==> forall u | 0 <= u < g.Punits() :: FreeLen(lists', u) == FreeLen(lists, u)
  {
    EveryUnit(g);
    hide ChipFor, FreeLen;
    forall u | 0 <= u < g.Punits()
      ensures Allocated(seg) && (forall i | 0 <= i < |bad| :: !bad[i]) ==> FreeLen(lists', u) == FreeLen(lists, u) + 1
      ensures !Allocated(seg) ==> FreeLen(lists', u) == FreeLen(lists, u)
    {
      var t := g.TurnOf(u);
      assert ChipFor(g, t) == u;
    }
  }

  lemma {:induction false} MatchLengths(mt: seq<Segment>, nrValid: seq<nat>, nrTrim: seq<nat>)
    requires CountersMatch(mt, nrValid, nrTrim)
    ensures |nrValid| == |mt| == |nrTrim|
  {
  }

  lemma {:induction false} Emptied(was: seq<Segment>, mt: seq<Segment>, g: Geometry, s: nat)
    requires s < |was| == |mt| && mt == was[s := mt[s]] && |mt[s]| == g.Punits()
    requires forall k | 0 <= k < |mt[s]| :: mt[s][k] == Entry(None, -1, FreshPst(g.pagesPerBlock))
    ensures mt == was[s := EmptySegment(g)]
  {
    hide FreshPst;
    assert mt[s] == EmptySegment(g);
  }

  /** A table with one segment emptied, its blocks having been given back. */
  lemma {:induction false} EmptiedOk(blocks: seq<Block>, was: seq<Segment>, g: Geometry, s: nat, nrValid: seq<nat>, nrTrim: seq<nat>)
    requires g.Valid() && TableShape(g, was) && (forall t | 0 <= t < |was| :: AllOrNothing(was[t])) && s < |was|
    requires Holds(blocks, g, was[s := Dropped(was[s], |was[s]|, true)]) && CountersMatch(was, nrValid, nrTrim)
    ensures var mt := was[s := EmptySegment(g)];
            && TableShape(g, mt) && (forall t | 0 <= t < |mt| :: AllOrNothing(mt[t])) && Holds(blocks, g, mt)
            && !Allocated(mt[s]) && CountersMatch(mt, nrValid[s := 0], nrTrim[s := 0])
  {
    var mt := was[s := EmptySegment(g)];
    assert SegmentShape(was[s], g);
    assert SegmentShape(mt[s], g) && AllOrNothing(mt[s]);
    SameHolds(blocks, g, was[s := Dropped(was[s], |was[s]|, true)], mt);
    FreshSegment(EmptySegment(g), g.pagesPerBlock);
  }

  /** Zeroing the counters of an unallocated segment is right only if they were zero. */
  lemma {:induction false} Untrimmed(blocks: seq<Block>, was: seq<Segment>, g: Geometry, s: nat, nrValid: seq<nat>, nrTrim: seq<nat>)
    requires g.Valid() && s < |was| && CountersMatch(was, nrValid, nrTrim) && AllOrNothing(was[s]) && !Allocated(was[s])
    requires Holds(blocks, g, was[s := Dropped(was[s], |was[s]|, true)])
    ensures Holds(blocks, g, was)
    ensures CountersMatch(was, nrValid[s := 0], nrTrim[s := 0]) <==> nrTrim[s] == 0 && nrValid[s] == 0
  {
    SameHolds(blocks, g, was[s := Dropped(was[s], |was[s]|, true)], was);
    hide CountPages;
    if nrTrim[s] == 0 && nrValid[s] == 0 { assert nrTrim[s := 0] == nrTrim && nrValid[s := 0] == nrValid; }
    if CountersMatch(was, nrValid[s := 0], nrTrim[s := 0]) {
      assert nrTrim[s := 0][s] == CountPages(was[s], PgInvalid) && nrValid[s := 0][s] == CountPages(was[s], PgValid);
    }
  }

  lemma {:induction false} HeldBlock(blocks: seq<Block>, g: Geometry, mt: seq<Segment>, s: nat, i: nat)
    requires g.Valid() && Holds(blocks, g, mt) && Within(mt, s, i) && mt[s][i].blk.Some? && i < g.Punits()
    ensures mt[s][i].blk.value < |blocks| && blocks[mt[s][i].blk.value].status.Clean?
    ensures blocks[mt[s][i].blk.value].punit == ChipFor(g, i) < g.Punits()
  {
    assert EntryOk(blocks, g, mt[s][i], i);
    TurnRoundTrip(g, i);
  }

  lemma {:induction false} UnitIs(g: Geometry, i: nat)
    requires g.Valid() && i < g.Punits()
    ensures ChipFor(g, i) == (i % g.channels) * g.chips + i / g.channels
  {
  }

  lemma {:induction false} OtherTurns(g: Geometry, i: nat)
    requires g.Valid() && i < g.Punits()
    ensures forall t | 0 <= t < g.Punits() && t != i :: ChipFor(g, t) != ChipFor(g, i) && ChipFor(g, t) < g.Punits()
  {
    TurnRoundTrip(g, i);
    forall t | 0 <= t < g.Punits() && t != i ensures ChipFor(g, t) != ChipFor(g, i) && ChipFor(g, t) < g.Punits() { TurnRoundTrip(g, t); }
  }

  lemma {:induction false} EveryUnit(g: Geometry)
    requires g.Valid()
    ensures forall u | 0 <= u < g.Punits() :: g.TurnOf(u) < g.Punits() && ChipFor(g, g.TurnOf(u)) == u
  {
    forall u | 0 <= u < g.Punits() ensures g.TurnOf(u) < g.Punits() && ChipFor(g, g.TurnOf(u)) == u { UnitRoundTrip(g, u); }
  }

  lemma {:induction false} NothingAllocated(mt: seq<Segment>)
    requires forall s | 0 <= s < |mt| :: !Allocated(mt[s])
    ensures AllocatedSegs(mt) == 0
  {
    if mt != [] { NothingAllocated(mt[1..]); }
  }

  lemma {:induction false} AllocatedCounters(mt: seq<Segment>, mt': seq<Segment>, nrValid: seq<nat>, nrTrim: seq<nat>, s: nat)
    requires CountersMatch(mt, nrValid, nrTrim) && |mt'| == |mt| && s < |mt| && |mt'[s]| == |mt[s]|
    requires forall t | 0 <= t < |mt| && t != s :: mt'[t] == mt[t]
    requires forall i | 0 <= i < |mt[s]| :: mt'[s][i].pst == mt[s][i].pst
    ensures CountersMatch(mt', nrValid, nrTrim)
  {
    SamePages(mt[s], mt'[s], PgValid);
    SamePages(mt[s], mt'[s], PgInvalid);
  }
}
