/** The page-level mapping table against the block table and the flash contents. */
module Mapping {
  import opened Nand

  datatype EntryStatus = NotAllocated | Mapped | Unmapped

  datatype Entry = Entry(status: EntryStatus, loc: Loc)

  type Table = seq<Entry>

  // ---- the global mapping invariant -----------------------------------------------

  /** `loc` was handed out since its block was last erased, and is not invalid.
      `wp[b]` counts the subpages of block b handed out since its last erase. */
  predicate Live(blocks: seq<Block>, wp: seq<nat>, loc: Loc)
    requires |wp| == |blocks|
  {
    && 0 <= loc.blk < |blocks|
    && 0 <= loc.off < wp[loc.blk] <= |blocks[loc.blk].pst|
    && blocks[loc.blk].pst[loc.off].NotInvalid?
  }

  /** `loc` is the subpage of the LPA that its OOB names. */
  predicate Homed(mt: Table, flash: Flash, loc: Loc) {
    && loc in flash
    && 0 <= flash[loc].oob < |mt|
    && mt[flash[loc].oob] == Entry(Mapped, loc)
  }

  /** LPA `l` points at a live subpage whose OOB names it. */
  predicate EntryOk(blocks: seq<Block>, mt: Table, flash: Flash, wp: seq<nat>, l: int)
    requires |wp| == |blocks| && 0 <= l < |mt|
  {
    mt[l].status.Mapped? ==>
      Live(blocks, wp, mt[l].loc) && mt[l].loc in flash && flash[mt[l].loc].oob == l
  }

  predicate Unused(blocks: seq<Block>, wp: seq<nat>, loc: Loc)
    requires |wp| == |blocks|
  {
    0 <= loc.blk < |blocks| && wp[loc.blk] <= loc.off < |blocks[loc.blk].pst|
  }

  predicate Erased(blocks: seq<Block>, flash: Flash, loc: Loc)
    requires 0 <= loc.blk < |blocks| && 0 <= loc.off < |blocks[loc.blk].pst|
  {
    && blocks[loc.blk].pst[loc.off].NotInvalid?
    && (!blocks[loc.blk].status.Bad? ==> loc !in flash)
  }

  ghost predicate PointersOk(blocks: seq<Block>, wp: seq<nat>) {
    && |wp| == |blocks|
    && forall b | 0 <= b < |blocks| ::
         wp[b] <= |blocks[b].pst| && (!InUse(blocks[b]) ==> wp[b] == 0)
  }

  ghost predicate EntriesOk(blocks: seq<Block>, mt: Table, flash: Flash, wp: seq<nat>)
    requires |wp| == |blocks|
  {
    forall l | 0 <= l < |mt| :: EntryOk(blocks, mt, flash, wp, l)
  }

  ghost predicate LiveOk(blocks: seq<Block>, mt: Table, flash: Flash, wp: seq<nat>)
    requires |wp| == |blocks|
  {
    forall loc | Live(blocks, wp, loc) :: Homed(mt, flash, loc)
  }

  ghost predicate FreshOk(blocks: seq<Block>, flash: Flash, wp: seq<nat>)
    requires |wp| == |blocks|
  {
    forall loc | Unused(blocks, wp, loc) :: Erased(blocks, flash, loc)
  }

  ghost predicate MapInv(blocks: seq<Block>, mt: Table, flash: Flash, wp: seq<nat>) {
    && PointersOk(blocks, wp)
    && EntriesOk(blocks, mt, flash, wp)
    && LiveOk(blocks, mt, flash, wp)
    && FreshOk(blocks, flash, wp)
  }

  /** The host's view: the data behind every mapped LPA. */
  function Logical(mt: Table, flash: Flash): map<int, Data> {
    map l | 0 <= l < |mt| && mt[l].status.Mapped? && mt[l].loc in flash :: flash[mt[l].loc].data
  }

  /** Two mapped LPAs never share a physical subpage. */
  lemma {:induction false} NoSharing(blocks: seq<Block>, mt: Table, flash: Flash, wp: seq<nat>, l: int, m: int)
    requires MapInv(blocks, mt, flash, wp)
    requires 0 <= l < |mt| && mt[l].status.Mapped?
    requires 0 <= m < |mt| && mt[m].status.Mapped?
    requires mt[l].loc == mt[m].loc
    ensures l == m
  {
    assert EntryOk(blocks, mt, flash, wp, l) && EntryOk(blocks, mt, flash, wp, m);
  }

  /** A mapped LPA's subpage is live, lies in a CLEAN or DIRTY block and names the LPA in its OOB. */
  lemma {:induction false} MappedInUse(blocks: seq<Block>, mt: Table, flash: Flash, wp: seq<nat>, l: int)
    requires MapInv(blocks, mt, flash, wp) && 0 <= l < |mt| && mt[l].status.Mapped?
    ensures InRange(blocks, mt[l].loc) && InUse(blocks[mt[l].loc.blk]) && blocks[mt[l].loc.blk].pst[mt[l].loc.off].NotInvalid?
    ensures mt[l].loc in flash && flash[mt[l].loc].oob == l
  {
    assert EntryOk(blocks, mt, flash, wp, l);
  }

  /** A subpage that was handed out and is not invalid belongs to exactly one LPA. */
  lemma {:induction false} LiveHasOneOwner(blocks: seq<Block>, mt: Table, flash: Flash, wp: seq<nat>, loc: Loc) returns (l: int)
    requires MapInv(blocks, mt, flash, wp) && Live(blocks, wp, loc)
    ensures 0 <= l < |mt| && mt[l] == Entry(Mapped, loc) && loc in flash && flash[loc].oob == l
    ensures forall m | 0 <= m < |mt| && mt[m] == Entry(Mapped, loc) :: m == l
  {
    assert Homed(mt, flash, loc);
    l := flash[loc].oob;
    forall m | 0 <= m < |mt| && mt[m] == Entry(Mapped, loc) ensures m == l { NoSharing(blocks, mt, flash, wp, l, m); }
  }

  // ---- one subpage of a write -------------------------------------------------------

  /** One subpage of a write request: its LPA (-1 marks padding) and its data. */
  datatype Slot = Slot(lpa: int, data: Data)

  /** One turn of the loop in h4h_page_ftl_map_lpa_to_ppa. */
  function MapSlot(blocks: seq<Block>, mt: Table, loc: Loc, lpa: int): (seq<Block>, Table) {
    if !(0 <= lpa < |mt|) then (InvalidateAt(blocks, loc), mt)
    else
      (if mt[lpa].status.Mapped? then InvalidateAt(blocks, mt[lpa].loc) else blocks,
       mt[lpa := Entry(Mapped, loc)])
  }

  /** The whole loop: consecutive subpages from `loc` on. */
  function MapSlots(blocks: seq<Block>, mt: Table, loc: Loc, slots: seq<Slot>): (seq<Block>, Table)
    decreases |slots|
  {
    if slots == [] then (blocks, mt)
    else
      var r := MapSlot(blocks, mt, loc, slots[0].lpa);
      MapSlots(r.0, r.1, Loc(loc.blk, loc.off + 1), slots[1..])
  }

  /** Programming consecutive subpages from `loc` on, data and OOB together. */
  function Program(flash: Flash, loc: Loc, slots: seq<Slot>): Flash
    decreases |slots|
  {
    if slots == [] then flash
    else
      Program(flash[loc := Cell(slots[0].data, slots[0].lpa)], Loc(loc.blk, loc.off + 1), slots[1..])
  }

  /** What a write request means to the host. */
  function Store(m: map<int, Data>, slots: seq<Slot>): map<int, Data>
    decreases |slots|
  {
    if slots == [] then m
    else Store(if slots[0].lpa == -1 then m else m[slots[0].lpa := slots[0].data], slots[1..])
  }

  /** What a request of several pages means to the host. */
  function StorePages(m: map<int, Data>, pages: seq<seq<Slot>>): map<int, Data> {
    if pages == [] then m else Store(StorePages(m, pages[..|pages| - 1]), pages[|pages| - 1])
  }

  lemma {:induction false} InvalidatePointers(blocks: seq<Block>, wp: seq<nat>, loc: Loc)
    requires PointersOk(blocks, wp) && InRange(blocks, loc) && InUse(blocks[loc.blk])
    ensures PointersOk(InvalidateAt(blocks, loc), wp)
  {
  }

  /** Handing out the next subpage of block b as padding. */
  lemma {:induction false} PadStep(blocks: seq<Block>, mt: Table, flash: Flash, wp: seq<nat>, b: int, d: Data)
    requires MapInv(blocks, mt, flash, wp)
    requires 0 <= b < |blocks| && InUse(blocks[b]) && wp[b] < |blocks[b].pst|
    ensures MapInv(InvalidateAt(blocks, Loc(b, wp[b])), mt, flash[Loc(b, wp[b]) := Cell(d, -1)], wp[b := wp[b] + 1])
    ensures Logical(mt, flash[Loc(b, wp[b]) := Cell(d, -1)]) == Logical(mt, flash)
  {
    var loc := Loc(b, wp[b]);
    var blocks', flash', wp' := InvalidateAt(blocks, loc), flash[loc := Cell(d, -1)], wp[b := wp[b] + 1];
    assert Unused(blocks, wp, loc);
    assert loc !in flash;
    forall l | 0 <= l < |mt| ensures EntryOk(blocks', mt, flash', wp', l)
                             ensures mt[l].status.Mapped? ==> mt[l].loc != loc {
      assert EntryOk(blocks, mt, flash, wp, l);
    }
    forall x | Live(blocks', wp', x) ensures Homed(mt, flash', x) {
      assert x != loc && Live(blocks, wp, x);
    }
    forall x | Unused(blocks', wp', x) ensures Erased(blocks', flash', x) {
      assert x != loc && Unused(blocks, wp, x);
    }
    InvalidatePointers(blocks, wp, loc);
  }

  lemma {:induction false} TrimStep(blocks: seq<Block>, mt: Table, flash: Flash, wp: seq<nat>, lpa: int)
    requires MapInv(blocks, mt, flash, wp)
    requires 0 <= lpa < |mt| && mt[lpa].status.Mapped?
    ensures InRange(blocks, mt[lpa].loc) && InUse(blocks[mt[lpa].loc.blk])
    ensures var mt' := mt[lpa := mt[lpa].(status := Unmapped)];
            && MapInv(InvalidateAt(blocks, mt[lpa].loc), mt', flash, wp)
            && Logical(mt', flash) == Logical(mt, flash) - {lpa}
  {
    assert EntryOk(blocks, mt, flash, wp, lpa);
    var loc := mt[lpa].loc;
    var blocks', mt' := InvalidateAt(blocks, loc), mt[lpa := mt[lpa].(status := Unmapped)];
    forall l | 0 <= l < |mt'| ensures EntryOk(blocks', mt', flash, wp, l) {
      assert EntryOk(blocks, mt, flash, wp, l);
    }
    forall x | Live(blocks', wp, x) ensures Homed(mt', flash, x) {
      assert x != loc && Live(blocks, wp, x) && Homed(mt, flash, x);
    }
    forall x | Unused(blocks', wp, x) ensures Erased(blocks', flash, x) {
      assert Unused(blocks, wp, x);
    }
    InvalidatePointers(blocks, wp, loc);
  }

  lemma {:induction false} NotMapped(mt: Table, flash: Flash, l: int)
    requires 0 <= l < |mt| ==> !mt[l].status.Mapped?
    ensures Logical(mt, flash) - {l} == Logical(mt, flash)
  {
  }

  /** Handing out the next subpage of block b to an LPA that is not mapped. */
  lemma {:induction false} MapFresh(blocks: seq<Block>, mt: Table, flash: Flash, wp: seq<nat>, b: int, lpa: int, d: Data)
    requires MapInv(blocks, mt, flash, wp)
    requires 0 <= b < |blocks| && InUse(blocks[b]) && wp[b] < |blocks[b].pst|
    requires 0 <= lpa < |mt| && !mt[lpa].status.Mapped?
    ensures var mt', flash' := mt[lpa := Entry(Mapped, Loc(b, wp[b]))], flash[Loc(b, wp[b]) := Cell(d, lpa)];
            && MapInv(blocks, mt', flash', wp[b := wp[b] + 1])
            && Logical(mt', flash') == Logical(mt, flash)[lpa := d]
  {
    var loc := Loc(b, wp[b]);
    var mt', flash', wp' := mt[lpa := Entry(Mapped, loc)], flash[loc := Cell(d, lpa)], wp[b := wp[b] + 1];
    assert Unused(blocks, wp, loc);
    assert Erased(blocks, flash, loc) && loc !in flash;
    forall l | 0 <= l < |mt'| ensures EntryOk(blocks, mt', flash', wp', l)
                              ensures mt[l].status.Mapped? ==> mt[l].loc in flash && mt[l].loc != loc {
      assert EntryOk(blocks, mt, flash, wp, l);
    }
    forall x | Live(blocks, wp', x) ensures Homed(mt', flash', x) {
      if x != loc { assert Live(blocks, wp, x) && Homed(mt, flash, x); }
    }
    forall x | Unused(blocks, wp', x) ensures Erased(blocks, flash', x) {
      assert x != loc && Unused(blocks, wp, x);
    }
  }

  lemma {:induction false} Overwrite(m: map<int, Data>, k: int, v: Data)
    ensures (m - {k})[k := v] == m[k := v]
  {
  }

  /** Handing out the next subpage of block b to any LPA: its old subpage becomes invalid. */
  lemma {:induction false} MapStep(blocks: seq<Block>, mt: Table, flash: Flash, wp: seq<nat>, b: int, lpa: int, d: Data)
    requires MapInv(blocks, mt, flash, wp)
    requires 0 <= b < |blocks| && InUse(blocks[b]) && wp[b] < |blocks[b].pst|
    requires 0 <= lpa < |mt|
    ensures mt[lpa].status.Mapped? ==> InRange(blocks, mt[lpa].loc) && InUse(blocks[mt[lpa].loc.blk])
    ensures var r := MapSlot(blocks, mt, Loc(b, wp[b]), lpa);
            var flash' := flash[Loc(b, wp[b]) := Cell(d, lpa)];
            && MapInv(r.0, r.1, flash', wp[b := wp[b] + 1])
            && Logical(r.1, flash') == Logical(mt, flash)[lpa := d]
  {
    hide EntriesOk, LiveOk, FreshOk, Logical;
    if mt[lpa].status.Mapped? {
      TrimStep(blocks, mt, flash, wp, lpa);
      var mt' := mt[lpa := mt[lpa].(status := Unmapped)];
      MapFresh(InvalidateAt(blocks, mt[lpa].loc), mt', flash, wp, b, lpa, d);
      assert mt'[lpa := Entry(Mapped, Loc(b, wp[b]))] == mt[lpa := Entry(Mapped, Loc(b, wp[b]))];
      Overwrite(Logical(mt, flash), lpa, d);
    } else {
      MapFresh(blocks, mt, flash, wp, b, lpa, d);
    }
  }

  predicate SlotsOk(slots: seq<Slot>, nrLpas: nat) {
    forall i | 0 <= i < |slots| :: slots[i].lpa == -1 || 0 <= slots[i].lpa < nrLpas
  }

  /** The first slot whose LPA is beyond the logical space. */
  function FirstBad(slots: seq<Slot>, nrLpas: nat): (k: nat)
    ensures k <= |slots| && SlotsOk(slots[..k], nrLpas)
    ensures k < |slots| ==> slots[k].lpa != -1 && !(0 <= slots[k].lpa < nrLpas)
    ensures k == |slots| <==> SlotsOk(slots, nrLpas)
  {
    if slots == [] || !(slots[0].lpa == -1 || 0 <= slots[0].lpa < nrLpas) then 0
    else
      assert forall i | 1 <= i < |slots| :: slots[i] == slots[1..][i - 1];
      1 + FirstBad(slots[1..], nrLpas)
  }

  /** The first page with an LPA beyond the logical space. */
  function FirstBadPage(pages: seq<seq<Slot>>, nrLpas: nat): (k: nat)
    ensures k <= |pages| && (k < |pages| ==> !SlotsOk(pages[k], nrLpas))
    ensures forall i | 0 <= i < k :: SlotsOk(pages[i], nrLpas)
  {
    if pages == [] || !SlotsOk(pages[0], nrLpas) then 0
    else 1 + FirstBadPage(pages[1..], nrLpas)
  }

  lemma {:induction false} BadAt(slots: seq<Slot>, nrLpas: nat, k: nat)
    requires k < |slots| && slots[k].lpa != -1 && !(0 <= slots[k].lpa < nrLpas)
    ensures FirstBad(slots, nrLpas) <= k && !SlotsOk(slots, nrLpas)
  {
    var done := slots[..FirstBad(slots, nrLpas)];
    assert forall i | 0 <= i < |done| :: done[i] == slots[i];
  }

  lemma {:induction false} GoodAt(slots: seq<Slot>, nrLpas: nat, k: nat)
    requires k < |slots| && k <= FirstBad(slots, nrLpas)
    requires slots[k].lpa == -1 || 0 <= slots[k].lpa < nrLpas
    ensures k < FirstBad(slots, nrLpas)
  {
  }

  /** Block b has room for n more subpages. */
  predicate Room(blocks: seq<Block>, wp: seq<nat>, b: int, n: nat) {
    |wp| == |blocks| && 0 <= b < |blocks| && InUse(blocks[b]) && wp[b] + n <= |blocks[b].pst|
  }

  /** One subpage, either kind. */
  lemma {:induction false} SlotStep(blocks: seq<Block>, mt: Table, flash: Flash, wp: seq<nat>, b: int, s: Slot)
    requires MapInv(blocks, mt, flash, wp) && Room(blocks, wp, b, 1)
    requires s.lpa == -1 || 0 <= s.lpa < |mt|
    ensures var r := MapSlot(blocks, mt, Loc(b, wp[b]), s.lpa);
            var flash' := flash[Loc(b, wp[b]) := Cell(s.data, s.lpa)];
            && MapInv(r.0, r.1, flash', wp[b := wp[b] + 1])
            && |r.0| == |blocks| && |r.0[b].pst| == |blocks[b].pst| && InUse(r.0[b]) && |r.1| == |mt|
            && Logical(r.1, flash') == Store(Logical(mt, flash), [s])
  {
    hide EntriesOk, LiveOk, FreshOk, Logical;
    var m' := if s.lpa == -1 then Logical(mt, flash) else Logical(mt, flash)[s.lpa := s.data];
    assert Store(Logical(mt, flash), [s]) == m';
    if s.lpa == -1 {
      PadStep(blocks, mt, flash, wp, b, s.data);
    } else {
      MapStep(blocks, mt, flash, wp, b, s.lpa, s.data);
    }
  }

  /** A write request keeps the mapping invariant and stores exactly its LPAs' data. */
  lemma {:induction false} SlotsStep(blocks: seq<Block>, mt: Table, flash: Flash, wp: seq<nat>, b: int, slots: seq<Slot>)
    requires MapInv(blocks, mt, flash, wp) && Room(blocks, wp, b, |slots|)
    requires SlotsOk(slots, |mt|)
    ensures var r := MapSlots(blocks, mt, Loc(b, wp[b]), slots);
            var flash' := Program(flash, Loc(b, wp[b]), slots);
            && MapInv(r.0, r.1, flash', wp[b := wp[b] + |slots|])
            && Logical(r.1, flash') == Store(Logical(mt, flash), slots)
    decreases |slots|
  {
    hide MapInv, Logical, MapSlot;
    if slots == [] {
      assert wp[b := wp[b] + |slots|] == wp;
    } else {
      SlotStep(blocks, mt, flash, wp, b, slots[0]);
      var (blocks', mt') := MapSlot(blocks, mt, Loc(b, wp[b]), slots[0].lpa);
      var flash', wp' := flash[Loc(b, wp[b]) := Cell(slots[0].data, slots[0].lpa)], wp[b := wp[b] + 1];
      SlotsStep(blocks', mt', flash', wp', b, slots[1..]);
      assert wp'[b := wp'[b] + |slots[1..]|] == wp[b := wp[b] + |slots|];
    }
  }

  /** Same units, sizes and blocks in use. */
  ghost predicate SameShape(blocks: seq<Block>, blocks': seq<Block>) {
    && |blocks'| == |blocks|
    && forall c | 0 <= c < |blocks| ::
         && blocks'[c].punit == blocks[c].punit && |blocks'[c].pst| == |blocks[c].pst| && (InUse(blocks'[c]) <==> InUse(blocks[c]))
         && blocks'[c].eraseCount == blocks[c].eraseCount && blocks'[c].offset == blocks[c].offset
         && (!InUse(blocks[c]) ==> blocks'[c].status == blocks[c].status)
  }

  lemma {:induction false} InvalidateShape(blocks: seq<Block>, loc: Loc)
    requires InRange(blocks, loc) && InUse(blocks[loc.blk])
    ensures SameShape(blocks, InvalidateAt(blocks, loc))
  {
  }

  lemma {:induction false} SlotFrame(blocks: seq<Block>, mt: Table, flash: Flash, wp: seq<nat>, b: int, lpa: int)
    requires MapInv(blocks, mt, flash, wp) && Room(blocks, wp, b, 1)
    requires lpa == -1 || 0 <= lpa < |mt|
    ensures SameShape(blocks, MapSlot(blocks, mt, Loc(b, wp[b]), lpa).0)
  {
    hide MapInv, SameShape, InvalidateAt, Logical;
    if lpa == -1 {
      InvalidateShape(blocks, Loc(b, wp[b]));
    } else if mt[lpa].status.Mapped? {
      TrimStep(blocks, mt, flash, wp, lpa);
      InvalidateShape(blocks, mt[lpa].loc);
    } else {
      ShapeRefl(blocks);
    }
  }

  lemma {:induction false} ShapeTrans(blocks: seq<Block>, blocks': seq<Block>, blocks'': seq<Block>)
    requires SameShape(blocks, blocks') && SameShape(blocks', blocks'')
    ensures SameShape(blocks, blocks'')
  {
  }

  /** Mapping a page changes no block's unit, size, erase count or being in use. */
  lemma {:induction false} SlotsFrame(blocks: seq<Block>, mt: Table, flash: Flash, wp: seq<nat>, b: int, slots: seq<Slot>)
    requires MapInv(blocks, mt, flash, wp) && Room(blocks, wp, b, |slots|) && SlotsOk(slots, |mt|)
    ensures SameShape(blocks, MapSlots(blocks, mt, Loc(b, wp[b]), slots).0)
    decreases |slots|
  {
    hide MapInv, SameShape, MapSlot;
    if slots == [] {
      ShapeRefl(blocks);
    } else {
      var (blocks', mt') := MapSlot(blocks, mt, Loc(b, wp[b]), slots[0].lpa);
      var flash', wp' := flash[Loc(b, wp[b]) := Cell(slots[0].data, slots[0].lpa)], wp[b := wp[b] + 1];
      SlotStep(blocks, mt, flash, wp, b, slots[0]);
      SlotFrame(blocks, mt, flash, wp, b, slots[0].lpa);
      SlotsFrame(blocks', mt', flash', wp', b, slots[1..]);
      ShapeTrans(blocks, blocks', MapSlots(blocks, mt, Loc(b, wp[b]), slots).0);
    }
  }

  lemma {:induction false} ShapeRefl(blocks: seq<Block>)
    ensures SameShape(blocks, blocks)
  {
  }

  /** A block that is not erased: what is in use stays so, a FREE block may be taken, a BAD one stays BAD. */
  predicate Outlives(b: Block, b': Block) {
    Survives(b, b') && b'.offset == b.offset
  }

  predicate Survives(b: Block, b': Block) {
    && b'.punit == b.punit && b'.eraseCount == b.eraseCount
    && (InUse(b) ==> InUse(b')) && (!InUse(b) ==> b'.status == b.status || (b.status.Free? && InUse(b')))
  }

  /** No block has been erased. */
  ghost predicate Evolved(blocks: seq<Block>, blocks': seq<Block>) {
    |blocks'| == |blocks| && forall c | 0 <= c < |blocks| :: Outlives(blocks[c], blocks'[c])
  }

  lemma {:induction false} EvolvedRefl(blocks: seq<Block>)
    ensures Evolved(blocks, blocks)
  {
  }

  lemma {:induction false} EvolvedTrans(blocks: seq<Block>, blocks': seq<Block>, blocks'': seq<Block>)
    requires Evolved(blocks, blocks') && Evolved(blocks', blocks'')
    ensures Evolved(blocks, blocks'')
  {
    forall c | 0 <= c < |blocks| ensures Outlives(blocks[c], blocks''[c]) {
      assert Outlives(blocks[c], blocks'[c]) && Outlives(blocks'[c], blocks''[c]);
    }
  }

  /** Making free blocks active and then mapping a page erases nothing. */
  lemma {:induction false} PageEvolves(blocks: seq<Block>, blocks': seq<Block>, blocks'': seq<Block>)
    requires Activated(blocks, blocks') && SameShape(blocks', blocks'')
    ensures Evolved(blocks, blocks'')
  {
    forall c | 0 <= c < |blocks| ensures Outlives(blocks[c], blocks''[c]) {
      assert blocks'[c] == blocks[c] || (blocks[c].status.Free? && blocks'[c] == blocks[c].(status := Clean));
    }
  }

  // ---- a request that stops half way ---------------------------------------------------

  predicate InPage(loc: Loc, n: nat, x: Loc) {
    x.blk == loc.blk && loc.off <= x.off < loc.off + n
  }

  /** The LPAs a request names. */
  function LpasOf(slots: seq<Slot>): set<int> {
    set i | 0 <= i < |slots| :: slots[i].lpa
  }

  /** The LPAs of a request, and only they, end up inside the request's page. */
  lemma {:induction false} MappedInPage(blocks: seq<Block>, mt: Table, loc: Loc, slots: seq<Slot>, l: int)
    requires SlotsOk(slots, |mt|) && 0 <= l < |mt|
    ensures var mt' := MapSlots(blocks, mt, loc, slots).1;
            && |mt'| == |mt|
            && (l !in LpasOf(slots) ==> mt'[l] == mt[l])
            && (l in LpasOf(slots) ==> mt'[l].status.Mapped? && InPage(loc, |slots|, mt'[l].loc))
    decreases |slots|
  {
    if slots != [] {
      var r := MapSlot(blocks, mt, loc, slots[0].lpa);
      MappedInPage(r.0, r.1, Loc(loc.blk, loc.off + 1), slots[1..], l);
      assert l in LpasOf(slots) <==> l == slots[0].lpa || l in LpasOf(slots[1..]) by {
        assert slots == [slots[0]] + slots[1..];
        assert forall i | 0 <= i < |slots[1..]| :: slots[1..][i] == slots[i + 1];
      }
    }
  }

  lemma {:induction false} PageFresh(blocks: seq<Block>, mt: Table, flash: Flash, wp: seq<nat>, b: int, n: nat)
    requires MapInv(blocks, mt, flash, wp) && Room(blocks, wp, b, n)
    ensures forall x | InPage(Loc(b, wp[b]), n, x) :: x !in flash
  {
    forall x | InPage(Loc(b, wp[b]), n, x) ensures x !in flash {
      assert Unused(blocks, wp, x);
    }
  }

  /** A page that is mapped but never programmed loses exactly the LPAs it names, on any flash that
      holds no more than the one the tables agree with. */
  lemma {:induction false} MappedNotProgrammed(blocks: seq<Block>, mt: Table, flash: Flash, wp: seq<nat>, b: int, slots: seq<Slot>, held: Flash)
    requires MapInv(blocks, mt, flash, wp) && Room(blocks, wp, b, |slots|) && SlotsOk(slots, |mt|) && held.Keys <= flash.Keys
    ensures Logical(MapSlots(blocks, mt, Loc(b, wp[b]), slots).1, held) == Logical(mt, held) - LpasOf(slots)
  {
    hide MapInv, MapSlots, LpasOf;
    var loc := Loc(b, wp[b]);
    var mt' := MapSlots(blocks, mt, loc, slots).1;
    PageFresh(blocks, mt, flash, wp, b, |slots|);
    SlotsLength(blocks, mt, loc, slots);
    forall l | 0 <= l < |mt|
      ensures l !in LpasOf(slots) ==> mt'[l] == mt[l]
      ensures l in LpasOf(slots) ==> mt'[l].loc !in held
    {
      MappedInPage(blocks, mt, loc, slots, l);
      assert l in LpasOf(slots) ==> mt'[l].loc !in flash.Keys;
    }
    assert Logical(mt', held) == Logical(mt, held) - LpasOf(slots);
  }

  /** The LPAs of several pages. */
  function LpasIn(pages: seq<seq<Slot>>): set<int> {
    if pages == [] then {} else LpasIn(pages[..|pages| - 1]) + LpasOf(pages[|pages| - 1])
  }

  /** Programming only adds to the flash. */
  lemma {:induction false} ProgramAdds(flash: Flash, loc: Loc, slots: seq<Slot>)
    ensures flash.Keys <= Program(flash, loc, slots).Keys
    decreases |slots|
  {
    if slots != [] { ProgramAdds(flash[loc := Cell(slots[0].data, slots[0].lpa)], Loc(loc.blk, loc.off + 1), slots[1..]); }
  }

  lemma {:induction false} SlotsLength(blocks: seq<Block>, mt: Table, loc: Loc, slots: seq<Slot>)
    ensures |MapSlots(blocks, mt, loc, slots).1| == |mt|
    decreases |slots|
  {
    if slots != [] {
      var r := MapSlot(blocks, mt, loc, slots[0].lpa);
      SlotsLength(r.0, r.1, Loc(loc.blk, loc.off + 1), slots[1..]);
    }
  }

  /** After a request an LPA holds the data of the last slot naming it, or what it held before. */
  lemma {:induction false} StoreMeaning(m: map<int, Data>, slots: seq<Slot>, l: int)
    requires l != -1
    ensures l !in LpasOf(slots) ==> (l in Store(m, slots) <==> l in m) && (l in m ==> Store(m, slots)[l] == m[l])
    ensures l in LpasOf(slots) ==>
              exists i :: 0 <= i < |slots| && slots[i].lpa == l && l in Store(m, slots) && Store(m, slots)[l] == slots[i].data
                       && forall j | i < j < |slots| :: slots[j].lpa != l
    decreases |slots|
  {
    if slots != [] {
      var m' := if slots[0].lpa == -1 then m else m[slots[0].lpa := slots[0].data];
      StoreMeaning(m', slots[1..], l);
      assert forall i | 0 <= i < |slots[1..]| :: slots[1..][i] == slots[i + 1];
      assert l in LpasOf(slots) <==> l == slots[0].lpa || l in LpasOf(slots[1..]);
      if l in LpasOf(slots[1..]) {
        var i :| 0 <= i < |slots[1..]| && slots[1..][i].lpa == l && l in Store(m', slots[1..])
              && Store(m', slots[1..])[l] == slots[1..][i].data && forall j | i < j < |slots[1..]| :: slots[1..][j].lpa != l;
        assert slots[i + 1].lpa == l;
        forall j | i + 1 < j < |slots| ensures slots[j].lpa != l { assert slots[j] == slots[1..][j - 1]; }
      } else if l == slots[0].lpa {
        forall j | 0 < j < |slots| ensures slots[j].lpa != l { assert slots[j] == slots[1..][j - 1]; }
        assert slots[0].lpa == l;
      }
    }
  }

  // ---- a page written in place ----------------------------------------------------------

  predicate OverwrittenAt(flash: Flash, f: Flash, loc: Loc, slots: seq<Slot>, x: Loc) {
    if InPage(loc, |slots|, x) then x in f && f[x] == Cell(slots[x.off - loc.off].data, slots[x.off - loc.off].lpa)
    else (x in f <==> x in flash) && (x in flash ==> f[x] == flash[x])
  }

  ghost predicate Overwritten(flash: Flash, f: Flash, loc: Loc, slots: seq<Slot>) {
    forall x :: OverwrittenAt(flash, f, loc, slots, x)
  }

  /** What a programmed page and the rest of the flash hold. */
  lemma {:induction false} ProgramAt(flash: Flash, loc: Loc, slots: seq<Slot>, x: Loc)
    ensures OverwrittenAt(flash, Program(flash, loc, slots), loc, slots, x)
    decreases |slots|
  {
    if slots != [] {
      ProgramAt(flash[loc := Cell(slots[0].data, slots[0].lpa)], Loc(loc.blk, loc.off + 1), slots[1..], x);
    }
  }

  /** The page at `loc` has been handed out. */
  predicate Given(blocks: seq<Block>, wp: seq<nat>, loc: Loc, n: nat) {
    |wp| == |blocks| && 0 <= loc.blk < |blocks| && 0 <= loc.off && loc.off + n <= wp[loc.blk] <= |blocks[loc.blk].pst|
  }

  /** The n slots stand where their LPAs are mapped, and padding where nothing is live. */
  predicate Aligned(blocks: seq<Block>, mt: Table, wp: seq<nat>, loc: Loc, slots: seq<Slot>)
    requires |wp| == |blocks|
  {
    forall j | 0 <= j < |slots| ::
      if slots[j].lpa == -1 then !Live(blocks, wp, Loc(loc.blk, loc.off + j))
      else 0 <= slots[j].lpa < |mt| && mt[slots[j].lpa] == Entry(Mapped, Loc(loc.blk, loc.off + j))
  }

  /** Each live subpage of the page gets the LPA in its OOB again. */
  predicate SameOwners(blocks: seq<Block>, flash: Flash, wp: seq<nat>, loc: Loc, slots: seq<Slot>)
    requires |wp| == |blocks|
  {
    forall j | 0 <= j < |slots| && Live(blocks, wp, Loc(loc.blk, loc.off + j)) ::
      Loc(loc.blk, loc.off + j) in flash && flash[Loc(loc.blk, loc.off + j)].oob == slots[j].lpa
  }

  /** Writing a page again in place keeps the invariant exactly when every live subpage of the page
      gets its own LPA. */
  lemma {:induction false} InPlaceIff(blocks: seq<Block>, mt: Table, flash: Flash, wp: seq<nat>, loc: Loc, slots: seq<Slot>)
    requires MapInv(blocks, mt, flash, wp) && Given(blocks, wp, loc, |slots|)
    ensures MapInv(blocks, mt, Program(flash, loc, slots), wp) <==> SameOwners(blocks, flash, wp, loc, slots)
  {
    var f := Program(flash, loc, slots);
    assert Overwritten(flash, f, loc, slots) by { ProgramOverwrites(flash, loc, slots); }
    hide MapInv, Program, Overwritten;
    if SameOwners(blocks, flash, wp, loc, slots) {
      InPlaceKeeps(blocks, mt, flash, wp, loc, slots, f);
    } else {
      InPlaceBreaks(blocks, mt, flash, wp, loc, slots, f);
    }
  }

  lemma {:induction false} ProgramOverwrites(flash: Flash, loc: Loc, slots: seq<Slot>)
    ensures Overwritten(flash, Program(flash, loc, slots), loc, slots)
  {
    hide Program;
    var f := Program(flash, loc, slots);
    forall x ensures OverwrittenAt(flash, f, loc, slots, x) { ProgramAt(flash, loc, slots, x); }
  }

  lemma {:induction false} InPlaceBreaks(blocks: seq<Block>, mt: Table, flash: Flash, wp: seq<nat>, loc: Loc, slots: seq<Slot>, f: Flash)
    requires MapInv(blocks, mt, flash, wp) && Given(blocks, wp, loc, |slots|) && !SameOwners(blocks, flash, wp, loc, slots)
    requires Overwritten(flash, f, loc, slots)
    ensures !MapInv(blocks, mt, f, wp)
  {
    var j :| 0 <= j < |slots| && Live(blocks, wp, Loc(loc.blk, loc.off + j))
          && !(Loc(loc.blk, loc.off + j) in flash && flash[Loc(loc.blk, loc.off + j)].oob == slots[j].lpa);
    var x := Loc(loc.blk, loc.off + j);
    assert Homed(mt, flash, x) && OverwrittenAt(flash, f, loc, slots, x);
    var o := slots[j].lpa;
    if 0 <= o < |mt| && mt[o] == Entry(Mapped, x) { NoSharing(blocks, mt, flash, wp, flash[x].oob, o); }
    assert !Homed(mt, f, x);
  }

  lemma {:induction false} InPlaceKeeps(blocks: seq<Block>, mt: Table, flash: Flash, wp: seq<nat>, loc: Loc, slots: seq<Slot>, f: Flash)
    requires MapInv(blocks, mt, flash, wp) && Given(blocks, wp, loc, |slots|) && SameOwners(blocks, flash, wp, loc, slots)
    requires Overwritten(flash, f, loc, slots)
    ensures MapInv(blocks, mt, f, wp)
  {
    forall x | Live(blocks, wp, x) ensures x in flash && x in f && f[x].oob == flash[x].oob && Homed(mt, f, x) {
      assert Homed(mt, flash, x) && OverwrittenAt(flash, f, loc, slots, x);
      if InPage(loc, |slots|, x) { assert x == Loc(loc.blk, loc.off + (x.off - loc.off)); }
    }
    forall l | 0 <= l < |mt| ensures EntryOk(blocks, mt, f, wp, l) { assert EntryOk(blocks, mt, flash, wp, l); }
    forall x | Unused(blocks, wp, x) ensures Erased(blocks, f, x) {
      assert Erased(blocks, flash, x) && OverwrittenAt(flash, f, loc, slots, x);
    }
  }

  /** What the host then reads: an LPA inside the page the data of its subpage, any other what it
      read before. */
  lemma {:induction false} InPlaceReads(mt: Table, flash: Flash, loc: Loc, slots: seq<Slot>, l: int)
    requires 0 <= l < |mt| && mt[l].status.Mapped? && mt[l].loc in flash
    ensures l in Logical(mt, flash) && l in Logical(mt, Program(flash, loc, slots))
    ensures Logical(mt, Program(flash, loc, slots))[l] ==
            if InPage(loc, |slots|, mt[l].loc) then slots[mt[l].loc.off - loc.off].data else Logical(mt, flash)[l]
  {
    ProgramAt(flash, loc, slots, mt[l].loc);
  }

  /** Writing aligned slots in place keeps the invariant and means storing them. */
  lemma {:induction false} InPlaceStep(blocks: seq<Block>, mt: Table, flash: Flash, wp: seq<nat>, loc: Loc, slots: seq<Slot>)
    requires MapInv(blocks, mt, flash, wp) && Given(blocks, wp, loc, |slots|) && Aligned(blocks, mt, wp, loc, slots)
    ensures MapInv(blocks, mt, Program(flash, loc, slots), wp)
    ensures Logical(mt, Program(flash, loc, slots)) == Store(Logical(mt, flash), slots)
  {
    var f := Program(flash, loc, slots);
    forall j | 0 <= j < |slots| && Live(blocks, wp, Loc(loc.blk, loc.off + j))
      ensures Loc(loc.blk, loc.off + j) in flash && flash[Loc(loc.blk, loc.off + j)].oob == slots[j].lpa
    {
      assert EntryOk(blocks, mt, flash, wp, slots[j].lpa);
    }
    InPlaceIff(blocks, mt, flash, wp, loc, slots);
    var m := Logical(mt, flash);
    forall l ensures l in Logical(mt, f) <==> l in Store(m, slots)
             ensures l in Logical(mt, f) ==> Logical(mt, f)[l] == Store(m, slots)[l]
    {
      InPlaceStored(blocks, mt, flash, wp, loc, slots, l);
    }
  }

  lemma {:induction false} InPlaceStored(blocks: seq<Block>, mt: Table, flash: Flash, wp: seq<nat>, loc: Loc, slots: seq<Slot>, l: int)
    requires MapInv(blocks, mt, flash, wp) && Given(blocks, wp, loc, |slots|) && Aligned(blocks, mt, wp, loc, slots)
    requires MapInv(blocks, mt, Program(flash, loc, slots), wp)
    ensures var m, m' := Logical(mt, flash), Logical(mt, Program(flash, loc, slots));
            (l in m' <==> l in Store(m, slots)) && (l in m' ==> m'[l] == Store(m, slots)[l])
  {
    var f, m := Program(flash, loc, slots), Logical(mt, flash);
    if l == -1 {
      StoreSkips(m, slots);
    } else {
      StoreMeaning(m, slots, l);
      if 0 <= l < |mt| && mt[l].status.Mapped? {
        assert EntryOk(blocks, mt, flash, wp, l) && EntryOk(blocks, mt, f, wp, l);
        InPlaceReads(mt, flash, loc, slots, l);
        if InPage(loc, |slots|, mt[l].loc) {
          var j := mt[l].loc.off - loc.off;
          assert Loc(loc.blk, loc.off + j) == mt[l].loc;
          NoSharing(blocks, mt, flash, wp, l, slots[j].lpa);
          assert l in LpasOf(slots);
        }
      }
    }
  }

  lemma {:induction false} StoreSkips(m: map<int, Data>, slots: seq<Slot>)
    requires -1 !in m
    ensures -1 !in Store(m, slots)
    decreases |slots|
  {
    if slots != [] { StoreSkips(if slots[0].lpa == -1 then m else m[slots[0].lpa := slots[0].data], slots[1..]); }
  }

  /** LPAs 0 and 1 share a page.  A request for LPAs 1 and 2 goes to the page of LPA 1 and starts at
      its first subpage: LPA 0 then reads the data of LPA 1, and LPA 1 that of LPA 2. */
  lemma {:induction false} InPlaceMisplaces(a: Data, b: Data, c: Data, d: Data)
    ensures var blocks := [Block(Clean, 0, [NotInvalid, NotInvalid], 0, 0, 0)];
            var mt := [Entry(Mapped, Loc(0, 0)), Entry(Mapped, Loc(0, 1)), Entry(NotAllocated, Loc(-1, -1))];
            var flash := map[Loc(0, 0) := Cell(a, 0), Loc(0, 1) := Cell(b, 1)];
            var after := Program(flash, Loc(0, 0), [Slot(1, c), Slot(2, d)]);
            && BlockOk(blocks[0], 2) && MapInv(blocks, mt, flash, [2]) && !MapInv(blocks, mt, after, [2])
            && Logical(mt, after) == map[0 := c, 1 := d]
  {
    var blocks := [Block(Clean, 0, [NotInvalid, NotInvalid], 0, 0, 0)];
    var mt := [Entry(Mapped, Loc(0, 0)), Entry(Mapped, Loc(0, 1)), Entry(NotAllocated, Loc(-1, -1))];
    var flash: Flash := map[Loc(0, 0) := Cell(a, 0), Loc(0, 1) := Cell(b, 1)];
    var slots := [Slot(1, c), Slot(2, d)];
    assert MapInv(blocks, mt, flash, [2]);
    InPlaceIff(blocks, mt, flash, [2], Loc(0, 0), slots);
    assert Live(blocks, [2], Loc(0, 0 + 0));
    ProgramAt(flash, Loc(0, 0), slots, Loc(0, 0));
    ProgramAt(flash, Loc(0, 0), slots, Loc(0, 1));
  }

  // ---- activation and erase ---------------------------------------------------------

  /** `blocks'` is `blocks` with some FREE blocks now CLEAN. */
  ghost predicate Activated(blocks: seq<Block>, blocks': seq<Block>) {
    && |blocks'| == |blocks|
    && forall b | 0 <= b < |blocks| ::
         blocks'[b] == blocks[b] || (blocks[b].status.Free? && blocks'[b] == blocks[b].(status := Clean))
  }

  /** Taking FREE blocks as active blocks does not disturb the map. */
  lemma {:induction false} ActivateStep(blocks: seq<Block>, blocks': seq<Block>, mt: Table, flash: Flash, wp: seq<nat>)
    requires MapInv(blocks, mt, flash, wp)
    requires Activated(blocks, blocks')
    ensures MapInv(blocks', mt, flash, wp)
  {
    forall l | 0 <= l < |mt| ensures EntryOk(blocks', mt, flash, wp, l) {
      assert EntryOk(blocks, mt, flash, wp, l);
    }
    forall x | Live(blocks', wp, x) ensures Homed(mt, flash, x) {
      assert Live(blocks, wp, x);
    }
    forall x | Unused(blocks', wp, x) ensures Erased(blocks', flash, x) {
      assert Unused(blocks, wp, x);
    }
  }

  /** A bad block keeps whatever it held; nothing refers to it any more. */
  function EraseFlash(flash: Flash, b: int, bad: bool): Flash {
    if bad then flash else map loc | loc in flash && loc.blk != b :: flash[loc]
  }

  /** A fully invalid block is referenced by no entry, so erasing it loses nothing. */
  lemma {:induction false} EraseStep(blocks: seq<Block>, mt: Table, flash: Flash, wp: seq<nat>, b: int, bad: bool)
    requires MapInv(blocks, mt, flash, wp)
    requires 0 <= b < |blocks| && forall o | 0 <= o < |blocks[b].pst| :: blocks[b].pst[o].Invalid?
    ensures forall l | 0 <= l < |mt| && mt[l].status.Mapped? :: mt[l].loc.blk != b
    ensures MapInv(blocks[b := EraseIn(blocks[b], bad)], mt, EraseFlash(flash, b, bad), wp[b := 0])
    ensures Logical(mt, EraseFlash(flash, b, bad)) == Logical(mt, flash)
  {
    var blocks', flash', wp' := blocks[b := EraseIn(blocks[b], bad)], EraseFlash(flash, b, bad), wp[b := 0];
    forall l | 0 <= l < |mt| ensures EntryOk(blocks', mt, flash', wp', l)
                             ensures mt[l].status.Mapped? ==> mt[l].loc.blk != b {
      assert EntryOk(blocks, mt, flash, wp, l);
    }
    forall x | Live(blocks', wp', x) ensures Homed(mt, flash', x) {
      assert Live(blocks, wp, x);
    }
    forall x | Unused(blocks', wp', x) ensures Erased(blocks', flash', x) {
      if x.blk != b { assert Unused(blocks, wp, x); }
    }
  }

  // ---- snapshots ---------------------------------------------------------------------------

  /** Giving up the next subpage of block b without programming it. */
  lemma {:induction false} SealStep(blocks: seq<Block>, mt: Table, flash: Flash, wp: seq<nat>, b: int)
    requires MapInv(blocks, mt, flash, wp) && Room(blocks, wp, b, 1)
    ensures MapInv(InvalidateAt(blocks, Loc(b, wp[b])), mt, flash, wp[b := wp[b] + 1])
  {
    var loc := Loc(b, wp[b]);
    var blocks', wp' := InvalidateAt(blocks, loc), wp[b := wp[b] + 1];
    assert Unused(blocks, wp, loc);
    forall l | 0 <= l < |mt| ensures EntryOk(blocks', mt, flash, wp', l) {
      assert EntryOk(blocks, mt, flash, wp, l);
    }
    forall x | Live(blocks', wp', x) ensures Homed(mt, flash, x) {
      assert x != loc && Live(blocks, wp, x);
    }
    forall x | Unused(blocks', wp', x) ensures Erased(blocks', flash, x) {
      assert x != loc && Unused(blocks, wp, x);
    }
    InvalidatePointers(blocks, wp, loc);
  }

  /** Every block in use has been handed out completely. */
  ghost predicate Sealed(blocks: seq<Block>, wp: seq<nat>) {
    |wp| == |blocks| && forall b | 0 <= b < |blocks| && InUse(blocks[b]) :: wp[b] == |blocks[b].pst|
  }

  /** What was handed out since `wp0` is invalid. */
  ghost predicate GivenUp(blocks: seq<Block>, wp0: seq<nat>, wp: seq<nat>) {
    && |wp0| == |wp| == |blocks|
    && forall b, o | 0 <= b < |blocks| && wp0[b] <= o < wp[b] && o < |blocks[b].pst| :: blocks[b].pst[o].Invalid?
  }

  lemma {:induction false} GiveUp(blocks: seq<Block>, wp0: seq<nat>, wp: seq<nat>, b: nat)
    requires GivenUp(blocks, wp0, wp) && b < |blocks| && wp[b] < |blocks[b].pst|
    ensures GivenUp(InvalidateAt(blocks, Loc(b, wp[b])), wp0, wp[b := wp[b] + 1])
  {
  }

  /** Same statuses and page status tables. */
  ghost predicate SamePst(blocks: seq<Block>, blocks': seq<Block>) {
    |blocks'| == |blocks| && forall b | 0 <= b < |blocks| :: blocks'[b].status == blocks[b].status && blocks'[b].pst == blocks[b].pst
  }

  lemma {:induction false} SamePstInv(blocks: seq<Block>, blocks': seq<Block>, mt: Table, flash: Flash, wp: seq<nat>)
    requires MapInv(blocks, mt, flash, wp) && SamePst(blocks, blocks')
    ensures MapInv(blocks', mt, flash, wp)
  {
    forall l | 0 <= l < |mt| ensures EntryOk(blocks', mt, flash, wp, l) {
      assert EntryOk(blocks, mt, flash, wp, l);
    }
    forall x | Live(blocks', wp, x) ensures Homed(mt, flash, x) {
      assert Live(blocks, wp, x);
    }
    forall x | Unused(blocks', wp, x) ensures Erased(blocks', flash, x) {
      assert Unused(blocks, wp, x);
    }
  }
}
