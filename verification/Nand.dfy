/** Flash blocks, subpage status tables and stored subpages, as values. */
module Nand {
  newtype byte = x: int | 0 <= x < 256

  /** The contents of one subpage: a kernel page, or the whole page where a page has one subpage. */
  type Data = seq<byte>

  datatype Subpage = NotInvalid | Invalid

  datatype BlockStatus = Free | FreePrepare | Clean | Dirty | Bad

  /** One entry of the block table.  `punit` stands for the block's channel and
      chip; module Geometry relates the two. */
  datatype Block = Block(
    status: BlockStatus,
    punit: nat,
    pst: seq<Subpage>,
    nrInvalid: nat,
    eraseCount: nat,
    offset: nat)

  /** A physical subpage: block index and offset into the page status table. */
  datatype Loc = Loc(blk: int, off: int)

  /** What one programmed subpage holds: its data and the LPA in its OOB area
      (-1 for a padding subpage). */
  datatype Cell = Cell(data: Data, oob: int)

  type Flash = map<Loc, Cell>

  predicate InUse(b: Block) {
    b.status.Clean? || b.status.Dirty?
  }

  function CountInvalid(pst: seq<Subpage>): nat {
    if pst == [] then 0 else (if pst[0].Invalid? then 1 else 0) + CountInvalid(pst[1..])
  }

  /** A block's own consistency: the stored invalid count is the true one, a CLEAN
      block has no invalid subpage and a DIRTY block has at least one. */
  predicate BlockOk(b: Block, nrSubpages: nat) {
    && |b.pst| == nrSubpages
    && b.nrInvalid == CountInvalid(b.pst)
    && (b.status.Dirty? <==> b.nrInvalid > 0)
  }

  /** What h4h_abm_invalidate_page does to the block entry. */
  function InvalidateIn(b: Block, off: int): Block
    requires 0 <= off < |b.pst|
  {
    if b.pst[off].NotInvalid? then
      b.(pst := b.pst[off := Invalid], nrInvalid := b.nrInvalid + 1,
         status := if b.nrInvalid == 0 then Dirty else b.status)
    else b
  }

  predicate InRange(blocks: seq<Block>, loc: Loc) {
    0 <= loc.blk < |blocks| && 0 <= loc.off < |blocks[loc.blk].pst|
  }

  function InvalidateAt(blocks: seq<Block>, loc: Loc): seq<Block> {
    if InRange(blocks, loc) then blocks[loc.blk := InvalidateIn(blocks[loc.blk], loc.off)] else blocks
  }

  function EraseIn(b: Block, bad: bool): Block {
    b.(status := if bad then Bad else Free, eraseCount := b.eraseCount + 1, nrInvalid := 0,
       pst := seq(|b.pst|, _ => NotInvalid))
  }

  lemma {:induction false} CountInvalidUpdate(pst: seq<Subpage>, off: int)
    requires 0 <= off < |pst| && pst[off].NotInvalid?
    ensures CountInvalid(pst[off := Invalid]) == CountInvalid(pst) + 1
  {
    if off > 0 {
      CountInvalidUpdate(pst[1..], off - 1);
      assert pst[off := Invalid][1..] == pst[1..][off - 1 := Invalid];
    } else {
      assert pst[0 := Invalid][1..] == pst[1..];
    }
  }

  lemma {:induction false} CountInvalidBounds(pst: seq<Subpage>)
    ensures CountInvalid(pst) <= |pst|
    ensures CountInvalid(pst) == 0 <==> forall i | 0 <= i < |pst| :: pst[i].NotInvalid?
    ensures CountInvalid(pst) == |pst| <==> forall i | 0 <= i < |pst| :: pst[i].Invalid?
  {
    if pst != [] {
      CountInvalidBounds(pst[1..]);
      assert forall i | 1 <= i < |pst| :: pst[i] == pst[1..][i - 1];
    }
  }

  lemma {:induction false} InvalidateKeepsBlockOk(b: Block, off: int, nrSubpages: nat)
    requires BlockOk(b, nrSubpages) && 0 <= off < nrSubpages
    ensures BlockOk(InvalidateIn(b, off), nrSubpages)
    ensures InUse(b) ==> InUse(InvalidateIn(b, off))
  {
    if b.pst[off].NotInvalid? { CountInvalidUpdate(b.pst, off); }
  }

  lemma {:induction false} EraseKeepsBlockOk(b: Block, bad: bool, nrSubpages: nat)
    requires |b.pst| == nrSubpages
    ensures BlockOk(EraseIn(b, bad), nrSubpages)
    ensures var e := EraseIn(b, bad);
            && e.status == (if bad then Bad else Free) && e.eraseCount == b.eraseCount + 1 && e.nrInvalid == 0
            && e.punit == b.punit && e.offset == b.offset && forall i | 0 <= i < nrSubpages :: e.pst[i].NotInvalid?
  {
    CountInvalidBounds(EraseIn(b, bad).pst);
  }
}
