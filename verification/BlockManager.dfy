/** The block manager (abm): block table, lists per status and parallel unit, counters. */
module BlockManager {
  import opened Common
  import opened Nand
  import opened Lists
  import opened Geometry

  /** Every block sits on its parallel unit and is consistent in itself. */
  ghost predicate BlocksOk(blocks: seq<Block>, units: seq<nat>, nrPunits: nat, nrSubpages: nat) {
    && |units| == |blocks|
    && forall b | 0 <= b < |blocks| ::
         blocks[b].punit == units[b] < nrPunits && BlockOk(blocks[b], nrSubpages)
  }

  /** Block b's unit is the one its index names. */
  ghost predicate UnitsOk(g: Geometry, units: seq<nat>)
    requires g.Valid()
  {
    |units| == g.BlocksPerSsd() && forall b | 0 <= b < |units| :: units[b] == g.PunitOf(b)
  }

  ghost predicate CountersOk(blocks: seq<Block>, free: nat, prepared: nat, clean: nat, dirty: nat, bad: nat) {
    && free == Count(blocks, Free) && prepared == Count(blocks, FreePrepare)
    && clean == Count(blocks, Clean) && dirty == Count(blocks, Dirty) && bad == Count(blocks, Bad)
  }

  /** Replacing one block entry: what it does to the table, the lists and the counts. */
  lemma {:induction false} Replace(blocks: seq<Block>, units: seq<nat>, lists: ListHeads, nrPunits: nat, nrSubpages: nat, b: nat, nb: Block)
    requires BlocksOk(blocks, units, nrPunits, nrSubpages) && ListsOk(blocks, lists, nrPunits)
    requires b < |blocks| && nb.punit == blocks[b].punit && BlockOk(nb, nrSubpages)
    ensures BlocksOk(blocks[b := nb], units, nrPunits, nrSubpages)
    ensures ListsOk(blocks[b := nb], Relink(lists, b, Home(nb)), nrPunits)
    ensures Home(nb) == Home(blocks[b]) ==> ListsOk(blocks[b := nb], lists, nrPunits)
    ensures forall s :: Count(blocks[b := nb], s)
              == Count(blocks, s) - (if blocks[b].status == s then 1 else 0) + (if nb.status == s then 1 else 0)
    ensures Count(blocks, blocks[b].status) > 0
  {
    hide ListsOk, Relink;
    RelinkOk(blocks, lists, nrPunits, b, nb);
    if Home(nb) == Home(blocks[b]) { SameHomeOk(blocks, lists, nrPunits, b, nb); }
    forall s ensures Count(blocks[b := nb], s)
              == Count(blocks, s) - (if blocks[b].status == s then 1 else 0) + (if nb.status == s then 1 else 0)
    {
      CountUpdate(blocks, b, nb, s);
    }
    CountPositive(blocks, b);
  }

  lemma {:induction false} BlockOkAt(blocks: seq<Block>, units: seq<nat>, nrPunits: nat, nrSubpages: nat, b: nat)
    requires BlocksOk(blocks, units, nrPunits, nrSubpages) && b < |blocks|
    ensures BlockOk(blocks[b], nrSubpages) && blocks[b].punit == units[b] < nrPunits
  {
  }

  /** The first FREE block of a list, as an index into it. */
  function FirstFree(blocks: seq<Block>, l: seq<nat>): (i: nat)
    requires forall k | 0 <= k < |l| :: l[k] < |blocks|
    ensures i <= |l|
    ensures i < |l| ==> blocks[l[i]].status.Free?
    ensures forall k | 0 <= k < i :: !blocks[l[k]].status.Free?
  {
    if l == [] || blocks[l[0]].status.Free? then 0 else 1 + FirstFree(blocks, l[1..])
  }

  lemma {:induction false} FirstFreeIs(blocks: seq<Block>, l: seq<nat>, i: nat)
    requires i <= |l| && forall k | 0 <= k < |l| :: l[k] < |blocks|
    requires forall k | 0 <= k < i :: !blocks[l[k]].status.Free?
    requires i < |l| ==> blocks[l[i]].status.Free?
    ensures FirstFree(blocks, l) == i
  {
    var j := FirstFree(blocks, l);
  }

  /** What a snapshot records of one block. */
  datatype BlockImage = BlockImage(status: BlockStatus, punit: nat, eraseCount: nat, nrInvalid: nat, pst: seq<Subpage>)

  function NewTable(g: Geometry): seq<Block>
    requires g.Valid()
  {
    seq(g.BlocksPerSsd(), b requires 0 <= b < g.BlocksPerSsd() =>
      Block(Free, g.PunitOf(b), seq(g.SubpagesPerBlock(), _ => NotInvalid), 0, 0, 0))
  }

  lemma {:induction false} NewTableOk(g: Geometry)
    requires g.Valid()
    ensures var t := NewTable(g);
            && (forall b | 0 <= b < |t| :: t[b].punit < g.Punits() && t[b].status.Free? && BlockOk(t[b], g.SubpagesPerBlock()))
            && (forall b | 0 <= b < |t| :: t[b].eraseCount == 0 && t[b].offset == 0)
            && forall s :: Count(t, s) == if s == Free then |t| else 0
  {
    var t := NewTable(g);
    forall b | 0 <= b < |t| ensures t[b].punit < g.Punits() && BlockOk(t[b], g.SubpagesPerBlock()) {
      AddressRoundTrip(g, b);
      CountInvalidBounds(t[b].pst);
    }
    CountAll(t, Free);
  }

  /** Put every block, in index order, at the tail of its unit's free list. */
  method BuildFreeLists(table: seq<Block>, nrPunits: nat) returns (heads: ListHeads)
    requires forall b | 0 <= b < |table| :: table[b].status.Free? && table[b].punit < nrPunits
    ensures ListsOk(table, heads, nrPunits) && forall id | id in heads :: Ascending(heads[id])
  {
    heads := map k: ListKind, u: nat | 0 <= u < nrPunits :: ListId(k, u) := [];
    for i := 0 to |table|
      invariant forall id: ListId :: id in heads <==> id.punit < nrPunits
      invariant forall id | id in heads :: NoDup(heads[id])
                  && forall b: nat :: b in heads[id] <==> b < i && Home(table[b]) == id
      invariant forall id | id in heads :: Ascending(heads[id])
    {
      var id := Home(table[i]);
      AscendingPush(heads[id], i);
      heads := heads[id := heads[id] + [i]];
    }
  }

  lemma {:induction false} AscendingPush(l: seq<nat>, n: nat)
    requires Ascending(l) && forall b | b in l :: b < n
    ensures Ascending(l + [n])
  {
    forall y: nat, z: nat | Before(l + [n], y, z) ensures y < z { BeforeSnoc(l, n, y, z); }
  }

  lemma {:induction false} ListMembers(blocks: seq<Block>, lists: ListHeads, nrPunits: nat, id: ListId)
    requires ListsOk(blocks, lists, nrPunits) && id.punit < nrPunits
    ensures id in lists
    ensures forall k | 0 <= k < |lists[id]| :: lists[id][k] < |blocks| && Home(blocks[lists[id][k]]) == id
  {
    assert ListOk(blocks, lists[id], id);
    forall k | 0 <= k < |lists[id]| ensures lists[id][k] < |blocks| && Home(blocks[lists[id][k]]) == id {
      assert lists[id][k] in lists[id];
    }
  }

  function Record(b: Block): BlockImage {
    BlockImage(b.status, b.punit, b.eraseCount, b.nrInvalid, b.pst)
  }

  /** Reading a record back; the page offset is not part of the snapshot. */
  function Restore(b: Block, r: BlockImage): Block {
    b.(status := r.status, punit := r.punit, eraseCount := r.eraseCount, nrInvalid := r.nrInvalid, pst := r.pst)
  }

  /** A snapshot some device of this layout could have stored. */
  ghost predicate ImageOk(image: seq<BlockImage>, units: seq<nat>, nrSubpages: nat) {
    && |image| == |units|
    && forall b | 0 <= b < |image| ::
         image[b].punit == units[b] && BlockOk(Restore(Block(Free, 0, [], 0, 0, 0), image[b]), nrSubpages)
  }

  /** The block table a snapshot describes. */
  function ImageBlocks(image: seq<BlockImage>): seq<Block> {
    seq(|image|, b requires 0 <= b < |image| => Restore(Block(Free, 0, [], 0, 0, 0), image[b]))
  }

  lemma {:induction false} SameCounts(blocks: seq<Block>, blocks': seq<Block>, s: BlockStatus)
    requires |blocks| == |blocks'| && forall b | 0 <= b < |blocks| :: blocks'[b].status == blocks[b].status
    ensures Count(blocks', s) == Count(blocks, s)
  {
    if blocks != [] { SameCounts(blocks[1..], blocks'[1..], s); }
  }

  /** Lists and counters rebuilt from a snapshot agree with the ones it was taken from. */
  lemma {:induction false} RebuiltAgrees(blocks: seq<Block>, lists: ListHeads, blocks': seq<Block>, lists': ListHeads, nrPunits: nat)
    requires ListsOk(blocks, lists, nrPunits) && ListsOk(blocks', lists', nrPunits)
    requires |blocks'| == |blocks| && forall b | 0 <= b < |blocks| :: Record(blocks'[b]) == Record(blocks[b])
    ensures lists'.Keys == lists.Keys
    ensures forall id | id in lists :: multiset(lists'[id]) == multiset(lists[id])
    ensures forall s :: Count(blocks', s) == Count(blocks, s)
  {
    forall id | id in lists ensures multiset(lists'[id]) == multiset(lists[id]) {
      assert ListOk(blocks, lists[id], id) && ListOk(blocks', lists'[id], id);
      SameMembers(lists[id], lists'[id]);
    }
    forall s ensures Count(blocks', s) == Count(blocks, s) { SameCounts(blocks, blocks', s); }
  }

  lemma {:induction false} SameMembers(s: seq<nat>, t: seq<nat>)
    requires NoDup(s) && NoDup(t) && forall b: nat :: b in s <==> b in t
    ensures multiset(s) == multiset(t)
  {
    forall b: nat ensures multiset(s)[b] == multiset(t)[b] {
      OnceEach(s, b);
      OnceEach(t, b);
    }
  }

  lemma {:induction false} OnceEach(s: seq<nat>, b: nat)
    requires NoDup(s)
    ensures multiset(s)[b] == if b in s then 1 else 0
  {
    if s != [] {
      assert s == [s[0]] + s[1..];
      OnceEach(s[1..], b);
      assert s[0] !in s[1..];
    }
  }

  lemma {:induction false} CountAppend(blocks: seq<Block>, b: Block, s: BlockStatus)
    ensures Count(blocks + [b], s) == Count(blocks, s) + if b.status == s then 1 else 0
  {
    if blocks != [] {
      CountAppend(blocks[1..], b, s);
      assert (blocks + [b])[1..] == blocks[1..] + [b];
    }
  }

  class Abm {
    const g: Geometry
    ghost const units: seq<nat>

    var blocks: seq<Block>
    var lists: ListHeads
    var nrFree: nat
    var nrPrepared: nat
    var nrClean: nat
    var nrDirty: nat
    var nrBad: nat

    ghost predicate Valid()
      reads this
    {
      && g.Valid()
      && BlocksOk(blocks, units, g.Punits(), g.SubpagesPerBlock())
      && ListsOk(blocks, lists, g.Punits())
      && CountersOk(blocks, nrFree, nrPrepared, nrClean, nrDirty, nrBad)
    }

    /** The block table follows the device geometry; fixed at creation. */
    ghost predicate Wired() {
      g.Valid() && UnitsOk(g, units)
    }

    /** The counters always sum to the number of blocks. */
    lemma {:induction false} CheckStatus()
      requires Valid()
      ensures nrFree + nrPrepared + nrClean + nrDirty + nrBad == |blocks|
    {
      CountTotal(blocks);
    }

    constructor (geometry: Geometry)
      requires geometry.Valid()
      ensures Valid() && Wired() && g == geometry
      ensures blocks == NewTable(g) && nrFree == |blocks| == g.BlocksPerSsd() && nrPrepared == 0
      ensures forall b | 0 <= b < |blocks| :: blocks[b].status.Free? && blocks[b].eraseCount == 0 && blocks[b].offset == 0
      ensures forall id | id in lists :: Ascending(lists[id])
    {
      g := geometry;
      units := seq(geometry.BlocksPerSsd(), b requires 0 <= b < geometry.BlocksPerSsd() => geometry.PunitOf(b));
      blocks := NewTable(geometry);
      NewTableOk(geometry);
      var heads := BuildFreeLists(NewTable(geometry), geometry.Punits());
      lists := heads;
      nrFree, nrPrepared, nrClean, nrDirty, nrBad := geometry.BlocksPerSsd(), 0, 0, 0, 0;
    }

    /** Prepare: mark the first FREE block of the unit's free list.  When none is FREE the
        loop has run to the end and the last listed block, already prepared, is returned. */
    method GetFreeBlockPrepare(u: nat) returns (r: Option<nat>)
      requires Valid() && u < g.Punits()
      modifies this
      ensures Valid() && lists == old(lists)
      ensures ListId(FreeList, u) in lists
      ensures forall k | 0 <= k < |lists[ListId(FreeList, u)]| :: lists[ListId(FreeList, u)][k] < |old(blocks)|
      ensures var l := lists[ListId(FreeList, u)];
              var i := FirstFree(old(blocks), l);
              && (r.None? <==> l == [])
              && (i < |l| ==> r == Some(l[i]) && blocks == old(blocks)[l[i] := old(blocks)[l[i]].(status := FreePrepare)])
              && (i == |l| ==> blocks == old(blocks) && (l != [] ==> r == Some(l[|l| - 1])))
    {
      hide ListsOk, BlocksOk, Count;
      ListMembers(blocks, lists, g.Punits(), ListId(FreeList, u));
      var l := lists[ListId(FreeList, u)];
      r := None;
      for i := 0 to |l|
        invariant forall k | 0 <= k < i :: !blocks[l[k]].status.Free?
        invariant r == if i == 0 then None else Some(l[i - 1])
        invariant blocks == old(blocks) && lists == old(lists) && Valid()
      {
        r := Some(l[i]);
        if blocks[l[i]].status.Free? {
          FirstFreeIs(blocks, l, i);
          Prepare(l[i]);
          return;
        }
      }
      FirstFreeIs(blocks, l, |l|);
    }

    method Prepare(b: nat)
      requires Valid() && b < |blocks| && blocks[b].status.Free?
      modifies this
      ensures Valid() && lists == old(lists)
      ensures blocks == old(blocks)[b := old(blocks)[b].(status := FreePrepare)]
    {
      hide ListsOk, BlocksOk, Relink, Count, MovedToTail;
      BlockOkAt(blocks, units, g.Punits(), g.SubpagesPerBlock(), b);
      var nb := blocks[b].(status := FreePrepare);
      Replace(blocks, units, lists, g.Punits(), g.SubpagesPerBlock(), b, nb);
      blocks := blocks[b := nb];
      nrFree := nrFree - 1;
      nrPrepared := nrPrepared + 1;
    }

    /** Rollback: the prepared block is FREE again. */
    method GetFreeBlockRollback(b: nat)
      requires Valid() && b < |blocks| && blocks[b].status.FreePrepare?
      modifies this
      ensures Valid() && lists == old(lists)
      ensures blocks == old(blocks)[b := old(blocks)[b].(status := Free)]
    {
      hide ListsOk, BlocksOk, Relink, Count, MovedToTail;
      BlockOkAt(blocks, units, g.Punits(), g.SubpagesPerBlock(), b);
      var nb := blocks[b].(status := Free);
      Replace(blocks, units, lists, g.Punits(), g.SubpagesPerBlock(), b, nb);
      blocks := blocks[b := nb];
      nrPrepared := nrPrepared - 1;
      nrFree := nrFree + 1;
    }

    /** Commit: the prepared block becomes CLEAN, at the tail of its clean list. */
    method GetFreeBlockCommit(b: nat)
      requires Valid() && b < |blocks| && blocks[b].status.FreePrepare?
      modifies this
      ensures Valid() && lists == Relink(old(lists), b, ListId(CleanList, old(blocks)[b].punit))
      ensures MovedToTail(old(lists), lists, b, ListId(CleanList, old(blocks)[b].punit))
      ensures blocks == old(blocks)[b := old(blocks)[b].(status := Clean)]
    {
      hide ListsOk, BlocksOk, Relink, Count, MovedToTail;
      BlockOkAt(blocks, units, g.Punits(), g.SubpagesPerBlock(), b);
      var nb := blocks[b].(status := Clean);
      Replace(blocks, units, lists, g.Punits(), g.SubpagesPerBlock(), b, nb);
      RelinkMoves(blocks, lists, g.Punits(), b, ListId(CleanList, nb.punit));
      blocks := blocks[b := nb];
      lists := Relink(lists, b, ListId(CleanList, nb.punit));
      nrPrepared := nrPrepared - 1;
      nrClean := nrClean + 1;
    }

    /** Prepare and commit at once, as every caller does: the unit's first free block. */
    method TakeFreeBlock(u: nat) returns (r: Option<nat>)
      requires Valid() && nrPrepared == 0 && u < g.Punits()
      modifies this
      ensures Valid() && nrPrepared == 0
      ensures r.None? <==> FreeLen(old(lists), u) == 0
      ensures r.None? ==> blocks == old(blocks) && lists == old(lists) && nrFree == old(nrFree)
      ensures r.Some? ==>
                && r.value < |old(blocks)| && r.value == old(lists)[ListId(FreeList, u)][0]
                && old(blocks)[r.value].status.Free? && old(blocks)[r.value].punit == u
                && blocks == old(blocks)[r.value := old(blocks)[r.value].(status := Clean)]
                && lists == Relink(old(lists), r.value, ListId(CleanList, u)) && MovedToTail(old(lists), lists, r.value, ListId(CleanList, u))
                && nrFree == old(nrFree) - 1
                && FreeLen(lists, u) == FreeLen(old(lists), u) - 1 && FreeOf(old(lists), u) == [r.value] + FreeOf(lists, u)
                && (forall v | 0 <= v < g.Punits() && v != u :: FreeLen(lists, v) == FreeLen(old(lists), v) && FreeOf(lists, v) == FreeOf(old(lists), v))
    {
      hide ListsOk, BlocksOk, Relink, MovedToTail;
      ListMembers(blocks, lists, g.Punits(), ListId(FreeList, u));
      CountZero(blocks, FreePrepare);
      ghost var l := lists[ListId(FreeList, u)];
      assert l != [] ==> Home(blocks[l[0]]) == ListId(FreeList, u);
      if l == [] { FirstFreeIs(blocks, l, 0); } else { FirstFreeIs(blocks, l, 0); }
      ghost var was := blocks;
      r := GetFreeBlockPrepare(u);
      if r.Some? {
        RelinkLengths(blocks, lists, g.Punits(), r.value, ListId(CleanList, u));
        forall v | 0 <= v < g.Punits()
          ensures FreeOf(Relink(lists, r.value, ListId(CleanList, u)), v) == if v == u then FreeOf(lists, u)[1..] else FreeOf(lists, v)
        {
          FreeOfRelink(blocks, lists, g.Punits(), u, v);
        }
        GetFreeBlockCommit(r.value);
        assert blocks == was[r.value := was[r.value].(status := Clean)];
        Recount(was, r.value);
      }
    }

    lemma {:induction false} Recount(was: seq<Block>, b: nat)
      requires b < |was| && was[b].status.Free? && Count(was, FreePrepare) == 0
      ensures Count(was[b := was[b].(status := Clean)], FreePrepare) == 0
      ensures Count(was[b := was[b].(status := Clean)], Free) == Count(was, Free) - 1
    {
      CountUpdate(was, b, was[b].(status := Clean), FreePrepare);
      CountUpdate(was, b, was[b].(status := Clean), Free);
    }

    /** The counter of the block's present status goes down by one. */
    method Discount(s: BlockStatus)
      requires match s
               case Free => nrFree > 0
               case FreePrepare => nrPrepared > 0
               case Clean => nrClean > 0
               case Dirty => nrDirty > 0
               case Bad => nrBad > 0
      modifies this`nrFree, this`nrPrepared, this`nrClean, this`nrDirty, this`nrBad
      ensures nrFree == old(nrFree) - (if s.Free? then 1 else 0)
      ensures nrPrepared == old(nrPrepared) - (if s.FreePrepare? then 1 else 0)
      ensures nrClean == old(nrClean) - (if s.Clean? then 1 else 0)
      ensures nrDirty == old(nrDirty) - (if s.Dirty? then 1 else 0)
      ensures nrBad == old(nrBad) - (if s.Bad? then 1 else 0)
    {
      match s
      case Clean => nrClean := nrClean - 1;
      case Dirty => nrDirty := nrDirty - 1;
      case Free => nrFree := nrFree - 1;
      case FreePrepare => nrPrepared := nrPrepared - 1;
      case Bad => nrBad := nrBad - 1;
    }

    /** Erase by index: the block is FREE (or BAD) with nothing invalid, whatever it was. */
    method EraseAt(b: nat, bad: bool)
      requires Valid() && b < |blocks|
      modifies this
      ensures Valid()
      ensures blocks == old(blocks)[b := EraseIn(old(blocks)[b], bad)]
      ensures lists == Relink(old(lists), b, ListId(if bad then BadList else FreeList, old(blocks)[b].punit))
      ensures MovedToTail(old(lists), lists, b, ListId(if bad then BadList else FreeList, old(blocks)[b].punit))
      ensures nrPrepared <= old(nrPrepared)
      ensures InUse(old(blocks)[b]) ==>
                && nrPrepared == old(nrPrepared)
                && (forall u | 0 <= u < g.Punits() ::
                      FreeLen(lists, u) == FreeLen(old(lists), u) + if u == old(blocks)[b].punit && !bad then 1 else 0)
                && forall u | 0 <= u < g.Punits() ::
                     FreeOf(lists, u) == FreeOf(old(lists), u) + if u == old(blocks)[b].punit && !bad then [b] else []
    {
      hide ListsOk, BlocksOk, Relink, Count, MovedToTail;
      BlockOkAt(blocks, units, g.Punits(), g.SubpagesPerBlock(), b);
      var was := blocks[b];
      var nb := EraseIn(was, bad);
      EraseKeepsBlockOk(was, bad, g.SubpagesPerBlock());
      Replace(blocks, units, lists, g.Punits(), g.SubpagesPerBlock(), b, nb);
      RelinkLengths(blocks, lists, g.Punits(), b, Home(nb));
      RelinkMoves(blocks, lists, g.Punits(), b, Home(nb));
      if InUse(was) {
        forall u | 0 <= u < g.Punits()
          ensures FreeOf(Relink(lists, b, Home(nb)), u) == FreeOf(lists, u) + if u == was.punit && !bad then [b] else []
        {
          FreeOfGiven(blocks, lists, g.Punits(), b, bad, u);
        }
      }
      Discount(was.status);
      if bad {
        lists := Relink(lists, b, ListId(BadList, was.punit));
        nrBad := nrBad + 1;
      } else {
        lists := Relink(lists, b, ListId(FreeList, was.punit));
        nrFree := nrFree + 1;
      }
      blocks := blocks[b := nb];
    }

    /** Erase by address.  An address outside the device is reported and changes nothing; otherwise
        the block moves to the free (or bad) list of its unit, and no other free list changes length. */
    method EraseBlock(channel: nat, chip: nat, block: nat, bad: bool)
      requires Valid() && Wired()
      modifies this
      ensures Valid()
      ensures !g.InDevice(channel, chip, block) ==> blocks == old(blocks) && lists == old(lists)
      ensures g.InDevice(channel, chip, block) ==>
                var b := g.BlockIdx(channel, chip, block);
                && b < |old(blocks)| && blocks == old(blocks)[b := EraseIn(old(blocks)[b], bad)]
                && lists == Relink(old(lists), b, ListId(if bad then BadList else FreeList, old(blocks)[b].punit))
                && MovedToTail(old(lists), lists, b, ListId(if bad then BadList else FreeList, old(blocks)[b].punit))
                && (InUse(old(blocks)[b]) ==>
                      && nrPrepared == old(nrPrepared)
                      && forall u | 0 <= u < g.Punits() ::
                           FreeLen(lists, u) == FreeLen(old(lists), u) + if u == old(blocks)[b].punit && !bad then 1 else 0)
    {
      SameSizes(this);
      hide ListsOk, BlocksOk, CountersOk, Relink, MovedToTail;
      var b := g.BlockIdx(channel, chip, block);
      if g.InDevice(channel, chip, block) { IndexRoundTrip(g, channel, chip, block); }
      if b >= |blocks| { return; }
      if g.ChannelOf(b) != channel || g.ChipOf(b) != chip || g.BlockOf(b) != block { return; }
      AddressRoundTrip(g, b);
      EraseAt(b, bad);
    }

    /** Mark a whole block invalid. */
    method SetToDirtyBlock(b: nat)
      requires Valid() && b < |blocks|
      modifies this
      ensures Valid()
      ensures blocks == old(blocks)[b := old(blocks)[b].(status := Dirty,
                pst := seq(g.SubpagesPerBlock(), _ => Invalid), nrInvalid := g.SubpagesPerBlock())]
      ensures lists == Relink(old(lists), b, ListId(DirtyList, old(blocks)[b].punit))
      ensures MovedToTail(old(lists), lists, b, ListId(DirtyList, old(blocks)[b].punit))
    {
      hide ListsOk, BlocksOk, Relink, Count, MovedToTail;
      BlockOkAt(blocks, units, g.Punits(), g.SubpagesPerBlock(), b);
      var was := blocks[b];
      var nb := was.(status := Dirty, pst := seq(g.SubpagesPerBlock(), _ => Invalid), nrInvalid := g.SubpagesPerBlock());
      CountInvalidBounds(nb.pst);
      Positive(g.subpages, g.pagesPerBlock);
      Replace(blocks, units, lists, g.Punits(), g.SubpagesPerBlock(), b, nb);
      RelinkMoves(blocks, lists, g.Punits(), b, ListId(DirtyList, was.punit));
      Discount(was.status);
      lists := Relink(lists, b, ListId(DirtyList, was.punit));
      nrDirty := nrDirty + 1;
      blocks := blocks[b := nb];
    }

    /** Invalidate one subpage; the first one moves its block from CLEAN to DIRTY. */
    method InvalidatePage(b: nat, off: nat)
      requires Valid() && b < |blocks| && off < g.SubpagesPerBlock()
      requires blocks[b].pst[off].NotInvalid? ==> InUse(blocks[b])
      modifies this
      ensures Valid()
      ensures blocks == InvalidateAt(old(blocks), Loc(b, off))
      ensures lists == if old(blocks)[b].status.Clean? then Relink(old(lists), b, ListId(DirtyList, old(blocks)[b].punit))
                       else old(lists)
      ensures old(blocks)[b].status.Clean? ==> MovedToTail(old(lists), lists, b, ListId(DirtyList, old(blocks)[b].punit))
      ensures nrPrepared == old(nrPrepared)
      ensures forall u | 0 <= u < g.Punits() :: FreeLen(lists, u) == FreeLen(old(lists), u)
    {
      hide ListsOk, BlocksOk, Relink, Count, MovedToTail;
      BlockOkAt(blocks, units, g.Punits(), g.SubpagesPerBlock(), b);
      var was := blocks[b];
      if was.pst[off].NotInvalid? {
        var nb := InvalidateIn(was, off);
        InvalidateKeepsBlockOk(was, off, g.SubpagesPerBlock());
        Replace(blocks, units, lists, g.Punits(), g.SubpagesPerBlock(), b, nb);
        if was.nrInvalid == 0 {
          RelinkLengths(blocks, lists, g.Punits(), b, ListId(DirtyList, was.punit));
          RelinkMoves(blocks, lists, g.Punits(), b, ListId(DirtyList, was.punit));
          lists := Relink(lists, b, ListId(DirtyList, was.punit));
          if nrClean > 0 {
            nrClean := nrClean - 1;
            nrDirty := nrDirty + 1;
          }
        }
        blocks := blocks[b := nb];
      } else {
        assert blocks[b := was] == blocks;
        CountInvalidBounds(was.pst);
      }
    }

    /** Set a block's page offset, as the extent allocator does. */
    method SetOffset(b: nat, offset: nat)
      requires Valid() && b < |blocks|
      modifies this`blocks
      ensures Valid() && blocks == old(blocks)[b := old(blocks)[b].(offset := offset)]
    {
      hide ListsOk, BlocksOk, Relink, Count, MovedToTail;
      BlockOkAt(blocks, units, g.Punits(), g.SubpagesPerBlock(), b);
      var nb := blocks[b].(offset := offset);
      Replace(blocks, units, lists, g.Punits(), g.SubpagesPerBlock(), b, nb);
      blocks := blocks[b := nb];
    }

    // ---- snapshot ------------------------------------------------------------------------

    /** Store: one record per block, in index order. */
    method Store() returns (image: seq<BlockImage>)
      requires Valid()
      ensures |image| == |blocks| && forall b | 0 <= b < |blocks| :: image[b] == Record(blocks[b])
      ensures ImageOk(image, units, g.SubpagesPerBlock())
    {
      image := [];
      for i := 0 to |blocks|
        invariant |image| == i
        invariant forall b | 0 <= b < i :: image[b] == Record(blocks[b])
      {
        image := image + [Record(blocks[i])];
      }
    }

    /** Load: read every record, then relink every block and recount. */
    method Load(image: seq<BlockImage>)
      requires Valid() && ImageOk(image, units, g.SubpagesPerBlock())
      modifies this
      ensures Valid()
      ensures |blocks| == |old(blocks)| && forall b | 0 <= b < |blocks| :: blocks[b] == Restore(old(blocks)[b], image[b])
      ensures forall id | id in lists :: Ascending(lists[id])
    {
      var was := blocks;
      var table := seq(|was|, b requires 0 <= b < |was| => Restore(was[b], image[b]));
      assert BlocksOk(table, units, g.Punits(), g.SubpagesPerBlock());
      RebuildLists(was, table);
      blocks := table;
    }

    method RebuildLists(ghost was: seq<Block>, table: seq<Block>)
      requires ListsOk(was, lists, g.Punits()) && |table| == |was|
      requires forall b | 0 <= b < |table| :: table[b].punit < g.Punits()
      modifies this`lists, this`nrFree, this`nrPrepared, this`nrClean, this`nrDirty, this`nrBad
      ensures ListsOk(table, lists, g.Punits()) && forall id | id in lists :: Ascending(lists[id])
      ensures CountersOk(table, nrFree, nrPrepared, nrClean, nrDirty, nrBad)
    {
      hide ListsOk, Relink, Count, MovedToTail, SortedBelow;
      nrFree, nrPrepared, nrClean, nrDirty, nrBad := 0, 0, 0, 0, 0;
      assert table[..0] + was[0..] == was;
      assert CountersOk(table[..0], 0, 0, 0, 0, 0) by { CountAll(table[..0], Free); CountAll(table[..0], Bad); }
      NothingSorted(lists);
      for i := 0 to |table|
        invariant ListsOk(table[..i] + was[i..], lists, g.Punits())
        invariant forall id | id in lists :: SortedBelow(lists[id], i)
        invariant CountersOk(table[..i], nrFree, nrPrepared, nrClean, nrDirty, nrBad)
      {
        RelinkOk(table[..i] + was[i..], lists, g.Punits(), i, table[i]);
        assert (table[..i] + was[i..])[i := table[i]] == table[..i + 1] + was[i + 1..];
        assert table[..i + 1] == table[..i] + [table[i]];
        forall s ensures Count(table[..i + 1], s) == Count(table[..i], s) + if table[i].status == s then 1 else 0 {
          CountAppend(table[..i], table[i], s);
        }
        RelinkMoves(table[..i] + was[i..], lists, g.Punits(), i, Home(table[i]));
        ListsNoDup(table[..i + 1] + was[i + 1..], Relink(lists, i, Home(table[i])), g.Punits());
        SortedNext(lists, Relink(lists, i, Home(table[i])), i, Home(table[i]));
        lists := Relink(lists, i, Home(table[i]));
        match table[i].status
        case Free => nrFree := nrFree + 1;
        case FreePrepare => nrPrepared := nrPrepared + 1;
        case Clean => nrClean := nrClean + 1;
        case Dirty => nrDirty := nrDirty + 1;
        case Bad => nrBad := nrBad + 1;
      }
      assert table[..|table|] + was[|table|..] == table;
      assert table[..|table|] == table;
      AllSorted(table, lists, g.Punits());
    }
  }

  /** A snapshot stored by one manager and loaded by another: every block but its offset, every list
      as a multiset, and the five counters are the same.  The lists are now in index order. */
  method Reload(was: Abm, now: Abm)
    requires was.Valid() && was.Wired() && now.Valid() && now.Wired() && was != now && was.g == now.g
    modifies now
    ensures now.Valid() && |now.blocks| == |was.blocks| == |old(now.blocks)|
    ensures forall b | 0 <= b < |was.blocks| ::
              && now.blocks[b].status == was.blocks[b].status && now.blocks[b].punit == was.blocks[b].punit
              && now.blocks[b].eraseCount == was.blocks[b].eraseCount && now.blocks[b].nrInvalid == was.blocks[b].nrInvalid
              && now.blocks[b].pst == was.blocks[b].pst && now.blocks[b].offset == old(now.blocks[b].offset)
    ensures forall id | id in now.lists :: Ascending(now.lists[id])
    ensures now.lists.Keys == was.lists.Keys && forall id | id in was.lists :: multiset(now.lists[id]) == multiset(was.lists[id])
    ensures now.nrFree == was.nrFree && now.nrPrepared == was.nrPrepared && now.nrClean == was.nrClean
    ensures now.nrDirty == was.nrDirty && now.nrBad == was.nrBad
  {
    hide ListsOk, Count, BlocksOk;
    assert was.units == now.units;
    var image := was.Store();
    now.Load(image);
    assert |now.blocks| == |image| by { SameSizes(was); SameSizes(now); }
    RebuiltAgrees(was.blocks, was.lists, now.blocks, now.lists, was.g.Punits());
  }

  lemma {:induction false} NothingSorted(lists: ListHeads)
    ensures forall id | id in lists :: SortedBelow(lists[id], 0)
  {
  }

  lemma {:induction false} ListsNoDup(blocks: seq<Block>, lists: ListHeads, nrPunits: nat)
    requires ListsOk(blocks, lists, nrPunits)
    ensures forall id | id in lists :: NoDup(lists[id])
  {
    forall id | id in lists ensures NoDup(lists[id]) { assert ListOk(blocks, lists[id], id); }
  }

  lemma {:induction false} AllSorted(blocks: seq<Block>, lists: ListHeads, nrPunits: nat)
    requires ListsOk(blocks, lists, nrPunits) && forall id | id in lists :: SortedBelow(lists[id], |blocks|)
    ensures forall id | id in lists :: Ascending(lists[id])
  {
    forall id | id in lists ensures Ascending(lists[id]) {
      assert ListOk(blocks, lists[id], id);
      forall y: nat, z: nat | Before(lists[id], y, z) ensures y < z {
        var i, j :| 0 <= i < j < |lists[id]| && lists[id][i] == y && lists[id][j] == z;
        assert lists[id][i] in lists[id];
      }
    }
  }

  lemma {:induction false} SameSizes(abm: Abm)
    requires abm.Valid()
    ensures |abm.blocks| == |abm.units|
  {
  }
}
