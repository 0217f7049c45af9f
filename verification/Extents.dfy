/** The extent allocator: runs that use only get_free_ppas. */
module Extents {
  import opened Common
  import opened Nand
  import opened Lists
  import opened Geometry
  import opened BlockManager

  /** A physical page: block index and page number. */
  datatype Page = Page(blk: nat, no: nat)

  /** The pages [from, from + n) of one block. */
  function Range(blk: nat, from: nat, n: nat): (s: set<Page>)
    ensures forall p :: p in s <==> p.blk == blk && from <= p.no < from + n
  {
    if n == 0 then {} else Range(blk, from, n - 1) + {Page(blk, from + n - 1)}
  }

  /** Active blocks sit on their units, and offsets stay within a block. */
  ghost predicate UnitsServed(blocks: seq<Block>, ac: seq<nat>, pages: nat) {
    && (forall u | 0 <= u < |ac| :: ac[u] < |blocks| && blocks[ac[u]].punit == u)
    && forall b | 0 <= b < |blocks| :: blocks[b].offset <= pages
  }

  /** Every page handed out lies below its block's offset. */
  ghost predicate Behind(blocks: seq<Block>, given: set<Page>) {
    forall p | p in given :: p.blk < |blocks| && p.no < blocks[p.blk].offset
  }

  lemma {:induction false} Served(blocks: seq<Block>, ac: seq<nat>, pages: nat, u: nat)
    requires UnitsServed(blocks, ac, pages) && u < |ac|
    ensures ac[u] < |blocks| && blocks[ac[u]].punit == u && blocks[ac[u]].offset <= pages
  {
  }

  /** Handing out the next n pages of block b. */
  lemma {:induction false} Grow(blocks: seq<Block>, ac: seq<nat>, given: set<Page>, pages: nat, b: nat, n: nat)
    requires UnitsServed(blocks, ac, pages) && Behind(blocks, given) && b < |blocks| && blocks[b].offset + n <= pages
    ensures var blocks' := blocks[b := blocks[b].(offset := blocks[b].offset + n)];
            UnitsServed(blocks', ac, pages) && Behind(blocks', given + Range(b, blocks[b].offset, n))
    ensures Range(b, blocks[b].offset, n) !! given
  {
  }

  lemma {:induction false} NewActive(blocks: seq<Block>, ac: seq<nat>, given: set<Page>, pages: nat, u: nat, b: nat)
    requires UnitsServed(blocks, ac, pages) && Behind(blocks, given) && u < |ac| && b < |blocks| && blocks[b].punit == u
    ensures var blocks' := blocks[b := blocks[b].(status := Clean)];
            UnitsServed(blocks', ac[u := b], pages) && Behind(blocks', given)
  {
  }

  /** Every block has been handed out to its end. */
  ghost predicate UsedUp(blocks: seq<Block>, pages: nat) {
    forall b | 0 <= b < |blocks| :: blocks[b].offset >= pages
  }

  /** Free blocks and active blocks still have pages: no block has been used up and erased. */
  ghost predicate Unused(blocks: seq<Block>, ac: seq<nat>, pages: nat) {
    && (forall b | 0 <= b < |blocks| :: blocks[b].status.Free? ==> blocks[b].offset < pages)
    && forall u | 0 <= u < |ac| :: ac[u] < |blocks| && !blocks[ac[u]].status.Free? && blocks[ac[u]].offset < pages
  }

  /** No unit has fewer free blocks than before, but for d of them. */
  ghost predicate AtMostLost(lists0: ListHeads, lists: ListHeads, nrPunits: nat, d: nat) {
    forall u | 0 <= u < nrPunits :: FreeLen(lists, u) + d >= FreeLen(lists0, u)
  }

  /** An erase keeps the offset. */
  lemma {:induction false} EraseServed(blocks: seq<Block>, ac: seq<nat>, given: set<Page>, pages: nat, b: nat, bad: bool)
    requires UnitsServed(blocks, ac, pages) && Behind(blocks, given) && b < |blocks|
    ensures var blocks' := blocks[b := EraseIn(blocks[b], bad)];
            UnitsServed(blocks', ac, pages) && Behind(blocks', given) && (UsedUp(blocks, pages) ==> UsedUp(blocks', pages))
  {
  }

  // ---- how far the pages go --------------------------------------------------------------------

  /** Pages of a block not handed out yet. */
  function Rest(blocks: seq<Block>, b: nat, pages: nat): nat {
    if b < |blocks| && blocks[b].offset <= pages then pages - blocks[b].offset else 0
  }

  /** The pages left in the blocks a unit goes through: its active block, then its free blocks.  An
      active block that was erased is on the free list too, and used up when its turn comes again. */
  function Queue(blocks: seq<Block>, l: seq<nat>, active: nat, pages: nat): (q: seq<nat>)
    ensures |q| == |l| + 1
  {
    [Rest(blocks, active, pages)] + seq(|l|, i requires 0 <= i < |l| => if l[i] == active then 0 else Rest(blocks, l[i], pages))
  }

  function Turn(puid: nat, i: nat, n: nat): nat
    requires i < n && puid < n
  {
    if puid + i < n then puid + i else puid + i - n
  }

  /** The queues of all units in the order the cursor visits them. */
  function Queues(g: Geometry, blocks: seq<Block>, lists: ListHeads, ac: seq<nat>, puid: nat): (qs: seq<seq<nat>>)
    requires g.Valid() && puid < g.Punits()
    ensures |qs| == g.Punits() && Queued(qs)
  {
    seq(g.Punits(), i requires 0 <= i < g.Punits() => QueueOf(g, blocks, lists, ac, Turn(puid, i, g.Punits())))
  }

  function QueueOf(g: Geometry, blocks: seq<Block>, lists: ListHeads, ac: seq<nat>, turn: nat): (q: seq<nat>)
    requires g.Valid()
    ensures q != []
  {
    var u := g.UnitAt(turn);
    Queue(blocks, FreeOf(lists, u), if u < |ac| then ac[u] else 0, g.pagesPerBlock)
  }

  predicate Queued(qs: seq<seq<nat>>) {
    qs != [] && forall i | 0 <= i < |qs| :: qs[i] != []
  }

  function Total(qs: seq<seq<nat>>): nat {
    if qs == [] then 0 else |qs[0]| + Total(qs[1..])
  }

  lemma {:induction false} TotalPush(qs: seq<seq<nat>>, q: seq<nat>)
    ensures Total(qs + [q]) == Total(qs) + |q|
  {
    if qs != [] {
      assert (qs + [q])[1..] == qs[1..] + [q];
      TotalPush(qs[1..], q);
    }
  }

  /** The first unit's block is used up and replaced, and the cursor moves on. */
  function Rotated(qs: seq<seq<nat>>): (r: seq<seq<nat>>)
    requires Queued(qs) && |qs[0]| > 1
    ensures Queued(r) && Total(r) < Total(qs)
  {
    TotalPush(qs[1..], qs[0][1..]);
    qs[1..] + [qs[0][1..]]
  }

  /** The most pages one run of calls can get: everything up to the first block, in cursor order, that has
      no successor, and of that block all but the last page. */
  function Reach(qs: seq<seq<nat>>): nat
    requires Queued(qs)
    decreases Total(qs)
  {
    if |qs[0]| > 1 then qs[0][0] + Reach(Rotated(qs)) else if qs[0][0] == 0 then 0 else qs[0][0] - 1
  }

  /** One call against the queues. */
  lemma {:induction false} ReachStep(qs: seq<seq<nat>>, size: nat)
    requires Queued(qs) && size > 0
    ensures size < qs[0][0] ==> size <= Reach(qs)
    ensures |qs[0]| > 1 ==> Reach(qs) == qs[0][0] + Reach(Rotated(qs))
    ensures |qs[0]| == 1 && size >= qs[0][0] ==> size > Reach(qs)
  {
  }

  /** n units with an active block and f free ones, then m units with one free block less, all unused. */
  function Level(n: nat, m: nat, f: nat, p: nat): seq<seq<nat>> {
    seq(n, _ => seq(f + 1, _ => p)) + seq(m, _ => seq(f, _ => p))
  }

  /** On a level device of unused blocks the reach is one page short of f rounds of blocks and one block. */
  lemma {:induction false} LevelReach(n: nat, m: nat, f: nat, p: nat)
    requires n + m > 0 && p > 0 && (f == 0 ==> m == 0)
    ensures Queued(Level(n, m, f, p)) && Reach(Level(n, m, f, p)) == (f * (n + m) - m) * p + (p - 1)
    decreases f, n
  {
    LevelQueued(n, m, f, p);
    if n == 0 {
      assert Level(n, m, f, p) == Level(m, 0, f - 1, p);
      hide Level, Reach;
      LevelReach(m, 0, f - 1, p);
      Distribute(f - 1, 1, m);
    } else if f > 0 {
      hide Level;
      LevelReach(n - 1, m + 1, f, p);
      MulLe(1, f, n + m);
      Distribute(f * (n + m) - (m + 1), 1, p);
    }
  }

  lemma {:induction false} LevelQueued(n: nat, m: nat, f: nat, p: nat)
    requires n + m > 0 && (f == 0 ==> m == 0)
    ensures Queued(Level(n, m, f, p)) && (n > 0 ==> Level(n, m, f, p)[0][0] == p && |Level(n, m, f, p)[0]| == f + 1)
    ensures n > 0 && f > 0 ==> Rotated(Level(n, m, f, p)) == Level(n - 1, m + 1, f, p)
  {
    var qs := Level(n, m, f, p);
    if n > 0 && f > 0 {
      assert qs[0] == seq(f + 1, _ => p) && qs[0][1..] == seq(f, _ => p);
      assert qs[1..] == seq(n - 1, _ => seq(f + 1, _ => p)) + seq(m, _ => seq(f, _ => p));
      assert seq(m, _ => seq(f, _ => p)) + [seq(f, _ => p)] == seq(m + 1, _ => seq(f, _ => p));
    }
  }

  class ExtentFtl {
    const abm: Abm
    const g: Geometry
    var ac: seq<nat>
    var puid: nat
    ghost var given: set<Page>  // every page ever handed out

    ghost predicate Valid()
      reads this, abm
    {
      && abm.Valid() && abm.g == g && abm.nrPrepared == 0
      && |ac| == g.Punits() && puid < g.Punits()
      && UnitsServed(abm.blocks, ac, g.pagesPerBlock)
      && Behind(abm.blocks, given)
    }

    constructor (a: Abm, active: seq<nat>)
      requires a.Valid() && a.nrPrepared == 0 && |active| == a.g.Punits()
      requires UnitsServed(a.blocks, active, a.g.pagesPerBlock)
      ensures Valid() && abm == a && g == a.g && ac == active && puid == 0 && given == {}
    {
      abm, g, ac, puid, given := a, a.g, active, 0, {};
      Positive(a.g.channels, a.g.chips);
    }

    /** Up to `size` consecutive pages of the unit's active block.  A block that is used up is
        replaced at once; when that fails, -1 is returned and the pages are lost. */
    method GetFreePpas(size: nat) returns (n: int, start: Page)
      requires Valid()
      modifies this, abm
      ensures Valid() && old(given) <= given
      ensures var u := g.UnitAt(old(puid));
              && u < |old(ac)| && start.blk == old(ac)[u] < |old(abm.blocks)|
              && start.no == old(abm.blocks)[start.blk].offset <= g.pagesPerBlock
              && (n == -1 <==> start.no + size >= g.pagesPerBlock && FreeLen(old(abm.lists), u) == 0)
      ensures n == -1 || n == if start.no + size > g.pagesPerBlock then g.pagesPerBlock - start.no else size
      ensures n >= 0 ==> Range(start.blk, start.no, n) !! old(given) && given == old(given) + Range(start.blk, start.no, n)
      ensures n == -1 ==> ac == old(ac) && puid == old(puid) && abm.lists == old(abm.lists)
      ensures n == -1 ==> abm.blocks == old(abm.blocks)[start.blk := old(abm.blocks)[start.blk].(offset := g.pagesPerBlock)]
      ensures n >= 0 && start.no + size < g.pagesPerBlock ==>
                && abm.blocks == old(abm.blocks)[start.blk := old(abm.blocks)[start.blk].(offset := start.no + size)]
                && ac == old(ac) && puid == old(puid) && abm.lists == old(abm.lists) && abm.nrFree == old(abm.nrFree)
      ensures n >= 0 && start.no + size >= g.pagesPerBlock ==>
                var u := g.UnitAt(old(puid));
                && u < |ac| && ac == old(ac)[u := ac[u]] && puid == (old(puid) + 1) % g.Punits()
                && ac[u] < |old(abm.blocks)| && old(abm.blocks)[ac[u]].status.Free? && old(abm.blocks)[ac[u]].punit == u
                && abm.blocks == Switched(old(abm.blocks), start.blk, g.pagesPerBlock, ac[u])
                && FreeOf(old(abm.lists), u) != [] && ac[u] == FreeOf(old(abm.lists), u)[0]
                && abm.lists == Relink(old(abm.lists), ac[u], ListId(CleanList, u))
                && abm.nrFree == old(abm.nrFree) - 1 && FreeLen(abm.lists, u) == FreeLen(old(abm.lists), u) - 1
                && AtMostLost(old(abm.lists), abm.lists, g.Punits(), 1)
    {
      hide BlocksOk, ListsOk, CountersOk, Relink, UnitsServed, Behind, Range, FreeLen;
      TurnRoundTrip(g, puid);
      Served(abm.blocks, ac, g.pagesPerBlock, g.UnitAt(puid));
      var u := (puid % g.channels) * g.chips + puid / g.channels;
      var b := ac[u];
      start := Page(b, abm.blocks[b].offset);
      if start.no + size > g.pagesPerBlock {
        n := g.pagesPerBlock - start.no;
        abm.SetOffset(b, g.pagesPerBlock);
      } else {
        n := size;
        abm.SetOffset(b, start.no + size);
      }
      ghost var n0 := n;
      Grow(old(abm.blocks), ac, given, g.pagesPerBlock, b, n);
      given := given + Range(b, start.no, n);
      if abm.blocks[b].offset == g.pagesPerBlock {
        var r := abm.TakeFreeBlock(u);
        if r.None? { n := -1; return; }
        FreeOfLength(old(abm.lists), u);
        NewActive(old(abm.blocks)[b := old(abm.blocks)[b].(offset := start.no + n0)], ac, given, g.pagesPerBlock, u, r.value);
        ac := ac[u := r.value];
        puid := (puid + 1) % g.Punits();
      }
    }

    /** The number of pages within reach. */
    ghost function Within(): nat
      requires Valid()
      reads this, abm
    {
      Reach(Queues(g, abm.blocks, abm.lists, ac, puid))
    }

    /** Erase a block.  Its offset stays, so its pages are never handed out again. */
    method Erase(b: nat, bad: bool)
      requires Valid() && b < |abm.blocks|
      modifies abm
      ensures Valid() && abm.blocks == old(abm.blocks)[b := EraseIn(old(abm.blocks)[b], bad)]
      ensures abm.lists == Relink(old(abm.lists), b, ListId(if bad then BadList else FreeList, old(abm.blocks)[b].punit))
      ensures UsedUp(old(abm.blocks), g.pagesPerBlock) ==> UsedUp(abm.blocks, g.pagesPerBlock)
      ensures InUse(old(abm.blocks)[b]) ==> forall u | 0 <= u < g.Punits() ::
                FreeLen(abm.lists, u) == FreeLen(old(abm.lists), u) + if u == old(abm.blocks)[b].punit && !bad then 1 else 0
    {
      hide BlocksOk, ListsOk, CountersOk, Relink, UnitsServed, Behind, UsedUp;
      EraseServed(abm.blocks, ac, given, g.pagesPerBlock, b, bad);
      abm.EraseAt(b, bad);
    }

    /** The caller's loop: ask until enough pages are there.  It ends even though a call may
        return nothing, because such a call uses up a free block.  It succeeds exactly when the pages
        wanted are within reach.  It fails at a unit that has no free block left and whose active
        block is used up; it succeeds whenever every unit has a free block for each page wanted
        and no block has been used up and erased; and once every block is used up it yields
        nothing, however many blocks are erased and free. */
    method Allocate(want: nat) returns (ok: bool, pages: seq<Page>)
      requires Valid()
      modifies this, abm
      ensures Valid() && old(given) <= given
      ensures if ok then |pages| == want else |pages| < want
      ensures NewPages(pages, old(given), given)
      ensures ok <==> want <= old(Within())
      ensures !ok ==>
                var u := g.UnitAt(puid);
                u < |ac| && ac[u] < |abm.blocks| && abm.blocks[ac[u]].offset == g.pagesPerBlock && FreeLen(abm.lists, u) == 0
      ensures Unused(old(abm.blocks), old(ac), g.pagesPerBlock) && AtLeast(old(abm.lists), g.Punits(), want) ==> ok
      ensures UsedUp(old(abm.blocks), g.pagesPerBlock) ==> pages == [] && UsedUp(abm.blocks, g.pagesPerBlock)
    {
      hide BlocksOk, ListsOk, CountersOk, UnitsServed, Behind, Unused, UsedUp, AtMostLost, AtLeast, FreeLen, Switched, NewPages, Range, Relink, Reach, Queues,
        FreeOf;
      pages := [];
      ghost var lists0 := abm.lists;
      ghost var safe := Unused(abm.blocks, ac, g.pagesPerBlock) && AtLeast(lists0, g.Punits(), want);
      ghost var worn := UsedUp(abm.blocks, g.pagesPerBlock);
      ghost var reach := Within();
      LostNothing(lists0, g.Punits());
      NoPages(given);
      while |pages| < want
        invariant Valid() && old(given) <= given && |pages| <= want
        invariant NewPages(pages, old(given), given)
        invariant if |pages| < want then |pages| + Within() == reach else want <= reach
        invariant safe ==> Unused(abm.blocks, ac, g.pagesPerBlock) && AtMostLost(lists0, abm.lists, g.Punits(), |pages|)
        invariant worn ==> UsedUp(abm.blocks, g.pagesPerBlock) && pages == []
        decreases abm.nrFree, want - |pages|
      {
        ghost var before, blocks, lists, ac0, u := given, abm.blocks, abm.lists, ac, g.UnitAt(puid);
        var size := want - |pages|;
        ghost var puid0, qs := puid, Queues(g, abm.blocks, abm.lists, ac, puid);
        ReachStep(qs, size);
        HeadQueue(g, blocks, lists, ac, puid);
        NextTurn(puid, g.Punits());
        if FreeLen(lists, u) > 0 { QueuesRotate(g, blocks, lists, ac, puid, (puid + 1) % g.Punits()); }
        var n, start := GetFreePpas(size);
        if n < 0 {
          if safe { NotStuck(lists0, lists, g.Punits(), |pages|, want, u); }
          if worn { KeepsUsedUp(blocks, start.blk, g.pagesPerBlock, start.no, size, start.blk); }
          NewPagesGrow(pages, old(given), before, given);
          return false, pages;
        }
        if worn {
          KeepsUsedUp(blocks, start.blk, g.pagesPerBlock, start.no, size, start.blk);
          KeepsUsedUp(blocks, start.blk, g.pagesPerBlock, start.no, size, ac[u]);
        }
        if safe {
          KeepsUnused(blocks, ac0, g.pagesPerBlock, u, size, ac[u]);
          LostMorePages(lists0, lists, abm.lists, g.Punits(), |pages|, n);
        }
        pages := Append(pages, start, n, old(given), before);
      }
      ok := true;
    }
  }

  /** The active block b is used up and x takes its place. */
  function Switched(blocks: seq<Block>, b: nat, pages: nat, x: nat): (r: seq<Block>)
    requires b < |blocks| && x < |blocks|
    ensures |r| == |blocks|
  {
    var blocks' := blocks[b := blocks[b].(offset := pages)];
    blocks'[x := blocks'[x].(status := Clean)]
  }

  ghost predicate AtLeast(lists: ListHeads, nrPunits: nat, n: nat) {
    forall u | 0 <= u < nrPunits :: FreeLen(lists, u) >= n
  }

  /** The pages are distinct, handed out now and not before. */
  ghost predicate NewPages(pages: seq<Page>, before: set<Page>, given: set<Page>) {
    && (forall i | 0 <= i < |pages| :: pages[i] in given && pages[i] !in before)
    && forall i, j | 0 <= i < j < |pages| :: pages[i] != pages[j]
  }

  lemma {:induction false} NoPages(given: set<Page>)
    ensures NewPages([], given, given)
  {
  }

  lemma {:induction false} NewPagesGrow(pages: seq<Page>, before: set<Page>, given: set<Page>, given': set<Page>)
    requires NewPages(pages, before, given) && given <= given'
    ensures NewPages(pages, before, given')
  {
  }

  /** The n pages from `start`, after those the caller has. */
  method Append(had: seq<Page>, start: Page, n: nat, ghost given0: set<Page>, ghost before: set<Page>) returns (pages: seq<Page>)
    requires NewPages(had, given0, before) && given0 <= before && Range(start.blk, start.no, n) !! before
    ensures |pages| == |had| + n && NewPages(pages, given0, before + Range(start.blk, start.no, n))
    ensures pages[..|had|] == had && forall i | |had| <= i < |pages| :: pages[i] == Page(start.blk, start.no + i - |had|)
  {
    pages := had;
    for k := 0 to n
      invariant |pages| == |had| + k && pages[..|had|] == had
      invariant forall i | |had| <= i < |pages| :: pages[i] == Page(start.blk, start.no + i - |had|)
    {
      pages := pages + [Page(start.blk, start.no + k)];
    }
    forall i | 0 <= i < |had| ensures pages[i] == had[i] { assert pages[..|had|][i] == had[i]; }
  }

  lemma {:induction false} LostNothing(lists: ListHeads, nrPunits: nat)
    ensures AtMostLost(lists, lists, nrPunits, 0)
  {
  }

  lemma {:induction false} NotStuck(lists0: ListHeads, lists: ListHeads, nrPunits: nat, d: nat, want: nat, u: nat)
    requires AtMostLost(lists0, lists, nrPunits, d) && AtLeast(lists0, nrPunits, want) && d < want && u < nrPunits
    ensures FreeLen(lists, u) > 0
  {
  }

  lemma {:induction false} LostMorePages(lists0: ListHeads, lists1: ListHeads, lists: ListHeads, nrPunits: nat, d: nat, n: nat)
    requires AtMostLost(lists0, lists1, nrPunits, d) && (lists == lists1 || (n > 0 && AtMostLost(lists1, lists, nrPunits, 1)))
    ensures AtMostLost(lists0, lists, nrPunits, d + n)
  {
  }

  lemma {:induction false} KeepsUsedUp(blocks: seq<Block>, b: nat, pages: nat, no: nat, size: nat, x: nat)
    requires UsedUp(blocks, pages) && b < |blocks| && blocks[b].offset == no && x < |blocks|
    ensures UsedUp(Switched(blocks, b, pages, x), pages) && UsedUp(blocks[b := blocks[b].(offset := pages)], pages) && no >= pages
  {
  }

  lemma {:induction false} KeepsUnused(blocks: seq<Block>, ac: seq<nat>, pages: nat, u: nat, size: nat, x: nat)
    requires Unused(blocks, ac, pages) && UnitsServed(blocks, ac, pages) && u < |ac|
    ensures ac[u] < |blocks| && blocks[ac[u]].offset < pages
    ensures blocks[ac[u]].offset + size < pages ==>
              Unused(blocks[ac[u] := blocks[ac[u]].(offset := blocks[ac[u]].offset + size)], ac, pages)
    ensures x < |blocks| && blocks[x].status.Free? && blocks[x].punit == u ==>
              Unused(Switched(blocks, ac[u], pages, x), ac[u := x], pages)
  {
  }

  /** A device of two blocks, `on` active and the other one free. */
  ghost predicate Pair(ftl: ExtentFtl, pages: nat, on: nat)
    reads ftl, ftl.abm
  {
    && ftl.g == Geometry(1, 1, 2, pages, 1) && |ftl.abm.blocks| == 2 && on < 2 && ftl.ac == [on]
    && !ftl.abm.blocks[on].status.Free? && ftl.abm.blocks[1 - on].status.Free?
    && ftl.abm.blocks[0].punit == 0 && ftl.abm.blocks[1].punit == 0
  }

  /** Use up the active block and erase it: the two blocks change places. */
  method TakeTurn(ftl: ExtentFtl, pages: nat, on: nat) returns (n: int)
    requires ftl.Valid() && Pair(ftl, pages, on)
    modifies ftl, ftl.abm
    ensures ftl.Valid() && Pair(ftl, pages, 1 - on) && n == pages - old(ftl.abm.blocks[on].offset)
    ensures ftl.abm.blocks[on].offset == pages && ftl.abm.blocks[1 - on].offset == old(ftl.abm.blocks[1 - on].offset)
  {
    hide BlocksOk, ListsOk, CountersOk, Behind, Relink, FreeLen, AtMostLost, UsedUp, Range;
    Listed(ftl.abm, 1 - on);
    assert ftl.g.UnitAt(ftl.puid) == 0;
    var start;
    n, start := ftl.GetFreePpas(pages);
    assert ftl.ac[0] == 1 - on && |ftl.ac| == 1;
    ftl.Erase(on, false);
  }

  /** Once both blocks have been used up and erased, the allocator hands out nothing, although it
      has a free block. */
  method ReuseIsEmpty(pages: nat) returns (n: int)
    requires pages > 0
    ensures n == 0
  {
    hide BlocksOk, ListsOk, CountersOk, Behind, UnitsOk, Relink, FreeLen, NewTable;
    var g := Geometry(1, 1, 2, pages, 1);
    var abm := new Abm(g);
    TwoBlocks(pages);
    Listed(abm, 0);
    var r := abm.TakeFreeBlock(0);
    var on := r.value;
    assert abm.blocks[on].status.Clean? && abm.blocks[1 - on].status.Free?;
    var ftl := new ExtentFtl(abm, [on]);
    n := TakeTurn(ftl, pages, on);
    n := TakeTurn(ftl, pages, 1 - on);
    n := TakeTurn(ftl, pages, on);
  }

  lemma {:induction false} TwoBlocks(pages: nat)
    requires pages > 0
    ensures var g := Geometry(1, 1, 2, pages, 1);
            |NewTable(g)| == 2 && forall b | 0 <= b < 2 :: NewTable(g)[b].status.Free? && NewTable(g)[b].punit == 0 && NewTable(g)[b].offset == 0
  {
  }

  lemma {:induction false} Listed(abm: Abm, b: nat)
    requires abm.Valid() && b < |abm.blocks| && abm.blocks[b].status.Free?
    ensures FreeLen(abm.lists, abm.blocks[b].punit) > 0
  {
    var id := ListId(FreeList, abm.blocks[b].punit);
    assert Home(abm.blocks[b]) == id;
  }

  lemma {:induction false} HeadQueue(g: Geometry, blocks: seq<Block>, lists: ListHeads, ac: seq<nat>, puid: nat)
    requires g.Valid() && puid < g.Punits() == |ac| && UnitsServed(blocks, ac, g.pagesPerBlock)
    ensures var u, qs := g.UnitAt(puid), Queues(g, blocks, lists, ac, puid);
            && u < |ac| && ac[u] < |blocks| && |qs[0]| == FreeLen(lists, u) + 1 && blocks[ac[u]].offset <= g.pagesPerBlock
            && qs[0] == QueueOf(g, blocks, lists, ac, puid)
            && qs[0][0] == g.pagesPerBlock - blocks[ac[u]].offset && (FreeLen(lists, u) > 0 <==> FreeOf(lists, u) != [])
  {
    TurnRoundTrip(g, puid);
    FreeOfLength(lists, g.UnitAt(puid));
    assert Turn(puid, 0, g.Punits()) == puid;
    assert Queues(g, blocks, lists, ac, puid)[0] == QueueOf(g, blocks, lists, ac, puid);
  }

  /** A unit's queue after its active block b is used up and the first free block takes its place. */
  lemma {:induction false} QueueNext(blocks: seq<Block>, l: seq<nat>, b: nat, pages: nat)
    requires l != [] && NoDup(l) && b < |blocks| && forall i | 0 <= i < |l| :: l[i] < |blocks|
    ensures Queue(Switched(blocks, b, pages, l[0]), l[1..], l[0], pages) == Queue(blocks, l, b, pages)[1..]
  {
    var blocks' := Switched(blocks, b, pages, l[0]);
    var q, q' := Queue(blocks, l, b, pages), Queue(blocks', l[1..], l[0], pages);
    forall i | 0 <= i < |l| ensures q'[i] == q[i + 1] {
      if i > 0 { assert l[1..][i - 1] == l[i] != l[0]; }
    }
  }

  /** Blocks of other units are not touched. */
  lemma {:induction false} QueueSame(blocks: seq<Block>, blocks': seq<Block>, l: seq<nat>, active: nat, pages: nat)
    requires Rest(blocks', active, pages) == Rest(blocks, active, pages)
    requires forall i | 0 <= i < |l| :: Rest(blocks', l[i], pages) == Rest(blocks, l[i], pages)
    ensures Queue(blocks', l, active, pages) == Queue(blocks, l, active, pages)
  {
  }

  /** Using up a block and taking the next one rotates the queues. */
  lemma {:induction false} QueuesRotate(g: Geometry, blocks: seq<Block>, lists: ListHeads, ac: seq<nat>, puid: nat, puid': nat)
    requires g.Valid() && puid < g.Punits() == |ac| && ListsOk(blocks, lists, g.Punits()) && UnitsServed(blocks, ac, g.pagesPerBlock)
    requires g.UnitAt(puid) < |ac| && FreeOf(lists, g.UnitAt(puid)) != [] && puid' == if puid + 1 < g.Punits() then puid + 1 else 0
    ensures var u := g.UnitAt(puid);
            var x, qs := FreeOf(lists, u)[0], Queues(g, blocks, lists, ac, puid);
            && x < |blocks| && ac[u] < |blocks| && |qs[0]| > 1
            && Queues(g, Switched(blocks, ac[u], g.pagesPerBlock, x), Relink(lists, x, ListId(CleanList, u)), ac[u := x], puid')
               == qs[1..] + [qs[0][1..]]
  {
    hide ListsOk, Relink, UnitsServed, QueueOf, Queues, Switched, FreeOf, FreeLen, Geometry.UnitAt, Geometry.Punits, Geometry.Valid;
    var u, n := g.UnitAt(puid), g.Punits();
    HeadQueue(g, blocks, lists, ac, puid);
    QueueRotates(g, blocks, lists, ac, puid, puid);
    var x := FreeOf(lists, u)[0];
    var blocks', lists', ac' := Switched(blocks, ac[u], g.pagesPerBlock, x), Relink(lists, x, ListId(CleanList, u)), ac[u := x];
    var qs, qs' := Queues(g, blocks, lists, ac, puid), Queues(g, blocks', lists', ac', puid');
    forall i | 0 <= i < n ensures qs'[i] == if i + 1 < n then qs[i + 1] else qs[0][1..] {
      QueueRotatesAt(g, blocks, lists, ac, puid, puid', i);
    }
    Shifted(qs, qs');
  }

  lemma {:induction false} Shifted(qs: seq<seq<nat>>, qs': seq<seq<nat>>)
    requires |qs'| == |qs| > 0 && |qs[0]| > 0
    requires forall i | 0 <= i < |qs| :: qs'[i] == if i + 1 < |qs| then qs[i + 1] else qs[0][1..]
    ensures qs' == qs[1..] + [qs[0][1..]]
  {
  }

  lemma {:induction false} QueueRotatesAt(g: Geometry, blocks: seq<Block>, lists: ListHeads, ac: seq<nat>, puid: nat, puid': nat, i: nat)
    requires g.Valid() && puid < g.Punits() == |ac| && ListsOk(blocks, lists, g.Punits()) && UnitsServed(blocks, ac, g.pagesPerBlock)
    requires g.UnitAt(puid) < |ac| && FreeOf(lists, g.UnitAt(puid)) != [] && puid' == if puid + 1 < g.Punits() then puid + 1 else 0
    requires i < g.Punits()
    ensures var u := g.UnitAt(puid);
            var x, qs := FreeOf(lists, u)[0], Queues(g, blocks, lists, ac, puid);
            && x < |blocks| && ac[u] < |blocks|
            && Queues(g, Switched(blocks, ac[u], g.pagesPerBlock, x), Relink(lists, x, ListId(CleanList, u)), ac[u := x], puid')[i]
               == if i + 1 < g.Punits() then qs[i + 1] else qs[0][1..]
  {
    hide ListsOk, Relink, UnitsServed, QueueOf, Queues, Switched, FreeOf, FreeLen, Geometry.UnitAt, Geometry.Punits, Geometry.Valid;
    var u, n := g.UnitAt(puid), g.Punits();
    HeadQueue(g, blocks, lists, ac, puid);
    TurnNext(puid, puid', i, n);
    QueueRotates(g, blocks, lists, ac, puid, Turn(puid', i, n));
    var x := FreeOf(lists, u)[0];
    QueuesAt(g, Switched(blocks, ac[u], g.pagesPerBlock, x), Relink(lists, x, ListId(CleanList, u)), ac[u := x], puid', i);
    if i + 1 < n { QueuesAt(g, blocks, lists, ac, puid, i + 1); }
  }

  lemma {:induction false} QueuesAt(g: Geometry, blocks: seq<Block>, lists: ListHeads, ac: seq<nat>, puid: nat, i: nat)
    requires g.Valid() && puid < g.Punits() && i < g.Punits()
    ensures Queues(g, blocks, lists, ac, puid)[i] == QueueOf(g, blocks, lists, ac, Turn(puid, i, g.Punits()))
    ensures Turn(puid, i, g.Punits()) < g.Punits()
  {
  }

  lemma {:induction false} NextTurn(puid: nat, n: nat)
    requires puid < n
    ensures (puid + 1) % n == if puid + 1 < n then puid + 1 else 0
  {
  }

  lemma {:induction false} TurnNext(puid: nat, puid': nat, i: nat, n: nat)
    requires puid < n && i < n && puid' == if puid + 1 < n then puid + 1 else 0
    ensures Turn(puid', i, n) == (if i + 1 < n then Turn(puid, i + 1, n) else puid) < n
    ensures i + 1 < n ==> Turn(puid, i + 1, n) != puid
  {
  }

  lemma {:induction false} QueueRotates(g: Geometry, blocks: seq<Block>, lists: ListHeads, ac: seq<nat>, puid: nat, turn: nat)
    requires g.Valid() && puid < g.Punits() == |ac| && ListsOk(blocks, lists, g.Punits()) && UnitsServed(blocks, ac, g.pagesPerBlock)
    requires turn < g.Punits() && g.UnitAt(puid) < |ac| && FreeOf(lists, g.UnitAt(puid)) != []
    ensures var u := g.UnitAt(puid);
            var x := FreeOf(lists, u)[0];
            && x < |blocks| && ac[u] < |blocks|
            && QueueOf(g, Switched(blocks, ac[u], g.pagesPerBlock, x), Relink(lists, x, ListId(CleanList, u)), ac[u := x], turn)
               == if turn == puid then QueueOf(g, blocks, lists, ac, puid)[1..] else QueueOf(g, blocks, lists, ac, turn)
  {
    hide ListsOk, Relink, UnitsServed, Queue, NoDup, FreeOf, Geometry.UnitAt, Geometry.TurnOf, Geometry.Punits, Geometry.Valid;
    var u, v, pages := g.UnitAt(puid), g.UnitAt(turn), g.pagesPerBlock;
    TurnRoundTrip(g, puid);
    TurnRoundTrip(g, turn);
    FreeOfRelink(blocks, lists, g.Punits(), u, v);
    FreeOfRelink(blocks, lists, g.Punits(), u, u);
    Served(blocks, ac, pages, u);
    Served(blocks, ac, pages, v);
    var l, x := FreeOf(lists, v), FreeOf(lists, u)[0];
    if turn == puid {
      QueueNext(blocks, l, ac[u], pages);
    } else {
      assert u != v;
      QueueSame(blocks, Switched(blocks, ac[u], pages, x), l, ac[v], pages);
    }
  }
}
