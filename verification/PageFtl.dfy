/** The page-level FTL: mapping, allocation and garbage collection. */
module PageFtl {
  import opened Common
  import opened Nand
  import opened Lists
  import opened Geometry
  import opened BlockManager
  import opened Mapping
  import opened Cursor
  import opened GcTheory
  import opened Compaction
  import opened GcReads
  import opened Victims
  import opened Balance
  import opened Allocation
  import opened Greedy

  function Turns(g: Geometry): seq<nat>
    requires g.Valid()
  {
    seq(g.Punits(), u requires 0 <= u < g.Punits() => g.TurnOf(u))
  }

  lemma {:induction false} TurnsPermute(g: Geometry)
    requires g.Valid()
    ensures TurnsOk(Turns(g))
  {
    var turns := Turns(g);
    forall u | 0 <= u < |turns| ensures turns[u] < |turns| && g.UnitAt(turns[u]) == u { UnitRoundTrip(g, u); }
  }

  function EmptyMap(nrLpas: nat): (t: Table)
    ensures |t| == nrLpas
  {
    seq(nrLpas, _ => Entry(NotAllocated, Loc(-1, -1)))
  }

  lemma {:induction false} NewMapInv(g: Geometry)
    requires g.Valid()
    ensures MapInv(NewTable(g), EmptyMap(g.SubpagesPerSsd()), map[], Zeros(g.BlocksPerSsd()))
    ensures Logical(EmptyMap(g.SubpagesPerSsd()), map[]) == map[]
  {
  }

  lemma {:induction false} AllNewFree(g: Geometry, blocks: seq<Block>, lists: ListHeads)
    requires g.Valid() && blocks == NewTable(g) && ListsOk(blocks, lists, g.Punits())
    ensures Balanced(lists, g.Punits(), g.blocksPerChip)
  {
    hide NewTable, ListsOk, FreeLen;
    forall u | 0 <= u < g.Punits() ensures FreeLen(lists, u) == g.blocksPerChip { NewFree(g, blocks, lists, u); }
  }

  lemma {:induction false} NewTracks(g: Geometry, ac: seq<nat>)
    requires g.Valid() && NoDup(ac)
    ensures Tracks(g, Alloc(ac, 0, 0, Zeros(g.BlocksPerSsd())), [], ac, 0, 0, Zeros(g.BlocksPerSsd()))
  {
    TrackStart(g, ac, Zeros(g.BlocksPerSsd()), Zeros(g.BlocksPerSsd()));
  }

  lemma {:induction false} RenewedActivated(blocks: seq<Block>, blocks': seq<Block>, ac: seq<nat>, n: nat)
    requires RenewedTo(blocks, blocks', ac, n)
    ensures Activated(blocks, blocks')
  {
  }

  lemma {:induction false} NewCursor(g: Geometry, blocks': seq<Block>, ac: seq<nat>)
    requires g.Valid() && |ac| == g.Punits()
    requires RenewedTo(NewTable(g), blocks', ac, |ac|)
    ensures CursorOk(blocks', Zeros(g.BlocksPerSsd()), ac, Turns(g), 0, 0, g.subpages)
  {
    TurnsPermute(g);
    Positive(g.channels, g.chips);
    var blocks, wp, turns := NewTable(g), Zeros(g.BlocksPerSsd()), Turns(g);
    forall u | 0 <= u < |ac| ensures ActiveOk(blocks', wp, ac, turns, 0, 0, g.subpages, u) {
      assert Renewed(blocks, blocks', ac, u);
    }
    forall b | 0 <= b < |blocks'| && InUse(blocks'[b])
      ensures blocks'[b].punit < |ac| && (ac[blocks'[b].punit] != b ==> wp[b] == |blocks'[b].pst|)
    {
      assert Renewed(blocks, blocks', ac, blocks[b].punit);
    }
  }

  datatype WriteResult = Written | NoSpace | BadAddress

  lemma {:induction false} ActivatedInUse(blocks: seq<Block>, blocks': seq<Block>, wp: seq<nat>, b: nat, n: nat)
    requires Activated(blocks, blocks') && Room(blocks, wp, b, n)
    ensures Room(blocks', wp, b, n) && blocks'[b] == blocks[b]
  {
  }

  function Span(lo: nat, hi: nat): (s: set<int>)
    requires lo <= hi
    ensures forall x :: x in s <==> lo <= x < hi
  {
    if lo == hi then {} else Span(lo, hi - 1) + {hi - 1}
  }

  /** Unit u has a dirty block besides its active one. */
  ghost predicate HasVictim(lists: ListHeads, ac: seq<nat>, u: nat)
    requires u < |ac|
  {
    ListId(DirtyList, u) in lists && exists k :: 0 <= k < |lists[ListId(DirtyList, u)]| && lists[ListId(DirtyList, u)][k] != ac[u]
  }

  lemma {:induction false} QuotientBelow(x: nat, d: nat)
    requires d > 0
    ensures x / d <= 2 <==> x < 3 * d
  {
    if x < 3 * d { DivBelow(x, 3, d); } else { MulLe(3 * d, x, 1); DivLarge(x, d, 3); }
  }

  function DirtyOf(lists: ListHeads, u: nat): seq<nat> {
    if ListId(DirtyList, u) in lists then lists[ListId(DirtyList, u)] else []
  }

  /** The victim the greedy scan settles on for unit u, if it has one. */
  function VictimOf(blocks: seq<Block>, lists: ListHeads, ac: seq<nat>, full: nat, u: nat): Option<nat>
    requires u < |ac|
  {
    var l := DirtyOf(lists, u);
    if Listing(blocks, l) && ac[u] < |blocks| && Pick(blocks, l, ac[u], full) < |l| then Some(l[Pick(blocks, l, ac[u], full)])
    else None
  }

  /** The first n units have taken the first block of their free list. */
  ghost predicate TookHeads(lists0: ListHeads, lists: ListHeads, ac: seq<nat>, n: nat) {
    && n <= |ac|
    && forall u | 0 <= u < |ac| :: FreeOf(lists0, u) == (if u < n then [ac[u]] else []) + FreeOf(lists, u)
  }

  lemma {:induction false} TookNone(lists: ListHeads, ac: seq<nat>)
    ensures TookHeads(lists, lists, ac, 0)
  {
  }

  lemma {:induction false} TookOne(lists0: ListHeads, lists1: ListHeads, lists: ListHeads, ac: seq<nat>, n: nat, b: nat)
    requires TookHeads(lists0, lists1, ac, n) && n < |ac| && FreeOf(lists1, n) == [b] + FreeOf(lists, n)
    requires forall v | 0 <= v < |ac| && v != n :: FreeOf(lists, v) == FreeOf(lists1, v)
    ensures TookHeads(lists0, lists, ac[n := b], n + 1)
  {
    hide FreeOf;
  }

  /** The victims of all units. */
  function VictimSeq(blocks: seq<Block>, lists: ListHeads, ac: seq<nat>, full: nat): (vs: seq<nat>)
    ensures |vs| == |ac|
  {
    seq(|ac|, u requires 0 <= u < |ac| => VictimOf(blocks, lists, ac, full, u).GetOr(0))
  }

  /** The pages a collection writes: the victims' live subpages packed, and one page over. */
  function GcPages(blocks: seq<Block>, lists: ListHeads, ac: seq<nat>, g: Geometry): nat
    requires g.Valid()
  {
    var vs := VictimSeq(blocks, lists, ac, g.SubpagesPerBlock());
    if Listed(blocks, vs) then PackedPages(|LiveLocs(blocks, vs)|, g.subpages) else 0
  }

  function PackedPages(n: nat, width: nat): nat
    requires width > 0
  {
    if n == 0 then 0 else n / width + 1
  }

  lemma {:induction false} VictimSeqIs(blocks: seq<Block>, lists: ListHeads, ac: seq<nat>, full: nat, vs: seq<nat>)
    requires AreVictims(blocks, lists, ac, full, vs)
    ensures VictimSeq(blocks, lists, ac, full) == vs
  {
    forall u | 0 <= u < |ac| ensures VictimSeq(blocks, lists, ac, full)[u] == vs[u] {
      assert VictimOf(blocks, lists, ac, full, u) == Some(vs[u]);
    }
  }

  function Erasures(vs: seq<nat>): (log: seq<Event>)
    ensures |log| == |vs|
  {
    seq(|vs|, i requires 0 <= i < |vs| => Erased(vs[i]))
  }

  /** A completed collection has erased exactly the greedy victims, in unit order and last of all: each
      is FREE, or BAD if its erase failed; no other block was erased. */
  ghost predicate Reclaimed(blocks0: seq<Block>, lists0: ListHeads, ac0: seq<nat>, full: nat, bad: seq<bool>, blocks: seq<Block>, log: seq<Event>) {
    && |blocks| == |blocks0| && |bad| == |ac0| <= |log|
    && (forall u | 0 <= u < |ac0| ::
          && VictimOf(blocks0, lists0, ac0, full, u).Some?
          && var v := VictimOf(blocks0, lists0, ac0, full, u).value;
             && v < |blocks| && blocks[v].status == (if bad[u] then Bad else Free)
             && blocks[v].eraseCount == blocks0[v].eraseCount + 1 && log[|log| - |ac0| + u] == Erased(v))
    && forall b: nat | b < |blocks| && !IsVictim(blocks0, lists0, ac0, full, b) :: Outlives(blocks0[b], blocks[b])
  }

  ghost predicate IsVictim(blocks: seq<Block>, lists: ListHeads, ac: seq<nat>, full: nat, b: nat) {
    exists u :: 0 <= u < |ac| && VictimOf(blocks, lists, ac, full, u) == Some(b)
  }

  /** The first n victims have been erased and nothing else has changed. */
  ghost predicate ErasedTo(blocks0: seq<Block>, blocks: seq<Block>, vs: seq<nat>, bad: seq<bool>, n: nat) {
    && |blocks| == |blocks0| && n <= |vs| == |bad| && Listed(blocks, vs) && NoDup(vs)
    && (forall i | 0 <= i < n :: blocks[vs[i]] == EraseIn(blocks0[vs[i]], bad[i]))
    && (forall i | n <= i < |vs| :: blocks[vs[i]] == blocks0[vs[i]])
    && forall b: nat | b < |blocks| && b !in vs :: blocks[b] == blocks0[b]
  }

  lemma {:induction false} ErasedNone(blocks: seq<Block>, ac: seq<nat>, vs: seq<nat>, bad: seq<bool>)
    requires VictimsOk(blocks, ac, vs) && |bad| == |vs|
    ensures ErasedTo(blocks, blocks, vs, bad, 0)
  {
  }

  lemma {:induction false} ErasedOne(blocks0: seq<Block>, blocks: seq<Block>, vs: seq<nat>, bad: seq<bool>, n: nat)
    requires ErasedTo(blocks0, blocks, vs, bad, n) && n < |vs|
    ensures vs[n] < |blocks| == |blocks0| && blocks[vs[n]] == blocks0[vs[n]] && (AllInvalid(blocks0, vs[n]) ==> AllInvalid(blocks, vs[n]))
    ensures ErasedTo(blocks0, blocks[vs[n] := EraseIn(blocks[vs[n]], bad[n])], vs, bad, n + 1)
  {
    hide EraseIn;
  }

  lemma {:induction false} AllErased(blocks0: seq<Block>, blocks: seq<Block>, vs: seq<nat>, bad: seq<bool>)
    requires ErasedTo(blocks0, blocks, vs, bad, |vs|)
    ensures forall b | b in vs :: b < |blocks| && !InUse(blocks[b])
  {
  }

  lemma {:induction false} VictimAt(blocks: seq<Block>, ac: seq<nat>, vs: seq<nat>, i: nat)
    requires VictimsOk(blocks, ac, vs) && i < |vs|
    ensures vs[i] < |blocks| && blocks[vs[i]].punit == i < |ac| && InUse(blocks[vs[i]]) && ac[i] != vs[i]
  {
  }

  /** The units of the first n victims have a free block more, where the erase went well. */
  ghost predicate FreedTo(lists0: ListHeads, lists: ListHeads, bad: seq<bool>, n: nat) {
    forall u | 0 <= u < |bad| :: FreeLen(lists, u) == FreeLen(lists0, u) + if u < n && !bad[u] then 1 else 0
  }

  lemma {:induction false} FreedNone(lists: ListHeads, bad: seq<bool>)
    ensures FreedTo(lists, lists, bad, 0)
  {
  }

  lemma {:induction false} FreedOne(lists0: ListHeads, lists1: ListHeads, lists: ListHeads, bad: seq<bool>, n: nat)
    requires FreedTo(lists0, lists1, bad, n) && n < |bad|
    requires forall u | 0 <= u < |bad| :: FreeLen(lists, u) == FreeLen(lists1, u) + if u == n && !bad[n] then 1 else 0
    ensures FreedTo(lists0, lists, bad, n + 1)
  {
    hide FreeLen;
  }

  lemma {:induction false} VictimErased(b0: Block, b1: Block, b: Block, bad: bool)
    requires Outlives(b0, b1) && b == EraseIn(b1, bad)
    ensures b.status == (if bad then Bad else Free) && b.eraseCount == b0.eraseCount + 1
  {
  }

  lemma {:induction false} VictimListed(blocks: seq<Block>, lists: ListHeads, ac: seq<nat>, full: nat, vs: seq<nat>, b: nat)
    requires AreVictims(blocks, lists, ac, full, vs) && b in vs
    ensures IsVictim(blocks, lists, ac, full, b)
  {
    hide VictimOf;
    var u :| 0 <= u < |vs| && vs[u] == b;
    assert VictimOf(blocks, lists, ac, full, u) == Some(b);
  }

  lemma {:induction false} ReclaimedIs(blocks0: seq<Block>, lists0: ListHeads, ac0: seq<nat>, full: nat, vs: seq<nat>, bad: seq<bool>,
                                       blocks1: seq<Block>, blocks: seq<Block>, log1: seq<Event>, log: seq<Event>)
    requires AreVictims(blocks0, lists0, ac0, full, vs) && Evolved(blocks0, blocks1) && ErasedTo(blocks1, blocks, vs, bad, |vs|)
    requires log == log1 + Erasures(vs)
    ensures Reclaimed(blocks0, lists0, ac0, full, bad, blocks, log)
  {
    hide VictimOf, Outlives, EraseIn, IsVictim;
    forall u | 0 <= u < |ac0|
      ensures VictimOf(blocks0, lists0, ac0, full, u) == Some(vs[u]) && vs[u] < |blocks|
      ensures blocks[vs[u]].status == (if bad[u] then Bad else Free)
      ensures blocks[vs[u]].eraseCount == blocks0[vs[u]].eraseCount + 1 && log[|log| - |ac0| + u] == Erased(vs[u])
    {
      assert Outlives(blocks0[vs[u]], blocks1[vs[u]]);
      VictimErased(blocks0[vs[u]], blocks1[vs[u]], blocks[vs[u]], bad[u]);
    }
    forall b | b in vs ensures IsVictim(blocks0, lists0, ac0, full, b) {
      VictimListed(blocks0, lists0, ac0, full, vs, b);
    }
  }

  /** Conversely, whatever a completed collection erased last, one block per unit, were the greedy victims. */
  lemma {:induction false} ReclaimedOnly(blocks0: seq<Block>, lists0: ListHeads, ac0: seq<nat>, full: nat, vs: seq<nat>, bad: seq<bool>,
                                         blocks: seq<Block>, log1: seq<Event>, log: seq<Event>)
    requires Reclaimed(blocks0, lists0, ac0, full, bad, blocks, log)
    requires |vs| == |ac0| && log == log1 + Erasures(vs)
    ensures AreVictims(blocks0, lists0, ac0, full, vs)
  {
    hide VictimOf, Outlives, IsVictim;
    forall u | 0 <= u < |ac0| ensures VictimOf(blocks0, lists0, ac0, full, u) == Some(vs[u]) {
      assert log[|log| - |ac0| + u] == Erasures(vs)[u] == Erased(vs[u]);
    }
  }

  /** The victims of a collection, one per unit. */
  ghost predicate AreVictims(blocks: seq<Block>, lists: ListHeads, ac: seq<nat>, full: nat, vs: seq<nat>) {
    |vs| == |ac| && forall u | 0 <= u < |ac| :: VictimOf(blocks, lists, ac, full, u) == Some(vs[u])
  }

  lemma {:induction false} RoundPositive(g: Geometry)
    requires g.Valid()
    ensures RoundSize(g) > 0 && g.Punits() > 0
  {
    Positive(g.channels, g.chips);
    Positive(g.pagesPerBlock, g.Punits());
  }

  /** Every unit has lost c free blocks. */
  ghost predicate Lost(lists0: ListHeads, lists: ListHeads, nrPunits: nat, c: nat) {
    forall u | 0 <= u < nrPunits :: FreeLen(lists, u) == FreeLen(lists0, u) - c
  }

  lemma {:induction false} LostMore(lists0: ListHeads, lists: ListHeads, lists': ListHeads, nrPunits: nat, c: nat, last: bool)
    requires Lost(lists0, lists, nrPunits, c)
    requires forall u | 0 <= u < nrPunits :: FreeLen(lists', u) == FreeLen(lists, u) - if last then 1 else 0
    ensures Lost(lists0, lists', nrPunits, if last then c + 1 else c)
  {
    hide FreeLen;
  }

  lemma {:induction false} SameFree(lists0: ListHeads, lists: ListHeads, nrPunits: nat)
    requires Lost(lists0, lists, nrPunits, 0) && exists u :: 0 <= u < nrPunits && FreeLen(lists, u) == 0
    ensures exists u :: 0 <= u < nrPunits && FreeLen(lists0, u) == 0
  {
    var u :| 0 <= u < nrPunits && FreeLen(lists, u) == 0;
    assert FreeLen(lists0, u) == 0;
  }

  lemma {:induction false} SomeFree(lists0: ListHeads, lists: ListHeads, nrPunits: nat)
    requires Lost(lists0, lists, nrPunits, 1)
    ensures forall u | 0 <= u < nrPunits :: FreeLen(lists0, u) > 0
  {
  }

  lemma {:induction false} LostNone(lists: ListHeads, nrPunits: nat)
    ensures Lost(lists, lists, nrPunits, 0)
  {
  }

  /** The ends of a round that n pages from position pos reach. */
  function EndsReached(g: Geometry, pos: nat, n: nat): nat
    requires g.Valid()
  {
    RoundPositive(g);
    (pos + n) / RoundSize(g)
  }

  /** Where the cursor is then. */
  function PositionAfter(g: Geometry, pos: nat, n: nat): nat
    requires g.Valid()
  {
    RoundPositive(g);
    (pos + n) % RoundSize(g)
  }

  /** Every unit has a free block for each end of a round that n more pages reach. */
  ghost predicate Enough(lists: ListHeads, g: Geometry, pos: nat, n: nat)
    requires g.Valid()
  {
    forall u | 0 <= u < g.Punits() :: EndsReached(g, pos, n) <= FreeLen(lists, u)
  }

  /** The collection runs out of blocks: its pages reach the end of the round and a unit has no free block. */
  ghost predicate GcFails(blocks: seq<Block>, lists: ListHeads, ac: seq<nat>, g: Geometry, pos: nat)
    requires g.Valid()
  {
    exists vs :: AreVictims(blocks, lists, ac, g.SubpagesPerBlock(), vs) && OutOfBlocks(blocks, lists, g, pos, vs)
  }

  ghost predicate OutOfBlocks(blocks: seq<Block>, lists: ListHeads, g: Geometry, pos: nat, vs: seq<nat>)
    requires g.Valid()
  {
    && Listed(blocks, vs) && LiveLocs(blocks, vs) != []
    && pos + |LiveLocs(blocks, vs)| / g.subpages + 1 >= RoundSize(g)
    && exists u :: 0 <= u < g.Punits() && FreeLen(lists, u) == 0
  }

  /** For the victims at hand the failure is that of their own live subpages. */
  lemma {:induction false} GcFailsIff(blocks: seq<Block>, lists: ListHeads, ac: seq<nat>, g: Geometry, pos: nat, vs: seq<nat>)
    requires g.Valid() && AreVictims(blocks, lists, ac, g.SubpagesPerBlock(), vs)
    ensures GcFails(blocks, lists, ac, g, pos) <==> OutOfBlocks(blocks, lists, g, pos, vs)
  {
    hide AreVictims, OutOfBlocks;
    if GcFails(blocks, lists, ac, g, pos) {
      var vs' :| AreVictims(blocks, lists, ac, g.SubpagesPerBlock(), vs') && OutOfBlocks(blocks, lists, g, pos, vs');
      VictimsUnique(blocks, lists, ac, g.SubpagesPerBlock(), vs, vs');
    }
  }

  /** With a free block on every unit a collection does not fail. */
  lemma {:induction false} GcSafe(blocks: seq<Block>, lists: ListHeads, ac: seq<nat>, g: Geometry, pos: nat)
    requires g.Valid() && forall u | 0 <= u < g.Punits() :: FreeLen(lists, u) > 0
    ensures !GcFails(blocks, lists, ac, g, pos)
  {
    hide LiveLocs, AreVictims, RoundSize;
  }

  /** What a completed collection does to each unit's free blocks. */
  ghost predicate Gained(lists0: ListHeads, lists: ListHeads, switched: bool, bad: seq<bool>) {
    forall u | 0 <= u < |bad| ::
      FreeLen(lists, u) == FreeLen(lists0, u) - (if switched then 1 else 0) + (if bad[u] then 0 else 1)
  }

  lemma {:induction false} GainedAfter(lists0: ListHeads, lists1: ListHeads, lists: ListHeads, switched: bool, bad: seq<bool>)
    requires Lost(lists0, lists1, |bad|, if switched then 1 else 0)
    requires forall u | 0 <= u < |bad| :: FreeLen(lists, u) == FreeLen(lists1, u) + if bad[u] then 0 else 1
    ensures Gained(lists0, lists, switched, bad)
  {
    hide FreeLen;
  }

  lemma {:induction false} NoVictimsNoFailure(blocks: seq<Block>, lists: ListHeads, ac: seq<nat>, g: Geometry, pos: nat)
    requires g.Valid() && exists u :: 0 <= u < |ac| && !HasVictim(lists, ac, u)
    ensures !GcFails(blocks, lists, ac, g, pos)
  {
    hide OutOfBlocks;
    var u :| 0 <= u < |ac| && !HasVictim(lists, ac, u);
    forall vs ensures !AreVictims(blocks, lists, ac, g.SubpagesPerBlock(), vs) {
      if Listing(blocks, DirtyOf(lists, u)) && ac[u] < |blocks| { PickNone(blocks, DirtyOf(lists, u), ac[u], g.SubpagesPerBlock()); }
      assert VictimOf(blocks, lists, ac, g.SubpagesPerBlock(), u) == None;
    }
  }

  lemma {:induction false} VictimsUnique(blocks: seq<Block>, lists: ListHeads, ac: seq<nat>, full: nat, vs: seq<nat>, vs': seq<nat>)
    requires AreVictims(blocks, lists, ac, full, vs) && AreVictims(blocks, lists, ac, full, vs')
    ensures vs == vs'
  {
    forall u | 0 <= u < |ac| ensures vs[u] == vs'[u] { assert VictimOf(blocks, lists, ac, full, u) == Some(vs[u]); }
  }

  lemma {:induction false} ActiveNoDup(blocks: seq<Block>, wp: seq<nat>, ac: seq<nat>, turns: seq<nat>, puid: nat, base: nat, width: nat)
    requires CursorOk(blocks, wp, ac, turns, puid, base, width)
    ensures NoDup(ac)
  {
    forall u, v | 0 <= u < v < |ac| ensures ac[u] != ac[v] {
      assert ActiveOk(blocks, wp, ac, turns, puid, base, width, u) && ActiveOk(blocks, wp, ac, turns, puid, base, width, v);
    }
  }

  lemma {:induction false} VictimInactive(blocks: seq<Block>, wp: seq<nat>, ac: seq<nat>, turns: seq<nat>, puid: nat, base: nat, width: nat, v: nat)
    requires CursorOk(blocks, wp, ac, turns, puid, base, width) && v < |blocks| && blocks[v].punit < |ac| && ac[blocks[v].punit] != v
    ensures v !in ac && v < |wp|
  {
    forall u | 0 <= u < |ac| ensures ac[u] != v { assert ActiveOk(blocks, wp, ac, turns, puid, base, width, u); }
  }

  /** Fresh active blocks are distinct and nothing of them has been handed out. */
  lemma {:induction false} RenewedFresh(blocks: seq<Block>, blocks': seq<Block>, wp: seq<nat>, ac: seq<nat>, b: nat, w: nat)
    requires RenewedTo(blocks, blocks', ac, |ac|) && PointersOk(blocks, wp) && b < |blocks| && InUse(blocks[b])
    ensures NoDup(ac) && forall u | 0 <= u < |ac| :: ac[u] < |wp| && wp[b := w][ac[u]] == 0
  {
    forall u, v | 0 <= u < v < |ac| ensures ac[u] != ac[v] {
      assert Renewed(blocks, blocks', ac, u) && Renewed(blocks, blocks', ac, v);
    }
    forall u | 0 <= u < |ac| ensures ac[u] < |wp| && wp[b := w][ac[u]] == 0 { assert Renewed(blocks, blocks', ac, u); }
  }

  /** What the allocator has handed out, carried over one allocation. */
  lemma {:induction false} TrackAllocation(g: Geometry, start: Alloc, log: seq<Event>, blocks: seq<Block>, blocks': seq<Block>,
                        wp: seq<nat>, ac: seq<nat>, ac': seq<nat>, puid: nat, page: nat, b: nat, last: bool)
    requires g.Valid() && Tracks(g, start, log, ac, puid, page, wp) && PointersOk(blocks, wp)
    requires puid < g.Punits() == |ac| == |ac'| && page < g.pagesPerBlock && g.UnitAt(puid) < |ac| && b == ac[g.UnitAt(puid)] < |blocks|
    requires InUse(blocks[b]) && wp[b] == g.subpages * page && last == (puid + 1 == g.Punits() && page + 1 == g.pagesPerBlock)
    requires if last then RenewedTo(blocks, blocks', ac', |ac'|) else ac' == ac
    ensures b < |wp|
    ensures var wp' := wp[b := wp[b] + g.subpages];
            if last then Tracks(g, start, log + [Handed(b, page)] + [Fresh(ac')], ac', 0, 0, wp')
            else Tracks(g, start, log + [Handed(b, page)], ac, if puid + 1 == g.Punits() then 0 else puid + 1,
                        page + (if puid + 1 == g.Punits() then 1 else 0), wp')
  {
    hide Tracks, RenewedTo, PointersOk;
    assert |wp| == |blocks| by { PointerCount(blocks, wp); }
    TrackHanded(g, start, log, ac, puid, page, wp, b);
    if last {
      RenewedFresh(blocks, blocks', wp, ac', b, wp[b] + g.subpages);
      TrackFresh(g, start, log + [Handed(b, page)], ac, wp[b := wp[b] + g.subpages], ac');
    }
  }

  lemma {:induction false} PointerCount(blocks: seq<Block>, wp: seq<nat>)
    requires PointersOk(blocks, wp)
    ensures |wp| == |blocks|
  {
  }

  /** n pages after position pos0 the cursor is at pos, c ends of a round later. */
  predicate AtPosition(g: Geometry, pos0: nat, n: nat, pos: nat, c: nat) {
    pos < RoundSize(g) && pos + c * RoundSize(g) == pos0 + n
  }

  lemma {:induction false} EndPages(g: Geometry, pos0: nat, n: nat, pos: nat, c: nat)
    requires g.Valid() && AtPosition(g, pos0, n, pos, c)
    ensures EndsReached(g, pos0, n) == c && PositionAfter(g, pos0, n) == pos
  {
    DivMod(c, pos, RoundSize(g));
  }

  lemma {:induction false} NoPagesNoMove(g: Geometry, pos: nat)
    requires g.Valid() && pos < RoundSize(g)
    ensures EndsReached(g, pos, 0) == 0 && PositionAfter(g, pos, 0) == pos
  {
    BeginRound(g, pos);
    EndPages(g, pos, 0, pos, 0);
  }

  lemma {:induction false} EnoughNow(lists0: ListHeads, lists: ListHeads, g: Geometry, pos0: nat, n: nat, pos: nat, c: nat)
    requires g.Valid() && AtPosition(g, pos0, n, pos, c) && Lost(lists0, lists, g.Punits(), c)
    ensures Enough(lists0, g, pos0, n)
  {
    hide RoundSize, FreeLen, EndsReached;
    EndPages(g, pos0, n, pos, c);
  }

  /** One more page fails exactly when it ends the round and a unit has no free block. */
  lemma {:induction false} EnoughNext(lists0: ListHeads, lists: ListHeads, g: Geometry, pos0: nat, n: nat, pos: nat, c: nat, last: bool)
    requires g.Valid() && AtPosition(g, pos0, n, pos, c) && (last <==> pos + 1 == RoundSize(g))
    requires Lost(lists0, lists, g.Punits(), c)
    ensures Enough(lists0, g, pos0, n)
    ensures !Enough(lists0, g, pos0, n + 1) <==> last && exists u :: 0 <= u < g.Punits() && FreeLen(lists, u) == 0
  {
    hide RoundSize, FreeLen, EndsReached;
    EnoughNow(lists0, lists, g, pos0, n, pos, c);
    var c' := if last then c + 1 else c;
    Distribute(c, 1, RoundSize(g));
    EndPages(g, pos0, n + 1, if last then 0 else pos + 1, c');
    if u :| 0 <= u < g.Punits() && FreeLen(lists, u) == 0 { assert FreeLen(lists0, u) == c; }
  }

  lemma {:induction false} NextAt(g: Geometry, pos0: nat, n: nat, pos: nat, pos': nat, c: nat, last: bool)
    requires AtPosition(g, pos0, n, pos, c) && (last <==> pos + 1 == RoundSize(g))
    requires pos + 1 == pos' + if last then RoundSize(g) else 0
    ensures AtPosition(g, pos0, n + 1, pos', if last then c + 1 else c)
  {
    hide RoundSize;
    Distribute(c, 1, RoundSize(g));
  }

  lemma {:induction false} BeginRound(g: Geometry, pos0: nat)
    requires pos0 < RoundSize(g)
    ensures AtPosition(g, pos0, 0, pos0, 0)
  {
  }

  /** At most one round of pages reaches at most one end of a round. */
  lemma {:induction false} OneRoundEnd(g: Geometry, pos0: nat, i: nat, nr: nat, pos: nat, switched: bool, last: bool)
    requires AtPosition(g, pos0, i, pos, if switched then 1 else 0) && pos0 < RoundSize(g) && i < nr <= RoundSize(g)
    requires last <==> pos + 1 == RoundSize(g)
    ensures last ==> !switched && pos0 + nr >= RoundSize(g)
  {
    hide RoundSize;
  }

  lemma {:induction false} RoundReached(g: Geometry, pos0: nat, nr: nat, pos: nat, switched: bool)
    requires AtPosition(g, pos0, nr, pos, if switched then 1 else 0)
    ensures switched <==> pos0 + nr >= RoundSize(g)
  {
    hide RoundSize;
  }

  lemma {:induction false} LastIff(g: Geometry, puid: nat, page: nat)
    requires puid < g.Punits() && page < g.pagesPerBlock
    ensures puid + 1 == g.Punits() && page + 1 == g.pagesPerBlock <==> page * g.Punits() + puid + 1 == RoundSize(g)
  {
    Distribute(page, 1, g.Punits());
    if page + 1 < g.pagesPerBlock {
      TwoDigits(page, puid, page + 1, g.Punits());
      MulLe(page + 2, g.pagesPerBlock, g.Punits());
      Distribute(page + 1, 1, g.Punits());
    }
  }

  /** The cursor after one more page. */
  lemma {:induction false} NextPage(g: Geometry, pos0: nat, n: nat, c: nat, puid: nat, page: nat, puid': nat, page': nat, last: bool)
    requires puid < g.Punits() && page < g.pagesPerBlock && AtPosition(g, pos0, n, page * g.Punits() + puid, c)
    requires last == (puid + 1 == g.Punits() && page + 1 == g.pagesPerBlock)
    requires puid' == if puid + 1 == g.Punits() then 0 else puid + 1
    requires page' == if puid + 1 != g.Punits() then page else if page + 1 == g.pagesPerBlock then 0 else page + 1
    ensures AtPosition(g, pos0, n + 1, page' * g.Punits() + puid', if last then c + 1 else c)
  {
    NextPosition(g.Punits(), g.pagesPerBlock, puid, page, puid', page');
    LastIff(g, puid, page);
    NextAt(g, pos0, n, page * g.Punits() + puid, page' * g.Punits() + puid', c, last);
  }

  lemma {:induction false} PagesPush(m: map<int, Data>, pages: seq<seq<Slot>>, n: nat)
    requires n < |pages|
    ensures StorePages(m, pages[..n + 1]) == Store(StorePages(m, pages[..n]), pages[n])
    ensures m - LpasIn(pages[..n + 1]) == m - LpasIn(pages[..n]) - LpasOf(pages[n])
  {
    assert pages[..n + 1][..n] == pages[..n];
  }

  lemma {:induction false} ProgramNone(flash: Flash)
    ensures ProgramAll(flash, []) == flash
  {
  }

  lemma {:induction false} BeginPages(g: Geometry, pos0: nat, m: map<int, Data>, pages: seq<seq<Slot>>)
    requires pos0 < RoundSize(g)
    ensures AtPosition(g, pos0, 0, pos0, 0) && StorePages(m, pages[..0]) == m && m - LpasIn(pages[..0]) == m
  {
  }

  datatype GcResult = Skipped | Collected | Bug

  /** The cursor's position within the round, moved on by one allocation. */
  lemma {:induction false} NextPosition(punits: nat, pages: nat, puid: nat, page: nat, puid': nat, page': nat)
    requires puid < punits && page < pages
    requires puid' == if puid + 1 == punits then 0 else puid + 1
    requires page' == if puid + 1 != punits then page else if page + 1 == pages then 0 else page + 1
    ensures page * punits + puid < pages * punits
    ensures page * punits + puid + 1 == page' * punits + puid' + if puid + 1 == punits && page + 1 == pages then pages * punits else 0
  {
    TwoDigits(page, puid, pages, punits);
    assert (page + 1) * punits == page * punits + punits;
  }

  lemma {:induction false} PositionBound(ac: seq<nat>, turns: seq<nat>, wp: seq<nat>, blocks: seq<Block>, g: Geometry, puid: nat, page: nat)
    requires CursorOk(blocks, wp, ac, turns, puid, g.subpages * page, g.subpages) && g.Valid() && turns == Turns(g) && page < g.pagesPerBlock
    ensures puid < g.Punits() && page * g.Punits() + puid < RoundSize(g)
  {
    TwoDigits(page, puid, g.pagesPerBlock, g.Punits());
  }

  lemma {:induction false} ActiveInRange(g: Geometry, blocks: seq<Block>, wp: seq<nat>, ac: seq<nat>, turns: seq<nat>, puid: nat, base: nat)
    requires g.Valid() && turns == Turns(g) && CursorOk(blocks, wp, ac, turns, puid, base, g.subpages)
    ensures |ac| == g.Punits() && forall u | 0 <= u < |ac| :: ac[u] < |blocks|
  {
    forall u | 0 <= u < |ac| ensures ac[u] < |blocks| { assert ActiveOk(blocks, wp, ac, turns, puid, base, g.subpages, u); }
  }

  lemma {:induction false} VictimsListed(blocks: seq<Block>, units: seq<nat>, g: Geometry, ac: seq<nat>, vs: seq<nat>)
    requires VictimsOk(blocks, ac, vs) && BlocksOk(blocks, units, g.Punits(), g.SubpagesPerBlock())
    ensures Listed(blocks, vs) && forall i | 0 <= i < |vs| :: |blocks[vs[i]].pst| == g.subpages * g.pagesPerBlock
  {
  }

  lemma {:induction false} Requests(n: nat, units: nat, pages: nat, width: nat)
    requires units > 0 && width > 0 && n + units <= units * (width * pages)
    ensures n < (units * pages) * width
    ensures n / width + 1 <= units * pages && n <= (n / width + 1) * width
  {
    MulAssoc(units, pages, width);
    assert width * pages == pages * width;
    DivBelow(n, units * pages, width);
    assert (n / width + 1) * width == (n / width) * width + width;
  }

  /** The space bound: every victim is dirty, so the compacted requests fit the request array,
      which is one full round of allocations. */
  lemma {:induction false} GcSpace(blocks: seq<Block>, units: seq<nat>, g: Geometry, flash: Flash, vs: seq<nat>, reqs: seq<Request>, nr: nat)
    requires g.Valid() && BlocksOk(blocks, units, g.Punits(), g.SubpagesPerBlock())
    requires Listed(blocks, vs) && |vs| == g.Punits() && forall u | 0 <= u < |vs| :: blocks[vs[u]].status.Dirty?
    requires |reqs| == |vs| * g.pagesPerBlock && Cells(reqs) == ReadCells(flash, LiveLocs(blocks, vs))
    requires nr == |Cells(reqs)| / g.subpages + 1
    ensures |Cells(reqs)| < |reqs| * g.subpages && nr <= |reqs| == RoundSize(g)
    ensures nr == |LiveLocs(blocks, vs)| / g.subpages + 1 && nr * g.subpages >= |LiveLocs(blocks, vs)|
  {
    hide LiveLocs, Cells;
    LiveLocsBound(blocks, vs, g.SubpagesPerBlock());
    Positive(g.channels, g.chips);
    Requests(|LiveLocs(blocks, vs)|, |vs|, g.pagesPerBlock, g.subpages);
  }

  lemma {:induction false} ShapeRoom(blocks: seq<Block>, blocks': seq<Block>, wp: seq<nat>, b: nat, n: nat)
    requires SameShape(blocks, blocks') && Room(blocks, wp, b, n) && n > 0
    ensures Room(blocks', wp[b := wp[b] + 1], b, n - 1)
  {
  }

  lemma {:induction false} GaveUpNothing(blocks: seq<Block>, mt: Table, flash: Flash, wp: seq<nat>)
    requires MapInv(blocks, mt, flash, wp)
    ensures GivenUp(blocks, wp, wp)
  {
  }

  lemma {:induction false} SealedAtEnd(g: Geometry, blocks: seq<Block>, units: seq<nat>, wp: seq<nat>, ac: seq<nat>, turns: seq<nat>)
    requires BlocksOk(blocks, units, g.Punits(), g.SubpagesPerBlock())
    requires CursorOk(blocks, wp, ac, turns, 0, g.SubpagesPerBlock(), g.subpages)
    ensures Sealed(blocks, wp)
  {
    EndOfRound(blocks, wp, ac, turns, g.SubpagesPerBlock(), g.subpages);
  }

  /** The cursor after a page was given up, in the terms of its page number. */
  lemma {:induction false} NextCursorFrame(g: Geometry, blocks: seq<Block>, blocks': seq<Block>, wp: seq<nat>, ac: seq<nat>, turns: seq<nat>, puid: nat, page: nat)
    requires SameShape(blocks, blocks')
    requires puid + 1 < |ac| ==> CursorOk(blocks, wp, ac, turns, puid + 1, g.subpages * page, g.subpages)
    requires puid + 1 == |ac| ==> CursorOk(blocks, wp, ac, turns, 0, g.subpages * page + g.subpages, g.subpages)
    ensures puid + 1 < |ac| ==> CursorOk(blocks', wp, ac, turns, puid + 1, g.subpages * page, g.subpages)
    ensures puid + 1 == |ac| ==> CursorOk(blocks', wp, ac, turns, 0, g.subpages * (page + 1), g.subpages)
  {
    assert g.subpages * (page + 1) == g.subpages * page + g.subpages;
    if puid + 1 < |ac| {
      CursorFrame(blocks, blocks', wp, ac, turns, puid + 1, g.subpages * page, g.subpages);
    } else if puid + 1 == |ac| {
      CursorFrame(blocks, blocks', wp, ac, turns, 0, g.subpages * page + g.subpages, g.subpages);
    }
  }

  /** The snapshot has a free block on unit u. */
  ghost predicate FreeIn(image: seq<BlockImage>, u: nat) {
    exists b :: 0 <= b < |image| && image[b].status.Free? && image[b].punit == u
  }

  /** No block was prepared but not committed when the snapshot was taken. */
  ghost predicate Settled(image: seq<BlockImage>) {
    forall b | 0 <= b < |image| :: !image[b].status.FreePrepare?
  }

  /** The block table is the one the snapshot records. */
  ghost predicate Recorded(image: seq<BlockImage>, blocks: seq<Block>) {
    |blocks| == |image| && forall b | 0 <= b < |blocks| :: Record(blocks[b]) == image[b]
  }

  /** The block table is the recorded one, but for the fresh active blocks. */
  ghost predicate Resumed(image: seq<BlockImage>, blocks: seq<Block>, ac: seq<nat>) {
    && |blocks| == |image|
    && (forall b | 0 <= b < |blocks| ::
          && blocks[b].punit == image[b].punit && blocks[b].eraseCount == image[b].eraseCount
          && blocks[b].nrInvalid == image[b].nrInvalid && blocks[b].pst == image[b].pst)
    && forall b: nat | b < |blocks| ::
         if b in ac then image[b].status.Free? && blocks[b].status.Clean? else blocks[b].status == image[b].status
  }

  lemma {:induction false} ResumedIs(image: seq<BlockImage>, blocks0: seq<Block>, blocks: seq<Block>, ac: seq<nat>)
    requires Recorded(image, blocks0) && RenewedTo(blocks0, blocks, ac, |ac|)
    ensures Resumed(image, blocks, ac)
  {
    forall b: nat | b < |blocks|
      ensures if b in ac then image[b].status.Free? && blocks[b].status.Clean? else blocks[b].status == image[b].status
    {
      assert Record(blocks0[b]) == image[b];
      if b in ac {
        var u :| 0 <= u < |ac| && ac[u] == b;
        assert Renewed(blocks0, blocks, ac, u);
      }
    }
    forall b | 0 <= b < |blocks|
      ensures blocks[b].punit == image[b].punit && blocks[b].eraseCount == image[b].eraseCount
      ensures blocks[b].nrInvalid == image[b].nrInvalid && blocks[b].pst == image[b].pst
    {
      assert Record(blocks0[b]) == image[b];
    }
  }

  lemma {:induction false} LoadedRecords(image: seq<BlockImage>, was: seq<Block>, blocks: seq<Block>, units: seq<nat>, g: Geometry)
    requires ImageOk(image, units, g.SubpagesPerBlock()) && BlocksOk(blocks, units, g.Punits(), g.SubpagesPerBlock())
    requires |blocks| == |was| && forall b | 0 <= b < |blocks| :: b < |image| && blocks[b] == Restore(was[b], image[b])
    ensures Recorded(image, blocks)
  {
  }

  lemma {:induction false} NonePrepared(blocks: seq<Block>, free: nat, prepared: nat, clean: nat, dirty: nat, bad: nat)
    requires CountersOk(blocks, free, prepared, clean, dirty, bad) && prepared == 0
    ensures forall b | 0 <= b < |blocks| :: !blocks[b].status.FreePrepare?
  {
    CountZero(blocks, FreePrepare);
  }

  lemma {:induction false} ImageSize(image: seq<BlockImage>, was: seq<Block>, units: seq<nat>, g: Geometry)
    requires ImageOk(image, units, g.SubpagesPerBlock()) && BlocksOk(was, units, g.Punits(), g.SubpagesPerBlock())
    ensures |image| == |was|
  {
  }

  lemma {:induction false} LoadedInv(image: seq<BlockImage>, blocks: seq<Block>, mt: Table, flash: Flash, w: seq<nat>)
    requires Recorded(image, blocks) && MapInv(ImageBlocks(image), mt, flash, w) && Sealed(ImageBlocks(image), w)
    ensures MapInv(blocks, mt, flash, w) && Sealed(blocks, w) && PointersOk(blocks, w)
  {
    assert SamePst(ImageBlocks(image), blocks);
    SamePstInv(ImageBlocks(image), blocks, mt, flash, w);
  }

  lemma {:induction false} LoadedCounters(image: seq<BlockImage>, blocks: seq<Block>, free: nat, prepared: nat, clean: nat, dirty: nat, bad: nat)
    requires Recorded(image, blocks) && Settled(image) && CountersOk(blocks, free, prepared, clean, dirty, bad)
    ensures prepared == 0
  {
    CountZero(blocks, FreePrepare);
  }

  /** A unit's free list is nonempty exactly when the snapshot has a free block on it. */
  lemma {:induction false} FreeImage(image: seq<BlockImage>, blocks: seq<Block>, lists: ListHeads, nrPunits: nat)
    requires Recorded(image, blocks) && Settled(image) && ListsOk(blocks, lists, nrPunits)
    ensures forall u | 0 <= u < nrPunits :: FreeLen(lists, u) > 0 <==> FreeIn(image, u)
  {
    forall u | 0 <= u < nrPunits ensures FreeLen(lists, u) > 0 <==> FreeIn(image, u) {
      var id := ListId(FreeList, u);
      var l := lists[id];
      assert ListOk(blocks, l, id);
      if l != [] {
        assert l[0] in l;
        assert Record(blocks[l[0]]) == image[l[0]];
      }
      forall b | 0 <= b < |image| && image[b].status.Free? && image[b].punit == u ensures l != [] {
        assert Record(blocks[b]) == image[b];
        assert b in l;
      }
    }
  }

  lemma {:induction false} LoadedCursor(blocks: seq<Block>, blocks': seq<Block>, units: seq<nat>, w: seq<nat>, ac: seq<nat>, g: Geometry)
    requires g.Valid() && BlocksOk(blocks, units, g.Punits(), g.SubpagesPerBlock())
    requires Sealed(blocks, w) && PointersOk(blocks, w) && |ac| == g.Punits() && RenewedTo(blocks, blocks', ac, |ac|)
    ensures CursorOk(blocks', w, ac, Turns(g), 0, 0, g.subpages)
  {
    TurnsPermute(g);
    Positive(g.channels, g.chips);
    Restarted(blocks, blocks', w, ac, Turns(g), g.subpages);
  }

  /** Blocks in use are used up, the others unused. */
  function LoadedPages(blocks: seq<Block>, g: Geometry): seq<nat> {
    seq(|blocks|, b requires 0 <= b < |blocks| => if InUse(blocks[b]) then g.pagesPerBlock else 0)
  }

  lemma {:induction false} LoadedMatches(blocks: seq<Block>, units: seq<nat>, w: seq<nat>, g: Geometry)
    requires BlocksOk(blocks, units, g.Punits(), g.SubpagesPerBlock()) && Sealed(blocks, w) && PointersOk(blocks, w)
    ensures Matches(w, LoadedPages(blocks, g), g.subpages)
    ensures forall b | 0 <= b < |LoadedPages(blocks, g)| :: LoadedPages(blocks, g)[b] == 0 || LoadedPages(blocks, g)[b] == g.pagesPerBlock
  {
  }

  lemma {:induction false} MinStep(i: nat, width: nat, locs: seq<Loc>)
    ensures 0 <= i * width && 0 <= (i + 1) * width
    ensures var rest := locs[Min(i * width, |locs|)..];
            rest[Min(width, |rest|)..] == locs[Min((i + 1) * width, |locs|)..]
  {
    assert (i + 1) * width == i * width + width;
  }

  lemma {:induction false} MapPointers(blocks: seq<Block>, mt: Table, flash: Flash, wp: seq<nat>)
    requires MapInv(blocks, mt, flash, wp)
    ensures PointersOk(blocks, wp)
  {
  }

  lemma {:induction false} NoneActivated(blocks: seq<Block>)
    ensures Activated(blocks, blocks)
  {
  }

  /** The active block the cursor addresses, and that it is on the cursor's channel and chip. */
  lemma {:induction false} AtCursor(g: Geometry, blocks: seq<Block>, units: seq<nat>, wp: seq<nat>, ac: seq<nat>, puid: nat, base: nat)
    requires g.Valid() && CursorOk(blocks, wp, ac, Turns(g), puid, base, g.subpages)
    requires UnitsOk(g, units) && BlocksOk(blocks, units, g.Punits(), g.SubpagesPerBlock())
    ensures |ac| == g.Punits() == |Turns(g)| && puid < g.Punits() && g.UnitAt(puid) < |ac| && Turns(g)[g.UnitAt(puid)] == puid
    ensures var b := ac[g.UnitAt(puid)];
            && b < |blocks| == |wp| && InUse(blocks[b]) && blocks[b].punit == g.UnitAt(puid) && wp[b] == base
            && g.ChannelOf(b) == puid % g.channels && g.ChipOf(b) == puid / g.channels
  {
    TurnRoundTrip(g, puid);
    var u := g.UnitAt(puid);
    assert ActiveOk(blocks, wp, ac, Turns(g), puid, base, g.subpages, u);
    var b := ac[u];
    AddressRoundTrip(g, b);
    PunitComponents(g, g.ChannelOf(b), g.ChipOf(b));
    PunitComponents(g, puid % g.channels, puid / g.channels);
  }

  lemma {:induction false} PointerStep(blocks: seq<Block>, units: seq<nat>, wp: seq<nat>, g: Geometry, b: nat, page: nat)
    requires BlocksOk(blocks, units, g.Punits(), g.SubpagesPerBlock()) && PointersOk(blocks, wp)
    requires b < |blocks| && InUse(blocks[b]) && wp[b] == g.subpages * page && page < g.pagesPerBlock
    ensures Room(blocks, wp, b, g.subpages) && PointersOk(blocks, wp[b := wp[b] + g.subpages])
  {
    assert g.subpages * (page + 1) == g.subpages * page + g.subpages;
    MulLe(page + 1, g.pagesPerBlock, g.subpages);
  }

  /** The cursor invariant after serving unit u, within a round or across its end. */
  lemma {:induction false} AdvanceRound(g: Geometry, blocks: seq<Block>, blocks': seq<Block>, units: seq<nat>, wp: seq<nat>,
                     ac: seq<nat>, ac': seq<nat>, puid: nat, page: nat, puid': nat, page': nat, u: nat)
    requires g.Valid() && page < g.pagesPerBlock && BlocksOk(blocks, units, g.Punits(), g.SubpagesPerBlock())
    requires CursorOk(blocks, wp, ac, Turns(g), puid, g.subpages * page, g.subpages) && PointersOk(blocks, wp)
    requires |ac'| == |ac| == g.Punits() && u < |ac| && Turns(g)[u] == puid
    requires puid + 1 == g.Punits() && page + 1 == g.pagesPerBlock ==>
               puid' == 0 && page' == 0 && RenewedTo(blocks, blocks', ac', |ac'|)
    requires !(puid + 1 == g.Punits() && page + 1 == g.pagesPerBlock) ==> (
               && ac' == ac && blocks' == blocks
               && puid' == (if puid + 1 == g.Punits() then 0 else puid + 1)
               && page' == page + (if puid + 1 == g.Punits() then 1 else 0))
    ensures ac[u] < |wp| && CursorOk(blocks', wp[ac[u] := wp[ac[u]] + g.subpages], ac', Turns(g), puid', g.subpages * page', g.subpages)
  {
    Advance(blocks, wp, ac, Turns(g), puid, g.subpages * page, g.subpages, u);
    assert g.subpages * (page + 1) == g.subpages * page + g.subpages;
    if puid + 1 == g.Punits() && page + 1 == g.pagesPerBlock {
      assert ActiveOk(blocks, wp, ac, Turns(g), puid, g.subpages * page, g.subpages, u);
      PointerStep(blocks, units, wp, g, ac[u], page);
      var wp' := wp[ac[u] := wp[ac[u]] + g.subpages];
      Switch(blocks, blocks', wp', ac, ac', Turns(g), g.SubpagesPerBlock(), g.subpages);
    }
  }

  class PageFtl {
    const abm: Abm
    const g: Geometry
    ghost const turns: seq<nat>

    var mt: Table           // mapping table, by LPA
    var ac: seq<nat>        // active block of each parallel unit
    var puid: nat           // cursor: position within the round
    var pageOfs: nat        // cursor: page within the active blocks
    var flash: Flash        // what the device holds
    ghost var wp: seq<nat>  // subpages handed out, by block
    ghost var start: Alloc  // the allocator when the log began
    ghost var log: seq<Event>  // what the allocator did since

    /** Fixed at creation. */
    ghost predicate Wired() {
      && abm.Wired() && abm.g == g
      && turns == Turns(g)
    }

    /** The tables and the flash agree. */
    ghost predicate Core()
      reads this, abm
    {
      && abm.Valid() && abm.g == g && abm.nrPrepared == 0
      && MapInv(abm.blocks, mt, flash, wp)
    }

    /** ... and the cursor can hand out the next page, once the pages mapped but not yet programmed
        have made `vflash` of the flash. */
    ghost predicate Pending(vflash: Flash)
      reads this, abm
    {
      && abm.Valid() && abm.g == g && abm.nrPrepared == 0 && Wired() && pageOfs < g.pagesPerBlock
      && MapInv(abm.blocks, mt, vflash, wp)
      && CursorOk(abm.blocks, wp, ac, turns, puid, g.subpages * pageOfs, g.subpages)
      && Tracks(g, start, log, ac, puid, pageOfs, wp)
    }

    /** A page given up after the slots in `left`: the map and the flash agree as if these were
        programmed, and the cursor as if the whole page were. */
    ghost predicate GivenUpAt(vflash: Flash, loc: Loc, left: seq<Slot>)
      reads this, abm
    {
      && 0 <= loc.blk < |wp| && loc.off == wp[loc.blk]
      && MapInv(abm.blocks, mt, Program(vflash, loc, left), wp[loc.blk := wp[loc.blk] + |left|])
      && CursorOk(abm.blocks, wp[loc.blk := wp[loc.blk] + g.subpages], ac, turns, puid, g.subpages * pageOfs, g.subpages)
    }

    /** The tables, the flash, the cursor and the log agree. */
    ghost predicate Valid()
      reads this, abm
    {
      Pending(flash)
    }

    /** The host's view of the device. */
    ghost function Contents(): map<int, Data>
      reads this
    {
      Logical(mt, flash)
    }

    /** A new device: everything free, nothing mapped, one active block per unit. */
    constructor (geometry: Geometry)
      requires geometry.Valid()
      ensures Valid() && Contents() == map[] && fresh(abm) && g == geometry
      ensures Balanced(abm.lists, g.Punits(), g.blocksPerChip - 1) && log == [] && |mt| == g.SubpagesPerSsd()
    {
      hide BlocksOk, ListsOk, CountersOk, MapInv, CursorOk, RenewedTo, Logical, NewTable, Turns, Activated, Tracks, FreeLen, Zeros, EmptyMap,
        UnitsOk;
      var a := new Abm(geometry);
      abm, g := a, geometry;
      turns := Turns(geometry);
      mt := EmptyMap(geometry.SubpagesPerSsd());
      ac := Zeros(geometry.Punits());
      puid, pageOfs, flash := 0, 0, map[];
      wp := Zeros(geometry.BlocksPerSsd());
      start, log := Alloc([], 0, 0, []), [];
      new;
      NewMapInv(g);
      AllNewFree(g, abm.blocks, abm.lists);
      ghost var was := abm.blocks;
      var ok := GetActiveBlocks();
      ActivateStep(was, abm.blocks, mt, flash, wp);
      NewCursor(g, abm.blocks, ac);
      start, log := Alloc(ac, 0, 0, Zeros(g.BlocksPerSsd())), [];
      ActiveNoDup(abm.blocks, wp, ac, turns, 0, 0, g.subpages);
      NewTracks(g, ac);
    }

    // ---- allocation ------------------------------------------------------------------------

    /** One fresh active block per parallel unit. */
    method GetActiveBlocks() returns (ok: bool)
      requires abm.Valid() && abm.nrPrepared == 0 && abm.g == g && |ac| == g.Punits()
      modifies this`ac, abm
      ensures abm.Valid() && abm.nrPrepared == 0 && |ac| == g.Punits()
      ensures Activated(old(abm.blocks), abm.blocks)
      ensures ok <==> forall u | 0 <= u < g.Punits() :: FreeLen(old(abm.lists), u) > 0
      ensures ok ==> RenewedTo(old(abm.blocks), abm.blocks, ac, |ac|) && TookHeads(old(abm.lists), abm.lists, ac, |ac|)
      ensures ok ==> forall u | 0 <= u < g.Punits() :: FreeLen(abm.lists, u) == FreeLen(old(abm.lists), u) - 1
    {
      hide BlocksOk, ListsOk, CountersOk, Relink, MovedToTail, TookHeads;
      TookNone(abm.lists, ac);
      ghost var was := abm.blocks;
      var bab := 0;
      for i := 0 to g.channels
        invariant abm.Valid() && abm.nrPrepared == 0 && |ac| == g.Punits()
        invariant bab == i * g.chips <= g.Punits() && RenewedTo(was, abm.blocks, ac, bab) && TookHeads(old(abm.lists), abm.lists, ac, bab)
        invariant forall u | 0 <= u < g.Punits() ::
                    FreeLen(abm.lists, u) == FreeLen(old(abm.lists), u) - if u < bab then 1 else 0
        invariant forall u | 0 <= u < bab :: FreeLen(old(abm.lists), u) > 0
      {
        for j := 0 to g.chips
          invariant abm.Valid() && abm.nrPrepared == 0 && |ac| == g.Punits()
          invariant bab == i * g.chips + j <= g.Punits() && RenewedTo(was, abm.blocks, ac, bab) && TookHeads(old(abm.lists), abm.lists, ac, bab)
          invariant forall u | 0 <= u < g.Punits() ::
                      FreeLen(abm.lists, u) == FreeLen(old(abm.lists), u) - if u < bab then 1 else 0
          invariant forall u | 0 <= u < bab :: FreeLen(old(abm.lists), u) > 0
        {
          hide RenewedTo;
          TwoDigits(i, j, g.channels, g.chips);
          ghost var now, lists := abm.blocks, abm.lists;
          var r := abm.TakeFreeBlock(g.PunitId(i, j));
          if r.None? {
            assert FreeLen(old(abm.lists), bab) == 0;
            RenewedActivated(was, now, ac, bab);
            return false;
          }
          RenewOne(was, now, ac, bab, r.value);
          TookOne(old(abm.lists), lists, abm.lists, ac, bab, r.value);
          ac := ac[bab := r.value];
          bab := bab + 1;
        }
        assert (i + 1) * g.chips == i * g.chips + g.chips;
      }
      RenewedActivated(was, abm.blocks, ac, bab);
      return true;
    }

    /** Move the cursor on; at the end of a round the units get fresh active blocks. */
    method NextUnit() returns (ok: bool)
      requires abm.Valid() && abm.nrPrepared == 0 && abm.g == g && |ac| == g.Punits()
      requires puid < g.Punits() && pageOfs < g.pagesPerBlock
      modifies this`ac, this`puid, this`pageOfs, abm
      ensures abm.Valid() && abm.nrPrepared == 0 && |ac| == g.Punits()
      ensures old(LastOfRound()) ==> (
                && Activated(old(abm.blocks), abm.blocks)
                && (ok <==> forall u | 0 <= u < g.Punits() :: FreeLen(old(abm.lists), u) > 0)
                && (ok ==> puid == 0 && pageOfs == 0 && RenewedTo(old(abm.blocks), abm.blocks, ac, |ac|) && TookHeads(old(abm.lists), abm.lists, ac, |ac|))
                && (ok ==> forall u | 0 <= u < g.Punits() :: FreeLen(abm.lists, u) == FreeLen(old(abm.lists), u) - 1)
                && (!ok ==> pageOfs == g.pagesPerBlock))
      ensures !old(LastOfRound()) ==> (
                && ok && ac == old(ac) && abm.blocks == old(abm.blocks) && abm.lists == old(abm.lists)
                && puid == (if old(puid) + 1 == g.Punits() then 0 else old(puid) + 1)
                && pageOfs == old(pageOfs) + (if old(puid) + 1 == g.Punits() then 1 else 0) < g.pagesPerBlock)
    {
      hide BlocksOk, ListsOk, CountersOk, RenewedTo, Activated, TookHeads;
      if puid + 1 == g.Punits() {
        puid := 0;
        pageOfs := pageOfs + 1;
        if pageOfs == g.pagesPerBlock {
          ok := GetActiveBlocks();
          if !ok { return; }
          pageOfs := 0;
        }
      } else {
        puid := puid + 1;
      }
      ok := true;
    }

    /** The page under the cursor, and on to the next one.  The page returned starts where its
        block's write pointer stands, so it was not handed out since the block's last erase.
        Only the switch to fresh active blocks can fail; the page is then reported all the same. */
    method GetFreePpa() returns (ok: bool, b: nat, page: nat)
      requires abm.Valid() && abm.nrPrepared == 0 && Wired() && pageOfs < g.pagesPerBlock
      requires PointersOk(abm.blocks, wp)
      requires CursorOk(abm.blocks, wp, ac, turns, puid, g.subpages * pageOfs, g.subpages)
      requires Tracks(g, start, log, ac, puid, pageOfs, wp)
      modifies this`ac, this`puid, this`pageOfs, this`log, abm
      ensures abm.Valid() && abm.nrPrepared == 0
      ensures Activated(old(abm.blocks), abm.blocks)
      ensures old(puid) < g.Punits() == |ac| == |old(ac)| && g.UnitAt(old(puid)) < |old(ac)| && b == old(ac)[g.UnitAt(old(puid))]
      ensures g.ChannelOf(b) == old(puid) % g.channels && g.ChipOf(b) == old(puid) / g.channels
      ensures Room(old(abm.blocks), wp, b, g.subpages)
      ensures old(abm.blocks)[b].punit == g.UnitAt(old(puid)) && page == old(pageOfs) && wp[b] == g.subpages * page
      ensures ok ==> (
                && pageOfs < g.pagesPerBlock
                && CursorOk(abm.blocks, wp[b := wp[b] + g.subpages], ac, turns, puid, g.subpages * pageOfs, g.subpages)
                && log == old(log) + [Handed(b, page)] + (if old(LastOfRound()) then [Fresh(ac)] else [])
                && Tracks(g, start, log, ac, puid, pageOfs, wp[b := wp[b] + g.subpages]))
      ensures !ok ==> log == old(log)
      ensures old(LastOfRound()) ==> (
                && (ok <==> forall u | 0 <= u < g.Punits() :: FreeLen(old(abm.lists), u) > 0)
                && (ok ==> puid == 0 && pageOfs == 0 && RenewedTo(old(abm.blocks), abm.blocks, ac, |ac|) && TookHeads(old(abm.lists), abm.lists, ac, |ac|))
                && (ok ==> forall u | 0 <= u < g.Punits() :: FreeLen(abm.lists, u) == FreeLen(old(abm.lists), u) - 1)
                && (!ok ==> pageOfs == g.pagesPerBlock))
      ensures !old(LastOfRound()) ==> (
                && ok && ac == old(ac) && abm.blocks == old(abm.blocks) && abm.lists == old(abm.lists)
                && puid == (if old(puid) + 1 == g.Punits() then 0 else old(puid) + 1)
                && pageOfs == old(pageOfs) + (if old(puid) + 1 == g.Punits() then 1 else 0) < g.pagesPerBlock)
    {
      hide BlocksOk, ListsOk, CountersOk, RenewedTo, CursorOk, Turns, PointersOk, Activated, BlockOk, UnitsOk, Room, Tracks, TookHeads;
      ghost var blocks, ac0, puid0, page0, last := abm.blocks, ac, puid, pageOfs, LastOfRound();
      AtCursor(g, blocks, abm.units, wp, ac, puid, g.subpages * pageOfs);
      var u := (puid % g.channels) * g.chips + puid / g.channels;
      b, page := ac[u], pageOfs;
      PointerStep(blocks, abm.units, wp, g, b, page0);
      NoneActivated(blocks);
      ok := NextUnit();
      if ok {
        AdvanceRound(g, blocks, abm.blocks, abm.units, wp, ac0, ac, puid0, page0, puid, pageOfs, u);
        TrackAllocation(g, start, log, blocks, abm.blocks, wp, ac0, ac, puid0, page0, b, last);
        log := log + [Handed(b, page)];
        if last { log := log + [Fresh(ac)]; }
      }
    }

    /** How many allocations into the round the cursor is. */
    function Position(): nat
      reads this
    {
      pageOfs * g.Punits() + puid
    }

    predicate LastOfRound()
      reads this
    {
      puid + 1 == g.Punits() && pageOfs + 1 == g.pagesPerBlock
    }

    // ---- mapping ------------------------------------------------------------------------------

    /** Map one subpage: padding is invalidated at once, an LPA's old subpage is invalidated. */
    method MapOne(loc: Loc, slot: Slot, ghost vflash: Flash, ghost w: seq<nat>)
      requires abm.Valid() && abm.g == g && MapInv(abm.blocks, mt, vflash, w)
      requires Room(abm.blocks, w, loc.blk, 1) && loc.off == w[loc.blk]
      requires slot.lpa == -1 || 0 <= slot.lpa < |mt|
      modifies this`mt, abm
      ensures abm.Valid() && abm.nrPrepared == old(abm.nrPrepared)
      ensures (abm.blocks, mt) == MapSlot(old(abm.blocks), old(mt), loc, slot.lpa)
      ensures forall u | 0 <= u < g.Punits() :: FreeLen(abm.lists, u) == FreeLen(old(abm.lists), u)
    {
      hide BlocksOk, ListsOk, CountersOk, MapInv, Relink, FreeLen, InvalidateAt, BlockOk;
      if slot.lpa == -1 {
        BlockOkAt(abm.blocks, abm.units, g.Punits(), g.SubpagesPerBlock(), loc.blk);
        abm.InvalidatePage(loc.blk, loc.off);
      } else {
        if mt[slot.lpa].status.Mapped? {
          var was := mt[slot.lpa].loc;
          MappedInUse(abm.blocks, mt, vflash, w, slot.lpa);
          BlockOkAt(abm.blocks, abm.units, g.Punits(), g.SubpagesPerBlock(), was.blk);
          abm.InvalidatePage(was.blk, was.off);
        }
        mt := mt[slot.lpa := Entry(Mapped, loc)];
      }
    }

    /** Map consecutive subpages from `loc` on.  An LPA beyond the logical space stops the loop
        with the subpages before it already mapped.  `vflash` is what the flash will hold once
        the pages mapped so far have been programmed. */
    method MapLpaToPpa(loc: Loc, slots: seq<Slot>, ghost vflash: Flash) returns (ok: bool)
      requires abm.Valid() && abm.g == g && MapInv(abm.blocks, mt, vflash, wp)
      requires Room(abm.blocks, wp, loc.blk, |slots|) && loc.off == wp[loc.blk]
      modifies this`mt, abm
      ensures abm.Valid() && abm.nrPrepared == old(abm.nrPrepared)
      ensures ok <==> SlotsOk(slots, |old(mt)|)
      ensures var done := slots[..FirstBad(slots, |old(mt)|)];
              && (abm.blocks, mt) == MapSlots(old(abm.blocks), old(mt), loc, done)
              && MapInv(abm.blocks, mt, Program(vflash, loc, done), wp[loc.blk := wp[loc.blk] + |done|])
              && Logical(mt, Program(vflash, loc, done)) == Store(Logical(old(mt), vflash), done)
      ensures forall u | 0 <= u < g.Punits() :: FreeLen(abm.lists, u) == FreeLen(old(abm.lists), u)
    {
      hide BlocksOk, ListsOk, CountersOk, MapInv, MapSlot, Logical, SlotsOk;
      ghost var n := FirstBad(slots, |mt|);
      SlotsStep(abm.blocks, mt, vflash, wp, loc.blk, slots[..n]);
      ghost var vf, w := vflash, wp;
      for k := 0 to |slots|
        invariant k <= n && |mt| == |old(mt)|
        invariant abm.Valid() && abm.nrPrepared == old(abm.nrPrepared)
        invariant MapInv(abm.blocks, mt, vf, w) && Room(abm.blocks, w, loc.blk, |slots| - k) && w[loc.blk] == loc.off + k
        invariant MapSlots(abm.blocks, mt, Loc(loc.blk, loc.off + k), slots[k..n])
               == MapSlots(old(abm.blocks), old(mt), loc, slots[..n])
        invariant forall u | 0 <= u < g.Punits() :: FreeLen(abm.lists, u) == FreeLen(old(abm.lists), u)
      {
        if slots[k].lpa != -1 && !(0 <= slots[k].lpa < |mt|) {
          BadAt(slots, |mt|, k);
          return false;
        }
        GoodAt(slots, |mt|, k);
        SlotStep(abm.blocks, mt, vf, w, loc.blk, slots[k]);
        assert slots[k..n][0] == slots[k] && slots[k..n][1..] == slots[k + 1..n];
        MapOne(Loc(loc.blk, loc.off + k), slots[k], vf, w);
        vf := vf[Loc(loc.blk, loc.off + k) := Cell(slots[k].data, slots[k].lpa)];
        w := w[loc.blk := w[loc.blk] + 1];
      }
      return true;
    }

    // ---- host requests --------------------------------------------------------------------------

    /** Allocate and map one page.  `vflash` is the flash once the pages mapped so far are programmed,
        `held` what it holds already.  A page with an LPA beyond the logical space is left with the
        subpages before it mapped. */
    method MapPage(slots: seq<Slot>, ghost vflash: Flash, ghost held: Flash) returns (r: WriteResult, loc: Loc)
      requires Pending(vflash) && |slots| == g.subpages && held.Keys <= vflash.Keys
      modifies this`ac, this`puid, this`pageOfs, this`mt, this`wp, this`log, abm
      ensures abm.Valid() && abm.nrPrepared == 0 && |mt| == |old(mt)|
      ensures r.NoSpace? <==> old(LastOfRound()) && exists u :: 0 <= u < g.Punits() && FreeLen(old(abm.lists), u) == 0
      ensures r.BadAddress? <==> !r.NoSpace? && !SlotsOk(slots, |old(mt)|)
      ensures r.NoSpace? ==> mt == old(mt) && wp == old(wp) && MapInv(abm.blocks, mt, vflash, wp)
      ensures r.Written? ==> (
                && Pending(Program(vflash, loc, slots))
                && Logical(mt, Program(vflash, loc, slots)) == Store(Logical(old(mt), vflash), slots)
                && Logical(mt, held) == Logical(old(mt), held) - LpasOf(slots)
                && puid == (if old(puid) + 1 == g.Punits() then 0 else old(puid) + 1)
                && pageOfs == (if old(puid) + 1 != g.Punits() then old(pageOfs)
                               else if old(pageOfs) + 1 == g.pagesPerBlock then 0 else old(pageOfs) + 1)
                && 0 <= loc.blk && log == old(log) + [Handed(loc.blk, old(pageOfs))] + (if old(LastOfRound()) then [Fresh(ac)] else [])
                && forall u | 0 <= u < g.Punits() ::
                     FreeLen(abm.lists, u) == FreeLen(old(abm.lists), u) - if old(LastOfRound()) then 1 else 0)
      ensures r.BadAddress? ==> (
                var done := slots[..FirstBad(slots, |old(mt)|)];
                wp == old(wp) && Logical(mt, held) == Logical(old(mt), held) - LpasOf(done) && GivenUpAt(vflash, loc, done))
    {
      hide BlocksOk, ListsOk, CountersOk, MapInv, CursorOk, Logical, MapSlots, Program, Store, SlotsOk, Activated, RenewedTo,
        UnitsOk, SameShape, Tracks, LpasOf;
      MapPointers(abm.blocks, mt, vflash, wp);
      ghost var blocks0 := abm.blocks;
      var ok, b, page := GetFreePpa();
      ActivateStep(blocks0, abm.blocks, mt, vflash, wp);
      loc := Loc(b, g.subpages * page);
      if !ok { return NoSpace, loc; }
      ActivatedInUse(blocks0, abm.blocks, wp, b, g.subpages);
      ghost var blocks1, mt1, n := abm.blocks, mt, FirstBad(slots, |mt|);
      assert Room(blocks1, wp, b, n);
      SlotsLength(blocks1, mt1, loc, slots[..n]);
      MappedNotProgrammed(blocks1, mt1, vflash, wp, b, slots[..n], held);
      SlotsFrame(blocks1, mt1, vflash, wp, b, slots[..n]);
      ok := MapLpaToPpa(loc, slots, vflash);
      CursorFrame(blocks1, abm.blocks, wp[b := wp[b] + g.subpages], ac, turns, puid, g.subpages * pageOfs, g.subpages);
      if !ok { return BadAddress, loc; }
      assert slots[..n] == slots;
      wp := wp[b := wp[b] + g.subpages];
      return Written, loc;
    }

    /** A write of several pages: allocate and map them all, then program data and OOB.  It succeeds
        exactly when every address is in range and every unit has a free block for each end of a
        round that the pages reach.  When it fails nothing is programmed, so the LPAs of the pages
        mapped before lose their data; the tables then agree with `vflash`, the flash that would
        hold these pages. */
    method WriteRequest(pages: seq<seq<Slot>>) returns (r: WriteResult, done: nat, ghost vflash: Flash, ghost loc: Loc)
      requires Valid() && forall i | 0 <= i < |pages| :: |pages[i]| == g.subpages
      modifies this, abm
      ensures done <= |pages| && |mt| == |old(mt)|
      ensures r.Written? <==> done == |pages|
      ensures r.Written? ==> Valid() && Contents() == StorePages(old(Contents()), pages)
      ensures !r.Written? ==> flash == old(flash) && abm.Valid() && abm.nrPrepared == 0
      ensures r.NoSpace? ==> (
                && Contents() == old(Contents()) - LpasIn(pages[..done])
                && MapInv(abm.blocks, mt, vflash, wp) && Logical(mt, vflash) == StorePages(old(Contents()), pages[..done])
                && (done == 0 ==> vflash == flash))
      ensures r.BadAddress? ==> (
                var left := pages[done][..FirstBad(pages[done], |old(mt)|)];
                && Contents() == old(Contents()) - LpasIn(pages[..done]) - LpasOf(left)
                && GivenUpAt(vflash, loc, left))
      ensures forall i | 0 <= i < done :: SlotsOk(pages[i], |old(mt)|)
      ensures Enough(old(abm.lists), g, old(Position()), done)
      ensures r.NoSpace? ==> !Enough(old(abm.lists), g, old(Position()), done + 1)
      ensures r.BadAddress? ==> Enough(old(abm.lists), g, old(Position()), done + 1) && !SlotsOk(pages[done], |old(mt)|)
      ensures r.Written? ==> Position() == PositionAfter(g, old(Position()), |pages|)
      ensures r.Written? ==> Grown(old(log), log, |pages|, EndsReached(g, old(Position()), |pages|), 0)
      ensures r.Written? ==> Lost(old(abm.lists), abm.lists, g.Punits(), EndsReached(g, old(Position()), |pages|))
    {
      hide BlocksOk, ListsOk, CountersOk, MapInv, CursorOk, Logical, Program, Store, SlotsOk, UnitsOk, Tracks, LpasOf,
        Turns, Enough, Grown, Lost, StorePages, LpasIn, EndsReached, PositionAfter, ProgramAll;
      var mapped;
      r, done, mapped, vflash, loc := MapPages(pages);
      if !r.Written? { return; }
      assert pages[..done] == pages;
      ProgramPages(mapped);
    }

    /** Allocate and map the pages of a write, in order, as far as they go. */
    method MapPages(pages: seq<seq<Slot>>)
      returns (r: WriteResult, done: nat, mapped: seq<(Loc, seq<Slot>)>, ghost vflash: Flash, ghost loc: Loc)
      requires Valid() && forall i | 0 <= i < |pages| :: |pages[i]| == g.subpages
      modifies this`ac, this`puid, this`pageOfs, this`mt, this`wp, this`log, abm
      ensures done <= |pages| && |mt| == |old(mt)| && abm.Valid() && abm.nrPrepared == 0
      ensures r.Written? <==> done == |pages|
      ensures r.Written? ==> Pending(vflash) && vflash == ProgramAll(flash, mapped)
      ensures Contents() == old(Contents()) - LpasIn(pages[..done]) - (
                if r.BadAddress? then LpasOf(pages[done][..FirstBad(pages[done], |old(mt)|)]) else {})
      ensures !r.BadAddress? ==> MapInv(abm.blocks, mt, vflash, wp) && Logical(mt, vflash) == StorePages(old(Contents()), pages[..done])
      ensures done == 0 ==> vflash == flash
      ensures r.BadAddress? ==> GivenUpAt(vflash, loc, pages[done][..FirstBad(pages[done], |old(mt)|)])
      ensures forall i | 0 <= i < done :: SlotsOk(pages[i], |old(mt)|)
      ensures Enough(old(abm.lists), g, old(Position()), done)
      ensures r.NoSpace? ==> !Enough(old(abm.lists), g, old(Position()), done + 1)
      ensures r.BadAddress? ==> Enough(old(abm.lists), g, old(Position()), done + 1) && !SlotsOk(pages[done], |old(mt)|)
      ensures r.Written? ==> Position() == PositionAfter(g, old(Position()), |pages|)
      ensures r.Written? ==> Grown(old(log), log, |pages|, EndsReached(g, old(Position()), |pages|), 0)
      ensures r.Written? ==> Lost(old(abm.lists), abm.lists, g.Punits(), EndsReached(g, old(Position()), |pages|))
    {
      hide BlocksOk, ListsOk, CountersOk, MapInv, CursorOk, Logical, Program, Store, SlotsOk, UnitsOk, Tracks, LpasOf,
        Turns, Enough, Grown, Lost, StorePages, LpasIn, EndsReached, PositionAfter, RoundSize, FreeLen, AtPosition, ProgramAll;
      ghost var pos0, crossed, lists0, m := Position(), 0, abm.lists, Contents();
      PositionBound(ac, turns, wp, abm.blocks, g, puid, pageOfs);
      BeginPages(g, pos0, m, pages);
      LostNone(lists0, g.Punits());
      GrownNot(log);
      mapped, vflash, done, loc, r := [], flash, 0, Loc(0, 0), Written;
      assert vflash == ProgramAll(flash, mapped) by { ProgramNone(flash); }
      while done < |pages|
        invariant done <= |pages| && Pending(vflash) && |mt| == |old(mt)| && flash == old(flash) && r.Written?
        invariant flash.Keys <= vflash.Keys && vflash == ProgramAll(flash, mapped) && (done == 0 ==> vflash == flash)
        invariant Logical(mt, vflash) == StorePages(m, pages[..done]) && Logical(mt, flash) == m - LpasIn(pages[..done])
        invariant forall i | 0 <= i < done :: SlotsOk(pages[i], |old(mt)|)
        invariant AtPosition(g, pos0, done, Position(), crossed) && Lost(lists0, abm.lists, g.Punits(), crossed)
        invariant Grown(old(log), log, done, crossed, 0)
      {
        ghost var puid0, page0, last, log0, lists1 := puid, pageOfs, LastOfRound(), log, abm.lists;
        PositionBound(ac, turns, wp, abm.blocks, g, puid, pageOfs);
        LastIff(g, puid, pageOfs);
        EnoughNext(lists0, lists1, g, pos0, done, Position(), crossed, last);
        var loc';
        r, loc' := MapPage(pages[done], vflash, flash);
        loc := loc';
        if !r.Written? { return; }
        NextPage(g, pos0, done, crossed, puid0, page0, puid, pageOfs, last);
        GrownByPage(old(log), log0, log, done, crossed, 0, Handed(loc.blk, page0), ac, last);
        LostMore(lists0, lists1, abm.lists, g.Punits(), crossed, last);
        PagesPush(m, pages, done);
        ProgramAdds(vflash, loc, pages[done]);
        ProgramMore(flash, mapped, loc, pages[done]);
        mapped := mapped + [(loc', pages[done])];
        vflash := Program(vflash, loc, pages[done]);
        if last { crossed := crossed + 1; }
        done := done + 1;
      }
      EndPages(g, pos0, done, Position(), crossed);
      EnoughNow(lists0, abm.lists, g, pos0, done, Position(), crossed);
    }

    /** Trim: the LPAs of the range are no longer mapped; a range beyond the logical space is refused. */
    method InvalidateLpa(lpa: nat, len: nat) returns (refused: bool)
      requires Valid()
      modifies this, abm
      ensures Valid() && |mt| == |old(mt)|
      ensures refused <==> lpa + len > |mt|
      ensures Contents() == if refused then old(Contents()) else old(Contents()) - Span(lpa, lpa + len)
      ensures log == old(log) && puid == old(puid) && pageOfs == old(pageOfs)
      ensures forall u | 0 <= u < g.Punits() :: FreeLen(abm.lists, u) == FreeLen(old(abm.lists), u)
    {
      hide BlocksOk, ListsOk, CountersOk, EntriesOk, LiveOk, FreshOk, CursorOk, Logical, UnitsOk, SameShape, Relink, Tracks;
      if lpa + len > |mt| { return true; }
      assert old(Contents()) - {} == old(Contents());
      for l := lpa to lpa + len
        invariant Valid() && |mt| == |old(mt)|
        invariant Contents() == old(Contents()) - Span(lpa, l)
        invariant log == old(log) && puid == old(puid) && pageOfs == old(pageOfs)
        invariant forall u | 0 <= u < g.Punits() :: FreeLen(abm.lists, u) == FreeLen(old(abm.lists), u)
      {
        assert Span(lpa, l + 1) == Span(lpa, l) + {l};
        ghost var blocks0 := abm.blocks;
        if mt[l].status.Mapped? {
          TrimStep(abm.blocks, mt, flash, wp, l);
          var was := mt[l].loc;
          BlockOkAt(abm.blocks, abm.units, g.Punits(), g.SubpagesPerBlock(), was.blk);
          InvalidateShape(abm.blocks, was);
          CursorFrame(blocks0, InvalidateAt(blocks0, was), wp, ac, turns, puid, g.subpages * pageOfs, g.subpages);
          abm.InvalidatePage(was.blk, was.off);
          mt := mt[l := mt[l].(status := Unmapped)];
        } else {
          NotMapped(mt, flash, l);
        }
      }
      return false;
    }

    /** Read: the data last written, or nothing for an LPA that is not mapped. */
    method ReadLpa(lpa: nat) returns (r: Option<Data>)
      requires Core()
      ensures r == if lpa in Contents() then Some(Contents()[lpa]) else None
    {
      if lpa >= |mt| { return None; }
      if !mt[lpa].status.Mapped? { return None; }
      assert EntryOk(abm.blocks, mt, flash, wp, lpa);
      r := Some(flash[mt[lpa].loc].data);
    }

    // ---- garbage collection -------------------------------------------------------------------------

    /** GC is needed when less than 3 percent of the blocks are FREE. */
    method IsGcNeeded() returns (needed: bool)
      requires abm.Valid() && |abm.blocks| > 0
      ensures needed <==> Count(abm.blocks, Free) * 100 < 3 * |abm.blocks|
    {
      needed := abm.nrFree * 100 / |abm.blocks| <= 2;
      QuotientBelow(abm.nrFree * 100, |abm.blocks|);
    }

    /** The greedy scan of one unit's dirty list. */
    method VictimSelectionGreedy(u: nat) returns (r: Option<nat>)
      requires abm.Valid() && abm.g == g && u < g.Punits() == |ac| && ac[u] < |abm.blocks|
      ensures r == VictimOf(abm.blocks, abm.lists, ac, g.SubpagesPerBlock(), u)
      ensures r.Some? <==> HasVictim(abm.lists, ac, u)
      ensures r.Some? ==> r.value < |abm.blocks| && abm.blocks[r.value].status.Dirty? && abm.blocks[r.value].punit == u && r.value != ac[u]
    {
      hide BlocksOk, ListsOk, CountersOk, Pick;
      ListMembers(abm.blocks, abm.lists, g.Punits(), ListId(DirtyList, u));
      var l, a, full := abm.lists[ListId(DirtyList, u)], ac[u], g.SubpagesPerBlock();
      r := None;
      ghost var p := 0;
      for i := 0 to |l|
        invariant r.None? ==> forall k | 0 <= k < i :: l[k] == a
        invariant r.Some? ==> p < i && r.value == l[p] && l[p] != a
        invariant forall k | 0 <= k < i && l[k] != a :: abm.blocks[l[k]].nrInvalid != full
        invariant r.Some? ==> forall k | 0 <= k < p && l[k] != a :: abm.blocks[l[k]].nrInvalid < abm.blocks[a].nrInvalid
        invariant r.Some? ==> abm.blocks[l[p]].nrInvalid >= abm.blocks[a].nrInvalid || forall k | p < k < i :: l[k] == a
      {
        var b := l[i];
        if a == b { continue; }
        if abm.blocks[b].nrInvalid == full {
          r := Some(b);
          PickIs(abm.blocks, l, a, full, i);
          return;
        }
        if r.None? {
          r, p := Some(b), i;
        } else if abm.blocks[a].nrInvalid > abm.blocks[r.value].nrInvalid {
          r, p := Some(b), i;
        }
      }
      PickNone(abm.blocks, l, a, full);
      if r.Some? { PickIs(abm.blocks, l, a, full, p); }
    }

    /** One victim per unit; fewer when some unit has no dirty block besides its active one. */
    method SelectVictims() returns (vs: seq<nat>)
      requires abm.Valid() && abm.g == g && |ac| == g.Punits()
      requires forall u | 0 <= u < |ac| :: ac[u] < |abm.blocks|
      ensures |vs| <= |ac|
      ensures |vs| == |ac| <==> forall u | 0 <= u < |ac| :: HasVictim(abm.lists, ac, u)
      ensures |vs| == |ac| ==> VictimsOk(abm.blocks, ac, vs) && AreVictims(abm.blocks, abm.lists, ac, g.SubpagesPerBlock(), vs)
      ensures |vs| == |ac| ==> forall u | 0 <= u < |vs| :: abm.blocks[vs[u]].status.Dirty?
    {
      hide BlocksOk, ListsOk, CountersOk, VictimOf;
      vs := [];
      var n := 0;
      for i := 0 to g.channels
        invariant n == i * g.chips <= g.Punits() && |vs| <= n
        invariant |vs| == n <==> forall u | 0 <= u < n :: HasVictim(abm.lists, ac, u)
        invariant |vs| == n ==> forall u | 0 <= u < n ::
                    vs[u] < |abm.blocks| && abm.blocks[vs[u]].punit == u && abm.blocks[vs[u]].status.Dirty? && ac[u] != vs[u]
                    && VictimOf(abm.blocks, abm.lists, ac, g.SubpagesPerBlock(), u) == Some(vs[u])
      {
        for j := 0 to g.chips
          invariant n == i * g.chips + j <= g.Punits() && |vs| <= n
          invariant |vs| == n <==> forall u | 0 <= u < n :: HasVictim(abm.lists, ac, u)
          invariant |vs| == n ==> forall u | 0 <= u < n ::
                      vs[u] < |abm.blocks| && abm.blocks[vs[u]].punit == u && abm.blocks[vs[u]].status.Dirty? && ac[u] != vs[u]
                      && VictimOf(abm.blocks, abm.lists, ac, g.SubpagesPerBlock(), u) == Some(vs[u])
        {
          TwoDigits(i, j, g.channels, g.chips);
          var r := VictimSelectionGreedy(g.PunitId(i, j));
          if r.Some? { vs := vs + [r.value]; }
          n := n + 1;
        }
        assert (i + 1) * g.chips == i * g.chips + g.chips;
      }
    }

    /** Allocate and map one page of carried subpages.  `vflash` is the flash once the pages
        mapped so far are programmed. */
    method RewritePage(slots: seq<Slot>, ghost vs: seq<nat>, ghost vflash: Flash) returns (ok: bool, loc: Loc)
      requires Pending(vflash)
      requires |slots| == g.subpages && VictimsOk(abm.blocks, ac, vs)
      requires Listed(abm.blocks, vs) && Carries(vflash, LiveLocs(abm.blocks, vs), slots)
      modifies this`ac, this`puid, this`pageOfs, this`mt, this`wp, this`log, abm
      ensures ok <==> !(old(LastOfRound()) && exists u :: 0 <= u < g.Punits() && FreeLen(old(abm.lists), u) == 0)
      ensures ok ==> Pending(Program(vflash, loc, slots))
      ensures ok ==> Logical(mt, Program(vflash, loc, slots)) == Logical(old(mt), vflash)
      ensures ok ==> 0 <= loc.blk && log == old(log) + [Handed(loc.blk, old(pageOfs))] + (if old(LastOfRound()) then [Fresh(ac)] else [])
      ensures ok ==> VictimsOk(abm.blocks, ac, vs) && loc.blk !in vs && Evolved(old(abm.blocks), abm.blocks)
      ensures ok ==> (
                && Listed(abm.blocks, vs)
                && LiveLocs(abm.blocks, vs) == LiveLocs(old(abm.blocks), vs)[Min(|slots|, |LiveLocs(old(abm.blocks), vs)|)..])
      ensures ok ==> |mt| == |old(mt)| && old(puid) < g.Punits()
      ensures ok ==> forall u | 0 <= u < g.Punits() ::
                FreeLen(abm.lists, u) == FreeLen(old(abm.lists), u) - if old(LastOfRound()) then 1 else 0
      ensures ok ==> puid == (if old(puid) + 1 == g.Punits() then 0 else old(puid) + 1)
      ensures ok ==> pageOfs == (if old(puid) + 1 != g.Punits() then old(pageOfs)
                                 else if old(pageOfs) + 1 == g.pagesPerBlock then 0 else old(pageOfs) + 1)
    {
      hide BlocksOk, ListsOk, CountersOk, MapInv, CursorOk, Logical, MapSlots, Program, Store, SlotsOk,
        Activated, RenewedTo, UnitsOk, SameShape, VictimsOk, LiveLocs, Carries, UsedUp, Turns, PointersOk, Tracks,
        TookHeads, Evolved;
      MapPointers(abm.blocks, mt, vflash, wp);
      VictimsFull(abm.blocks, wp, ac, turns, puid, g.subpages * pageOfs, g.subpages, vs);
      ghost var blocks0, ac0 := abm.blocks, ac;
      var b, page;
      ok, b, page := GetFreePpa();
      loc := Loc(b, g.subpages * page);
      if !ok { return; }
      VictimsActive(blocks0, ac0, vs, g.UnitAt(old(puid)), b);
      if old(LastOfRound()) { VictimsSwitch(blocks0, abm.blocks, ac0, ac, vs); }
      ActivateStep(blocks0, abm.blocks, mt, vflash, wp);
      ActivatedInUse(blocks0, abm.blocks, wp, b, g.subpages);
      LiveActivated(blocks0, abm.blocks, wp, vs);
      ghost var blocks1, mt1 := abm.blocks, mt;
      RewriteStep(blocks1, mt1, vflash, wp, ac, vs, b, slots);
      SlotsLength(blocks1, mt1, loc, slots);
      ghost var n := FirstBad(slots, |mt|);
      assert slots[..n] == slots;
      var mapped := MapLpaToPpa(loc, slots, vflash);
      wp := wp[b := wp[b] + g.subpages];
      PageEvolves(blocks0, blocks1, abm.blocks);
      CursorFrame(blocks1, abm.blocks, wp, ac, turns, puid, g.subpages * pageOfs, g.subpages);
    }

    /** The first i requests are mapped: the victims' remaining live subpages start after theirs. */
    ghost predicate Moved(vs: seq<nat>, locs: seq<Loc>, pages: seq<(Loc, seq<Slot>)>, vflash: Flash, i: nat)
      reads this, abm
    {
      && Pending(vflash) && VictimsOk(abm.blocks, ac, vs) && Listed(abm.blocks, vs)
      && 0 <= i * g.subpages && LiveLocs(abm.blocks, vs) == locs[Min(i * g.subpages, |locs|)..]
      && Kept(flash, vflash, locs) && vflash == ProgramAll(flash, pages)
    }

    lemma {:induction false} BeginMove(vs: seq<nat>)
      requires Valid() && VictimsOk(abm.blocks, ac, vs) && Listed(abm.blocks, vs)
      ensures Moved(vs, LiveLocs(abm.blocks, vs), [], flash, 0)
    {
      hide BlocksOk, ListsOk, CountersOk, MapInv, CursorOk, UnitsOk, VictimsOk, LiveLocs, UsedUp, Turns, Listed, Tracks, ProgramAll;
      VictimsFull(abm.blocks, wp, ac, turns, puid, g.subpages * pageOfs, g.subpages, vs);
      LiveInFlash(abm.blocks, mt, flash, wp, vs);
      ProgramNone(flash);
    }

    lemma {:induction false} EndMove(vs: seq<nat>, locs: seq<Loc>, pages: seq<(Loc, seq<Slot>)>, vflash: Flash, nr: nat)
      requires Moved(vs, locs, pages, vflash, nr) && nr * g.subpages >= |locs|
      ensures Pending(vflash) && vflash == ProgramAll(flash, pages)
      ensures VictimsOk(abm.blocks, ac, vs) && Listed(abm.blocks, vs) && LiveLocs(abm.blocks, vs) == []
    {
      hide BlocksOk, ListsOk, CountersOk, MapInv, CursorOk, UnitsOk, VictimsOk, LiveLocs, UsedUp, Turns, Listed, Tracks, ProgramAll, PageFtl.Pending;
    }

    /** Position, log and free blocks after i pages with at most one end of a round. */
    ghost predicate Advanced(pos0: nat, log0: seq<Event>, lists0: ListHeads, i: nat, switched: bool)
      reads this, abm
    {
      && AtPosition(g, pos0, i, Position(), if switched then 1 else 0)
      && Lost(lists0, abm.lists, g.Punits(), if switched then 1 else 0)
      && Grown(log0, log, i, if switched then 1 else 0, 0)
    }

    /** Allocate and map compacted request i. */
    method MoveNext(dst: seq<Request>, i: nat, pages0: seq<(Loc, seq<Slot>)>, ghost vs: seq<nat>, ghost blocks0: seq<Block>,
                    ghost vflash0: Flash, ghost pos0: nat, ghost log0: seq<Event>, ghost lists0: ListHeads, ghost switched0: bool, ghost nr: nat)
      returns (ok: bool, pages: seq<(Loc, seq<Slot>)>, ghost vflash: Flash, ghost switched: bool)
      requires Evolved(blocks0, abm.blocks)
      requires Listed(blocks0, vs) && Moved(vs, LiveLocs(blocks0, vs), pages0, vflash0, i) && Advanced(pos0, log0, lists0, i, switched0)
      requires Uniform(dst, g.subpages) && i < nr <= |dst| && nr <= RoundSize(g) && pos0 < RoundSize(g)
      requires Packed(dst, g.subpages, ReadCells(flash, LiveLocs(blocks0, vs)))
      modifies this`ac, this`puid, this`pageOfs, this`mt, this`wp, this`log, abm
      ensures ok ==> Moved(vs, LiveLocs(blocks0, vs), pages, vflash, i + 1) && Advanced(pos0, log0, lists0, i + 1, switched)
      ensures ok ==> |mt| == |old(mt)| && Logical(mt, vflash) == Logical(old(mt), vflash0) && Evolved(blocks0, abm.blocks)
      ensures !ok ==> pos0 + nr >= RoundSize(g) && exists u :: 0 <= u < g.Punits() && FreeLen(lists0, u) == 0
    {
      hide BlocksOk, ListsOk, CountersOk, MapInv, CursorOk, Logical, Program, UnitsOk, VictimsOk, LiveLocs, Carries, UsedUp,
        Turns, Packed, Uniform, ReadCells, Kept, Listed, SlotsOf, Tracks, Grown, Lost, FreeLen, RoundSize, AtPosition, ProgramAll, Evolved;
      ghost var locs, blocks1 := LiveLocs(blocks0, vs), abm.blocks;
      pages, vflash, switched := pages0, vflash0, switched0;
      UniformAt(dst, g.subpages, i);
      PackedCarries(flash, vflash, locs, dst, g.subpages, i);
      MinStep(i, g.subpages, locs);
      ghost var puid0, page0, last, log1, lists1 := puid, pageOfs, LastOfRound(), log, abm.lists;
      PositionBound(ac, turns, wp, abm.blocks, g, puid, pageOfs);
      LastIff(g, puid, pageOfs);
      OneRoundEnd(g, pos0, i, nr, Position(), switched, last);
      var loc;
      ok, loc := RewritePage(SlotsOf(dst[i]), vs, vflash);
      if !ok {
        SameFree(lists0, lists1, g.Punits());
        return;
      }
      EvolvedTrans(blocks0, blocks1, abm.blocks);
      NextPage(g, pos0, i, if switched then 1 else 0, puid0, page0, puid, pageOfs, last);
      GrownByPage(log0, log1, log, i, if switched then 1 else 0, 0, Handed(loc.blk, page0), ac, last);
      LostMore(lists0, lists1, abm.lists, g.Punits(), if switched then 1 else 0, last);
      KeptAfter(flash, vflash, blocks0, vs, loc, SlotsOf(dst[i]));
      ProgramMore(flash, pages, loc, SlotsOf(dst[i]));
      pages := pages + [(loc, SlotsOf(dst[i]))];
      vflash := Program(vflash, loc, SlotsOf(dst[i]));
      if last { switched := true; }
    }

    /** Allocate and map every compacted request.  The requests reach at most one end of a round, so
        this fails exactly when they reach it and a unit has no free block. */
    method MapBack(dst: seq<Request>, nr: nat, ghost vs: seq<nat>)
      returns (ok: bool, pages: seq<(Loc, seq<Slot>)>, ghost switched: bool)
      requires Valid() && VictimsOk(abm.blocks, ac, vs) && Listed(abm.blocks, vs)
      requires Uniform(dst, g.subpages) && nr <= |dst| && nr <= RoundSize(g)
      requires Packed(dst, g.subpages, ReadCells(flash, LiveLocs(abm.blocks, vs)))
      requires nr * g.subpages >= |LiveLocs(abm.blocks, vs)|
      modifies this`ac, this`puid, this`pageOfs, this`mt, this`wp, this`log, abm
      ensures ok <==> !(old(Position()) + nr >= RoundSize(g) && exists u :: 0 <= u < g.Punits() && FreeLen(old(abm.lists), u) == 0)
      ensures ok ==> Pending(ProgramAll(flash, pages)) && |mt| == |old(mt)|
      ensures ok ==> Logical(mt, ProgramAll(flash, pages)) == Logical(old(mt), flash)
      ensures ok ==> (switched <==> old(Position()) + nr >= RoundSize(g))
      ensures ok ==> Grown(old(log), log, nr, if switched then 1 else 0, 0)
      ensures ok ==> VictimsOk(abm.blocks, ac, vs) && Listed(abm.blocks, vs) && LiveLocs(abm.blocks, vs) == []
      ensures ok ==> Lost(old(abm.lists), abm.lists, g.Punits(), if switched then 1 else 0)
      ensures ok ==> Evolved(old(abm.blocks), abm.blocks) && Position() == PositionAfter(g, old(Position()), nr)
      ensures ok ==> EndsReached(g, old(Position()), nr) == if switched then 1 else 0
    {
      hide BlocksOk, ListsOk, CountersOk, MapInv, CursorOk, Logical, Program, UnitsOk, VictimsOk, LiveLocs, UsedUp, Evolved, EndsReached, PositionAfter,
        Turns, Packed, Uniform, ReadCells, Kept, Listed, Tracks, Grown, Lost, FreeLen, RoundSize, AtPosition, ProgramAll, PageFtl.Moved;
      ghost var locs, blocks0, lists0 := LiveLocs(abm.blocks, vs), abm.blocks, abm.lists;
      ghost var vflash, pos0 := flash, Position();
      BeginMove(vs);
      EvolvedRefl(blocks0);
      PositionBound(ac, turns, wp, abm.blocks, g, puid, pageOfs);
      pages, switched, ok := [], false, true;
      BeginRound(g, pos0);
      LostNone(abm.lists, g.Punits());
      GrownNot(log);
      assert Advanced(pos0, log, lists0, 0, false);
      for i := 0 to nr
        invariant ok && |mt| == |old(mt)| && Logical(mt, vflash) == Logical(old(mt), flash) && Evolved(blocks0, abm.blocks)
        invariant Moved(vs, locs, pages, vflash, i) && Advanced(pos0, old(log), lists0, i, switched)
      {
        hide PageFtl.Advanced, PageFtl.Pending;
        ok, pages, vflash, switched := MoveNext(dst, i, pages, vs, blocks0, vflash, pos0, old(log), lists0, switched, nr);
        if !ok { return; }
      }
      EndMove(vs, locs, pages, vflash, nr);
      RoundReached(g, pos0, nr, Position(), switched);
      EndPages(g, pos0, nr, Position(), if switched then 1 else 0);
      if switched { SomeFree(lists0, abm.lists, g.Punits()); }
    }

    /** Program the mapped pages. */
    method ProgramPages(pages: seq<(Loc, seq<Slot>)>)
      modifies this`flash
      ensures flash == ProgramAll(old(flash), pages)
    {
      assert pages[..0] == [];
      for i := 0 to |pages|
        invariant flash == ProgramAll(old(flash), pages[..i])
      {
        assert pages[..i + 1][..i] == pages[..i];
        flash := Program(flash, pages[i].0, pages[i].1);
      }
      assert pages[..|pages|] == pages;
    }

    /** Erase one victim, of unit u. */
    method EraseVictim(v: nat, bad: bool, ghost u: nat)
      requires Valid() && AllInvalid(abm.blocks, v) && InUse(abm.blocks[v]) && abm.blocks[v].punit == u < |ac| && ac[u] != v
      modifies this`flash, this`wp, this`log, abm
      ensures Valid() && Contents() == old(Contents()) && log == old(log) + [Erased(v)]
      ensures abm.blocks == old(abm.blocks)[v := EraseIn(old(abm.blocks)[v], bad)]
      ensures forall w | 0 <= w < g.Punits() :: FreeLen(abm.lists, w) == FreeLen(old(abm.lists), w) + if w == u && !bad then 1 else 0
    {
      hide BlocksOk, ListsOk, CountersOk, MapInv, CursorOk, Logical, UnitsOk, EraseFlash, Relink, Tracks, MovedToTail, FreeOf, FreeLen;
      MapPointers(abm.blocks, mt, flash, wp);
      EraseStep(abm.blocks, mt, flash, wp, v, bad);
      CursorErase(abm.blocks, wp, ac, turns, puid, g.subpages * pageOfs, g.subpages, v, EraseIn(abm.blocks[v], bad));
      VictimInactive(abm.blocks, wp, ac, turns, puid, g.subpages * pageOfs, g.subpages, v);
      TrackErased(g, start, log, ac, puid, pageOfs, wp, v);
      log := log + [Erased(v)];
      flash := EraseFlash(flash, v, bad);
      wp := wp[v := 0];
      abm.EraseAt(v, bad);
    }

    /** Erase the victims; the device reports which erases failed. */
    method EraseVictims(vs: seq<nat>, bad: seq<bool>)
      requires Valid() && VictimsOk(abm.blocks, ac, vs) && |bad| == |vs| == g.Punits()
      requires forall i | 0 <= i < |vs| :: AllInvalid(abm.blocks, vs[i])
      modifies this`flash, this`wp, this`log, abm
      ensures Valid() && Contents() == old(Contents())
      ensures log == old(log) + Erasures(vs) && Grown(old(log), log, 0, 0, |vs|)
      ensures ErasedTo(old(abm.blocks), abm.blocks, vs, bad, |vs|)
      ensures forall u | 0 <= u < g.Punits() :: FreeLen(abm.lists, u) == FreeLen(old(abm.lists), u) + if bad[u] then 0 else 1
      ensures forall b | b in vs :: b < |abm.blocks| && !InUse(abm.blocks[b])
    {
      hide BlocksOk, ListsOk, CountersOk, MapInv, CursorOk, Logical, UnitsOk, EraseFlash, Relink, Tracks, Grown, ErasedTo, MovedToTail, FreeOf, FreeLen,
        EraseIn, AllInvalid;
      ghost var blocks0, lists0 := abm.blocks, abm.lists;
      GrownNot(log);
      ErasedNone(blocks0, ac, vs, bad);
      FreedNone(lists0, bad);
      assert log == log + Erasures(vs[..0]);
      for i := 0 to |vs|
        invariant Valid() && Contents() == old(Contents()) && ErasedTo(blocks0, abm.blocks, vs, bad, i)
        invariant log == old(log) + Erasures(vs[..i]) && Grown(old(log), log, 0, 0, i) && FreedTo(lists0, abm.lists, bad, i)
      {
        ghost var log1, lists1 := log, abm.lists;
        VictimAt(blocks0, ac, vs, i);
        ErasedOne(blocks0, abm.blocks, vs, bad, i);
        EraseVictim(vs[i], bad[i], i);
        FreedOne(lists0, lists1, abm.lists, bad, i);
        GrownByErase(old(log), log1, 0, 0, i, vs[i]);
        assert Erasures(vs[..i + 1]) == Erasures(vs[..i]) + [Erased(vs[i])];
      }
      AllErased(blocks0, abm.blocks, vs, bad);
      assert vs[..|vs|] == vs;
    }

    /** Read the victims' live subpages, compact them and write them elsewhere. */
    method Rewrite(vs: seq<nat>) returns (ok: bool, ghost switched: bool, ghost pages: nat)
      requires Valid() && VictimsOk(abm.blocks, ac, vs) && |vs| == |ac| == g.Punits() && Listed(abm.blocks, vs)
      requires forall i | 0 <= i < |vs| :: abm.blocks[vs[i]].status.Dirty? && |abm.blocks[vs[i]].pst| == g.subpages * g.pagesPerBlock
      modifies this, abm
      ensures ok <==> !OutOfBlocks(old(abm.blocks), old(abm.lists), g, old(Position()), vs)
      ensures ok ==> Valid() && Contents() == old(Contents()) && |mt| == |old(mt)|
      ensures ok ==> VictimsOk(abm.blocks, ac, vs) && Listed(abm.blocks, vs) && LiveLocs(abm.blocks, vs) == []
      ensures ok ==> Lost(old(abm.lists), abm.lists, g.Punits(), if switched then 1 else 0)
      ensures ok ==> Grown(old(log), log, pages, if switched then 1 else 0, 0)
      ensures ok ==> pages == PackedPages(|LiveLocs(old(abm.blocks), vs)|, g.subpages)
      ensures ok ==> Evolved(old(abm.blocks), abm.blocks) && Position() == PositionAfter(g, old(Position()), pages)
      ensures ok ==> EndsReached(g, old(Position()), pages) == if switched then 1 else 0
    {
      hide BlocksOk, ListsOk, CountersOk, MapInv, CursorOk, Logical, UnitsOk, VictimsOk, LiveLocs, UsedUp, FreeLen, Evolved, EndsReached, PositionAfter,
        Turns, Packed, Uniform, ReadCells, Listed, Cells, Tracks, Grown, RoundSize, Lost;
      switched, pages, ok := false, 0, true;
      LostNone(abm.lists, g.Punits());
      GrownNot(log);
      EvolvedRefl(abm.blocks);
      PositionBound(ac, turns, wp, abm.blocks, g, puid, pageOfs);
      NoPagesNoMove(g, Position());
      var reqs, nr := BuildReads(abm.blocks, flash, vs, g.pagesPerBlock, g.subpages);
      if nr == 0 { return; }
      var dst, nrWrites := WriteCompaction(reqs, g.subpages);
      GcSpace(abm.blocks, abm.units, g, flash, vs, reqs, nrWrites);
      var placed;
      ok, placed, switched := MapBack(dst, nrWrites, vs);
      pages := nrWrites;
      if !ok { return; }
      ProgramPages(placed);
    }

    /** A garbage collection changes no logical content.  It is skipped when some unit has no
        victim, and it fails exactly when its pages reach the end of the round and a unit has no
        free block.  One that completes has erased exactly the greedy victims and written their
        live subpages, packed, at the cursor; it gives every unit a free block, less one if it
        reached the end of the round. */
    method DoGc(bad: seq<bool>) returns (r: GcResult, ghost switched: bool, ghost pages: nat)
      requires Valid() && |bad| == g.Punits()
      modifies this, abm
      ensures r.Skipped? <==> exists u :: 0 <= u < |old(ac)| && !HasVictim(old(abm.lists), old(ac), u)
      ensures r.Skipped? ==> abm.blocks == old(abm.blocks) && abm.lists == old(abm.lists) && log == old(log) && ac == old(ac)
      ensures r.Skipped? ==> puid == old(puid) && pageOfs == old(pageOfs) && mt == old(mt) && flash == old(flash) && wp == old(wp)
      ensures r.Bug? <==> GcFails(old(abm.blocks), old(abm.lists), old(ac), g, old(Position()))
      ensures !r.Bug? ==> Valid() && Contents() == old(Contents()) && |mt| == |old(mt)|
      ensures r.Collected? ==> Gained(old(abm.lists), abm.lists, switched, bad)
      ensures r.Collected? ==> Grown(old(log), log, pages, if switched then 1 else 0, g.Punits())
      ensures r.Collected? ==> Reclaimed(old(abm.blocks), old(abm.lists), old(ac), g.SubpagesPerBlock(), bad, abm.blocks, log)
      ensures r.Collected? ==> pages == GcPages(old(abm.blocks), old(abm.lists), old(ac), g)
      ensures r.Collected? ==> Position() == PositionAfter(g, old(Position()), pages)
      ensures r.Collected? ==> EndsReached(g, old(Position()), pages) == if switched then 1 else 0
    {
      hide BlocksOk, ListsOk, CountersOk, MapInv, CursorOk, Logical, UnitsOk, LiveLocs, UsedUp, GcFails, AreVictims, FreeLen,
        Turns, Listed, HasVictim, Tracks, Grown, OutOfBlocks, RoundSize, Lost, Gained, Reclaimed, Evolved, ErasedTo, EndsReached, PositionAfter, Erasures, PackedPages;
      ActiveInRange(g, abm.blocks, wp, ac, turns, puid, g.subpages * pageOfs);
      var vs := SelectVictims();
      switched, pages := false, 0;
      if |vs| < g.Punits() {
        NoVictimsNoFailure(abm.blocks, abm.lists, ac, g, Position());
        return Skipped, false, 0;
      }
      VictimsListed(abm.blocks, abm.units, g, ac, vs);
      GcFailsIff(abm.blocks, abm.lists, ac, g, Position(), vs);
      VictimSeqIs(abm.blocks, abm.lists, ac, g.SubpagesPerBlock(), vs);
      hide VictimsOk, VictimSeq;
      var ok;
      ok, switched, pages := Rewrite(vs);
      if !ok { return Bug, switched, pages; }
      NothingLive(abm.blocks, vs);
      ghost var lists1, log1, blocks1 := abm.lists, log, abm.blocks;
      EraseVictims(vs, bad);
      ReclaimedIs(old(abm.blocks), old(abm.lists), old(ac), g.SubpagesPerBlock(), vs, bad, blocks1, abm.blocks, log1, log);
      GainedAfter(old(abm.lists), lists1, abm.lists, switched, bad);
      GrownTwice(old(log), log1, log, pages, if switched then 1 else 0, 0, 0, 0, |vs|);
      return Collected, switched, pages;
    }

    // ---- snapshots ------------------------------------------------------------------------------

    /** Give up one page: invalidate its subpages without programming them. */
    method SealPage(b: nat, ghost wp0: seq<nat>)
      requires Core() && Room(abm.blocks, wp, b, g.subpages) && GivenUp(abm.blocks, wp0, wp)
      requires wp[b] == g.subpages * pageOfs
      modifies this`wp, abm
      ensures Core() && wp == old(wp)[b := old(wp)[b] + g.subpages] && GivenUp(abm.blocks, wp0, wp)
      ensures SameShape(old(abm.blocks), abm.blocks)
      ensures forall u | 0 <= u < g.Punits() :: FreeLen(abm.lists, u) == FreeLen(old(abm.lists), u)
    {
      hide BlocksOk, ListsOk, CountersOk, MapInv, Relink, GivenUp, SameShape, InvalidateAt;
      ghost var blocks0 := abm.blocks;
      ShapeRefl(blocks0);
      for k := 0 to g.subpages
        invariant Core() && Room(abm.blocks, wp, b, g.subpages - k) && GivenUp(abm.blocks, wp0, wp)
        invariant wp == old(wp)[b := old(wp)[b] + k] && SameShape(blocks0, abm.blocks)
        invariant forall u | 0 <= u < g.Punits() :: FreeLen(abm.lists, u) == FreeLen(old(abm.lists), u)
      {
        ghost var now := abm.blocks;
        BlockOkAt(now, abm.units, g.Punits(), g.SubpagesPerBlock(), b);
        SealStep(now, mt, flash, wp, b);
        GiveUp(now, wp0, wp, b);
        InvalidateShape(now, Loc(b, wp[b]));
        ShapeTrans(blocks0, now, InvalidateAt(now, Loc(b, wp[b])));
        ShapeRoom(now, InvalidateAt(now, Loc(b, wp[b])), wp, b, g.subpages - k);
        abm.InvalidatePage(b, g.subpages * pageOfs + k);
        wp := wp[b := wp[b] + 1];
      }
    }

    /** Part way through giving up the round: the cursor has pages left, or it is back at the start. */
    ghost predicate Sealing(blocks0: seq<Block>, wp0: seq<nat>, lists0: ListHeads, more: bool)
      reads this, abm
    {
      && Core() && Wired() && GivenUp(abm.blocks, wp0, wp) && SameShape(blocks0, abm.blocks) && pageOfs < g.pagesPerBlock
      && (more ==> CursorOk(abm.blocks, wp, ac, turns, puid, g.subpages * pageOfs, g.subpages))
      && (!more ==> puid == 0 && pageOfs == 0 && CursorOk(abm.blocks, wp, ac, turns, 0, g.SubpagesPerBlock(), g.subpages))
      && forall u | 0 <= u < g.Punits() :: FreeLen(abm.lists, u) == FreeLen(lists0, u)
    }

    /** Give up the page under the cursor. */
    method SealNext(ghost blocks0: seq<Block>, ghost wp0: seq<nat>, ghost lists0: ListHeads) returns (more: bool)
      requires Sealing(blocks0, wp0, lists0, true)
      modifies this`puid, this`pageOfs, this`wp, abm
      ensures Sealing(blocks0, wp0, lists0, more) && old(puid) < g.Punits()
      ensures more ==> pageOfs > old(pageOfs) || (pageOfs == old(pageOfs) && puid == old(puid) + 1 < g.Punits())
    {
      hide BlocksOk, ListsOk, CountersOk, MapInv, CursorOk, UnitsOk, Turns, GivenUp, SameShape, Room, PointersOk, Logical, FreeLen;
      ghost var base := g.subpages * pageOfs;
      AtCursor(g, abm.blocks, abm.units, wp, ac, puid, base);
      var u := (puid % g.channels) * g.chips + puid / g.channels;
      var b := ac[u];
      MapPointers(abm.blocks, mt, flash, wp);
      PointerStep(abm.blocks, abm.units, wp, g, b, pageOfs);
      Advance(abm.blocks, wp, ac, turns, puid, base, g.subpages, u);
      ghost var blocks1 := abm.blocks;
      SealPage(b, wp0);
      ShapeTrans(blocks0, blocks1, abm.blocks);
      NextCursorFrame(g, blocks1, abm.blocks, wp, ac, turns, puid, pageOfs);
      more := true;
      if puid + 1 == g.Punits() {
        puid := 0;
        pageOfs := pageOfs + 1;
        if pageOfs == g.pagesPerBlock {
          pageOfs := 0;
          more := false;
        }
      } else {
        puid := puid + 1;
      }
    }

    /** Give up every page from the cursor to the end of the round, then record the tables.
        No subpage at or beyond the old cursor is live afterwards, no data is lost and no block
        is erased. */
    method StoreSnapshot() returns (table: Table, image: seq<BlockImage>)
      requires Valid()
      modifies this`puid, this`pageOfs, this`wp, abm
      ensures Core() && Contents() == old(Contents()) && table == mt
      ensures Sealed(abm.blocks, wp) && GivenUp(abm.blocks, old(wp), wp) && SameShape(old(abm.blocks), abm.blocks)
      ensures puid == 0 && pageOfs == 0
      ensures Recorded(image, abm.blocks) && Settled(image)
      ensures ImageOk(image, abm.units, g.SubpagesPerBlock())
      ensures forall u | 0 <= u < g.Punits() :: FreeLen(abm.lists, u) == FreeLen(old(abm.lists), u)
    {
      hide BlocksOk, ListsOk, CountersOk, MapInv, CursorOk, UnitsOk, Turns, GivenUp, SameShape, Sealed, Room, PointersOk, Logical, FreeLen;
      ghost var blocks0, wp0, lists0 := abm.blocks, wp, abm.lists;
      GaveUpNothing(abm.blocks, mt, flash, wp);
      ShapeRefl(blocks0);
      var more := true;
      while more
        invariant Sealing(blocks0, wp0, lists0, more)
        decreases if more then 1 else 0, g.pagesPerBlock - pageOfs, g.Punits() - puid
      {
        more := SealNext(blocks0, wp0, lists0);
      }
      SealedAtEnd(g, abm.blocks, abm.units, wp, ac, turns);
      table := mt;
      image := abm.Store();
      NonePrepared(abm.blocks, abm.nrFree, abm.nrPrepared, abm.nrClean, abm.nrDirty, abm.nrBad);
    }

    /** Restore the tables from a snapshot and start a new round on fresh active blocks.
        `w` is the write pointers the snapshot was taken with. */
    method LoadSnapshot(table: Table, image: seq<BlockImage>, ghost w: seq<nat>) returns (ok: bool)
      requires abm.Valid() && Wired() && |ac| == g.Punits()
      requires ImageOk(image, abm.units, g.SubpagesPerBlock()) && Settled(image)
      requires MapInv(ImageBlocks(image), table, flash, w) && Sealed(ImageBlocks(image), w)
      modifies this, abm
      ensures Core() && mt == table && flash == old(flash)
      ensures ok ==> Valid() && puid == 0 && pageOfs == 0
      ensures Contents() == Logical(table, old(flash))
      ensures ok <==> forall u | 0 <= u < g.Punits() :: FreeIn(image, u)
      ensures ok ==> Resumed(image, abm.blocks, ac) && log == []
    {
      hide BlocksOk, ListsOk, CountersOk, MapInv, CursorOk, UnitsOk, Turns, Sealed, PointersOk, Logical,
        ImageOk, RenewedTo, Activated, TurnsOk, Recorded, Settled, FreeIn, Tracks, Resumed, TookHeads, FreeLen;
      ghost var was := abm.blocks;
      ImageSize(image, was, abm.units, g);
      abm.Load(image);
      ghost var blocks0, lists0 := abm.blocks, abm.lists;
      LoadedRecords(image, was, blocks0, abm.units, g);
      LoadedInv(image, blocks0, table, flash, w);
      LoadedCounters(image, blocks0, abm.nrFree, abm.nrPrepared, abm.nrClean, abm.nrDirty, abm.nrBad);
      FreeImage(image, blocks0, lists0, g.Punits());
      mt := table;
      wp := w;
      ok := GetActiveBlocks();
      ActivateStep(blocks0, abm.blocks, mt, flash, wp);
      if ok {
        LoadedCursor(blocks0, abm.blocks, abm.units, w, ac, g);
        start, log := Alloc(ac, 0, 0, LoadedPages(blocks0, g)), [];
        LoadedMatches(blocks0, abm.units, w, g);
        ActiveNoDup(abm.blocks, w, ac, turns, 0, 0, g.subpages);
        TrackStart(g, ac, w, LoadedPages(blocks0, g));
        ResumedIs(image, blocks0, abm.blocks, ac);
        puid := 0;
        pageOfs := 0;
      }
    }
  }
}
