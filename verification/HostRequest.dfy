/** A host request from its sectors to the flash: split, check for collection, map, program. */
module HostRequest {
  import opened Common
  import opened Nand
  import opened Lists
  import opened Geometry
  import opened BlockManager
  import opened Mapping
  import opened Cursor
  import opened Victims
  import opened Balance
  import opened Allocation
  import opened PageFtl
  import opened Host
  import Split = RequestSplit

  // ---- flash requests of one mapping unit each -------------------------------------------------

  /** A flash request: the LPA it writes, the page's data, and whether it was made a
      read-modify-write.  Only these get a new page; any other goes where its LPA is mapped. */
  datatype Unit = Unit(lpa: nat, data: Data, rmw: bool)

  function PageOf(x: Unit): (s: seq<Slot>)
    ensures |s| == 1
  {
    [Slot(x.lpa, x.data)]
  }

  /** What the requests mean to the host. */
  function StoreUnits(m: map<int, Data>, units: seq<Unit>): map<int, Data> {
    if units == [] then m
    else StoreUnits(m, units[..|units| - 1])[units[|units| - 1].lpa := units[|units| - 1].data]
  }

  function NrRmw(units: seq<Unit>): nat {
    if units == [] then 0 else NrRmw(units[..|units| - 1]) + if units[|units| - 1].rmw then 1 else 0
  }

  function RmwLpas(units: seq<Unit>): set<int> {
    set i | 0 <= i < |units| && units[i].rmw :: units[i].lpa
  }

  /** A read-modify-write needs an address in range, any other request an LPA that has been written. */
  predicate Reachable(m: map<int, Data>, nrLpas: nat, x: Unit) {
    if x.rmw then x.lpa < nrLpas else x.lpa in m
  }

  lemma {:induction false} PushUnit(m: map<int, Data>, units: seq<Unit>, x: Unit)
    ensures StoreUnits(m, units + [x]) == StoreUnits(m, units)[x.lpa := x.data]
    ensures NrRmw(units + [x]) == NrRmw(units) + if x.rmw then 1 else 0
    ensures m - RmwLpas(units + [x]) == m - RmwLpas(units) - if x.rmw then {x.lpa} else {}
  {
    var all := units + [x];
    assert all[..|units|] == units;
    assert RmwLpas(all) == RmwLpas(units) + if x.rmw then {x.lpa} else {} by {
      assert all[|units|] == x;
      forall l | l in RmwLpas(units) ensures l in RmwLpas(all) {
        var i :| 0 <= i < |units| && units[i].rmw && units[i].lpa == l;
        assert all[i] == units[i];
      }
    }
  }

  lemma {:induction false} NoUnits(m: map<int, Data>)
    ensures StoreUnits(m, []) == m && NrRmw([]) == 0 && m - RmwLpas([]) == m
  {
    assert RmwLpas([]) == {};
  }

  /** The map after the requests mapped so far: `vflash` is the flash once they are programmed. */
  ghost predicate Mapped(ftl: PageFtl, m: map<int, Data>, units: seq<Unit>, mapped: seq<(Loc, seq<Slot>)>, vflash: Flash)
    reads ftl, ftl.abm
  {
    && ftl.Pending(vflash) && ftl.flash.Keys <= vflash.Keys && vflash == ProgramAll(ftl.flash, mapped)
    && Logical(ftl.mt, vflash) == StoreUnits(m, units) && ftl.Contents() == m - RmwLpas(units)
  }

  /** Position, log and free blocks after n pages and c ends of a round. */
  ghost predicate Advanced(ftl: PageFtl, pos0: nat, log0: seq<Event>, lists0: ListHeads, n: nat, c: nat)
    reads ftl, ftl.abm
  {
    && AtPosition(ftl.g, pos0, n, ftl.Position(), c)
    && Lost(lists0, ftl.abm.lists, ftl.g.Punits(), c)
    && Grown(log0, ftl.log, n, c, 0)
  }

  lemma {:induction false} MappedIff(blocks: seq<Block>, mt: Table, flash: Flash, wp: seq<nat>, l: nat)
    requires MapInv(blocks, mt, flash, wp)
    ensures l in Logical(mt, flash) <==> l < |mt| && mt[l].status.Mapped?
  {
    if l < |mt| { assert EntryOk(blocks, mt, flash, wp, l); }
  }

  /** A page that holds one LPA is written in place. */
  lemma {:induction false} OverwriteUnit(blocks: seq<Block>, mt: Table, flash: Flash, wp: seq<nat>, x: Unit)
    requires MapInv(blocks, mt, flash, wp) && x.lpa < |mt| && mt[x.lpa].status.Mapped?
    ensures var f := Program(flash, mt[x.lpa].loc, PageOf(x));
            MapInv(blocks, mt, f, wp) && Logical(mt, f) == Logical(mt, flash)[x.lpa := x.data]
  {
    var loc := mt[x.lpa].loc;
    assert EntryOk(blocks, mt, flash, wp, x.lpa);
    assert Loc(loc.blk, loc.off + 0) == loc;
    InPlaceStep(blocks, mt, flash, wp, loc, PageOf(x));
  }

  lemma {:induction false} StoreOne(m: map<int, Data>, x: Unit)
    ensures Store(m, PageOf(x)) == m[x.lpa := x.data] && LpasOf(PageOf(x)) == {x.lpa as int} && LpasOf([]) == {}
    ensures PageOf(x)[..0] == []
  {
    assert PageOf(x)[1..] == [];
    assert PageOf(x)[0].lpa in LpasOf(PageOf(x));
  }

  lemma {:induction false} OneSlotOk(x: Unit, nrLpas: nat)
    ensures SlotsOk(PageOf(x), nrLpas) <==> x.lpa < nrLpas
    ensures x.lpa >= nrLpas ==> FirstBad(PageOf(x), nrLpas) == 0
  {
    assert PageOf(x)[0].lpa == x.lpa;
  }

  /** Find the page of one request: a new one for a read-modify-write, otherwise the one its LPA has. */
  method MapUnit(ftl: PageFtl, x: Unit, mapped0: seq<(Loc, seq<Slot>)>, ghost m: map<int, Data>, ghost units: seq<Unit>,
                 ghost vflash0: Flash, ghost pos0: nat, ghost log0: seq<Event>, ghost lists0: ListHeads, ghost c0: nat)
    returns (ok: bool, mapped: seq<(Loc, seq<Slot>)>, ghost vflash: Flash, ghost c: nat)
    requires ftl.g.subpages == 1 && Mapped(ftl, m, units, mapped0, vflash0) && Advanced(ftl, pos0, log0, lists0, NrRmw(units), c0)
    modifies ftl`ac, ftl`puid, ftl`pageOfs, ftl`mt, ftl`wp, ftl`log, ftl.abm
    ensures |ftl.mt| == |old(ftl.mt)| && ftl.g.Valid()
    ensures ok ==> Mapped(ftl, m, units + [x], mapped, vflash) && Advanced(ftl, pos0, log0, lists0, NrRmw(units + [x]), c)
    ensures ok <==> Reachable(StoreUnits(m, units), |ftl.mt|, x) && Enough(lists0, ftl.g, pos0, NrRmw(units + [x]))
    ensures !ok ==> ftl.Contents() == m - RmwLpas(units)
  {
    hide BlocksOk, ListsOk, CountersOk, MapInv, CursorOk, Logical, Program, Store, SlotsOk, UnitsOk, Tracks, LpasOf, StoreUnits, NrRmw, RmwLpas,
      Turns, Enough, Grown, Lost, RoundSize, FreeLen, AtPosition, ProgramAll, FirstBad, PageOf;
    mapped, vflash, c := mapped0, vflash0, c0;
    ghost var n := NrRmw(units);
    PushUnit(m, units, x);
    StoreOne(StoreUnits(m, units), x);
    OneSlotOk(x, |ftl.mt|);
    MappedIff(ftl.abm.blocks, ftl.mt, vflash, ftl.wp, x.lpa);
    PositionBound(ftl.ac, ftl.turns, ftl.wp, ftl.abm.blocks, ftl.g, ftl.puid, ftl.pageOfs);
    LastIff(ftl.g, ftl.puid, ftl.pageOfs);
    ghost var puid0, page0, last, log1, lists1 := ftl.puid, ftl.pageOfs, ftl.LastOfRound(), ftl.log, ftl.abm.lists;
    EnoughNext(lists0, lists1, ftl.g, pos0, n, ftl.Position(), c, last);
    if x.rmw {
      var r, loc := ftl.MapPage(PageOf(x), vflash, ftl.flash);
      ok := r.Written?;
      if !ok { return; }
      NextPage(ftl.g, pos0, n, c, puid0, page0, ftl.puid, ftl.pageOfs, last);
      GrownByPage(log0, log1, ftl.log, n, c, 0, Handed(loc.blk, page0), ftl.ac, last);
      LostMore(lists0, lists1, ftl.abm.lists, ftl.g.Punits(), c, last);
      ProgramAdds(vflash, loc, PageOf(x));
      ProgramMore(ftl.flash, mapped, loc, PageOf(x));
      mapped := mapped + [(loc, PageOf(x))];
      vflash := Program(vflash, loc, PageOf(x));
      if last { c := c + 1; }
    } else {
      ok := x.lpa < |ftl.mt| && ftl.mt[x.lpa].status.Mapped?;
      if !ok { return; }
      var loc := ftl.mt[x.lpa].loc;
      OverwriteUnit(ftl.abm.blocks, ftl.mt, vflash, ftl.wp, x);
      ProgramAdds(vflash, loc, PageOf(x));
      ProgramMore(ftl.flash, mapped, loc, PageOf(x));
      mapped := mapped + [(loc, PageOf(x))];
      vflash := Program(vflash, loc, PageOf(x));
    }
  }

  /** Every request is reachable when its turn comes. */
  ghost predicate AllReachable(m: map<int, Data>, nrLpas: nat, units: seq<Unit>) {
    forall i | 0 <= i < |units| :: ReachableAt(m, nrLpas, units, i)
  }

  predicate ReachableAt(m: map<int, Data>, nrLpas: nat, units: seq<Unit>, i: nat)
    requires i < |units|
  {
    Reachable(StoreUnits(m, units[..i]), nrLpas, units[i])
  }

  /** Request n is the first that is not reachable or finds no free block. */
  ghost predicate StopsAt(m: map<int, Data>, f: Frozen, g: Geometry, units: seq<Unit>, n: nat)
    requires g.Valid()
  {
    && n < |units| && Enough(f.lists, g, f.pos, NrRmw(units[..n])) && (forall i | 0 <= i < n :: ReachableAt(m, f.nrLpas, units, i))
    && !(ReachableAt(m, f.nrLpas, units, n) && Enough(f.lists, g, f.pos, NrRmw(units[..n + 1])))
  }

  lemma {:induction false} RmwGrows(units: seq<Unit>, n: nat)
    requires n <= |units|
    ensures NrRmw(units[..n]) <= NrRmw(units)
    decreases |units|
  {
    if n < |units| {
      RmwGrows(units[..|units| - 1], n);
      assert units[..|units| - 1][..n] == units[..n];
    } else {
      assert units[..n] == units;
    }
  }

  /** The write path: find the page of every request, then program them all.  It succeeds exactly
      when every request is reachable and there are free blocks for the ends of a round that the
      read-modify-writes reach.  When it fails nothing is programmed, and the LPAs of the
      read-modify-writes before lose their data. */
  method MakeRwReq(ftl: PageFtl, units: seq<Unit>) returns (ok: bool, done: nat)
    requires ftl.Valid() && ftl.g.subpages == 1
    modifies ftl, ftl.abm
    ensures ok <==> AllReachable(old(ftl.Contents()), |old(ftl.mt)|, units) && Enough(old(ftl.abm.lists), ftl.g, old(ftl.Position()), NrRmw(units))
    ensures |ftl.mt| == |old(ftl.mt)| && done <= |units| && (ok <==> done == |units|)
    ensures !ok ==> ftl.flash == old(ftl.flash) && ftl.Contents() == old(ftl.Contents()) - RmwLpas(units[..done])
    ensures !ok ==> StopsAt(old(ftl.Contents()), old(Freeze(ftl)), ftl.g, units, done)
    ensures ok ==> ftl.Valid() && ftl.Contents() == StoreUnits(old(ftl.Contents()), units)
    ensures ok ==> ftl.Position() == PositionAfter(ftl.g, old(ftl.Position()), NrRmw(units))
    ensures ok ==> var c := EndsReached(ftl.g, old(ftl.Position()), NrRmw(units));
                   Grown(old(ftl.log), ftl.log, NrRmw(units), c, 0) && Lost(old(ftl.abm.lists), ftl.abm.lists, ftl.g.Punits(), c)
  {
    hide BlocksOk, ListsOk, CountersOk, MapInv, CursorOk, Logical, Program, UnitsOk, Tracks, StoreUnits, NrRmw, RmwLpas,
      Turns, Enough, Grown, Lost, RoundSize, FreeLen, AtPosition, ProgramAll, EndsReached, PositionAfter, Reachable;
    ghost var m, pos0, lists0, log0, c := ftl.Contents(), ftl.Position(), ftl.abm.lists, ftl.log, 0;
    ghost var vflash := ftl.flash;
    PositionBound(ftl.ac, ftl.turns, ftl.wp, ftl.abm.blocks, ftl.g, ftl.puid, ftl.pageOfs);
    BeginRound(ftl.g, pos0);
    LostNone(lists0, ftl.g.Punits());
    GrownNot(log0);
    ProgramNone(ftl.flash);
    NoUnits(m);
    assert units[..0] == [];
    var mapped: seq<(Loc, seq<Slot>)> := [];
    done := 0;
    while done < |units|
      invariant done <= |units| && |ftl.mt| == |old(ftl.mt)| && ftl.flash == old(ftl.flash)
      invariant Mapped(ftl, m, units[..done], mapped, vflash) && Advanced(ftl, pos0, log0, lists0, NrRmw(units[..done]), c)
      invariant forall i | 0 <= i < done :: ReachableAt(m, |ftl.mt|, units, i)
    {
      assert units[..done + 1] == units[..done] + [units[done]];
      RmwGrows(units, done + 1);
      EnoughNow(lists0, ftl.abm.lists, ftl.g, pos0, NrRmw(units[..done]), ftl.Position(), c);
      ok, mapped, vflash, c := MapUnit(ftl, units[done], mapped, m, units[..done], vflash, pos0, log0, lists0, c);
      if !ok {
        EnoughFewer(lists0, ftl.g, pos0, NrRmw(units[..done + 1]), NrRmw(units));
        assert !ReachableAt(m, |ftl.mt|, units, done) || !Enough(lists0, ftl.g, pos0, NrRmw(units));
        return;
      }
      done := done + 1;
    }
    assert units[..done] == units;
    EndPages(ftl.g, pos0, NrRmw(units), ftl.Position(), c);
    EnoughNow(lists0, ftl.abm.lists, ftl.g, pos0, NrRmw(units), ftl.Position(), c);
    ok := true;
    ftl.ProgramPages(mapped);
  }

  // ---- kernel pages ----------------------------------------------------------------------------

  const KPAGE := Split.KPAGE_SIZE

  /** Kernel page k of a flash page. */
  function Cut(d: Data, k: nat): Data {
    if (k + 1) * KPAGE <= |d| then d[k * KPAGE..(k + 1) * KPAGE] else []
  }

  /** Kernel page k of a page written over `was`: the host's buffer, or what a read of the old page puts
      into the hole, or what the padding buffer happens to hold. */
  function Piece(was: Option<Data>, slot: Split.Slot<Data>, pad: Data, k: nat): Data {
    match slot
    case Data(d) => d
    case Hole => if was.Some? then Cut(was.value, k) else pad
  }

  function Merge(was: Option<Data>, slots: seq<Split.Slot<Data>>, pad: Data): Data {
    if slots == [] then []
    else Merge(was, slots[..|slots| - 1], pad) + Piece(was, slots[|slots| - 1], pad, |slots| - 1)
  }

  ghost predicate PiecesOk(was: Option<Data>, slots: seq<Split.Slot<Data>>, pad: Data) {
    forall k | 0 <= k < |slots| :: |Piece(was, slots[k], pad, k)| == KPAGE
  }

  /** Merging and cutting are inverse. */
  lemma {:induction false} MergeCuts(was: Option<Data>, slots: seq<Split.Slot<Data>>, pad: Data)
    requires PiecesOk(was, slots, pad)
    ensures |Merge(was, slots, pad)| == |slots| * KPAGE
    ensures forall k | 0 <= k < |slots| :: Cut(Merge(was, slots, pad), k) == Piece(was, slots[k], pad, k)
    decreases |slots|
  {
    if slots != [] {
      var n := |slots| - 1;
      var front, last := Merge(was, slots[..n], pad), Piece(was, slots[n], pad, n);
      MergeCuts(was, slots[..n], pad);
      assert |last| == KPAGE;
      var all := front + last;
      hide Cut, Piece;
      forall k | 0 <= k < |slots| ensures Cut(all, k) == Piece(was, slots[k], pad, k) {
        CutAppend(front, last, n, k);
        if k < n { assert slots[..n][k] == slots[k]; }
      }
    }
  }

  lemma {:induction false} CutAppend(front: Data, last: Data, n: nat, k: nat)
    requires |front| == n * KPAGE && |last| == KPAGE && k <= n
    ensures Cut(front + last, k) == if k < n then Cut(front, k) else last
  {
  }

  lemma {:induction false} MergeFull(was: Option<Data>, slots: seq<Split.Slot<Data>>, pad: Data)
    requires Split.Hole !in slots
    ensures Merge(was, slots, pad) == Merge(None, slots, pad)
    decreases |slots|
  {
    if slots != [] {
      assert slots[|slots| - 1] in slots;
      MergeFull(was, slots[..|slots| - 1], pad);
    }
  }

  function Get(m: map<int, Data>, l: nat): Option<Data> { if l in m then Some(m[l]) else None }

  /** The buffers and holes of a mapping unit. */
  function SlotsAt(pool: Split.Pool, first: nat, last: nat, bvec: seq<Data>, unit: nat): (s: seq<Split.Slot<Data>>)
    ensures |s| == pool.w
  {
    seq(pool.w, f requires 0 <= f < pool.w => Split.SlotAt(first, last, bvec, pool.Page(unit) + f))
  }

  /** The flash request for a mapping unit. */
  function UnitFor(m: map<int, Data>, pool: Split.Pool, first: nat, last: nat, bvec: seq<Data>, pad: Data, unit: nat): Unit {
    Unit(unit, Merge(Get(m, unit), SlotsAt(pool, first, last, bvec, unit), pad), Split.Partly(pool, first, last, unit))
  }

  function UnitsFor(m: map<int, Data>, pool: Split.Pool, first: nat, last: nat, bvec: seq<Data>, pad: Data, a: nat, b: nat): (s: seq<Unit>)
    requires a <= b
    ensures |s| == b - a
  {
    seq(b - a, i requires 0 <= i < b - a => UnitFor(m, pool, first, last, bvec, pad, a + i))
  }

  /** What a request of the range needs: written LPAs where it writes whole mapping units, addresses in
      range where it writes parts. */
  ghost predicate RangeReachable(m: map<int, Data>, nrLpas: nat, pool: Split.Pool, first: nat, last: nat, a: nat, b: nat) {
    forall l | a <= l < b :: if Split.Partly(pool, first, last, l) then l < nrLpas else l in m
  }

  lemma {:induction false} RequestSlots(pool: Split.Pool, first: nat, last: nat, bvec: seq<Data>, unit: nat, b: nat, q: Split.WriteReq<Data>)
    requires pool.Valid() && pool.c == 1 && unit < b && first < last && |bvec| == last - first
    requires Split.RequestOk(pool, first, last, bvec, unit, b, q)
    ensures |q.lpas| == 1 && q.lpas[0] == unit && q.slots == SlotsAt(pool, first, last, bvec, unit)
    ensures q.rmw <==> Split.Partly(pool, first, last, unit)
    ensures q.rmw <==> pool.InPlaceRmw() && Split.Hole in q.slots
  {
    Split.RmwIffPartlyWritten(pool, first, last, bvec, unit, b, q);
  }

  /** A mapping unit of one kernel page inside the range has no hole. */
  lemma {:induction false} SmallUnitFull(pool: Split.Pool, off: nat, size: nat, bvec: seq<Data>, unit: nat)
    requires pool.Valid() && pool.c == 1 && pool.w == 1
    requires Split.FirstUnit(pool, off) <= unit < Split.EndUnit(pool, off, size)
    requires |bvec| == Split.LastPage(off, size) - Split.FirstPage(off)
    ensures Split.Hole !in SlotsAt(pool, Split.FirstPage(off), Split.LastPage(off, size), bvec, unit)
  {
    var first, last := Split.FirstPage(off), Split.LastPage(off, size);
    assert Split.SECTORS_PER_PAGE * pool.w == Split.SECTORS_PER_PAGE && pool.Page(unit) == unit * 1 == unit;
    assert first <= unit < last;
    assert SlotsAt(pool, first, last, bvec, unit)[0] == Split.SlotAt(first, last, bvec, pool.Page(unit) + 0);
  }

  /** Build the flash requests.  A read-modify-write gets the rest of its page from the flash. */
  method BuildUnits(ftl: PageFtl, pool: Split.Pool, off: nat, size: nat, bvec: seq<Data>, pad: Data, reqs: seq<Split.WriteReq<Data>>)
    returns (units: seq<Unit>)
    requires ftl.Core() && pool.Valid() && pool.c == 1
    requires Split.FirstPage(off) < Split.LastPage(off, size) && |bvec| == Split.LastPage(off, size) - Split.FirstPage(off)
    requires |reqs| == Split.EndUnit(pool, off, size) - Split.FirstUnit(pool, off)
    requires Split.RequestsOk(pool, Split.FirstPage(off), Split.LastPage(off, size), bvec,
                              Split.FirstUnit(pool, off), Split.EndUnit(pool, off, size), reqs)
    ensures units == UnitsFor(ftl.Contents(), pool, Split.FirstPage(off), Split.LastPage(off, size), bvec, pad,
                              Split.FirstUnit(pool, off), Split.EndUnit(pool, off, size))
  {
    hide MapInv, Logical, Merge, SlotsAt, Split.FirstUnit, Split.EndUnit, Split.FirstPage, Split.LastPage, Split.RequestOk, Split.Partly;
    ghost var m, first, last := ftl.Contents(), Split.FirstPage(off), Split.LastPage(off, size);
    ghost var a, b := Split.FirstUnit(pool, off), Split.EndUnit(pool, off, size);
    units := [];
    for i := 0 to |reqs|
      invariant |units| == i && forall k | 0 <= k < i :: units[k] == UnitFor(m, pool, first, last, bvec, pad, a + k)
    {
      var q := reqs[i];
      assert Split.RequestOk(pool, first, last, bvec, a + i * pool.c, b, q);
      RequestSlots(pool, first, last, bvec, a + i, b, q);
      var lpa, was := q.lpas[0] as nat, None;
      if q.rmw {
        was := ftl.ReadLpa(lpa);
      } else {
        if !pool.InPlaceRmw() { SmallUnitFull(pool, off, size, bvec, a + i); }
        MergeFull(Get(m, lpa), q.slots, pad);
      }
      units := units + [Unit(lpa, Merge(was, q.slots, pad), q.rmw)];
    }
  }

  // ---- the requests of a range -----------------------------------------------------------------

  /** Storing the first k units of the range sets exactly these LPAs. */
  lemma {:induction false} StoreRange(m: map<int, Data>, pool: Split.Pool, first: nat, last: nat, bvec: seq<Data>, pad: Data, a: nat, b: nat, k: nat, l: nat)
    requires a <= b && k <= b - a
    ensures var m' := StoreUnits(m, UnitsFor(m, pool, first, last, bvec, pad, a, b)[..k]);
            if a <= l < a + k then l in m' && m'[l] == UnitFor(m, pool, first, last, bvec, pad, l).data
            else (l in m' <==> l in m) && (l in m ==> m'[l] == m[l])
  {
    hide Merge, SlotsAt, Split.Partly;
    var units := UnitsFor(m, pool, first, last, bvec, pad, a, b);
    if k == 0 {
      assert units[..0] == [];
    } else {
      assert units[..k] == units[..k - 1] + [units[k - 1]];
      assert units[k - 1] == UnitFor(m, pool, first, last, bvec, pad, a + (k - 1));
      PushUnit(m, units[..k - 1], units[k - 1]);
      StoreRange(m, pool, first, last, bvec, pad, a, b, k - 1, l);
    }
  }

  lemma {:induction false} RangeReachableIff(m: map<int, Data>, nrLpas: nat, pool: Split.Pool, first: nat, last: nat, bvec: seq<Data>, pad: Data, a: nat, b: nat)
    requires a <= b
    ensures AllReachable(m, nrLpas, UnitsFor(m, pool, first, last, bvec, pad, a, b)) <==> RangeReachable(m, nrLpas, pool, first, last, a, b)
  {
    hide StoreUnits, Merge, SlotsAt, Split.Partly;
    var units := UnitsFor(m, pool, first, last, bvec, pad, a, b);
    forall i | 0 <= i < |units|
      ensures ReachableAt(m, nrLpas, units, i) <==> if Split.Partly(pool, first, last, a + i) then a + i < nrLpas else a + i in m
    {
      StoreRange(m, pool, first, last, bvec, pad, a, b, i, a + i);
      assert units[i] == UnitFor(m, pool, first, last, bvec, pad, a + i);
    }
    if AllReachable(m, nrLpas, units) {
      forall l | a <= l < b ensures if Split.Partly(pool, first, last, l) then l < nrLpas else l in m {
        assert ReachableAt(m, nrLpas, units, l - a);
      }
    }
  }

  /** At most two requests of a range allocate, those of its ends. */
  lemma {:induction false} RangeRmw(m: map<int, Data>, pool: Split.Pool, off: nat, size: nat, bvec: seq<Data>, pad: Data, k: nat)
    requires pool.Valid() && Split.FirstPage(off) < Split.LastPage(off, size)
    ensures var a, b := Split.FirstUnit(pool, off), Split.EndUnit(pool, off, size);
            var first, last := Split.FirstPage(off), Split.LastPage(off, size);
            a < b && (0 < k <= b - a ==>
              NrRmw(UnitsFor(m, pool, first, last, bvec, pad, a, b)[..k]) ==
              (if Split.Partly(pool, first, last, a) then 1 else 0) + if a + 1 < b && k == b - a && Split.Partly(pool, first, last, b - 1) then 1 else 0)
  {
    Split.EndsTouched(pool, off, size);
    var a, b := Split.FirstUnit(pool, off), Split.EndUnit(pool, off, size);
    var first, last := Split.FirstPage(off), Split.LastPage(off, size);
    if 0 < k <= b - a {
      var units := UnitsFor(m, pool, first, last, bvec, pad, a, b);
      hide Merge, SlotsAt, Split.Partly, Split.FirstUnit, Split.EndUnit, Split.FirstPage, Split.LastPage;
      assert units[..k][..k - 1] == units[..k - 1];
      assert units[..k][k - 1] == units[k - 1] == UnitFor(m, pool, first, last, bvec, pad, a + (k - 1));
      if k == 1 {
        assert units[..0] == [];
      } else {
        RangeRmw(m, pool, off, size, bvec, pad, k - 1);
        if k < b - a { Split.OnlyEndsArePartly(pool, off, size, a + (k - 1)); }
      }
    }
  }

  // ---- what the host reads ---------------------------------------------------------------------

  /** Kernel page pg of the device. */
  function Read(m: map<int, Data>, w: nat, pg: nat): Option<Data>
    requires w > 0
  {
    if pg / w in m then Some(Cut(m[pg / w], pg % w)) else None
  }

  ghost predicate Whole(m: map<int, Data>, w: nat) {
    forall l | l in m :: |m[l]| == w * KPAGE
  }

  ghost predicate Buffers(bvec: seq<Data>, pad: Data) {
    |pad| == KPAGE && forall i | 0 <= i < |bvec| :: |bvec[i]| == KPAGE
  }

  lemma {:induction false} PieceLength(was: Option<Data>, slot: Split.Slot<Data>, pad: Data, k: nat, w: nat)
    requires k < w && |pad| == KPAGE && (slot.Data? ==> |slot.data| == KPAGE) && (was.Some? ==> |was.value| == w * KPAGE)
    ensures |Piece(was, slot, pad, k)| == KPAGE
  {
  }

  /** The data of one mapping unit, kernel page by kernel page. */
  lemma {:induction false} UnitReads(m: map<int, Data>, pool: Split.Pool, first: nat, last: nat, bvec: seq<Data>, pad: Data, unit: nat)
    requires Whole(m, pool.w) && Buffers(bvec, pad) && pool.w > 0
    ensures var d := UnitFor(m, pool, first, last, bvec, pad, unit).data;
            && |d| == pool.w * KPAGE
            && forall k | 0 <= k < pool.w :: Cut(d, k) == Piece(Get(m, unit), Split.SlotAt(first, last, bvec, pool.Page(unit) + k), pad, k)
  {
    hide Cut, Split.Pool.Page;
    var slots, was := SlotsAt(pool, first, last, bvec, unit), Get(m, unit);
    forall k | 0 <= k < |slots|
      ensures |Piece(was, slots[k], pad, k)| == KPAGE && slots[k] == Split.SlotAt(first, last, bvec, pool.Page(unit) + k)
    {
      assert slots[k] == Split.SlotAt(first, last, bvec, pool.Page(unit) + k);
      PieceLength(was, slots[k], pad, k, pool.w);
    }
    MergeCuts(was, slots, pad);
  }

  /** After a range is stored, its kernel pages read as the host's buffers and every other kernel page as
      before; only pages of a mapping unit never written before read as padding. */
  lemma {:induction false} RangeReads(m: map<int, Data>, pool: Split.Pool, off: nat, size: nat, bvec: seq<Data>, pad: Data, pg: nat)
    requires pool.Valid() && Split.FirstPage(off) < Split.LastPage(off, size) && |bvec| == Split.LastPage(off, size) - Split.FirstPage(off)
    requires Whole(m, pool.w) && Buffers(bvec, pad)
    ensures var a, b := Split.FirstUnit(pool, off), Split.EndUnit(pool, off, size);
            var first, last := Split.FirstPage(off), Split.LastPage(off, size);
            a < b && Reads(m, StoreUnits(m, UnitsFor(m, pool, first, last, bvec, pad, a, b)), pool.w, first, last, bvec, pad, a, b, pg)
  {
    Split.EndsTouched(pool, off, size);
    Split.PagesWithinUnits(pool, off, size);
    var a, b := Split.FirstUnit(pool, off), Split.EndUnit(pool, off, size);
    var first, last := Split.FirstPage(off), Split.LastPage(off, size);
    var units, l, k := UnitsFor(m, pool, first, last, bvec, pad, a, b), pg / pool.w, pg % pool.w;
    hide Split.FirstUnit, Split.EndUnit, Split.FirstPage, Split.LastPage, StoreUnits, Cut, Merge, Split.Pool.Page;
    assert units[..b - a] == units;
    StoreRange(m, pool, first, last, bvec, pad, a, b, b - a, l);
    UnitReads(m, pool, first, last, bvec, pad, l);
    if first <= pg < last { Split.UnitOfPage(pool, a, b, pg); }
    PageSplit(pool, pg);
  }

  lemma {:induction false} PageSplit(pool: Split.Pool, pg: nat)
    requires pool.w > 0
    ensures pool.Page(pg / pool.w) + pg % pool.w == pg
  {
  }

  /** What kernel page pg reads as, before (m) and after (m') the range is written. */
  ghost predicate Reads(m: map<int, Data>, m': map<int, Data>, w: nat, first: nat, last: nat, bvec: seq<Data>, pad: Data, a: nat, b: nat, pg: nat)
    requires w > 0 && |bvec| == last - first
  {
    Read(m', w, pg) == if first <= pg < last then Some(bvec[pg - first])
                       else if a <= pg / w < b && pg / w !in m then Some(pad)
                       else Read(m, w, pg)
  }

  lemma {:induction false} RangeWhole(m: map<int, Data>, pool: Split.Pool, first: nat, last: nat, bvec: seq<Data>, pad: Data, a: nat, b: nat, k: nat)
    requires Whole(m, pool.w) && Buffers(bvec, pad) && pool.w > 0 && a <= b && k <= b - a
    ensures Whole(StoreUnits(m, UnitsFor(m, pool, first, last, bvec, pad, a, b)[..k]), pool.w)
  {
    hide Merge, SlotsAt, Split.Partly;
    var units := UnitsFor(m, pool, first, last, bvec, pad, a, b);
    if k == 0 {
      assert units[..0] == [];
    } else {
      assert units[..k] == units[..k - 1] + [units[k - 1]];
      assert units[k - 1] == UnitFor(m, pool, first, last, bvec, pad, a + (k - 1));
      PushUnit(m, units[..k - 1], units[k - 1]);
      UnitReads(m, pool, first, last, bvec, pad, a + (k - 1));
      RangeWhole(m, pool, first, last, bvec, pad, a, b, k - 1);
    }
  }

  /** At most two pages run out of blocks only when a round is one page, each of them ends one, and
      there is one free block. */
  lemma {:induction false} TwoPages(g: Geometry, pos: nat, n: nat, f: nat)
    requires g.Valid() && pos < RoundSize(g) && n <= 2 && f > 0
    ensures EndsReached(g, pos, n) <= f <==> !(RoundSize(g) == 1 && f == 1 && n == 2)
  {
    RoundPositive(g);
    if RoundSize(g) > 1 { DivBelow(pos + n, 2, RoundSize(g)); }
  }

  datatype Reply = Malformed | Stopped | Failed | Done

  /** The range can be split into requests. */
  ghost predicate Splits(pool: Split.Pool, off: nat, size: nat, bvec: seq<Data>)
    requires pool.Valid()
  {
    && Split.FirstPage(off) < Split.LastPage(off, size) && |bvec| == Split.LastPage(off, size) - Split.FirstPage(off)
    && Split.EndUnit(pool, off, size) - Split.FirstUnit(pool, off) <= Split.MAX_REQUESTS * pool.c
  }

  /** The state and the range decide whether the write succeeds. */
  ghost predicate Succeeds(g: Geometry, at: Frozen, pool: Split.Pool, off: nat, size: nat)
    requires g.Valid() && pool.Valid() && Split.FirstUnit(pool, off) < Split.EndUnit(pool, off, size)
  {
    var a, b, first, last := Split.FirstUnit(pool, off), Split.EndUnit(pool, off, size), Split.FirstPage(off), Split.LastPage(off, size);
    && RangeReachable(at.contents, at.nrLpas, pool, first, last, a, b)
    && Enough(at.lists, g, at.pos, Split.RmwCount(pool, first, last, a, b))
  }

  /** Only LPAs the range writes in part can have lost their data. */
  ghost predicate KeptBut(m: map<int, Data>, m': map<int, Data>, pool: Split.Pool, first: nat, last: nat, a: nat, b: nat) {
    && m'.Keys <= m.Keys
    && forall l | l in m :: (l in m' && m'[l] == m[l]) || (l !in m' && a <= l < b && Split.Partly(pool, first, last, l))
  }

  /** A failed write has lost the read-modify-writes before the first request that fails, and nothing else. */
  ghost predicate LosesAt(g: Geometry, at: Frozen, pool: Split.Pool, off: nat, size: nat, bvec: seq<Data>, pad: Data, m: map<int, Data>)
    requires g.Valid() && pool.Valid() && Split.FirstUnit(pool, off) < Split.EndUnit(pool, off, size)
  {
    var units := UnitsFor(at.contents, pool, Split.FirstPage(off), Split.LastPage(off, size), bvec, pad,
                          Split.FirstUnit(pool, off), Split.EndUnit(pool, off, size));
    exists n: nat :: StopsAt(at.contents, at, g, units, n) && m == at.contents - RmwLpas(units[..n])
  }

  lemma {:induction false} FailKeeps(m: map<int, Data>, pool: Split.Pool, first: nat, last: nat, bvec: seq<Data>, pad: Data, a: nat, b: nat, n: nat)
    requires a <= b && n <= b - a
    ensures KeptBut(m, m - RmwLpas(UnitsFor(m, pool, first, last, bvec, pad, a, b)[..n]), pool, first, last, a, b)
  {
    hide Merge, SlotsAt, Split.Partly;
    var units := UnitsFor(m, pool, first, last, bvec, pad, a, b);
    forall l | l in RmwLpas(units[..n]) ensures a <= l < b && Split.Partly(pool, first, last, l) {
      var i :| 0 <= i < n && units[..n][i].rmw && units[..n][i].lpa == l;
      assert units[i] == UnitFor(m, pool, first, last, bvec, pad, a + i);
    }
  }

  /** A host write of the sectors [off, off + size) to a device whose mapping unit is a page: split, check for
      collection, map and program.  The state after the check decides the outcome; after a
      success every kernel page reads as it should.  Since at most two of its requests allocate, a
      write of reachable units fails without bad blocks only on a device with one-page rounds. */
  method WriteSectors(ftl: PageFtl, pool: Split.Pool, off: nat, size: nat, bvec: seq<Data>, pad: Data, bad: seq<seq<bool>>, ghost f: nat)
    returns (r: Reply, ghost f': nat, ghost trace: seq<Frozen>)
    requires ftl.Valid() && ftl.g.subpages == 1 && pool.Valid() && pool.c == 1
    requires |bad| == 10 && forall i | 0 <= i < |bad| :: |bad[i]| == ftl.g.Punits()
    modifies ftl, ftl.abm
    ensures r.Malformed? <==> !Splits(pool, off, size, bvec)
    ensures r.Malformed? ==> Freeze(ftl) == old(Freeze(ftl))
    ensures !r.Malformed? ==> Split.FirstUnit(pool, off) < Split.EndUnit(pool, off, size)
    ensures r.Stopped? ==> CheckFails(ftl.g, old(Freeze(ftl)), bad, trace)
    ensures !r.Malformed? && !r.Stopped? ==> (
              && Checked(ftl.g, old(Freeze(ftl)), bad, trace)
              && var at := trace[|trace| - 1];
                 && at.contents == old(ftl.Contents()) && at.nrLpas == |old(ftl.mt)|
                 && (r.Done? <==> Succeeds(ftl.g, at, pool, off, size)))
    ensures !r.Malformed? && !old(Pressed(ftl)) ==> !r.Stopped? && f' == f && trace == [old(Freeze(ftl))]
    ensures r.Done? ==> ftl.Valid() && |bvec| == Split.LastPage(off, size) - Split.FirstPage(off)
    ensures r.Failed? ==> LosesAt(ftl.g, trace[|trace| - 1], pool, off, size, bvec, pad, ftl.Contents())
    ensures r.Failed? ==> KeptBut(old(ftl.Contents()), ftl.Contents(), pool, Split.FirstPage(off), Split.LastPage(off, size),
                                  Split.FirstUnit(pool, off), Split.EndUnit(pool, off, size))
    ensures r.Done? && Whole(old(ftl.Contents()), pool.w) && Buffers(bvec, pad) ==>
              && Whole(ftl.Contents(), pool.w)
              && forall pg: nat :: Reads(old(ftl.Contents()), ftl.Contents(), pool.w, Split.FirstPage(off), Split.LastPage(off, size), bvec, pad,
                                         Split.FirstUnit(pool, off), Split.EndUnit(pool, off, size), pg)
    ensures (!r.Malformed? && f > 0 && (forall i | 0 <= i < |bad| :: NoBad(bad[i])) && Balanced(old(ftl.abm.lists), ftl.g.Punits(), f)) ==> (
              var a, b, first, last := Split.FirstUnit(pool, off), Split.EndUnit(pool, off, size), Split.FirstPage(off), Split.LastPage(off, size);
              && !r.Stopped? && f <= f' && Balanced(trace[|trace| - 1].lists, ftl.g.Punits(), f')
              && (r.Done? <==>
                    && RangeReachable(old(ftl.Contents()), |old(ftl.mt)|, pool, first, last, a, b)
                    && !(RoundSize(ftl.g) == 1 && f' == 1 && Split.RmwCount(pool, first, last, a, b) == 2)))
  {
    hide BlocksOk, ListsOk, CountersOk, MapInv, CursorOk, Logical, UnitsOk, Tracks, StoreUnits, NrRmw, RmwLpas, Turns, Enough, Grown, Lost,
      RoundSize, FreeLen, EndsReached, PositionAfter, Count, PressedAt, Checking, Collects, ErasedCount, NoBad, Balanced, Split.FirstUnit, Split.EndUnit, Split.FirstPage,
      Split.LastPage, Split.RequestsOk, RangeReachable, AllReachable, UnitsFor, Whole, Reads, Split.RmwCount, Buffers, KeptBut, StopsAt;
    f', trace := f, [];
    var split := Split.SplitWrite(pool, off, size, bvec);
    if split.Bug? { return Malformed, f', trace; }
    var ok, pressed;
    ok, pressed, f', trace := CheckOndemandGc(ftl, bad, f);
    ghost var at := Freeze(ftl);
    if !ok { return Stopped, f', trace; }
    var units := BuildUnits(ftl, pool, off, size, bvec, pad, split.reqs);
    ghost var m, n, pos := ftl.Contents(), NrRmw(units), ftl.Position();
    UnitsFacts(m, |ftl.mt|, pool, off, size, bvec, pad, units);
    PositionBound(ftl.ac, ftl.turns, ftl.wp, ftl.abm.blocks, ftl.g, ftl.puid, ftl.pageOfs);
    var done;
    ok, done := MakeRwReq(ftl, units);
    FailKeeps(m, pool, Split.FirstPage(off), Split.LastPage(off, size), bvec, pad, Split.FirstUnit(pool, off), Split.EndUnit(pool, off, size), done);
    if f > 0 && (forall i | 0 <= i < |bad| :: NoBad(bad[i])) && Balanced(old(ftl.abm.lists), ftl.g.Punits(), f) {
      EnoughLevel(at.lists, ftl.g, pos, n, f');
      TwoPages(ftl.g, pos, n, f');
    }
    r := if ok then Done else Failed;
    assert !ok ==> StopsAt(m, at, ftl.g, units, done);
  }

  /** The requests built for a range: when they are reachable, how many allocate, and what they store. */
  lemma {:induction false} UnitsFacts(m: map<int, Data>, nrLpas: nat, pool: Split.Pool, off: nat, size: nat, bvec: seq<Data>, pad: Data, units: seq<Unit>)
    requires pool.Valid() && Splits(pool, off, size, bvec) && Split.FirstUnit(pool, off) < Split.EndUnit(pool, off, size)
    requires units == UnitsFor(m, pool, Split.FirstPage(off), Split.LastPage(off, size), bvec, pad, Split.FirstUnit(pool, off), Split.EndUnit(pool, off, size))
    ensures var a, b, first, last := Split.FirstUnit(pool, off), Split.EndUnit(pool, off, size), Split.FirstPage(off), Split.LastPage(off, size);
            && (AllReachable(m, nrLpas, units) <==> RangeReachable(m, nrLpas, pool, first, last, a, b))
            && NrRmw(units) == Split.RmwCount(pool, first, last, a, b) <= 2
            && (Whole(m, pool.w) && Buffers(bvec, pad) ==>
                  && Whole(StoreUnits(m, units), pool.w)
                  && forall pg: nat :: Reads(m, StoreUnits(m, units), pool.w, first, last, bvec, pad, a, b, pg))
  {
    hide Split.FirstUnit, Split.EndUnit, Split.FirstPage, Split.LastPage, StoreUnits, NrRmw, AllReachable, RangeReachable, Split.Partly, UnitsFor,
      Whole, Reads, Buffers;
    var a, b, first, last := Split.FirstUnit(pool, off), Split.EndUnit(pool, off, size), Split.FirstPage(off), Split.LastPage(off, size);
    RangeReachableIff(m, nrLpas, pool, first, last, bvec, pad, a, b);
    RangeRmw(m, pool, off, size, bvec, pad, b - a);
    assert units[..b - a] == units;
    if Whole(m, pool.w) && Buffers(bvec, pad) {
      RangeWhole(m, pool, first, last, bvec, pad, a, b, b - a);
      forall pg: nat ensures Reads(m, StoreUnits(m, units), pool.w, first, last, bvec, pad, a, b, pg) {
        RangeReads(m, pool, off, size, bvec, pad, pg);
      }
    }
  }

  // ---- a write that fails for lack of blocks ---------------------------------------------------

  lemma {:induction false} NotPressed(ftl: PageFtl, f: nat)
    requires ftl.Valid() && Balanced(ftl.abm.lists, ftl.g.Punits(), f) && f * 100 >= 3 * ftl.g.blocksPerChip
    ensures !Pressed(ftl)
  {
    var g := ftl.g;
    BlockTotal(ftl.abm.blocks, ftl.abm.units, g);
    FreeCount(ftl.abm.blocks, ftl.abm.lists, g.Punits(), f);
    hide *;
    Scaled(g.Punits(), f, g.blocksPerChip);
    assert !Pressed(ftl) by { PressedIs(ftl); }
  }

  lemma {:induction false} Scaled(p: nat, f: nat, n: nat)
    requires f * 100 >= 3 * n
    ensures p * f * 100 >= 3 * (p * n)
  {
    MulLe(3 * n, f * 100, p);
    assert (f * 100) * p == p * f * 100 && (3 * n) * p == 3 * (p * n);
  }

  /** A write from the middle of one two-page unit to the middle of the next. */
  lemma {:induction false} TwoHalves(bvec: seq<Data>)
    requires |bvec| == 2
    ensures var pool, g := Split.Pool(2, 1), Geometry(1, 1, 2, 1, 1);
            && Split.FirstPage(8) == 1 && Split.LastPage(8, 16) == 3 && Split.FirstUnit(pool, 8) == 0 && Split.EndUnit(pool, 8, 16) == 2
            && Split.RmwCount(pool, 1, 3, 0, 2) == 2 && Splits(pool, 8, 16, bvec) && RoundSize(g) == 1 && g.Punits() == 1 && g.SubpagesPerSsd() == 2
            && RangeReachable(map[], 2, pool, 1, 3, 0, 2)
  {
    var pool := Split.Pool(2, 1);
    assert pool.Page(0) == 0 && pool.Page(1) == 2;
    assert Split.Partly(pool, 1, 3, 0) && Split.Partly(pool, 1, 3, 1);
  }

  /** The first write to a new device of one unit with two one-page blocks: it is reachable and fails. */
  method OnePageRoundsFail(bvec: seq<Data>, pad: Data) returns (r: Reply, ghost reachable: bool)
    requires |bvec| == 2
    ensures r == Failed && reachable
  {
    hide BlocksOk, ListsOk, CountersOk, MapInv, CursorOk, Logical, UnitsOk, Tracks, Turns, Enough, RoundSize, FreeLen, Count, PressedAt, Checking, Collects, ErasedCount, Balanced,
      Split.FirstUnit, Split.EndUnit, Split.FirstPage, Split.LastPage, RangeReachable, Whole, Reads, Split.RmwCount, Buffers, Succeeds, Splits;
    var g := Geometry(1, 1, 2, 1, 1);
    var pool := Split.Pool(2, 1);
    TwoHalves(bvec);
    var ftl := new PageFtl(g);
    NotPressed(ftl, 1);
    reachable := RangeReachable(ftl.Contents(), |ftl.mt|, pool, 1, 3, 0, 2);
    ghost var f', trace;
    r, f', trace := WriteSectors(ftl, pool, 8, 16, bvec, pad, seq(10, _ => [false]), 1);
  }

  // ---- trim ------------------------------------------------------------------------------------

  /** A host trim goes LPA by LPA, so the part of its range inside the logical space is trimmed. */
  method TrimRequest(ftl: PageFtl, lpa: nat, len: nat)
    requires ftl.Valid()
    modifies ftl, ftl.abm
    ensures ftl.Valid() && |ftl.mt| == |old(ftl.mt)| && ftl.Contents() == old(ftl.Contents()) - Span(lpa, lpa + len)
    ensures ftl.log == old(ftl.log) && forall u | 0 <= u < ftl.g.Punits() :: FreeLen(ftl.abm.lists, u) == FreeLen(old(ftl.abm.lists), u)
  {
    hide BlocksOk, ListsOk, CountersOk, MapInv, CursorOk, UnitsOk, Tracks, Turns, FreeLen, Logical;
    ghost var m := ftl.Contents();
    assert m - Span(lpa, lpa + 0) == m;
    for i := 0 to len
      invariant ftl.Valid() && |ftl.mt| == |old(ftl.mt)| && ftl.Contents() == m - Span(lpa, lpa + i)
      invariant ftl.log == old(ftl.log) && forall u | 0 <= u < ftl.g.Punits() :: FreeLen(ftl.abm.lists, u) == FreeLen(old(ftl.abm.lists), u)
    {
      BeyondUnmapped(ftl.mt, ftl.flash, lpa + i);
      var refused := ftl.InvalidateLpa(lpa + i, 1);
      assert m - Span(lpa, lpa + i + 1) == m - Span(lpa, lpa + i) - Span(lpa + i, lpa + i + 1);
      assert refused ==> m - Span(lpa, lpa + i) - Span(lpa + i, lpa + i + 1) == m - Span(lpa, lpa + i);
    }
  }

  lemma {:induction false} BeyondUnmapped(mt: Table, flash: Flash, l: nat)
    ensures l >= |mt| ==> l !in Logical(mt, flash)
  {
  }
}
