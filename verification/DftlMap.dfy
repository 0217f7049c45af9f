/** The demand-paged mapping table of DFTL against a flat table. */
module DftlMap {
  import opened Common
  import opened Lists

  datatype EntryState = PageNotMapped | PageValid | PageInvalid

  /** One mapping entry: its state and, when valid, a physical location. */
  datatype MapEntry = MapEntry(state: EntryState, location: int)

  /** DFTL_DIR_EMPTY, DFTL_DIR_FLASH, DFTL_DIR_CLEAN and DFTL_DIR_DIRTY. */
  datatype DirStatus = Empty | OnFlash | InSync | Modified

  /** A directory slot.  The in-memory copy `me` is kept after an eviction. */
  datatype DirSlot = DirSlot(status: DirStatus, addr: Option<int>, me: Option<seq<MapEntry>>, underLoad: bool)

  /** A flash page holding mapping entries: the magic number and slot id of its OOB, and the entries. */
  datatype MapPage = MapPage(magic: int, id: int, entries: seq<MapEntry>)

  const MAGIC := -2

  type MapFlash = map<int, MapPage>

  predicate Resident(s: DirSlot) { s.status.InSync? || s.status.Modified? }

  function Blank(n: nat): (s: seq<MapEntry>)
    ensures |s| == n && forall i | 0 <= i < n :: s[i].state == PageNotMapped
  {
    seq(n, _ => MapEntry(PageNotMapped, -1))
  }

  /** The flash copy at the slot's address is the slot's in-memory copy. */
  predicate Backed(s: DirSlot, id: nat, flash: MapFlash) {
    && s.addr.Some? && s.addr.value in flash && s.me.Some?
    && flash[s.addr.value] == MapPage(MAGIC, id, s.me.value)
  }

  predicate SlotOk(s: DirSlot, id: nat, flash: MapFlash, n: nat) {
    && (s.me.Some? ==> |s.me.value| == n)
    && (s.addr.Some? ==> s.addr.value in flash)
    && (s.underLoad ==> s.status.OnFlash?)
    && match s.status
       case Empty => s.me.None?
       case OnFlash => Backed(s, id, flash)
       case InSync => Backed(s, id, flash)
       case Modified => s.me.Some?
  }

  ghost predicate DirOk(dir: seq<DirSlot>, flash: MapFlash, n: nat) {
    forall i | 0 <= i < |dir| :: SlotOk(dir[i], i, flash, n)
  }

  /** What a slot stands for: the memory copy, the flash copy, or nothing mapped. */
  function View(s: DirSlot, flash: MapFlash, n: nat): seq<MapEntry> {
    match s.status
    case Empty => Blank(n)
    case OnFlash => if s.addr.Some? && s.addr.value in flash then flash[s.addr.value].entries else Blank(n)
    case InSync => if s.me.Some? then s.me.value else Blank(n)
    case Modified => if s.me.Some? then s.me.value else Blank(n)
  }

  /** The flat table, slot by slot. */
  function Flat(dir: seq<DirSlot>, flash: MapFlash, n: nat): seq<seq<MapEntry>> {
    seq(|dir|, i requires 0 <= i < |dir| => View(dir[i], flash, n))
  }

  /** Exactly the resident slots are on the LRU list or being evicted, each once. */
  ghost predicate LruOk(dir: seq<DirSlot>, lru: seq<nat>, evicting: seq<nat>) {
    && NoDup(lru) && NoDup(evicting)
    && (forall i: nat | i in lru :: i !in evicting)
    && forall i: nat :: i in lru || i in evicting <==> i < |dir| && Resident(dir[i])
  }

  // ---- steps on values --------------------------------------------------------------------

  lemma {:induction false} FlatUpdate(dir: seq<DirSlot>, flash: MapFlash, n: nat, i: nat, s: DirSlot)
    requires i < |dir|
    ensures Flat(dir[i := s], flash, n) == Flat(dir, flash, n)[i := View(s, flash, n)]
  {
  }

  /** A CLEAN slot's memory copy is its flash copy. */
  lemma {:induction false} CleanMatchesFlash(dir: seq<DirSlot>, flash: MapFlash, n: nat, i: nat)
    requires DirOk(dir, flash, n) && i < |dir| && dir[i].status.InSync?
    ensures dir[i].addr.Some? && dir[i].addr.value in flash && dir[i].me.Some?
    ensures flash[dir[i].addr.value].entries == dir[i].me.value == View(dir[i], flash, n)
  {
    assert SlotOk(dir[i], i, flash, n);
  }

  /** Replacing one slot by one with the same view changes nothing for the flat table. */
  lemma {:induction false} SameView(dir: seq<DirSlot>, flash: MapFlash, n: nat, i: nat, s: DirSlot)
    requires DirOk(dir, flash, n) && i < |dir| && SlotOk(s, i, flash, n) && View(s, flash, n) == View(dir[i], flash, n)
    ensures DirOk(dir[i := s], flash, n) && Flat(dir[i := s], flash, n) == Flat(dir, flash, n)
  {
    FlatUpdate(dir, flash, n, i, s);
  }

  /** Programming a fresh flash page disturbs no slot. */
  lemma {:induction false} FreshPage(dir: seq<DirSlot>, flash: MapFlash, n: nat, a: int, page: MapPage)
    requires DirOk(dir, flash, n) && a !in flash
    ensures DirOk(dir, flash[a := page], n) && Flat(dir, flash[a := page], n) == Flat(dir, flash, n)
  {
    forall i | 0 <= i < |dir| ensures SlotOk(dir[i], i, flash[a := page], n)
                              ensures View(dir[i], flash[a := page], n) == View(dir[i], flash, n)
    {
      assert SlotOk(dir[i], i, flash, n);
    }
  }

  /** A slot becomes resident at the tail of the LRU list. */
  lemma {:induction false} LruEnter(dir: seq<DirSlot>, lru: seq<nat>, evicting: seq<nat>, i: nat, s: DirSlot)
    requires LruOk(dir, lru, evicting) && i < |dir| && !Resident(dir[i]) && Resident(s)
    ensures LruOk(dir[i := s], lru + [i], evicting)
  {
    assert i !in lru && i !in evicting;
    assert forall x: nat :: x in lru + [i] <==> x in lru || x == i;
  }

  /** The head of the LRU list is taken for eviction. */
  lemma {:induction false} LruTake(dir: seq<DirSlot>, lru: seq<nat>, evicting: seq<nat>)
    requires LruOk(dir, lru, evicting) && lru != []
    ensures LruOk(dir, lru[1..], evicting + [lru[0]])
  {
    assert lru == [lru[0]] + lru[1..];
    assert lru[0] !in lru[1..];
    assert forall x: nat :: x in lru <==> x == lru[0] || x in lru[1..];
    assert forall x: nat :: x in evicting + [lru[0]] <==> x in evicting || x == lru[0];
  }

  /** An evicted slot is no longer resident. */
  lemma {:induction false} LruLeave(dir: seq<DirSlot>, lru: seq<nat>, evicting: seq<nat>, s: DirSlot)
    requires LruOk(dir, lru, evicting) && evicting != [] && evicting[0] < |dir| && !Resident(s)
    ensures LruOk(dir[evicting[0] := s], lru, evicting[1..])
  {
    var i := evicting[0];
    assert evicting == [i] + evicting[1..];
    assert i !in evicting[1..];
    assert forall x: nat :: x in evicting <==> x == i || x in evicting[1..];
  }

  /** Moving a slot to the tail keeps the list. */
  lemma {:induction false} LruTouch(dir: seq<DirSlot>, lru: seq<nat>, evicting: seq<nat>, i: nat)
    requires LruOk(dir, lru, evicting) && i in lru
    ensures LruOk(dir, Remove(lru, i) + [i], evicting) && |Remove(lru, i) + [i]| == |lru|
  {
    RemoveOk(lru, i);
    assert forall x: nat :: x in Remove(lru, i) + [i] <==> x in lru;
  }

  class DftlMap {
    const n: nat            // entries per directory slot
    const max: nat          // slots that may stay in memory
    var dir: seq<DirSlot>
    var lru: seq<nat>
    var nrCached: nat
    var flash: MapFlash     // the flash pages that hold mapping entries
    ghost var evicting: seq<nat>  // victims chosen but not finished

    ghost predicate Valid()
      reads this
    {
      && n > 0
      && DirOk(dir, flash, n)
      && LruOk(dir, lru, evicting)
      && nrCached == |lru|
    }

    /** The flat table this cache stands for. */
    ghost function Table(): seq<seq<MapEntry>>
      reads this
    {
      Flat(dir, flash, n)
    }

    constructor (slots: nat, entries: nat, cached: nat)
      requires entries > 0
      ensures Valid() && evicting == [] && n == entries && max == cached && nrCached == 0
      ensures Table() == seq(slots, _ => Blank(entries))
    {
      n, max := entries, cached;
      dir := seq(slots, _ => DirSlot(Empty, None, None, false));
      lru, nrCached, flash, evicting := [], 0, map[], [];
    }

    predicate InTable(lpa: nat)
      reads this
    {
      n > 0 && lpa / n < |dir|
    }

    /** The entry of a resident slot; nothing when the slot is not in memory. */
    method GetEntry(lpa: nat) returns (r: Option<MapEntry>)
      requires Valid() && InTable(lpa)
      ensures r.Some? <==> Resident(dir[lpa / n])
      ensures r.Some? ==> lpa % n < |Table()[lpa / n]| && r.value == Table()[lpa / n][lpa % n]
    {
      var s := dir[lpa / n];
      assert SlotOk(s, lpa / n, flash, n);
      if s.status.InSync? || s.status.Modified? {
        r := Some(s.me.value[lpa % n]);
      } else {
        r := None;
      }
    }

    /** Write an entry of a listed slot: the flat table changes in that entry and nowhere else. */
    method SetEntry(lpa: nat, e: MapEntry)
      requires Valid() && InTable(lpa) && lpa / n in lru
      modifies this`dir, this`lru
      ensures Valid() && |dir| == |old(dir)| && evicting == old(evicting)
      ensures lpa % n < |old(Table())[lpa / n]|
      ensures Table() == old(Table())[lpa / n := old(Table())[lpa / n][lpa % n := e]]
      ensures lru == Remove(old(lru), lpa / n) + [lpa / n]
      ensures forall i | 0 <= i < |dir| :: Resident(dir[i]) <==> Resident(old(dir)[i])
      ensures forall i | 0 <= i < |dir| :: dir[i].underLoad == old(dir)[i].underLoad
    {
      Store(lpa, e);
      var i := lpa / n;
      LruTouch(dir, lru, evicting, i);
      lru := Remove(lru, i) + [i];
    }

    /** Put an entry into the memory copy, which an evicted slot keeps, and mark the slot modified.
        The flat table changes in that entry and nowhere else, but an evicted slot is then in memory
        without being on the LRU list. */
    method Store(lpa: nat, e: MapEntry)
      requires Valid() && InTable(lpa) && dir[lpa / n].me.Some?
      modifies this`dir
      ensures |dir| == |old(dir)| && Resident(dir[lpa / n])
      ensures Valid() <==> Resident(old(dir)[lpa / n])
      ensures lpa % n < |old(Table())[lpa / n]|
      ensures Table() == old(Table())[lpa / n := old(Table())[lpa / n][lpa % n := e]]
      ensures forall i | 0 <= i < |dir| && i != lpa / n :: dir[i] == old(dir)[i]
      ensures dir[lpa / n].underLoad == old(dir)[lpa / n].underLoad
    {
      var i := lpa / n;
      var s := dir[i];
      assert SlotOk(s, i, flash, n);
      var s' := s.(me := Some(s.me.value[lpa % n := e]), status := Modified);
      FlatUpdate(dir, flash, n, i, s');
      if Resident(s) { LruSame(dir, lru, evicting, i, s'); } else { Unlisted(dir, lru, evicting, i, s'); }
      dir := dir[i := s'];
    }

    /** Trim one entry of a slot with a memory copy.  The LRU list does not change, so the cache
        stays in order exactly when the slot was in memory. */
    method InvalidateEntry(lpa: nat)
      requires Valid() && InTable(lpa) && dir[lpa / n].me.Some?
      modifies this`dir
      ensures |dir| == |old(dir)| && (Valid() <==> Resident(old(dir)[lpa / n]))
      ensures lpa % n < |old(Table())[lpa / n]|
      ensures var was := old(Table())[lpa / n];
              Table() == old(Table())[lpa / n := was[lpa % n := was[lpa % n].(state := PageInvalid)]]
    {
      var s := dir[lpa / n];
      assert SlotOk(s, lpa / n, flash, n);
      Store(lpa, s.me.value[lpa % n].(state := PageInvalid));
    }

    /** Is the LPA's slot out of memory? */
    method CheckEntry(lpa: nat) returns (missing: bool)
      requires InTable(lpa)
      ensures missing <==> !Resident(dir[lpa / n])
    {
      var s := dir[lpa / n];
      missing := s.status.Empty? || s.status.OnFlash?;
    }

    /** Start bringing a slot in.  A slot never written is created in memory; one on flash is
        reported for loading the first time only. */
    method MissingDirPrepare(lpa: nat) returns (r: Option<nat>)
      requires Valid() && InTable(lpa) && !Resident(dir[lpa / n])
      modifies this`dir, this`lru, this`nrCached
      ensures Valid() && |dir| == |old(dir)| && Table() == old(Table())
      ensures var s := old(dir)[lpa / n];
              && (r == if s.status.OnFlash? && !s.underLoad then Some(lpa / n) else None)
              && (dir == if s.status.Empty? then old(dir)[lpa / n := DirSlot(Modified, s.addr, Some(Blank(n)), s.underLoad)]
                         else old(dir)[lpa / n := s.(underLoad := true)])
              && nrCached == old(nrCached) + (if s.status.Empty? then 1 else 0)
              && lru == old(lru) + (if s.status.Empty? then [lpa / n] else [])
    {
      var i := lpa / n;
      var s := dir[i];
      assert SlotOk(s, i, flash, n);
      if s.status.Empty? {
        var s' := s.(status := Modified, me := Some(Blank(n)));
        SameView(dir, flash, n, i, s');
        LruEnter(dir, lru, evicting, i, s');
        dir := dir[i := s'];
        nrCached := nrCached + 1;
        lru := lru + [i];
        return None;
      }
      var s' := s.(underLoad := true);
      SameView(dir, flash, n, i, s');
      LruSame(dir, lru, evicting, i, s');
      if s.underLoad {
        assert dir[i := s'] == dir;
        return None;
      }
      dir := dir[i := s'];
      return Some(i);
    }

    /** The read of a slot's flash page came back.  A page without the magic number leaves the
        memory copy that the eviction kept. */
    method FinishLoad(i: nat)
      requires Valid() && i < |dir| && dir[i].underLoad
      modifies this`dir, this`lru, this`nrCached
      ensures Valid() && |dir| == |old(dir)| && Table() == old(Table())
      ensures dir == old(dir)[i := old(dir)[i].(status := InSync, underLoad := false)]
      ensures nrCached == old(nrCached) + 1 && lru == old(lru) + [i]
    {
      var s := dir[i];
      assert SlotOk(s, i, flash, n);
      var page := flash[s.addr.value];
      var s' := s.(status := InSync, underLoad := false, me := if page.magic == MAGIC then Some(page.entries) else s.me);
      SameView(dir, flash, n, i, s');
      LruEnter(dir, lru, evicting, i, s');
      dir := dir[i := s'];
      nrCached := nrCached + 1;
      lru := lru + [i];
    }

    /** Choose the least recently used slot when too many are in memory, and program a modified
        one to the fresh page `a`. */
    method PrepareEviction(a: int) returns (r: Option<nat>)
      requires Valid() && max > 0 && a !in flash
      modifies this`lru, this`nrCached, this`flash, this`evicting
      ensures Valid() && Table() == old(Table())
      ensures r.None? <==> old(nrCached) < max
      ensures r.None? ==> evicting == old(evicting) && nrCached == old(nrCached) && flash == old(flash) && lru == old(lru)
      ensures r.Some? ==> (
                && nrCached == old(nrCached) - 1 && r.value < |dir| && Resident(dir[r.value])
                && old(lru) == [r.value] + lru && evicting == old(evicting) + [r.value]
                && (dir[r.value].status.Modified? ==> dir[r.value].me.Some? && flash == old(flash)[a := MapPage(MAGIC, r.value, dir[r.value].me.value)])
                && (!dir[r.value].status.Modified? ==> flash == old(flash)))
    {
      if nrCached < max { return None; }
      var i := lru[0];
      assert i in lru;
      LruTake(dir, lru, evicting);
      assert SlotOk(dir[i], i, flash, n);
      if !dir[i].status.InSync? {
        FreshPage(dir, flash, n, a, MapPage(MAGIC, i, dir[i].me.value));
        flash := flash[a := MapPage(MAGIC, i, dir[i].me.value)];
      }
      lru := lru[1..];
      nrCached := nrCached - 1;
      evicting := evicting + [i];
      r := Some(i);
    }

    /** The eviction is done: the slot lives on flash, a modified one at its new page. */
    method FinishEviction(i: nat, a: int)
      requires Valid() && evicting != [] && i == evicting[0] && i < |dir| && Resident(dir[i])
      requires dir[i].status.Modified? ==> dir[i].me.Some? && a in flash && flash[a] == MapPage(MAGIC, i, dir[i].me.value)
      modifies this`dir, this`evicting
      ensures Valid() && |dir| == |old(dir)| && Table() == old(Table())
      ensures evicting == old(evicting)[1..]
      ensures dir == old(dir)[i := dir[i]] && dir[i].status.OnFlash? && !dir[i].underLoad
    {
      var s := dir[i];
      assert SlotOk(s, i, flash, n);
      var s' := s.(addr := if s.status.InSync? then s.addr else Some(a), status := OnFlash);
      SameView(dir, flash, n, i, s');
      LruLeave(dir, lru, evicting, s');
      dir := dir[i := s'];
      evicting := evicting[1..];
    }
  }

  /** A slot that comes into memory without being listed breaks the list. */
  lemma {:induction false} Unlisted(dir: seq<DirSlot>, lru: seq<nat>, evicting: seq<nat>, i: nat, s: DirSlot)
    requires LruOk(dir, lru, evicting) && i < |dir| && Resident(s) && !Resident(dir[i])
    ensures !LruOk(dir[i := s], lru, evicting)
  {
    assert i !in lru && i !in evicting && dir[i := s][i] == s;
  }

  lemma {:induction false} LruSame(dir: seq<DirSlot>, lru: seq<nat>, evicting: seq<nat>, i: nat, s: DirSlot)
    requires LruOk(dir, lru, evicting) && i < |dir| && (Resident(s) <==> Resident(dir[i]))
    ensures LruOk(dir[i := s], lru, evicting)
  {
  }
}
