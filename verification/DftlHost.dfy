/** Serving a request through DFTL: load what is missing, forward, evict. */
module DftlHost {
  import opened Common
  import opened DftlMap

  ghost predicate NoLoads(dir: seq<DirSlot>) {
    forall i | 0 <= i < |dir| :: !dir[i].underLoad
  }

  /** The slots of the request's LPAs, one per LPA. */
  function Needed(lpa: nat, len: nat, n: nat): seq<nat>
    requires n > 0
  {
    seq(len, k requires 0 <= k < len => (lpa + k) / n)
  }

  predicate Within(need: seq<nat>, size: nat) {
    forall k | 0 <= k < |need| :: need[k] < size
  }

  /** Bookkeeping while loads are being started, after the first i LPAs. */
  ghost predicate Starting(dir0: seq<DirSlot>, dir: seq<DirSlot>, rr: seq<nat>, need: seq<nat>, i: nat) {
    && |dir| == |dir0| && NoDup(rr) && i <= |need| && Within(need, |dir|)
    && (forall s: nat :: s in rr <==> s < |dir| && dir[s].underLoad)
    && (forall s: nat | s < |dir| :: dir0[s].status.OnFlash? <==> dir[s].status.OnFlash?)
    && (forall s: nat | s in rr :: s in need)
    && forall k | 0 <= k < i :: Resident(dir[need[k]]) || dir[need[k]].underLoad
  }

  lemma {:induction false} StartCreate(dir0: seq<DirSlot>, dir: seq<DirSlot>, rr: seq<nat>, need: seq<nat>, i: nat, slot: DirSlot)
    requires Starting(dir0, dir, rr, need, i) && i < |need|
    requires dir[need[i]].status.Empty? && Resident(slot) && slot.underLoad == dir[need[i]].underLoad
    ensures Starting(dir0, dir[need[i] := slot], rr, need, i + 1)
  {
  }

  lemma {:induction false} StartLoad(dir0: seq<DirSlot>, dir: seq<DirSlot>, rr: seq<nat>, need: seq<nat>, i: nat)
    requires Starting(dir0, dir, rr, need, i) && i < |need|
    requires dir[need[i]].status.OnFlash? && !dir[need[i]].underLoad
    ensures Starting(dir0, dir[need[i] := dir[need[i]].(underLoad := true)], rr + [need[i]], need, i + 1)
  {
    var s := need[i];
    assert s !in rr && s in need;
    assert forall x: nat :: x in rr + [s] <==> x in rr || x == s;
  }

  /** Start loading every slot of the request that is not in memory. */
  method StartLoads(m: DftlMap, lpa: nat, len: nat) returns (rr: seq<nat>)
    requires m.Valid() && m.evicting == [] && NoLoads(m.dir) && Within(Needed(lpa, len, m.n), |m.dir|)
    modifies m`dir, m`lru, m`nrCached
    ensures m.Valid() && m.Table() == old(m.Table())
    ensures Starting(old(m.dir), m.dir, rr, Needed(lpa, len, m.n), len) && m.nrCached + |rr| <= old(m.nrCached) + len
  {
    hide DirOk, LruOk, Flat;
    ghost var need := Needed(lpa, len, m.n);
    rr := [];
    for i := 0 to len
      invariant m.Valid() && m.Table() == old(m.Table())
      invariant Starting(old(m.dir), m.dir, rr, need, i) && m.nrCached + |rr| <= old(m.nrCached) + i
    {
      ghost var dir1 := m.dir;
      assert need[i] == (lpa + i) / m.n;
      var missing := m.CheckEntry(lpa + i);
      if !missing { continue; }
      var r := m.MissingDirPrepare(lpa + i);
      if dir1[need[i]].status.Empty? {
        StartCreate(old(m.dir), dir1, rr, need, i, m.dir[need[i]]);
      } else if r.Some? {
        StartLoad(old(m.dir), dir1, rr, need, i);
      } else {
        assert m.dir == dir1;
      }
      if r.Some? { rr := rr + [r.value]; }
    }
  }

  /** Bookkeeping while loads finish: rr[j..] are still loading, everything else requested is in. */
  ghost predicate Finishing(dir: seq<DirSlot>, rr: seq<nat>, j: nat, need: seq<nat>) {
    && j <= |rr| && NoDup(rr) && Within(need, |dir|)
    && (forall s: nat :: s in rr[j..] <==> s < |dir| && dir[s].underLoad)
    && forall k | 0 <= k < |need| :: Resident(dir[need[k]]) || dir[need[k]].underLoad
  }

  lemma {:induction false} FinishOne(dir: seq<DirSlot>, rr: seq<nat>, j: nat, need: seq<nat>)
    requires Finishing(dir, rr, j, need) && j < |rr|
    ensures rr[j] < |dir| && dir[rr[j]].underLoad
    ensures Finishing(dir[rr[j] := dir[rr[j]].(status := InSync, underLoad := false)], rr, j + 1, need)
  {
    var x, rest := rr[j], rr[j + 1..];
    assert rr[j..] == [x] + rest;
    assert x in rr[j..];
    assert x !in rest;
    var dir' := dir[x := dir[x].(status := InSync, underLoad := false)];
    assert Within(need, |dir'|);
    forall s: nat ensures s in rest <==> s < |dir'| && dir'[s].underLoad {
      assert s in rr[j..] <==> s == x || s in rest;
      if s < |dir'| { assert dir'[s].underLoad <==> s != x && dir[s].underLoad; }
    }
    forall k | 0 <= k < |need| ensures Resident(dir'[need[k]]) || dir'[need[k]].underLoad {
      assert Resident(dir[need[k]]) || dir[need[k]].underLoad;
    }
    assert Finishing(dir', rr, j + 1, need);
  }

  /** Bring in every slot the request needs.  Each missing slot on flash is read exactly once. */
  method LoadMissing(m: DftlMap, lpa: nat, len: nat) returns (rr: seq<nat>)
    requires m.Valid() && m.evicting == [] && NoLoads(m.dir) && Within(Needed(lpa, len, m.n), |m.dir|)
    modifies m`dir, m`lru, m`nrCached
    ensures m.Valid() && m.Table() == old(m.Table()) && NoLoads(m.dir) && |m.dir| == |old(m.dir)|
    ensures forall s | s in Needed(lpa, len, m.n) :: s < |m.dir| && Resident(m.dir[s])
    ensures NoDup(rr) && forall s: nat :: s in rr <==> s in Needed(lpa, len, m.n) && old(m.dir)[s].status.OnFlash?
    ensures m.nrCached <= old(m.nrCached) + len
  {
    hide DirOk, LruOk, Flat;
    ghost var need := Needed(lpa, len, m.n);
    rr := StartLoads(m, lpa, len);
    ghost var dir1, c1 := m.dir, m.nrCached;
    assert rr[0..] == rr;
    LoadedExactly(old(m.dir), dir1, m.flash, rr, need, m.n);
    for j := 0 to |rr|
      invariant m.Valid() && m.Table() == old(m.Table()) && |m.dir| == |old(m.dir)|
      invariant Finishing(m.dir, rr, j, need) && m.nrCached == c1 + j
    {
      FinishOne(m.dir, rr, j, need);
      hide Finishing;
      m.FinishLoad(rr[j]);
    }
    assert rr[|rr|..] == [];
  }

  lemma {:induction false} LoadedExactly(dir0: seq<DirSlot>, dir: seq<DirSlot>, flash: MapFlash, rr: seq<nat>, need: seq<nat>, n: nat)
    requires Starting(dir0, dir, rr, need, |need|) && DirOk(dir, flash, n)
    ensures forall s: nat :: s in rr <==> s in need && dir0[s].status.OnFlash?
  {
    forall s: nat ensures s in rr <==> s in need && dir0[s].status.OnFlash? {
      if s < |dir| { assert SlotOk(dir[s], s, flash, n); }
    }
  }

  // ---- forwarding ---------------------------------------------------------------------------

  function SetIn(t: seq<seq<MapEntry>>, lpa: nat, e: MapEntry, n: nat): seq<seq<MapEntry>>
    requires n > 0
  {
    if lpa / n < |t| && lpa % n < |t[lpa / n]| then t[lpa / n := t[lpa / n][lpa % n := e]] else t
  }

  /** The flat table after a list of entry writes. */
  function Apply(t: seq<seq<MapEntry>>, updates: seq<(nat, MapEntry)>, n: nat): seq<seq<MapEntry>>
    requires n > 0
    decreases |updates|
  {
    if updates == [] then t else Apply(SetIn(t, updates[0].0, updates[0].1, n), updates[1..], n)
  }

  /** The last entry written to an LPA, if any. */
  function LastWrite(updates: seq<(nat, MapEntry)>, lpa: nat): Option<MapEntry> {
    if updates == [] then None
    else
      var r := LastWrite(updates[1..], lpa);
      if r.None? && updates[0].0 == lpa then Some(updates[0].1) else r
  }

  predicate Shaped(t: seq<seq<MapEntry>>, n: nat) {
    forall i | 0 <= i < |t| :: |t[i]| == n
  }

  /** The flat table's entry of an LPA. */
  function Lookup(t: seq<seq<MapEntry>>, n: nat, lpa: nat): MapEntry
    requires n > 0 && Shaped(t, n) && lpa / n < |t|
  {
    t[lpa / n][lpa % n]
  }

  /** Every slot of a valid cache stands for n entries. */
  lemma {:induction false} FlatShaped(dir: seq<DirSlot>, flash: MapFlash, n: nat)
    requires DirOk(dir, flash, n)
    ensures Shaped(Flat(dir, flash, n), n)
  {
    forall i | 0 <= i < |dir| ensures |Flat(dir, flash, n)[i]| == n { assert SlotOk(dir[i], i, flash, n); }
  }

  lemma {:induction false} SameIndex(a: nat, b: nat, n: nat)
    requires n > 0
    ensures a == b <==> a / n == b / n && a % n == b % n
  {
    assert a == (a / n) * n + a % n && b == (b / n) * n + b % n;
  }

  lemma {:induction false} SetLookup(t: seq<seq<MapEntry>>, n: nat, l: nat, e: MapEntry, lpa: nat)
    requires n > 0 && Shaped(t, n) && lpa / n < |t|
    ensures Shaped(SetIn(t, l, e, n), n) && |SetIn(t, l, e, n)| == |t|
    ensures Lookup(SetIn(t, l, e, n), n, lpa) == if l == lpa then e else Lookup(t, n, lpa)
  {
    SameIndex(l, lpa, n);
    SetAt(t, n, l / n, l % n, e, lpa / n, lpa % n);
    hide Shaped;
  }

  lemma {:induction false} SetAt(t: seq<seq<MapEntry>>, n: nat, i: nat, j: nat, e: MapEntry, x: nat, y: nat)
    requires Shaped(t, n) && j < n && x < |t| && y < n
    ensures var t' := if i < |t| && j < |t[i]| then t[i := t[i][j := e]] else t;
            Shaped(t', n) && |t'| == |t| && t'[x][y] == if i == x && j == y then e else t[x][y]
  {
  }

  /** After a list of writes an LPA's entry is the last one written to it, or the one it had. */
  lemma {:induction false} ApplyMeaning(t: seq<seq<MapEntry>>, updates: seq<(nat, MapEntry)>, n: nat, lpa: nat)
    requires n > 0 && Shaped(t, n) && lpa / n < |t|
    ensures Shaped(Apply(t, updates, n), n) && |Apply(t, updates, n)| == |t|
    ensures Lookup(Apply(t, updates, n), n, lpa) == LastWrite(updates, lpa).GetOr(Lookup(t, n, lpa))
    decreases |updates|
  {
    hide Lookup, SetIn, Shaped;
    if updates != [] {
      SetLookup(t, n, updates[0].0, updates[0].1, lpa);
      ApplyMeaning(SetIn(t, updates[0].0, updates[0].1, n), updates[1..], n, lpa);
    }
  }

  lemma {:induction false} AllMeaning(t: seq<seq<MapEntry>>, updates: seq<(nat, MapEntry)>, n: nat)
    requires n > 0 && Shaped(t, n)
    ensures Shaped(Apply(t, updates, n), n) && |Apply(t, updates, n)| == |t|
    ensures forall l: nat | l / n < |t| ::
              Lookup(Apply(t, updates, n), n, l) == LastWrite(updates, l).GetOr(Lookup(t, n, l))
  {
    hide Lookup, Apply, LastWrite;
    ApplyShape(t, updates, n);
    forall l: nat | l / n < |t|
      ensures Lookup(Apply(t, updates, n), n, l) == LastWrite(updates, l).GetOr(Lookup(t, n, l))
    {
      ApplyMeaning(t, updates, n, l);
    }
  }

  lemma {:induction false} ApplyShape(t: seq<seq<MapEntry>>, updates: seq<(nat, MapEntry)>, n: nat)
    requires n > 0 && Shaped(t, n)
    ensures Shaped(Apply(t, updates, n), n) && |Apply(t, updates, n)| == |t|
    decreases |updates|
  {
    if updates != [] { ApplyShape(SetIn(t, updates[0].0, updates[0].1, n), updates[1..], n); }
  }

  /** The entries the request maps, all of them in memory. */
  method Forward(m: DftlMap, updates: seq<(nat, MapEntry)>)
    requires m.Valid() && m.evicting == [] && NoLoads(m.dir)
    requires forall k | 0 <= k < |updates| :: m.InTable(updates[k].0) && Resident(m.dir[updates[k].0 / m.n])
    modifies m`dir, m`lru
    ensures m.Valid() && NoLoads(m.dir) && |m.dir| == |old(m.dir)|
    ensures m.Table() == Apply(old(m.Table()), updates, m.n)
  {
    hide DirOk, LruOk, Flat, Apply;
    assert updates[0..] == updates;
    for k := 0 to |updates|
      invariant m.Valid() && NoLoads(m.dir) && |m.dir| == |old(m.dir)|
      invariant forall i | 0 <= i < |m.dir| :: Resident(m.dir[i]) <==> Resident(old(m.dir)[i])
      invariant Apply(m.Table(), updates[k..], m.n) == Apply(old(m.Table()), updates, m.n)
    {
      assert old(m.InTable(updates[k].0));
      OnList(m.dir, m.lru, updates[k].0 / m.n);
      FlatLength(m.dir, m.flash, m.n);
      ApplyNext(m.Table(), updates, k, m.n);
      m.SetEntry(updates[k].0, updates[k].1);
    }
    ApplyNone(m.Table(), m.n);
    assert updates[|updates|..] == [];
  }

  lemma {:induction false} ApplyNext(t: seq<seq<MapEntry>>, updates: seq<(nat, MapEntry)>, k: nat, n: nat)
    requires n > 0 && k < |updates|
    ensures Apply(t, updates[k..], n) == Apply(SetIn(t, updates[k].0, updates[k].1, n), updates[k + 1..], n)
  {
    assert updates[k..][1..] == updates[k + 1..] && updates[k..][0] == updates[k];
  }

  lemma {:induction false} ApplyNone(t: seq<seq<MapEntry>>, n: nat)
    requires n > 0
    ensures Apply(t, [], n) == t
  {
  }

  lemma {:induction false} OnList(dir: seq<DirSlot>, lru: seq<nat>, i: nat)
    requires LruOk(dir, lru, []) && i < |dir| && Resident(dir[i])
    ensures i in lru
  {
  }

  lemma {:induction false} FlatLength(dir: seq<DirSlot>, flash: MapFlash, n: nat)
    ensures |Flat(dir, flash, n)| == |dir|
  {
  }

  // ---- eviction --------------------------------------------------------------------------------

  datatype Eviction = Eviction(slot: nat, addr: int)

  /** Every prepared eviction of a modified slot has its page on flash. */
  ghost predicate Written(dir: seq<DirSlot>, flash: MapFlash, evicting: seq<nat>, rr: seq<Eviction>, j: nat) {
    && j <= |rr| && |evicting| == |rr| - j
    && forall k | j <= k < |rr| ::
         var s := rr[k].slot;
         && evicting[k - j] == s && s < |dir| && Resident(dir[s])
         && (dir[s].status.Modified? ==>
              dir[s].me.Some? && rr[k].addr in flash && flash[rr[k].addr] == MapPage(MAGIC, s, dir[s].me.value))
  }

  /** How many slots go: down to one below the limit, at most one per LPA. */
  function ToEvict(cached: nat, max: nat, len: nat): nat {
    if cached < max then 0 else Min(len, cached - max + 1)
  }

  /** The first n slots of the list have gone to flash; no other slot has changed. */
  ghost predicate Evicted(dir0: seq<DirSlot>, dir: seq<DirSlot>, lru0: seq<nat>, n: nat) {
    && |dir| == |dir0| && n <= |lru0| && NoDup(lru0)
    && (forall k | 0 <= k < n && lru0[k] < |dir| :: dir[lru0[k]].status.OnFlash?)
    && forall i: nat | i < |dir| && i !in lru0[..n] :: dir[i] == dir0[i]
  }

  lemma {:induction false} EvictedOne(dir0: seq<DirSlot>, dir: seq<DirSlot>, dir': seq<DirSlot>, lru0: seq<nat>, n: nat)
    requires Evicted(dir0, dir, lru0, n) && n < |lru0| && lru0[n] < |dir| == |dir'|
    requires dir' == dir[lru0[n] := dir'[lru0[n]]] && dir'[lru0[n]].status.OnFlash?
    ensures Evicted(dir0, dir', lru0, n + 1)
  {
    assert lru0[..n + 1] == lru0[..n] + [lru0[n]];
  }

  /** Choose and program victims while too many slots are in memory, at most one per LPA. */
  method StartEvictions(m: DftlMap, len: nat, pool: seq<int>) returns (rr: seq<Eviction>)
    requires m.Valid() && m.evicting == [] && m.max > 0 && |pool| >= len
    requires forall i | 0 <= i < |pool| :: pool[i] !in m.flash
    requires forall i, j | 0 <= i < j < |pool| :: pool[i] != pool[j]
    modifies m`lru, m`nrCached, m`flash, m`evicting
    ensures m.Valid() && m.Table() == old(m.Table()) && Written(m.dir, m.flash, m.evicting, rr, 0)
    ensures m.nrCached + |rr| == old(m.nrCached) && |rr| == ToEvict(old(m.nrCached), m.max, len) <= |old(m.lru)|
    ensures m.lru == old(m.lru)[|rr|..] && forall k | 0 <= k < |rr| :: rr[k].slot == old(m.lru)[k]
  {
    hide DirOk, LruOk, Flat;
    rr := [];
    for i := 0 to len
      invariant |rr| == i <= |old(m.lru)| && m.lru == old(m.lru)[i..] && (forall k | 0 <= k < i :: rr[k].slot == old(m.lru)[k])
      invariant i > 0 ==> old(m.nrCached) + 1 >= m.max + i
      invariant m.Valid() && m.Table() == old(m.Table()) && |rr| == i
      invariant Written(m.dir, m.flash, m.evicting, rr, 0) && m.nrCached + |rr| == old(m.nrCached)
      invariant forall k | i <= k < |pool| :: pool[k] !in m.flash
    {
      ghost var flash0, evicting0 := m.flash, m.evicting;
      var r := m.PrepareEviction(pool[i]);
      if r.None? { break; }
      OneMore(m.dir, flash0, m.flash, evicting0, rr, r.value, pool[i]);
      rr := rr + [Eviction(r.value, pool[i])];
    }
  }

  lemma {:induction false} OneMore(dir: seq<DirSlot>, flash: MapFlash, flash': MapFlash, evicting: seq<nat>, rr: seq<Eviction>, s: nat, a: int)
    requires Written(dir, flash, evicting, rr, 0) && a !in flash && s < |dir| && Resident(dir[s])
    requires dir[s].status.Modified? ==> dir[s].me.Some? && flash' == flash[a := MapPage(MAGIC, s, dir[s].me.value)]
    requires !dir[s].status.Modified? ==> flash' == flash
    ensures Written(dir, flash', evicting + [s], rr + [Eviction(s, a)], 0)
  {
  }

  /** Evict until the cache fits again. */
  method Evict(m: DftlMap, len: nat, pool: seq<int>)
    requires m.Valid() && m.evicting == [] && m.max > 0 && NoLoads(m.dir) && |pool| >= len
    requires forall i | 0 <= i < |pool| :: pool[i] !in m.flash
    requires forall i, j | 0 <= i < j < |pool| :: pool[i] != pool[j]
    modifies m
    ensures m.Valid() && m.evicting == [] && NoLoads(m.dir) && |m.dir| == |old(m.dir)|
    ensures m.Table() == old(m.Table())
    ensures var n := ToEvict(old(m.nrCached), m.max, len);
            n <= |old(m.lru)| && m.nrCached + n == old(m.nrCached) && m.lru == old(m.lru)[n..] && Evicted(old(m.dir), m.dir, old(m.lru), n)
  {
    Listed(m.dir, m.lru);
    hide DirOk, LruOk, Flat;
    var rr := StartEvictions(m, len, pool);
    ghost var c, lru := m.nrCached, m.lru;
    assert Evicted(old(m.dir), m.dir, old(m.lru), 0);
    for j := 0 to |rr|
      invariant m.lru == lru && Evicted(old(m.dir), m.dir, old(m.lru), j)
      invariant m.Valid() && m.Table() == old(m.Table()) && NoLoads(m.dir) && |m.dir| == |old(m.dir)|
      invariant Written(m.dir, m.flash, m.evicting, rr, j) && m.nrCached == c
    {
      var s := rr[j].slot;
      ghost var dir0, evicting0 := m.dir, m.evicting;
      assert evicting0[j - j] == s;
      Different(m.dir, m.lru, m.evicting);
      m.FinishEviction(s, rr[j].addr);
      Rest(dir0, m.dir, m.flash, evicting0, rr, j);
      EvictedOne(old(m.dir), dir0, m.dir, old(m.lru), j);
    }
  }

  lemma {:induction false} Listed(dir: seq<DirSlot>, lru: seq<nat>)
    requires LruOk(dir, lru, [])
    ensures NoDup(lru)
  {
  }

  lemma {:induction false} Different(dir: seq<DirSlot>, lru: seq<nat>, evicting: seq<nat>)
    requires LruOk(dir, lru, evicting)
    ensures NoDup(evicting)
  {
  }

  lemma {:induction false} Rest(dir: seq<DirSlot>, dir': seq<DirSlot>, flash: MapFlash, evicting: seq<nat>, rr: seq<Eviction>, j: nat)
    requires Written(dir, flash, evicting, rr, j) && j < |rr| && NoDup(evicting)
    requires |dir'| == |dir| && dir' == dir[rr[j].slot := dir'[rr[j].slot]]
    ensures Written(dir', flash, evicting[1..], rr, j + 1)
  {
    forall k | j + 1 <= k < |rr| ensures rr[k].slot != rr[j].slot && evicting[1..][k - (j + 1)] == rr[k].slot {
      assert evicting[k - j] == rr[k].slot && evicting[j - j] == rr[j].slot;
    }
  }

  // ---- the whole request ---------------------------------------------------------------------------

  /** Serve a request.  Every missing slot on flash is read exactly once, everything the request
      needs is in memory before it is forwarded, only the forwarded updates change the flat table,
      and a cache that was below its limit is below it again afterwards. */
  method Serve(m: DftlMap, lpa: nat, len: nat, updates: seq<(nat, MapEntry)>, pool: seq<int>) returns (rr: seq<nat>)
    requires m.Valid() && m.evicting == [] && m.max > 0 && NoLoads(m.dir)
    requires Within(Needed(lpa, len, m.n), |m.dir|)
    requires forall k | 0 <= k < |updates| :: lpa <= updates[k].0 < lpa + len
    requires |pool| >= len && (forall i | 0 <= i < |pool| :: pool[i] !in m.flash)
    requires forall i, j | 0 <= i < j < |pool| :: pool[i] != pool[j]
    modifies m
    ensures m.Valid() && m.evicting == [] && NoLoads(m.dir)
    ensures m.Table() == Apply(old(m.Table()), updates, m.n)
    ensures Shaped(old(m.Table()), m.n) && Shaped(m.Table(), m.n) && |m.Table()| == |old(m.Table())|
    ensures forall l: nat | l / m.n < |m.Table()| ::
              Lookup(m.Table(), m.n, l) == LastWrite(updates, l).GetOr(Lookup(old(m.Table()), m.n, l))
    ensures NoDup(rr) && forall s: nat :: s in rr <==> s in Needed(lpa, len, m.n) && old(m.dir)[s].status.OnFlash?
    ensures old(m.nrCached) < m.max ==> m.nrCached < m.max
  {
    hide DirOk, LruOk, Flat, Apply, NoLoads, Lookup, Shaped, LastWrite;
    FlatShaped(m.dir, m.flash, m.n);
    AllMeaning(m.Table(), updates, m.n);
    rr := LoadMissing(m, lpa, len);
    forall k | 0 <= k < |updates| ensures m.InTable(updates[k].0) && Resident(m.dir[updates[k].0 / m.n]) {
      assert Needed(lpa, len, m.n)[updates[k].0 - lpa] == updates[k].0 / m.n;
    }
    Forward(m, updates);
    Evict(m, len, pool);
  }
}
