/** Free space per parallel unit, and what the GC threshold guarantees. */
module Balance {
  import opened Nand
  import opened Lists
  import opened Geometry
  import opened BlockManager

  /** Every parallel unit has f free blocks. */
  ghost predicate Balanced(lists: ListHeads, nrPunits: nat, f: nat) {
    forall u | 0 <= u < nrPunits :: FreeLen(lists, u) == f
  }

  /** How many blocks belong on a list. */
  function HomeCount(blocks: seq<Block>, id: ListId): nat {
    if blocks == [] then 0
    else HomeCount(blocks[..|blocks| - 1], id) + if Home(blocks[|blocks| - 1]) == id then 1 else 0
  }

  lemma {:induction false} SomeMember(l: seq<nat>)
    requires l != []
    ensures exists b: nat :: b in l
  {
    assert l[0] in l;
  }

  /** A list that holds exactly the blocks belonging on it has that many entries. */
  lemma {:induction false} ListLength(blocks: seq<Block>, l: seq<nat>, id: ListId)
    requires ListOk(blocks, l, id)
    ensures |l| == HomeCount(blocks, id)
  {
    if blocks == [] {
      if l != [] { SomeMember(l); }
    } else {
      var n := |blocks| - 1;
      RemoveOk(l, n);
      var r := Remove(l, n);
      forall b: nat ensures b in r <==> b < n && Home(blocks[..n][b]) == id {
        assert b in l <==> b < |blocks| && Home(blocks[b]) == id;
      }
      ListLength(blocks[..n], r, id);
    }
  }

  function SumHomes(blocks: seq<Block>, nrPunits: nat): nat {
    if nrPunits == 0 then 0 else SumHomes(blocks, nrPunits - 1) + HomeCount(blocks, ListId(FreeList, nrPunits - 1))
  }

  lemma {:induction false} SumHomesPush(blocks: seq<Block>, nrPunits: nat)
    requires blocks != []
    ensures var b := blocks[|blocks| - 1];
            SumHomes(blocks, nrPunits) == SumHomes(blocks[..|blocks| - 1], nrPunits)
              + if b.punit < nrPunits && KindOf(b.status).FreeList? then 1 else 0
  {
    if nrPunits > 0 { SumHomesPush(blocks, nrPunits - 1); }
  }

  lemma {:induction false} SumHomesNone(nrPunits: nat)
    ensures SumHomes([], nrPunits) == 0
  {
    if nrPunits > 0 { SumHomesNone(nrPunits - 1); }
  }

  lemma {:induction false} CountPush(blocks: seq<Block>, s: BlockStatus)
    requires blocks != []
    ensures Count(blocks, s) == Count(blocks[..|blocks| - 1], s) + if blocks[|blocks| - 1].status == s then 1 else 0
  {
    if |blocks| > 1 {
      CountPush(blocks[1..], s);
      assert blocks[1..][..|blocks| - 2] == blocks[..|blocks| - 1][1..];
    }
  }

  /** Summed over the units, the free lists hold the FREE and prepared blocks. */
  lemma {:induction false} SumHomesCount(blocks: seq<Block>, nrPunits: nat)
    requires forall b | 0 <= b < |blocks| :: blocks[b].punit < nrPunits
    ensures SumHomes(blocks, nrPunits) == Count(blocks, Free) + Count(blocks, FreePrepare)
  {
    if blocks == [] {
      SumHomesNone(nrPunits);
    } else {
      SumHomesPush(blocks, nrPunits);
      SumHomesCount(blocks[..|blocks| - 1], nrPunits);
      CountPush(blocks, Free);
      CountPush(blocks, FreePrepare);
    }
  }

  lemma {:induction false} SumBalanced(blocks: seq<Block>, lists: ListHeads, nrPunits: nat, n: nat, f: nat)
    requires ListsOk(blocks, lists, nrPunits) && Balanced(lists, nrPunits, f) && n <= nrPunits
    ensures SumHomes(blocks, n) == n * f
  {
    if n > 0 {
      SumBalanced(blocks, lists, nrPunits, n - 1, f);
      assert FreeLen(lists, n - 1) == f;
      ListLength(blocks, lists[ListId(FreeList, n - 1)], ListId(FreeList, n - 1));
      assert n * f == (n - 1) * f + f;
    }
  }

  /** The free counter is units times free blocks per unit. */
  lemma {:induction false} FreeCount(blocks: seq<Block>, lists: ListHeads, nrPunits: nat, f: nat)
    requires ListsOk(blocks, lists, nrPunits) && Balanced(lists, nrPunits, f)
    requires Count(blocks, FreePrepare) == 0 && forall b | 0 <= b < |blocks| :: blocks[b].punit < nrPunits
    ensures Count(blocks, Free) == nrPunits * f
  {
    SumBalanced(blocks, lists, nrPunits, nrPunits, f);
    SumHomesCount(blocks, nrPunits);
  }

  lemma {:induction false} Cancel(a: nat, b: nat, c: nat)
    requires c > 0 && b > 0
    ensures c * b > 0 && (c * a) / (c * b) == a / b
  {
    var q, r := a / b, a % b;
    assert a == q * b + r;
    Positive(c, b);
    MulLe(r + 1, b, c);
    calc {
      c * a;
      c * (q * b + r);
      c * (q * b) + c * r;
      { assert c * (q * b) == q * (c * b); }
      q * (c * b) + c * r;
    }
    assert c * r < c * b;
    DivMod(q, c * r, c * b);
  }

  /** What "GC is not needed" (more than 2 percent free) says about one unit. */
  lemma {:induction false} ThresholdPerUnit(nrPunits: nat, blocksPerChip: nat, f: nat)
    requires nrPunits > 0 && blocksPerChip > 0
    ensures nrPunits * blocksPerChip > 0
    ensures (nrPunits * f) * 100 / (nrPunits * blocksPerChip) == f * 100 / blocksPerChip
  {
    Cancel(f * 100, blocksPerChip, nrPunits);
    assert (nrPunits * f) * 100 == nrPunits * (f * 100);
  }

  /** The threshold leaves two free blocks on every unit exactly when a chip has at least 34 blocks. */
  lemma {:induction false} Threshold(blocksPerChip: nat)
    requires blocksPerChip > 0
    ensures blocksPerChip >= 34 <==> forall f: nat :: f * 100 / blocksPerChip > 2 ==> f >= 2
  {
    if blocksPerChip >= 34 {
      forall f: nat | f * 100 / blocksPerChip > 2 ensures f >= 2 {
        if f == 1 { DivSmall(100, blocksPerChip); } else if f == 0 { DivSmall(0, blocksPerChip); }
      }
    } else {
      var f: nat := 1;
      assert f * 100 / blocksPerChip >= 3 by { DivLarge(100, blocksPerChip, 3); }
    }
  }

  lemma {:induction false} DivSmall(x: nat, d: nat)
    requires d >= 34 && x <= 100
    ensures x / d <= 2
  {
    var q := x / d;
    assert q * d + x % d == x;
    if q >= 3 { MulLe(3, q, d); }
  }

  lemma {:induction false} DivLarge(x: nat, d: nat, k: nat)
    requires d > 0 && k * d <= x
    ensures x / d >= k
  {
    var q := x / d;
    assert (q + 1) * d == q * d + d;
    if q < k { MulLe(q + 1, k, d); }
  }

  // ---- a new device --------------------------------------------------------------------

  lemma {:induction false} QuotientIs(x: nat, d: nat, u: nat)
    requires d > 0
    ensures x / d == u <==> u * d <= x < u * d + d
  {
    if u * d <= x < u * d + d { DivMod(u, x - u * d, d); }
    assert (x / d) * d + x % d == x;
  }

  lemma {:induction false} NewHome(g: Geometry, b: nat, u: nat)
    requires g.Valid() && b < g.BlocksPerSsd()
    ensures Home(NewTable(g)[b]) == ListId(FreeList, u) <==> u * g.blocksPerChip <= b < u * g.blocksPerChip + g.blocksPerChip
  {
    PunitIsQuotient(g, b);
    QuotientIs(b, g.blocksPerChip, u);
  }

  /** Of the first n blocks of a new device, unit u owns those from u * blocksPerChip on. */
  lemma {:induction false} NewHomes(g: Geometry, t: seq<Block>, n: nat, u: nat, lo: nat)
    requires g.Valid() && n <= |t| == g.BlocksPerSsd() && u < g.Punits() && t == NewTable(g) && lo == u * g.blocksPerChip
    ensures HomeCount(t[..n], ListId(FreeList, u))
         == if n <= lo then 0 else if n <= lo + g.blocksPerChip then n - lo else g.blocksPerChip
  {
    hide NewTable;
    if n > 0 {
      NewHomes(g, t, n - 1, u, lo);
      assert t[..n][..n - 1] == t[..n - 1];
      NewHome(g, n - 1, u);
    }
  }

  /** On a new device every unit has all its blocks free. */
  lemma {:induction false} NewFree(g: Geometry, blocks: seq<Block>, lists: ListHeads, u: nat)
    requires g.Valid() && u < g.Punits()
    requires blocks == NewTable(g) && ListsOk(blocks, lists, g.Punits())
    ensures FreeLen(lists, u) == g.blocksPerChip
  {
    var id := ListId(FreeList, u);
    ListLength(blocks, lists[id], id);
    assert blocks[..g.BlocksPerSsd()] == blocks;
    NewHomes(g, blocks, g.BlocksPerSsd(), u, u * g.blocksPerChip);
    MulLe(u + 1, g.Punits(), g.blocksPerChip);
    assert (u + 1) * g.blocksPerChip == u * g.blocksPerChip + g.blocksPerChip;
  }
}
