/** The allocation cursor over the active blocks, one per parallel unit. */
module Cursor {
  import opened Nand
  import opened Mapping

  /** `turns[u]` is the cursor position at which unit u is served; a permutation. */
  ghost predicate TurnsOk(turns: seq<nat>) {
    && (forall u | 0 <= u < |turns| :: turns[u] < |turns|)
    && forall u, v | 0 <= u < |turns| && 0 <= v < |turns| && turns[u] == turns[v] :: u == v
  }

  /** Unit u's active block has handed out `base` subpages, one page more once served. */
  predicate ActiveOk(blocks: seq<Block>, wp: seq<nat>, ac: seq<nat>, turns: seq<nat>, puid: nat, base: nat, width: nat, u: nat)
    requires |wp| == |blocks| && |ac| == |turns| && u < |ac|
  {
    && ac[u] < |blocks| && blocks[ac[u]].punit == u && InUse(blocks[ac[u]])
    && wp[ac[u]] == base + if turns[u] < puid then width else 0
  }

  /** Every block in use is either the active block of its unit or used up. */
  ghost predicate CursorOk(blocks: seq<Block>, wp: seq<nat>, ac: seq<nat>, turns: seq<nat>, puid: nat, base: nat, width: nat) {
    && |wp| == |blocks| && |ac| == |turns| && TurnsOk(turns) && puid < |turns|
    && (forall u | 0 <= u < |ac| :: ActiveOk(blocks, wp, ac, turns, puid, base, width, u))
    && forall b | 0 <= b < |blocks| && InUse(blocks[b]) ::
         blocks[b].punit < |ac| && (ac[blocks[b].punit] != b ==> wp[b] == |blocks[b].pst|)
  }

  /** Serving unit u moves the cursor to the next position, or to the next page. */
  lemma {:induction false} Advance(blocks: seq<Block>, wp: seq<nat>, ac: seq<nat>, turns: seq<nat>, puid: nat, base: nat, width: nat, u: nat)
    requires CursorOk(blocks, wp, ac, turns, puid, base, width)
    requires u < |ac| && turns[u] == puid
    ensures ac[u] < |wp| && wp[ac[u]] == base
    ensures puid + 1 < |ac| ==> CursorOk(blocks, wp[ac[u] := base + width], ac, turns, puid + 1, base, width)
    ensures puid + 1 == |ac| ==> CursorOk(blocks, wp[ac[u] := base + width], ac, turns, 0, base + width, width)
  {
    assert ActiveOk(blocks, wp, ac, turns, puid, base, width, u);
    var wp' := wp[ac[u] := base + width];
    var puid', base' := if puid + 1 < |ac| then puid + 1 else 0, if puid + 1 < |ac| then base else base + width;
    forall v | 0 <= v < |ac| ensures ActiveOk(blocks, wp', ac, turns, puid', base', width, v) {
      assert ActiveOk(blocks, wp, ac, turns, puid, base, width, v);
    }
  }

  /** Unit u got a fresh active block. */
  predicate Renewed(blocks: seq<Block>, blocks': seq<Block>, ac': seq<nat>, u: nat)
    requires |blocks'| == |blocks| && u < |ac'|
  {
    && ac'[u] < |blocks| && blocks[ac'[u]].status.Free? && blocks[ac'[u]].punit == u
    && blocks'[ac'[u]] == blocks[ac'[u]].(status := Clean)
  }

  /** The first n units got fresh active blocks, and nothing else changed. */
  ghost predicate RenewedTo(blocks: seq<Block>, blocks': seq<Block>, ac': seq<nat>, n: nat) {
    && Activated(blocks, blocks') && n <= |ac'|
    && (forall u | 0 <= u < n :: Renewed(blocks, blocks', ac', u))
    && forall b | 0 <= b < |blocks| && blocks'[b] != blocks[b] :: blocks[b].punit < n && ac'[blocks[b].punit] == b
  }

  lemma {:induction false} RenewOne(blocks: seq<Block>, now: seq<Block>, ac: seq<nat>, n: nat, b: nat)
    requires RenewedTo(blocks, now, ac, n) && n < |ac|
    requires b < |now| && now[b].status.Free? && now[b].punit == n
    ensures RenewedTo(blocks, now[b := now[b].(status := Clean)], ac[n := b], n + 1)
  {
    var now', ac' := now[b := now[b].(status := Clean)], ac[n := b];
    forall u | 0 <= u < n + 1 ensures Renewed(blocks, now', ac', u) {
      if u < n { assert Renewed(blocks, now, ac, u); }
    }
  }

  /** When all active blocks are used up, a fresh one per unit starts a new round. */
  lemma {:induction false} Switch(blocks: seq<Block>, blocks': seq<Block>, wp: seq<nat>, ac: seq<nat>, ac': seq<nat>, turns: seq<nat>, base: nat, width: nat)
    requires CursorOk(blocks, wp, ac, turns, 0, base, width) && PointersOk(blocks, wp)
    requires forall b | 0 <= b < |blocks| :: |blocks[b].pst| == base
    requires RenewedTo(blocks, blocks', ac', |ac|) && |ac'| == |ac|
    ensures CursorOk(blocks', wp, ac', turns, 0, 0, width)
  {
    forall u | 0 <= u < |ac'| ensures ActiveOk(blocks', wp, ac', turns, 0, 0, width, u) {
      assert Renewed(blocks, blocks', ac', u);
    }
    forall b | 0 <= b < |blocks'| && InUse(blocks'[b])
      ensures blocks'[b].punit < |ac'| && (ac'[blocks'[b].punit] != b ==> wp[b] == |blocks'[b].pst|)
    {
      if blocks'[b] == blocks[b] && ac[blocks[b].punit] == b {
        assert ActiveOk(blocks, wp, ac, turns, 0, base, width, blocks[b].punit);
      }
    }
  }

  /** The cursor only looks at statuses in use, units and write pointers. */
  lemma {:induction false} CursorFrame(blocks: seq<Block>, blocks': seq<Block>, wp: seq<nat>, ac: seq<nat>, turns: seq<nat>, puid: nat, base: nat, width: nat)
    requires CursorOk(blocks, wp, ac, turns, puid, base, width)
    requires SameShape(blocks, blocks')
    ensures CursorOk(blocks', wp, ac, turns, puid, base, width)
  {
    forall u | 0 <= u < |ac| ensures ActiveOk(blocks', wp, ac, turns, puid, base, width, u) {
      assert ActiveOk(blocks, wp, ac, turns, puid, base, width, u);
    }
  }

  /** Erasing a block that is not active leaves the cursor as it is. */
  lemma {:induction false} CursorErase(blocks: seq<Block>, wp: seq<nat>, ac: seq<nat>, turns: seq<nat>, puid: nat, base: nat, width: nat, b: nat, nb: Block)
    requires CursorOk(blocks, wp, ac, turns, puid, base, width)
    requires b < |blocks| && blocks[b].punit < |ac| && ac[blocks[b].punit] != b && !InUse(nb)
    ensures CursorOk(blocks[b := nb], wp[b := 0], ac, turns, puid, base, width)
  {
    var blocks', wp' := blocks[b := nb], wp[b := 0];
    forall u | 0 <= u < |ac| ensures ActiveOk(blocks', wp', ac, turns, puid, base, width, u) {
      assert ActiveOk(blocks, wp, ac, turns, puid, base, width, u);
    }
  }

  /** At the end of a round everything in use is used up. */
  lemma {:induction false} EndOfRound(blocks: seq<Block>, wp: seq<nat>, ac: seq<nat>, turns: seq<nat>, base: nat, width: nat)
    requires CursorOk(blocks, wp, ac, turns, 0, base, width) && forall b | 0 <= b < |blocks| :: |blocks[b].pst| == base
    ensures Sealed(blocks, wp)
  {
    forall b | 0 <= b < |blocks| && InUse(blocks[b]) ensures wp[b] == |blocks[b].pst| {
      if ac[blocks[b].punit] == b { assert ActiveOk(blocks, wp, ac, turns, 0, base, width, blocks[b].punit); }
    }
  }

  /** After a restart everything in use is used up and the units get fresh active blocks. */
  lemma {:induction false} Restarted(blocks: seq<Block>, blocks': seq<Block>, wp: seq<nat>, ac': seq<nat>, turns: seq<nat>, width: nat)
    requires Sealed(blocks, wp) && PointersOk(blocks, wp) && TurnsOk(turns) && |ac'| == |turns| > 0
    requires forall b | 0 <= b < |blocks| :: blocks[b].punit < |turns|
    requires RenewedTo(blocks, blocks', ac', |ac'|)
    ensures CursorOk(blocks', wp, ac', turns, 0, 0, width)
  {
    forall u | 0 <= u < |ac'| ensures ActiveOk(blocks', wp, ac', turns, 0, 0, width, u) {
      assert Renewed(blocks, blocks', ac', u);
    }
  }
}
