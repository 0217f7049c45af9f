/** The greedy victim scan of one dirty list, as a choice among its candidates. */
module Greedy {
  import opened Nand

  predicate Listing(blocks: seq<Block>, l: seq<nat>) {
    forall k | 0 <= k < |l| :: l[k] < |blocks|
  }

  /** The first candidate (not the active block) with exactly n invalid subpages. */
  function FirstWith(blocks: seq<Block>, l: seq<nat>, active: nat, n: nat): (i: nat)
    requires Listing(blocks, l)
    ensures i <= |l| && (i < |l| ==> l[i] != active && blocks[l[i]].nrInvalid == n)
    ensures forall k | 0 <= k < i && l[k] != active :: blocks[l[k]].nrInvalid != n
  {
    if l == [] || (l[0] != active && blocks[l[0]].nrInvalid == n) then 0 else 1 + FirstWith(blocks, l[1..], active, n)
  }

  /** The first candidate with at least n invalid subpages. */
  function FirstAtLeast(blocks: seq<Block>, l: seq<nat>, active: nat, n: nat): (i: nat)
    requires Listing(blocks, l)
    ensures i <= |l| && (i < |l| ==> l[i] != active && blocks[l[i]].nrInvalid >= n)
    ensures forall k | 0 <= k < i && l[k] != active :: blocks[l[k]].nrInvalid < n
  {
    if l == [] || (l[0] != active && blocks[l[0]].nrInvalid >= n) then 0 else 1 + FirstAtLeast(blocks, l[1..], active, n)
  }

  /** The last candidate, or the list's length. */
  function LastOther(l: seq<nat>, active: nat): (i: nat)
    ensures i <= |l| && (i < |l| ==> l[i] != active && forall k | i < k < |l| :: l[k] == active)
    ensures i == |l| ==> forall k | 0 <= k < |l| :: l[k] == active
  {
    if l == [] then 0
    else
      var r := LastOther(l[1..], active);
      if r < |l| - 1 then 1 + r else if l[0] != active then 0 else |l|
  }

  /** What the scan settles on: the first fully invalid candidate; else the first candidate with
      at least as many invalid subpages as the active block; else the last candidate. */
  function Pick(blocks: seq<Block>, l: seq<nat>, active: nat, full: nat): nat
    requires Listing(blocks, l) && active < |blocks|
  {
    var f := FirstWith(blocks, l, active, full);
    var b := FirstAtLeast(blocks, l, active, blocks[active].nrInvalid);
    if f < |l| then f else if b < |l| then b else LastOther(l, active)
  }

  /** The pick is the only position with these properties. */
  lemma {:induction false} PickIs(blocks: seq<Block>, l: seq<nat>, active: nat, full: nat, p: nat)
    requires Listing(blocks, l) && active < |blocks| && p < |l| && l[p] != active
    requires || (blocks[l[p]].nrInvalid == full && forall k | 0 <= k < p && l[k] != active :: blocks[l[k]].nrInvalid != full)
             || ((forall k | 0 <= k < |l| && l[k] != active :: blocks[l[k]].nrInvalid != full)
                 && (forall k | 0 <= k < p && l[k] != active :: blocks[l[k]].nrInvalid < blocks[active].nrInvalid)
                 && (blocks[l[p]].nrInvalid >= blocks[active].nrInvalid || forall k | p < k < |l| :: l[k] == active))
    ensures Pick(blocks, l, active, full) == p
  {
    var f := FirstWith(blocks, l, active, full);
    var b := FirstAtLeast(blocks, l, active, blocks[active].nrInvalid);
    var e := LastOther(l, active);
  }

  lemma {:induction false} PickNone(blocks: seq<Block>, l: seq<nat>, active: nat, full: nat)
    requires Listing(blocks, l) && active < |blocks|
    ensures Pick(blocks, l, active, full) < |l| <==> exists k :: 0 <= k < |l| && l[k] != active
    ensures Pick(blocks, l, active, full) < |l| ==> l[Pick(blocks, l, active, full)] != active
  {
  }

  /** No candidate has more invalid subpages than the one at p. */
  predicate MostInvalid(blocks: seq<Block>, l: seq<nat>, active: nat, p: nat)
    requires Listing(blocks, l) && p < |l|
  {
    forall k | 0 <= k < |l| && l[k] != active :: blocks[l[k]].nrInvalid <= blocks[l[p]].nrInvalid
  }

  /** The scan finds a block with the most invalid subpages exactly when one is fully invalid, or the
      first that reaches the active block's count is not exceeded later in the list, or none reaches
      it and the last is not exceeded before it. */
  lemma {:induction false} GreedyIsBestIff(blocks: seq<Block>, l: seq<nat>, active: nat, full: nat)
    requires Listing(blocks, l) && active < |blocks| && forall k | 0 <= k < |l| :: blocks[l[k]].nrInvalid <= full
    requires Pick(blocks, l, active, full) < |l|
    ensures var f := FirstWith(blocks, l, active, full);
            var b := FirstAtLeast(blocks, l, active, blocks[active].nrInvalid);
            var e := LastOther(l, active);
            MostInvalid(blocks, l, active, Pick(blocks, l, active, full)) <==>
              || f < |l|
              || (b < |l| && forall k | b < k < |l| && l[k] != active :: blocks[l[k]].nrInvalid <= blocks[l[b]].nrInvalid)
              || (b == |l| && e < |l| && forall k | 0 <= k < e && l[k] != active :: blocks[l[k]].nrInvalid <= blocks[l[e]].nrInvalid)
  {
    var f := FirstWith(blocks, l, active, full);
    var b := FirstAtLeast(blocks, l, active, blocks[active].nrInvalid);
    var e := LastOther(l, active);
    var p := Pick(blocks, l, active, full);
    if f == |l| && b < |l| {
      if forall k | b < k < |l| && l[k] != active :: blocks[l[k]].nrInvalid <= blocks[l[b]].nrInvalid {
        forall k | 0 <= k < |l| && l[k] != active ensures blocks[l[k]].nrInvalid <= blocks[l[b]].nrInvalid {}
      }
    }
  }

  /** The scan compares with the active block and not with the candidate: in this table of consistent
      blocks of four subpages it takes one with one invalid subpage and leaves one with three. */
  lemma {:induction false} GreedyMissesBest()
    ensures var one := Block(Dirty, 0, [Invalid, NotInvalid, NotInvalid, NotInvalid], 1, 0, 0);
            var three := Block(Dirty, 0, [Invalid, Invalid, Invalid, NotInvalid], 3, 0, 0);
            && BlockOk(one, 4) && BlockOk(three, 4)
            && Pick([one, one, three], [1, 2], 0, 4) == 0 && !MostInvalid([one, one, three], [1, 2], 0, 0)
  {
    var one := Block(Dirty, 0, [Invalid, NotInvalid, NotInvalid, NotInvalid], 1, 0, 0);
    var three := Block(Dirty, 0, [Invalid, Invalid, Invalid, NotInvalid], 3, 0, 0);
    var blocks := [one, one, three];
    assert one.pst[1..] == [NotInvalid, NotInvalid, NotInvalid] && three.pst[1..] == [Invalid, Invalid, NotInvalid];
    PickIs(blocks, [1, 2], 0, 4, 0);
    assert blocks[[1, 2][1]].nrInvalid > blocks[[1, 2][0]].nrInvalid;
  }
}
