/** Block lists (the kernel's linked lists, as sequences without duplicates). */
module Lists {
  import opened Common
  import opened Nand

  datatype ListKind = FreeList | CleanList | DirtyList | BadList

  /** A list head: one per kind and parallel unit. */
  datatype ListId = ListId(kind: ListKind, punit: nat)

  type ListHeads = map<ListId, seq<nat>>

  function Remove(s: seq<nat>, x: nat): seq<nat> {
    if s == [] then [] else if s[0] == x then s[1..] else [s[0]] + Remove(s[1..], x)
  }

  lemma {:induction false} RemoveOk(s: seq<nat>, x: nat)
    requires NoDup(s)
    ensures NoDup(Remove(s, x))
    ensures forall y :: y in Remove(s, x) <==> y in s && y != x
    ensures |Remove(s, x)| == if x in s then |s| - 1 else |s|
    ensures x !in s ==> Remove(s, x) == s
  {
    if s != [] && s[0] != x {
      RemoveOk(s[1..], x);
      var r := Remove(s[1..], x);
      assert forall y :: y in s <==> y == s[0] || y in s[1..];
      assert s[0] !in s[1..];
      assert forall y :: y in [s[0]] + r <==> y == s[0] || y in r;
    }
  }

  // ---- the order of a list ---------------------------------------------------------------------

  /** y comes before z. */
  ghost predicate Before(l: seq<nat>, y: nat, z: nat) {
    exists i, j :: 0 <= i < j < |l| && l[i] == y && l[j] == z
  }

  /** All entries but b stand in the same order, and the same ones come before others. */
  ghost predicate SameOrder(l: seq<nat>, l': seq<nat>, b: nat) {
    forall y, z | y != b && z != b :: Before(l', y, z) <==> Before(l, y, z)
  }

  /** Block b has left whichever list held it and is the last entry of list `id`; every list has
      kept its other entries, in their order. */
  ghost predicate MovedToTail(lists: ListHeads, lists': ListHeads, b: nat, id: ListId) {
    && lists'.Keys == lists.Keys
    && id in lists' && lists'[id] != [] && lists'[id][|lists'[id]| - 1] == b
    && (forall x | x in lists && x != id :: b !in lists'[x])
    && forall x | x in lists :: SameOrder(lists[x], lists'[x], b) && forall y | y != b :: y in lists'[x] <==> y in lists[x]
  }

  lemma {:induction false} BeforeCons(x: nat, s: seq<nat>, y: nat, z: nat)
    ensures Before([x] + s, y, z) <==> (y == x && z in s) || Before(s, y, z)
  {
    var l := [x] + s;
    if i, j :| 0 <= i < j < |l| && l[i] == y && l[j] == z {
      assert l[j] == s[j - 1];
      if i > 0 { assert l[i] == s[i - 1]; }
    }
    if i, j :| 0 <= i < j < |s| && s[i] == y && s[j] == z { assert l[i + 1] == y && l[j + 1] == z; }
    if y == x && z in s {
      var j :| 0 <= j < |s| && s[j] == z;
      assert l[0] == y && l[j + 1] == z;
    }
  }

  lemma {:induction false} BeforeSnoc(s: seq<nat>, x: nat, y: nat, z: nat)
    ensures Before(s + [x], y, z) <==> (z == x && y in s) || Before(s, y, z)
  {
    var l := s + [x];
    if i, j :| 0 <= i < j < |l| && l[i] == y && l[j] == z { assert l[i] == s[i]; }
    if i, j :| 0 <= i < j < |s| && s[i] == y && s[j] == z { assert l[i] == y && l[j] == z; }
    if z == x && y in s {
      var i :| 0 <= i < |s| && s[i] == y;
      assert l[i] == y && l[|s|] == z;
    }
  }

  /** Taking one entry off keeps the order of the others. */
  lemma {:induction false} RemoveOrder(s: seq<nat>, x: nat, y: nat, z: nat)
    requires NoDup(s) && y != x && z != x
    ensures Before(Remove(s, x), y, z) <==> Before(s, y, z)
  {
    if s != [] {
      var rest := s[1..];
      assert s == [s[0]] + rest;
      BeforeCons(s[0], rest, y, z);
      if s[0] != x {
        RemoveOrder(rest, x, y, z);
        RemoveOk(rest, x);
        BeforeCons(s[0], Remove(rest, x), y, z);
      }
    }
  }

  /** list_del: take the block off whichever list holds it. */
  function Unlink(lists: ListHeads, b: nat): ListHeads {
    map id | id in lists :: Remove(lists[id], b)
  }

  /** list_del followed by list_add_tail. */
  function Relink(lists: ListHeads, b: nat, id: ListId): ListHeads {
    var l := Unlink(lists, b);
    if id in l then l[id := l[id] + [b]] else l
  }

  function KindOf(s: BlockStatus): ListKind {
    match s
    case Free => FreeList
    case FreePrepare => FreeList
    case Clean => CleanList
    case Dirty => DirtyList
    case Bad => BadList
  }

  /** The list a block belongs on: by status, on its own parallel unit. */
  function Home(b: Block): ListId {
    ListId(KindOf(b.status), b.punit)
  }

  /** How many blocks a unit's free list holds. */
  function FreeLen(lists: ListHeads, u: nat): nat {
    if ListId(FreeList, u) in lists then |lists[ListId(FreeList, u)]| else 0
  }

  ghost predicate ListOk(blocks: seq<Block>, l: seq<nat>, id: ListId) {
    && NoDup(l)
    && forall b: nat :: b in l <==> b < |blocks| && Home(blocks[b]) == id
  }

  /** Every list holds exactly the blocks whose home it is. */
  ghost predicate ListsOk(blocks: seq<Block>, lists: ListHeads, nrPunits: nat) {
    && (forall id: ListId :: id in lists <==> id.punit < nrPunits)
    && forall id | id in lists :: ListOk(blocks, lists[id], id)
  }

  /** Each block is on exactly one list, the one for its status and its parallel unit. */
  lemma {:induction false} OnExactlyOneList(blocks: seq<Block>, lists: ListHeads, nrPunits: nat, b: nat)
    requires ListsOk(blocks, lists, nrPunits) && b < |blocks| && blocks[b].punit < nrPunits
    ensures Home(blocks[b]) in lists && b in lists[Home(blocks[b])]
    ensures forall id | id in lists && b in lists[id] :: id == Home(blocks[b])
  {
    assert ListOk(blocks, lists[Home(blocks[b])], Home(blocks[b]));
    forall id | id in lists && b in lists[id] ensures id == Home(blocks[b]) {
      assert ListOk(blocks, lists[id], id);
    }
  }

  /** Changing one block's status and relinking it keeps the partition. */
  lemma {:induction false} RelinkOk(blocks: seq<Block>, lists: ListHeads, nrPunits: nat, b: nat, nb: Block)
    requires ListsOk(blocks, lists, nrPunits)
    requires b < |blocks| && nb.punit < nrPunits
    ensures ListsOk(blocks[b := nb], Relink(lists, b, Home(nb)), nrPunits)
  {
    var blocks', lists' := blocks[b := nb], Relink(lists, b, Home(nb));
    forall id | id in lists' ensures ListOk(blocks', lists'[id], id) {
      assert ListOk(blocks, lists[id], id);
      RemoveOk(lists[id], b);
      var r := Remove(lists[id], b);
      assert lists'[id] == if id == Home(nb) then r + [b] else r;
    }
  }

  /** list_del and list_add_tail move the block to the tail and disturb no other entry. */
  lemma {:induction false} RelinkMoves(blocks: seq<Block>, lists: ListHeads, nrPunits: nat, b: nat, id: ListId)
    requires ListsOk(blocks, lists, nrPunits) && id.punit < nrPunits
    ensures MovedToTail(lists, Relink(lists, b, id), b, id)
  {
    var lists' := Relink(lists, b, id);
    forall x | x in lists
      ensures x != id ==> b !in lists'[x]
      ensures SameOrder(lists[x], lists'[x], b) && forall y | y != b :: y in lists'[x] <==> y in lists[x]
    {
      assert ListOk(blocks, lists[x], x);
      var r := Remove(lists[x], b);
      RemoveOk(lists[x], b);
      assert lists'[x] == if x == id then r + [b] else r;
      forall y, z | y != b && z != b ensures Before(lists'[x], y, z) <==> Before(lists[x], y, z) {
        RemoveOrder(lists[x], b, y, z);
        BeforeSnoc(r, b, y, z);
      }
    }
  }

  lemma {:induction false} NothingBeforeFirst(l: seq<nat>, x: nat)
    requires NoDup(l) && l != []
    ensures !Before(l, x, l[0])
  {
  }

  /** Two lists with the same entries in the same order are the same list. */
  lemma {:induction false} OrderDetermines(l: seq<nat>, l': seq<nat>)
    requires NoDup(l) && NoDup(l') && (forall y :: y in l <==> y in l') && forall y, z :: Before(l, y, z) ==> Before(l', y, z)
    ensures l == l'
  {
    assert |l'| > 0 ==> l'[0] in l';
    if l != [] {
      var x, s := l[0], l[1..];
      assert l == [x] + s && x in l && l'[0] in l;
      BeforeCons(x, s, x, l'[0]);
      NothingBeforeFirst(l', x);
      var s' := l'[1..];
      assert l' == [x] + s';
      forall y ensures y in s <==> y in s' { assert y in l <==> y == x || y in s; assert y in l' <==> y == x || y in s'; }
      forall y, z | Before(s, y, z) ensures Before(s', y, z) {
        BeforeCons(x, s, y, z);
        BeforeCons(x, s', y, z);
        var i, j :| 0 <= i < j < |s| && s[i] == y && s[j] == z;
        assert y == l[i + 1];
      }
      OrderDetermines(s, s');
    }
  }

  /** Index order. */
  ghost predicate Ascending(l: seq<nat>) {
    forall y: nat, z: nat | Before(l, y, z) :: y < z
  }

  /** The entries below n stand at the end, in index order. */
  ghost predicate SortedBelow(l: seq<nat>, n: nat) {
    forall y: nat, z: nat | Before(l, y, z) && y < n :: y < z < n
  }

  /** Relinking block n in its turn keeps the sorted tail. */
  lemma {:induction false} SortedNext(lists: ListHeads, lists': ListHeads, n: nat, id: ListId)
    requires MovedToTail(lists, lists', n, id) && (forall x | x in lists :: SortedBelow(lists[x], n))
    requires forall x | x in lists' :: NoDup(lists'[x])
    ensures forall x | x in lists' :: SortedBelow(lists'[x], n + 1)
  {
    forall x | x in lists' ensures SortedBelow(lists'[x], n + 1) {
      var l := lists'[x];
      forall y: nat, z: nat | Before(l, y, z) && y < n + 1 ensures y < z < n + 1 {
        var i, j :| 0 <= i < j < |l| && l[i] == y && l[j] == z;
        assert l[i] in l && l[j] in l;
        if x == id { assert y != n by { assert l[|l| - 1] == n; } }
        if z != n {
          assert SameOrder(lists[x], l, n);
          assert Before(lists[x], y, z);
        }
      }
    }
  }

  /** Updating one block without changing its status keeps the partition as it is. */
  lemma {:induction false} SameHomeOk(blocks: seq<Block>, lists: ListHeads, nrPunits: nat, b: nat, nb: Block)
    requires ListsOk(blocks, lists, nrPunits)
    requires b < |blocks| && Home(nb) == Home(blocks[b])
    ensures ListsOk(blocks[b := nb], lists, nrPunits)
  {
    forall id | id in lists ensures ListOk(blocks[b := nb], lists[id], id) {
      assert ListOk(blocks, lists[id], id);
    }
  }

  /** Relinking moves one entry between lists and touches no other list's length. */
  lemma {:induction false} RelinkLengths(blocks: seq<Block>, lists: ListHeads, nrPunits: nat, b: nat, id: ListId)
    requires ListsOk(blocks, lists, nrPunits)
    requires b < |blocks| && id.punit < nrPunits
    ensures forall x: ListId | x.punit < nrPunits ::
              && x in lists && x in Relink(lists, b, id)
              && |Relink(lists, b, id)[x]| == |lists[x]| - (if x == Home(blocks[b]) then 1 else 0) + (if x == id then 1 else 0)
  {
    forall x: ListId | x.punit < nrPunits
      ensures x in lists && x in Relink(lists, b, id)
      ensures |Relink(lists, b, id)[x]| == |lists[x]| - (if x == Home(blocks[b]) then 1 else 0) + (if x == id then 1 else 0)
    {
      assert ListOk(blocks, lists[x], x);
      RemoveOk(lists[x], b);
    }
  }

  // ---- the free lists ---------------------------------------------------------------------------

  /** The blocks on a unit's free list, in order. */
  function FreeOf(lists: ListHeads, u: nat): seq<nat> {
    if ListId(FreeList, u) in lists then lists[ListId(FreeList, u)] else []
  }

  lemma {:induction false} FreeOfLength(lists: ListHeads, u: nat)
    ensures |FreeOf(lists, u)| == FreeLen(lists, u) && (ListId(FreeList, u) in lists ==> FreeOf(lists, u) == lists[ListId(FreeList, u)])
  {
  }

  /** Taking the first free block of a unit. */
  lemma {:induction false} FreeOfRelink(blocks: seq<Block>, lists: ListHeads, nrPunits: nat, u: nat, v: nat)
    requires ListsOk(blocks, lists, nrPunits) && u < nrPunits && v < nrPunits && FreeOf(lists, u) != []
    ensures FreeOf(Relink(lists, FreeOf(lists, u)[0], ListId(CleanList, u)), v) == if v == u then FreeOf(lists, u)[1..] else FreeOf(lists, v)
    ensures NoDup(FreeOf(lists, v)) && forall i | 0 <= i < |FreeOf(lists, v)| ::
              FreeOf(lists, v)[i] < |blocks| && blocks[FreeOf(lists, v)[i]].punit == v
  {
    var x, idu, idv := FreeOf(lists, u)[0], ListId(FreeList, u), ListId(FreeList, v);
    assert ListOk(blocks, lists[idu], idu) && ListOk(blocks, lists[idv], idv);
    assert x in lists[idu] && Home(blocks[x]) == idu;
    forall i | 0 <= i < |lists[idv]| ensures lists[idv][i] < |blocks| && blocks[lists[idv][i]].punit == v {
      assert lists[idv][i] in lists[idv];
    }
    RemoveOk(lists[idv], x);
  }

  /** Giving back a block in use. */
  lemma {:induction false} FreeOfGiven(blocks: seq<Block>, lists: ListHeads, nrPunits: nat, b: nat, bad: bool, v: nat)
    requires ListsOk(blocks, lists, nrPunits) && b < |blocks| && InUse(blocks[b]) && v < nrPunits
    ensures FreeOf(Relink(lists, b, ListId(if bad then BadList else FreeList, blocks[b].punit)), v)
         == FreeOf(lists, v) + if v == blocks[b].punit && !bad then [b] else []
  {
    var id := ListId(FreeList, v);
    assert ListOk(blocks, lists[id], id);
    RemoveOk(lists[id], b);
  }

  // ---- counting ------------------------------------------------------------------------

  function Count(blocks: seq<Block>, s: BlockStatus): nat {
    if blocks == [] then 0 else (if blocks[0].status == s then 1 else 0) + Count(blocks[1..], s)
  }

  lemma {:induction false} CountUpdate(blocks: seq<Block>, b: nat, nb: Block, s: BlockStatus)
    requires b < |blocks|
    ensures Count(blocks[b := nb], s)
         == Count(blocks, s) - (if blocks[b].status == s then 1 else 0) + (if nb.status == s then 1 else 0)
  {
    if b == 0 {
      assert blocks[b := nb][1..] == blocks[1..];
    } else {
      CountUpdate(blocks[1..], b - 1, nb, s);
      assert blocks[b := nb][1..] == blocks[1..][b - 1 := nb];
    }
  }

  /** The five counts sum to the number of blocks. */
  lemma {:induction false} CountTotal(blocks: seq<Block>)
    ensures Count(blocks, Free) + Count(blocks, FreePrepare) + Count(blocks, Clean)
          + Count(blocks, Dirty) + Count(blocks, Bad) == |blocks|
  {
    if blocks != [] { CountTotal(blocks[1..]); }
  }

  lemma {:induction false} CountPositive(blocks: seq<Block>, b: nat)
    requires b < |blocks|
    ensures Count(blocks, blocks[b].status) > 0
  {
    if b > 0 { CountPositive(blocks[1..], b - 1); }
  }

  lemma {:induction false} CountAll(blocks: seq<Block>, s: BlockStatus)
    requires forall i | 0 <= i < |blocks| :: blocks[i].status == s
    ensures forall t :: Count(blocks, t) == if t == s then |blocks| else 0
  {
    if blocks != [] { CountAll(blocks[1..], s); }
  }

  lemma {:induction false} CountZero(blocks: seq<Block>, s: BlockStatus)
    ensures Count(blocks, s) == 0 <==> forall i | 0 <= i < |blocks| :: blocks[i].status != s
  {
    if blocks != [] {
      CountZero(blocks[1..], s);
      assert forall i | 1 <= i < |blocks| :: blocks[i] == blocks[1..][i - 1];
    }
  }
}
