/** The per-unit request queues with per-address order tags (ftl/queue/prior_queue.c). */
module PriorQueue {
  import opened Common

  /** A queue item. `stamp` is its identity and counts enqueues; `second` tells the write half of
      a read-modify-write from its read half. */
  datatype Item = Item(stamp: nat, tag: nat, lpa: nat, req: nat, second: bool)

  /** The tag now being served for an address and the last one given out. */
  datatype Tag = Tag(cur: nat, max: nat)

  datatype Pq = Pq(qs: seq<seq<Item>>, tags: map<nat, Tag>, inUse: set<nat>, next: nat)

  function Create(n: nat): Pq {
    Pq(seq(n, _ => []), map[], {}, 0)
  }

  /** The tag table once a new tag has been drawn for lpa; the tag drawn is its maximum. */
  function NewTag(tags: map<nat, Tag>, lpa: nat): Tag {
    if lpa in tags then tags[lpa].(max := tags[lpa].max + 1) else Tag(1, 1)
  }

  function NewItem(p: Pq, lpa: nat, req: nat, second: bool): Item {
    Item(p.next, NewTag(p.tags, lpa).max, lpa, req, second)
  }

  function Enqueue(p: Pq, u: nat, lpa: nat, req: nat, second: bool): Pq
    requires u < |p.qs|
  {
    var t := NewTag(p.tags, lpa);
    p.(qs := p.qs[u := p.qs[u] + [NewItem(p, lpa, req, second)]], tags := p.tags[lpa := t], next := p.next + 1)
  }

  /** Only the head of a queue is looked at: it is handed out if it is not in use and its tag is
      the one being served for its address. */
  function Dequeue(p: Pq, u: nat): Option<Item>
    requires u < |p.qs|
  {
    if p.qs[u] != [] && p.qs[u][0].stamp !in p.inUse && Current(p, p.qs[u][0]) then Some(p.qs[u][0]) else None
  }

  predicate Current(p: Pq, x: Item) {
    x.lpa in p.tags && p.tags[x.lpa].cur == x.tag
  }

  function Mark(p: Pq, x: Item): Pq {
    p.(inUse := p.inUse + {x.stamp})
  }

  function Unlink(q: seq<Item>, stamp: nat): seq<Item> {
    if q == [] then [] else if q[0].stamp == stamp then q[1..] else [q[0]] + Unlink(q[1..], stamp)
  }

  function NextTag(tags: map<nat, Tag>, lpa: nat): map<nat, Tag> {
    if lpa !in tags then tags
    else if tags[lpa].max == tags[lpa].cur then tags - {lpa}
    else tags[lpa := tags[lpa].(cur := tags[lpa].cur + 1)]
  }

  function Remove(p: Pq, u: nat, x: Item): Pq
    requires u < |p.qs|
  {
    p.(qs := p.qs[u := Unlink(p.qs[u], x.stamp)], tags := NextTag(p.tags, x.lpa), inUse := p.inUse - {x.stamp})
  }

  // ---- the invariant --------------------------------------------------------------------------

  predicate Has(qs: seq<seq<Item>>, u: int, x: Item) {
    0 <= u < |qs| && x in qs[u]
  }

  predicate Fifo(q: seq<Item>) {
    forall i, j | 0 <= i < j < |q| :: q[i].stamp < q[j].stamp
  }

  /** Some queued item of lpa carries tag t. */
  ghost predicate Carried(qs: seq<seq<Item>>, lpa: nat, t: nat) {
    exists u, x :: Has(qs, u, x) && x.lpa == lpa && x.tag == t
  }

  ghost predicate TagsOk(p: Pq) {
    && (forall u, x | Has(p.qs, u, x) :: x.stamp < p.next && x.lpa in p.tags && p.tags[x.lpa].cur <= x.tag <= p.tags[x.lpa].max)
    && (forall l | l in p.tags :: p.tags[l].cur <= p.tags[l].max)
    && (forall l, t: nat | l in p.tags && p.tags[l].cur <= t <= p.tags[l].max :: Carried(p.qs, l, t))
  }

  /** Stamps identify items, and tags of one address follow the order of enqueuing. */
  ghost predicate Ordered(p: Pq) {
    && (forall u | 0 <= u < |p.qs| :: Fifo(p.qs[u]))
    && (forall u, x, v, y | Has(p.qs, u, x) && Has(p.qs, v, y) && x.stamp == y.stamp :: u == v && x == y)
    && (forall u, x, v, y | Has(p.qs, u, x) && Has(p.qs, v, y) && x.lpa == y.lpa && x.stamp < y.stamp :: x.tag < y.tag)
  }

  /** Whatever is in use is the head of its queue and current for its address. */
  ghost predicate UseOk(p: Pq) {
    forall u, x | Has(p.qs, u, x) && x.stamp in p.inUse :: x == p.qs[u][0] && Current(p, x)
  }

  ghost predicate PqInv(p: Pq) {
    TagsOk(p) && Ordered(p) && UseOk(p) && forall st | st in p.inUse :: st < p.next
  }

  lemma {:induction false} CreateInv(n: nat)
    ensures PqInv(Create(n))
  {
  }

  // ---- enqueue ---------------------------------------------------------------------------------

  lemma {:induction false} EnqueueHas(p: Pq, u: nat, lpa: nat, req: nat, second: bool)
    requires u < |p.qs|
    ensures forall v, y :: Has(Enqueue(p, u, lpa, req, second).qs, v, y) <==>
                             Has(p.qs, v, y) || (v == u && y == NewItem(p, lpa, req, second))
  {
  }

  lemma {:induction false} EnqueueTags(p: Pq, u: nat, lpa: nat, req: nat, second: bool)
    requires TagsOk(p) && u < |p.qs|
    ensures TagsOk(Enqueue(p, u, lpa, req, second))
  {
    var p' := Enqueue(p, u, lpa, req, second);
    EnqueueHas(p, u, lpa, req, second);
    var n := NewItem(p, lpa, req, second);
    forall l, t: nat | l in p'.tags && p'.tags[l].cur <= t <= p'.tags[l].max ensures Carried(p'.qs, l, t) {
      if l == lpa && t == n.tag {
        assert Has(p'.qs, u, n);
      } else {
        assert Carried(p.qs, l, t);
        var v, y :| Has(p.qs, v, y) && y.lpa == l && y.tag == t;
        assert Has(p'.qs, v, y);
      }
    }
  }

  lemma {:induction false} EnqueueOrdered(p: Pq, u: nat, lpa: nat, req: nat, second: bool)
    requires TagsOk(p) && Ordered(p) && u < |p.qs|
    ensures Ordered(Enqueue(p, u, lpa, req, second))
  {
    var p' := Enqueue(p, u, lpa, req, second);
    EnqueueHas(p, u, lpa, req, second);
    forall v | 0 <= v < |p'.qs| ensures Fifo(p'.qs[v]) {
      assert Fifo(p.qs[v]);
      assert forall i | 0 <= i < |p.qs[u]| :: Has(p.qs, u, p.qs[u][i]);
    }
  }

  lemma {:induction false} EnqueueInv(p: Pq, u: nat, lpa: nat, req: nat, second: bool)
    requires PqInv(p) && u < |p.qs|
    ensures PqInv(Enqueue(p, u, lpa, req, second))
  {
    var p' := Enqueue(p, u, lpa, req, second);
    EnqueueTags(p, u, lpa, req, second);
    EnqueueOrdered(p, u, lpa, req, second);
    EnqueueHas(p, u, lpa, req, second);
    hide TagsOk, Ordered;
    assert UseOk(p') by {
      forall v, x | Has(p'.qs, v, x) && x.stamp in p'.inUse ensures x == p'.qs[v][0] && Current(p', x) {
        assert Has(p.qs, v, x);
      }
    }
  }

  // ---- dequeue ---------------------------------------------------------------------------------

  lemma {:induction false} DequeueInv(p: Pq, u: nat)
    requires PqInv(p) && u < |p.qs| && Dequeue(p, u).Some?
    ensures PqInv(Mark(p, Dequeue(p, u).value))
  {
    var x := Dequeue(p, u).value;
    assert Has(p.qs, u, x);
    assert UseOk(Mark(p, x)) by {
      forall v, y | Has(p.qs, v, y) && y.stamp in p.inUse + {x.stamp} ensures y == p.qs[v][0] && Current(p, y) {}
    }
  }

  // ---- remove ----------------------------------------------------------------------------------

  /** The item removed is its queue's head. */
  lemma {:induction false} RemoveHas(p: Pq, u: nat, x: Item)
    requires PqInv(p) && Has(p.qs, u, x) && x.stamp in p.inUse
    ensures Remove(p, u, x).qs == p.qs[u := p.qs[u][1..]]
    ensures forall v, y :: Has(Remove(p, u, x).qs, v, y) <==> Has(p.qs, v, y) && y != x
  {
    var q := p.qs[u];
    assert q[0] == x;
    assert Unlink(q, x.stamp) == q[1..];
    forall v, y ensures Has(Remove(p, u, x).qs, v, y) <==> Has(p.qs, v, y) && y != x {
      if v == u {
        assert forall i | 1 <= i < |q| :: q[0].stamp < q[i].stamp;
        assert q == [q[0]] + q[1..];
      } else if Has(p.qs, v, y) && y == x {
        assert false;
      }
    }
  }

  lemma {:induction false} RemoveTags(p: Pq, u: nat, x: Item)
    requires PqInv(p) && Has(p.qs, u, x) && x.stamp in p.inUse
    ensures TagsOk(Remove(p, u, x))
  {
    var p' := Remove(p, u, x);
    RemoveHas(p, u, x);
    assert Current(p, x);
    forall v, y | Has(p'.qs, v, y) ensures y.stamp < p'.next && y.lpa in p'.tags && p'.tags[y.lpa].cur <= y.tag <= p'.tags[y.lpa].max {
      assert Has(p.qs, v, y);
      if y.lpa == x.lpa { LaterTag(p, u, x, v, y); }
    }
    forall l, t: nat | l in p'.tags && p'.tags[l].cur <= t <= p'.tags[l].max ensures Carried(p'.qs, l, t) {
      assert Carried(p.qs, l, t);
      var v, y :| Has(p.qs, v, y) && y.lpa == l && y.tag == t;
      assert Has(p'.qs, v, y);
    }
  }

  /** The other items of an address in service carry later tags. */
  lemma {:induction false} LaterTag(p: Pq, u: nat, x: Item, v: nat, y: Item)
    requires PqInv(p) && Has(p.qs, u, x) && Current(p, x) && Has(p.qs, v, y) && y != x && y.lpa == x.lpa
    ensures x.stamp < y.stamp && x.tag < y.tag
  {
  }

  lemma {:induction false} RemoveInv(p: Pq, u: nat, x: Item)
    requires PqInv(p) && Has(p.qs, u, x) && x.stamp in p.inUse
    ensures PqInv(Remove(p, u, x))
  {
    var p' := Remove(p, u, x);
    RemoveHas(p, u, x);
    RemoveTags(p, u, x);
    assert Ordered(p') by {
      forall v | 0 <= v < |p'.qs| ensures Fifo(p'.qs[v]) { assert Fifo(p.qs[v]); }
    }
    assert UseOk(p') by {
      forall v, y | Has(p'.qs, v, y) && y.stamp in p'.inUse ensures y == p'.qs[v][0] && Current(p', y) {
        assert Has(p.qs, v, y) && y == p.qs[v][0];
        OneInServicePerAddress(p, u, x, v, y);
        assert v != u;
      }
    }
  }

  // ---- order and progress ----------------------------------------------------------------------

  /** No two requests for one address are in service together. */
  lemma {:induction false} OneInServicePerAddress(p: Pq, u: nat, x: Item, v: nat, y: Item)
    requires PqInv(p) && Has(p.qs, u, x) && Has(p.qs, v, y)
    requires x.stamp in p.inUse && y.stamp in p.inUse
    ensures x.lpa == y.lpa ==> u == v && x == y
  {
    if x.lpa == y.lpa && x != y { LaterTag(p, u, x, v, y); LaterTag(p, v, y, u, x); }
  }

  /** What a queue hands out is the oldest item of its address in any queue. */
  lemma {:induction false} OldestOfAddressFirst(p: Pq, u: nat, v: nat, y: Item)
    requires PqInv(p) && u < |p.qs| && Dequeue(p, u).Some?
    requires Has(p.qs, v, y) && y.lpa == Dequeue(p, u).value.lpa && y != Dequeue(p, u).value
    ensures Dequeue(p, u).value.stamp < y.stamp
  {
    var x := Dequeue(p, u).value;
    assert Has(p.qs, u, x);
    LaterTag(p, u, x, v, y);
  }

  /** The queue whose head is oldest among the first n queues. */
  lemma {:induction false} OldestHead(p: Pq, n: nat) returns (u: nat)
    requires Ordered(p) && n <= |p.qs| && exists v | 0 <= v < n :: p.qs[v] != []
    ensures u < n && p.qs[u] != []
    ensures forall v, y | v < n && Has(p.qs, v, y) :: p.qs[u][0].stamp <= y.stamp
  {
    if exists v | 0 <= v < n - 1 :: p.qs[v] != [] {
      u := OldestHead(p, n - 1);
      if p.qs[n - 1] != [] && p.qs[n - 1][0].stamp < p.qs[u][0].stamp { u := n - 1; }
    } else {
      u := n - 1;
    }
    forall v, y | v < n && Has(p.qs, v, y) ensures p.qs[u][0].stamp <= y.stamp {
      assert Fifo(p.qs[v]);
      var k :| 0 <= k < |p.qs[v]| && p.qs[v][k] == y;
      assert p.qs[v][0].stamp <= y.stamp;
    }
  }

  /** Looking only at heads cannot block: the oldest item of all is the head of its queue, and it
      is in service or is handed out on the next look. */
  lemma {:induction false} NeverBlocked(p: Pq) returns (u: nat)
    requires PqInv(p) && exists v | 0 <= v < |p.qs| :: p.qs[v] != []
    ensures u < |p.qs| && p.qs[u] != []
    ensures p.qs[u][0].stamp in p.inUse || Dequeue(p, u) == Some(p.qs[u][0])
  {
    u := OldestHead(p, |p.qs|);
    var x := p.qs[u][0];
    assert Has(p.qs, u, x);
    var t := p.tags[x.lpa];
    assert Carried(p.qs, x.lpa, t.cur);
    var v, y :| Has(p.qs, v, y) && y.lpa == x.lpa && y.tag == t.cur;
    assert x.stamp <= y.stamp;
  }
}
