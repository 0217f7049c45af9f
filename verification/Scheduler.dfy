/** The per-unit scheduler (ftl/llm_mq.c) with the RAM device's request slots and the host's
    completion count, as a step relation over all interleavings. */
module Scheduler {
  import opened Common
  import opened PriorQueue

  datatype Kind = Plain | RmwRead | RmwWrite

  /** A request's queue item: not enqueued yet, in a queue, or removed after service. */
  datatype Part = NotYet | Queued(stamp: nat) | Served

  datatype Outcome = Pending | Unlocking | Reporting | Reported

  /** A low-level request. A read-modify-write reads at src and then writes at dst; a plain request
      has only src. `unit` is the unit of its present physical address. */
  datatype Req = Req(kind: Kind, unit: nat, src: nat, dst: nat, lpa: nat, host: nat, item: Option<Item>,
                     first: Part, second: Part, outcome: Outcome)

  /** A host request: its low-level requests, the ones reported, and the counter of the latter. */
  datatype Host = Host(subs: set<nat>, finished: set<nat>, done: nat)

  /** Where the request in flight on a unit is: dequeued by the dispatcher, on the device, completed,
      unlocked before its item is removed (a read half), or removed before the unlock. */
  datatype Stage = Free | Taken(r: nat) | OnDevice(r: nat) | Done(r: nat) | ReadUnlocked(r: nat) | Removed(r: nat)

  /** The device has read or written for an item at its unit. */
  datatype Op = Op(unit: nat, item: Item)

  datatype State = State(
    pq: Pq, locks: seq<bool>, slots: seq<Option<nat>>, stage: seq<Stage>,
    reqs: seq<Req>, hosts: seq<Host>, ended: seq<nat>,
    log: seq<Item>,   // items in the order of their removal
    device: seq<Op>,  // what the device has done, in order
    fault: bool)

  datatype Step =
    | Arrive(news: seq<Req>)
    | Put(r: nat)
    | Dispatch(u: nat)
    | Send(u: nat)
    | Complete(u: nat)
    | Handler(u: nat)
    | Report(r: nat)

  function Units(s: State): nat {
    |s.pq.qs|
  }

  /** A request as the host side makes it. */
  predicate Arriving(r: Req, host: nat, units: nat) {
    && !r.kind.RmwWrite? && r.unit == r.src < units && r.dst < units && r.host == host
    && r.item.None? && r.first.NotYet? && r.second.NotYet? && r.outcome.Pending?
  }

  predicate Shaped(s: State) {
    |s.locks| == Units(s) && |s.slots| == Units(s) && |s.stage| == Units(s)
  }

  predicate Init(s: State) {
    && s.pq == Create(|s.locks|) && Shaped(s) && s.reqs == [] && s.hosts == [] && s.ended == [] && s.log == [] && s.device == [] && !s.fault
    && forall u | 0 <= u < |s.locks| :: !s.locks[u] && s.slots[u].None? && s.stage[u].Free?
  }

  /** A look at a locked unit, or at a head that may not go, leaves everything as it was. */
  predicate Enabled(s: State, step: Step) {
    Shaped(s) &&
    match step
    case Arrive(news) => news != [] && forall i | 0 <= i < |news| :: Arriving(news[i], |s.hosts|, Units(s))
    case Put(r) => r < |s.reqs| && (s.reqs[r].first.NotYet? || (!s.reqs[r].kind.Plain? && s.reqs[r].second.NotYet?))
                   && s.reqs[r].src < Units(s) && s.reqs[r].dst < Units(s)
    case Dispatch(u) => u < Units(s) && !s.locks[u] && Dequeue(s.pq, u).Some? && Dequeue(s.pq, u).value.req < |s.reqs|
    case Send(u) => u < Units(s) && s.stage[u].Taken? && s.stage[u].r < |s.reqs|
    case Complete(u) => u < Units(s) && s.slots[u].Some?
    case Handler(u) => u < Units(s) && (s.stage[u].Done? || s.stage[u].ReadUnlocked? || s.stage[u].Removed?)
                       && s.stage[u].r < |s.reqs|
    case Report(r) => r < |s.reqs| && s.reqs[r].outcome.Reporting? && s.reqs[r].host < |s.hosts|
  }

  function Ids(lo: nat, hi: nat): (ids: set<nat>)
    requires lo <= hi
    ensures forall i: nat :: i in ids <==> lo <= i < hi
    ensures |ids| == hi - lo
    decreases hi - lo
  {
    if lo == hi then {} else Ids(lo, hi - 1) + {hi - 1}
  }

  function Unlock(locks: seq<bool>, u: nat): seq<bool> {
    if u < |locks| then locks[u := false] else locks
  }

  /** Take the request's item out of its queue. */
  function Unqueue(s: State, r: nat): State
    requires r < |s.reqs|
  {
    var q := s.reqs[r];
    if q.item.None? || q.unit >= Units(s) then s.(fault := true)
    else
      var x := q.item.value;
      s.(pq := Remove(s.pq, q.unit, x), log := s.log + [x],
         reqs := s.reqs[r := if x.second then q.(second := Served) else q.(first := Served)])
  }

  function Next(s: State, step: Step): State
    requires Enabled(s, step)
  {
    match step
    case Arrive(news) =>
      s.(reqs := s.reqs + news, hosts := s.hosts + [Host(Ids(|s.reqs|, |s.reqs| + |news|), {}, 0)])
    case Put(r) =>
      var q := s.reqs[r];
      if q.first.NotYet? then
        s.(pq := Enqueue(s.pq, q.src, q.lpa, r, false), reqs := s.reqs[r := q.(first := Queued(s.pq.next))])
      else
        s.(pq := Enqueue(s.pq, q.dst, q.lpa, r, true), reqs := s.reqs[r := q.(second := Queued(s.pq.next))])
    case Dispatch(u) =>
      var x := Dequeue(s.pq, u).value;
      s.(pq := Mark(s.pq, x), locks := s.locks[u := true], stage := s.stage[u := Taken(x.req)],
         reqs := s.reqs[x.req := s.reqs[x.req].(item := Some(x))])
    case Send(u) =>
      var r := s.stage[u].r;
      var v := s.reqs[r].unit;
      if v < Units(s) && s.slots[v].None? then s.(slots := s.slots[v := Some(r)], stage := s.stage[u := OnDevice(r)])
      else s.(stage := s.stage[u := OnDevice(r)], fault := true)
    case Complete(u) =>
      var r := s.slots[u].value;
      if s.stage[u] == OnDevice(r) then
        s.(slots := s.slots[u := None], stage := s.stage[u := Done(r)],
           device := if r < |s.reqs| && s.reqs[r].item.Some? then s.device + [Op(u, s.reqs[r].item.value)] else s.device)
      else s.(slots := s.slots[u := None], fault := true)
    case Handler(u) => HandlerStep(s, u)
    case Report(r) => ReportStep(s, r)
  }

  /** The completion handler. A read half unlocks its unit, turns into the write half and removes
      its item; anything else removes its item, unlocks its unit and is reported. */
  function HandlerStep(s: State, u: nat): State
    requires Enabled(s, Handler(u))
  {
    var r := s.stage[u].r;
    var q := s.reqs[r];
    if s.stage[u].Removed? then
      s.(locks := Unlock(s.locks, q.unit), stage := s.stage[u := Free], reqs := s.reqs[r := q.(outcome := Reporting)])
    else if s.stage[u].ReadUnlocked? then
      var s1 := Unqueue(s, r);
      s1.(stage := s.stage[u := Free], reqs := s1.reqs[r := s1.reqs[r].(kind := RmwWrite, unit := q.dst)])
    else if q.kind.RmwRead? then
      s.(locks := Unlock(s.locks, q.unit), stage := s.stage[u := ReadUnlocked(r)])
    else
      var s1 := Unqueue(s, r);
      s1.(stage := s.stage[u := Removed(r)], reqs := s1.reqs[r := s1.reqs[r].(outcome := Unlocking)])
  }

  /** Count a finished request and end the host request on the last. */
  function ReportStep(s: State, r: nat): State
    requires Enabled(s, Report(r))
  {
    var q := s.reqs[r];
    var h := s.hosts[q.host];
    var h' := Host(h.subs, h.finished + {r}, h.done + 1);
    s.(reqs := s.reqs[r := q.(outcome := Reported)], hosts := s.hosts[q.host := h'],
       ended := if h'.done == |h'.subs| then s.ended + [q.host] else s.ended)
  }

  // ---- the invariant ---------------------------------------------------------------------------

  predicate HeadIdle(s: State, u: nat)
    requires u < Units(s)
  {
    s.pq.qs[u] != [] ==> s.pq.qs[u][0].stamp !in s.pq.inUse
  }

  /** The head of u's queue is in use by request r, whose address is on u. */
  predicate Heads(s: State, u: nat, r: nat)
    requires u < Units(s)
  {
    && s.pq.qs[u] != [] && r < |s.reqs|
    && var x := s.pq.qs[u][0];
       x.stamp in s.pq.inUse && x.req == r && s.reqs[r].item == Some(x) && s.reqs[r].unit == u
       && (x.second <==> s.reqs[r].kind.RmwWrite?)
  }

  predicate UnitOk(s: State, u: nat)
    requires Shaped(s) && u < Units(s)
  {
    match s.stage[u]
    case Free => !s.locks[u] && s.slots[u].None? && HeadIdle(s, u)
    case Taken(r) => s.locks[u] && s.slots[u].None? && Heads(s, u, r)
    case OnDevice(r) => s.locks[u] && s.slots[u] == Some(r) && Heads(s, u, r)
    case Done(r) => s.locks[u] && s.slots[u].None? && Heads(s, u, r)
    case ReadUnlocked(r) => !s.locks[u] && s.slots[u].None? && Heads(s, u, r) && s.reqs[r].kind.RmwRead?
    case Removed(r) => s.locks[u] && s.slots[u].None? && HeadIdle(s, u)
                       && r < |s.reqs| && s.reqs[r].outcome.Unlocking? && s.reqs[r].unit == u
  }

  function QueueOf(q: Req, second: bool): nat {
    if second then q.dst else q.src
  }

  function PartOf(q: Req, second: bool): Part {
    if second then q.second else q.first
  }

  /** A queued item is the one its request knows of, in the right queue. */
  predicate ItemOk(reqs: seq<Req>, u: int, x: Item) {
    && x.req < |reqs|
    && var q := reqs[x.req];
       q.lpa == x.lpa && PartOf(q, x.second) == Queued(x.stamp) && u == QueueOf(q, x.second) && (x.second ==> !q.kind.Plain?)
  }

  ghost predicate Found(qs: seq<seq<Item>>, r: nat, second: bool, stamp: nat) {
    exists u, x :: Has(qs, u, x) && x.stamp == stamp && x.req == r && x.second == second
  }

  /** How far a request can be, by kind. */
  predicate ReqOk(q: Req, units: nat) {
    && q.src < units && q.dst < units && q.unit == QueueOf(q, q.kind.RmwWrite?)
    && match q.kind
       case Plain => q.second.NotYet? && (q.outcome.Pending? <==> !q.first.Served?)
       case RmwRead => && !q.first.Served? && !q.second.Served? && q.outcome.Pending?
                       && (q.second.Queued? ==> q.first.Queued? && q.first.stamp < q.second.stamp)
       case RmwWrite => q.first.Served? && (q.outcome.Pending? <==> !q.second.Served?)
  }

  ghost predicate ReqsOk(s: State) {
    forall r | 0 <= r < |s.reqs| ::
      && ReqOk(s.reqs[r], Units(s))
      && (s.reqs[r].first.Queued? ==> Found(s.pq.qs, r, false, s.reqs[r].first.stamp))
      && (s.reqs[r].second.Queued? ==> Found(s.pq.qs, r, true, s.reqs[r].second.stamp))
      && (s.reqs[r].outcome.Unlocking? && Shaped(s) ==> s.stage[s.reqs[r].unit] == Removed(r))
  }

  ghost predicate ItemsOk(s: State) {
    forall u, x | Has(s.pq.qs, u, x) :: ItemOk(s.reqs, u, x)
  }

  ghost predicate UnitsOk(s: State) {
    Shaped(s) && forall u | 0 <= u < Units(s) :: UnitOk(s, u)
  }

  predicate SubOf(hosts: seq<Host>, h: int, r: nat) {
    0 <= h < |hosts| && r in hosts[h].subs
  }

  ghost predicate HostsOk(reqs: seq<Req>, hosts: seq<Host>, ended: seq<nat>) {
    && (forall r | 0 <= r < |reqs| ::
          reqs[r].host < |hosts| && r in hosts[reqs[r].host].subs
          && (reqs[r].outcome.Reported? <==> r in hosts[reqs[r].host].finished))
    && (forall h, r: nat | SubOf(hosts, h, r) :: r < |reqs| && reqs[r].host == h)
    && (forall h | 0 <= h < |hosts| ::
          hosts[h].subs != {} && hosts[h].finished <= hosts[h].subs && hosts[h].done == |hosts[h].finished|)
    && NoDup(ended)
    && (forall h | h in ended :: h < |hosts|)
    && (forall h | 0 <= h < |hosts| :: h in ended <==> hosts[h].finished == hosts[h].subs)
  }

  /** Items of one address leave in the order they came. */
  ghost predicate LogOk(s: State) {
    && (forall i, j | 0 <= i < j < |s.log| && s.log[i].lpa == s.log[j].lpa :: s.log[i].stamp < s.log[j].stamp)
    && (forall i | 0 <= i < |s.log| :: s.log[i].stamp < s.pq.next)
    && (forall i, u, x | 0 <= i < |s.log| && Has(s.pq.qs, u, x) && s.log[i].lpa == x.lpa :: s.log[i].stamp < x.stamp)
  }

  ghost predicate Inv(s: State) {
    !s.fault && PqInv(s.pq) && UnitsOk(s) && ItemsOk(s) && ReqsOk(s) && LogOk(s) && HostsOk(s.reqs, s.hosts, s.ended)
  }

  lemma {:induction false} InitInv(s: State)
    requires Init(s)
    ensures Inv(s)
  {
    CreateInv(|s.locks|);
  }

  // ---- each step keeps the invariant ----------------------------------------------------------

  /** What a unit's situation depends on is the same in both states. */
  ghost predicate Untouched(s: State, s': State, v: nat)
    requires Shaped(s) && Shaped(s') && Units(s') == Units(s) && v < Units(s)
  {
    && s'.stage[v] == s.stage[v] && s'.locks[v] == s.locks[v] && s'.slots[v] == s.slots[v]
    && |s.reqs| <= |s'.reqs|
    && (forall r | 0 <= r < |s.reqs| && s.reqs[r].unit == v ::
          s'.reqs[r].kind == s.reqs[r].kind && s'.reqs[r].unit == v && s'.reqs[r].item == s.reqs[r].item
          && s'.reqs[r].outcome == s.reqs[r].outcome)
    && (s.pq.qs[v] != [] ==>
          s'.pq.qs[v] != [] && s'.pq.qs[v][0] == s.pq.qs[v][0]
          && (s'.pq.qs[v][0].stamp in s'.pq.inUse <==> s.pq.qs[v][0].stamp in s.pq.inUse))
    && (s.pq.qs[v] == [] && s'.pq.qs[v] != [] ==> s'.pq.qs[v][0].stamp !in s'.pq.inUse)
  }

  lemma {:induction false} UntouchedUnit(s: State, s': State, v: nat)
    requires Shaped(s) && Shaped(s') && Units(s') == Units(s) && v < Units(s) && UnitOk(s, v) && Untouched(s, s', v)
    ensures UnitOk(s', v)
  {
  }

  lemma {:induction false} ArriveHosts(s: State, news: seq<Req>)
    requires HostsOk(s.reqs, s.hosts, s.ended) && Enabled(s, Arrive(news))
    ensures var s' := Next(s, Arrive(news)); HostsOk(s'.reqs, s'.hosts, s'.ended)
  {
    var s' := Next(s, Arrive(news));
    forall r | 0 <= r < |s'.reqs| ensures s'.reqs[r].host < |s'.hosts| && r in s'.hosts[s'.reqs[r].host].subs
      && (s'.reqs[r].outcome.Reported? <==> r in s'.hosts[s'.reqs[r].host].finished)
    {
      if r >= |s.reqs| { assert Arriving(news[r - |s.reqs|], |s.hosts|, Units(s)); }
    }
    forall h, r: nat | SubOf(s'.hosts, h, r) ensures r < |s'.reqs| && s'.reqs[r].host == h {
      if h == |s.hosts| {
        assert r in Ids(|s.reqs|, |s'.reqs|);
        assert Arriving(news[r - |s.reqs|], |s.hosts|, Units(s));
      } else {
        assert SubOf(s.hosts, h, r);
      }
    }
    assert |s.reqs| in s'.hosts[|s.hosts|].subs;
  }

  lemma {:induction false} HostsFrame(reqs: seq<Req>, reqs': seq<Req>, hosts: seq<Host>, ended: seq<nat>)
    requires HostsOk(reqs, hosts, ended) && |reqs'| == |reqs|
    requires forall r | 0 <= r < |reqs| ::
               reqs'[r].host == reqs[r].host && (reqs'[r].outcome.Reported? <==> reqs[r].outcome.Reported?)
    ensures HostsOk(reqs', hosts, ended)
  {
  }

  lemma {:induction false} ArriveInv(s: State, news: seq<Req>)
    requires Inv(s) && Enabled(s, Arrive(news))
    ensures Inv(Next(s, Arrive(news)))
  {
    var s' := Next(s, Arrive(news));
    ArriveHosts(s, news);
    hide PqInv, HostsOk;
    assert UnitsOk(s') by {
      forall v | 0 <= v < Units(s) ensures UnitOk(s', v) { UntouchedUnit(s, s', v); }
    }
    assert ItemsOk(s') by { hide UnitOk; }
    assert ReqsOk(s') by {
      hide UnitOk, ItemOk;
      forall r | |s.reqs| <= r < |s'.reqs| ensures ReqOk(s'.reqs[r], Units(s)) && s'.reqs[r].first.NotYet? && s'.reqs[r].second.NotYet? && s'.reqs[r].outcome.Pending? {
        assert Arriving(news[r - |s.reqs|], |s.hosts|, Units(s));
      }
    }
  }

  lemma {:induction false} PutReqs(s: State, r: nat)
    requires Inv(s) && Enabled(s, Put(r))
    ensures ReqsOk(Next(s, Put(r)))
  {
    var s' := Next(s, Put(r));
    var q := s.reqs[r];
    var second := !q.first.NotYet?;
    var u := QueueOf(q, second);
    EnqueueHas(s.pq, u, q.lpa, r, second);
    assert Has(s'.pq.qs, u, NewItem(s.pq, q.lpa, r, second));
    assert Found(s'.pq.qs, r, second, s.pq.next);
    forall i, b, st | Found(s.pq.qs, i, b, st) ensures Found(s'.pq.qs, i, b, st) {
      var v, x :| Has(s.pq.qs, v, x) && x.stamp == st && x.req == i && x.second == b;
      assert Has(s'.pq.qs, v, x);
    }
    if second && q.first.Queued? {
      assert Found(s.pq.qs, r, false, q.first.stamp);
      assert q.first.stamp < s.pq.next;
    }
    hide PqInv, UnitsOk, ItemsOk, LogOk, HostsOk, Found;
    assert ReqOk(s'.reqs[r], Units(s));
  }

  lemma {:induction false} PutUnits(s: State, r: nat)
    requires Inv(s) && Enabled(s, Put(r))
    ensures UnitsOk(Next(s, Put(r)))
  {
    var s' := Next(s, Put(r));
    assert s.pq.next !in s.pq.inUse;
    hide PqInv, ItemsOk, ReqsOk, LogOk, HostsOk, UnitOk;
    forall v | 0 <= v < Units(s) ensures UnitOk(s', v) { UntouchedUnit(s, s', v); }
  }

  lemma {:induction false} PutItems(s: State, r: nat)
    requires Inv(s) && Enabled(s, Put(r))
    ensures ItemsOk(Next(s, Put(r)))
  {
    var q := s.reqs[r];
    var second := !q.first.NotYet?;
    EnqueueHas(s.pq, QueueOf(q, second), q.lpa, r, second);
    hide PqInv, UnitsOk, ReqsOk, LogOk, HostsOk;
  }

  lemma {:induction false} PutLog(s: State, r: nat)
    requires Inv(s) && Enabled(s, Put(r))
    ensures LogOk(Next(s, Put(r)))
  {
    var q := s.reqs[r];
    var second := !q.first.NotYet?;
    EnqueueHas(s.pq, QueueOf(q, second), q.lpa, r, second);
    hide PqInv, UnitsOk, ReqsOk, ItemsOk, HostsOk;
  }

  lemma {:induction false} PutInv(s: State, r: nat)
    requires Inv(s) && Enabled(s, Put(r))
    ensures Inv(Next(s, Put(r)))
  {
    PutReqs(s, r);
    PutUnits(s, r);
    PutItems(s, r);
    PutLog(s, r);
    hide PqInv, UnitsOk, ReqsOk, HostsOk, ItemsOk, LogOk;
    var q := s.reqs[r];
    var second := !q.first.NotYet?;
    EnqueueInv(s.pq, QueueOf(q, second), q.lpa, r, second);
    HostsFrame(s.reqs, Next(s, Put(r)).reqs, s.hosts, s.ended);
  }

  /** Only the write half that is due is dispatched: while the read half is queued, its tag keeps
      the write half back. */
  lemma {:induction false} DispatchedHalf(s: State, u: nat)
    requires Inv(s) && Enabled(s, Dispatch(u))
    ensures var x := Dequeue(s.pq, u).value; s.reqs[x.req].unit == u && (x.second <==> s.reqs[x.req].kind.RmwWrite?)
  {
    var x := Dequeue(s.pq, u).value;
    assert Has(s.pq.qs, u, x);
    var q := s.reqs[x.req];
    assert ItemOk(s.reqs, u, x) && ReqOk(q, Units(s));
    hide UnitsOk, HostsOk, LogOk;
    if x.second && q.kind.RmwRead? {
      assert Found(s.pq.qs, x.req, false, q.first.stamp);
      var v, y :| Has(s.pq.qs, v, y) && y.stamp == q.first.stamp && y.req == x.req && !y.second;
      assert ItemOk(s.reqs, v, y);
      LaterTag(s.pq, u, x, v, y);
    }
  }

  lemma {:induction false} DispatchUnits(s: State, u: nat)
    requires Inv(s) && Enabled(s, Dispatch(u))
    ensures UnitsOk(Next(s, Dispatch(u)))
  {
    var s' := Next(s, Dispatch(u));
    var x := Dequeue(s.pq, u).value;
    DispatchedHalf(s, u);
    assert Has(s.pq.qs, u, x);
    assert UnitOk(s, u);
    assert UnitOk(s', u);
    forall v | 0 <= v < Units(s) && v != u ensures UnitOk(s', v) {
      if s.pq.qs[v] != [] { assert Has(s.pq.qs, v, s.pq.qs[v][0]); }
      hide TagsOk, UseOk, ItemsOk, ReqsOk, LogOk, HostsOk, UnitOk;
      UntouchedUnit(s, s', v);
    }
  }

  lemma {:induction false} DispatchInv(s: State, u: nat)
    requires Inv(s) && Enabled(s, Dispatch(u))
    ensures Inv(Next(s, Dispatch(u)))
  {
    DispatchUnits(s, u);
    DequeueInv(s.pq, u);
    hide PqInv, UnitsOk, HostsOk;
    HostsFrame(s.reqs, Next(s, Dispatch(u)).reqs, s.hosts, s.ended);
    DispatchReqs(s, u);
  }

  lemma {:induction false} DispatchReqs(s: State, u: nat)
    requires Inv(s) && Enabled(s, Dispatch(u))
    ensures ReqsOk(Next(s, Dispatch(u)))
  {
    var s' := Next(s, Dispatch(u));
    DispatchedHalf(s, u);
    assert !s.stage[u].Removed? by { assert UnitOk(s, u); }
    hide PqInv, UnitsOk, HostsOk, ItemsOk, LogOk, Found;
    forall r | 0 <= r < |s.reqs| ensures s'.reqs[r].outcome.Unlocking? ==> s'.stage[s'.reqs[r].unit] == Removed(r) {
      assert ReqOk(s.reqs[r], Units(s));
    }
  }

  lemma {:induction false} SendInv(s: State, u: nat)
    requires Inv(s) && Enabled(s, Send(u))
    ensures Inv(Next(s, Send(u)))
  {
    var s' := Next(s, Send(u));
    assert UnitOk(s, u);
    hide PqInv, ItemsOk, LogOk, HostsOk, Found;
    assert UnitsOk(s') by {
      hide ReqsOk;
      forall v | 0 <= v < Units(s) && v != u ensures UnitOk(s', v) {
        hide UnitOk;
        UntouchedUnit(s, s', v);
      }
    }
    StageFrame(s, s', u);
  }

  /** Moving a unit's stage, not to or from Removed. */
  lemma {:induction false} StageFrame(s: State, s': State, u: nat)
    requires ReqsOk(s) && Shaped(s) && Shaped(s') && u < Units(s)
    requires s'.reqs == s.reqs && s'.pq == s.pq && s'.stage == s.stage[u := s'.stage[u]] && !s.stage[u].Removed?
    ensures ReqsOk(s')
  {
    hide Found;
    forall r | 0 <= r < |s.reqs| ensures s'.reqs[r].outcome.Unlocking? ==> s'.stage[s'.reqs[r].unit] == Removed(r) {
      assert ReqOk(s.reqs[r], Units(s));
    }
  }

  lemma {:induction false} CompleteInv(s: State, u: nat)
    requires Inv(s) && Enabled(s, Complete(u))
    ensures Inv(Next(s, Complete(u)))
  {
    var s' := Next(s, Complete(u));
    assert UnitOk(s, u);
    hide PqInv, ItemsOk, LogOk, HostsOk, Found;
    assert UnitsOk(s') by {
      hide ReqsOk;
      forall v | 0 <= v < Units(s) && v != u ensures UnitOk(s', v) {
        hide UnitOk;
        UntouchedUnit(s, s', v);
      }
    }
    StageFrame(s, s', u);
  }

  // ---- the completion handler ------------------------------------------------------------------

  /** The queues once the item of the request in flight on u is gone. */
  lemma {:induction false} UnqueueQueues(s: State, u: nat, r: nat)
    requires Inv(s) && u < Units(s) && Heads(s, u, r)
    ensures var x := s.pq.qs[u][0]; var p := Unqueue(s, r).pq;
            && s.reqs[r].item == Some(x) && s.reqs[r].unit == u
            && PqInv(p) && p.qs == s.pq.qs[u := s.pq.qs[u][1..]] && p.inUse == s.pq.inUse - {x.stamp}
            && (p.qs[u] != [] ==> p.qs[u][0].stamp !in s.pq.inUse)
            && (forall v, y :: Has(p.qs, v, y) <==> Has(s.pq.qs, v, y) && y != x)
  {
    var x := s.pq.qs[u][0];
    var p := Unqueue(s, r).pq;
    hide UnitsOk, ItemsOk, ReqsOk, LogOk, HostsOk;
    assert Has(s.pq.qs, u, x);
    RemoveHas(s.pq, u, x);
    RemoveInv(s.pq, u, x);
    if p.qs[u] != [] {
      assert Has(s.pq.qs, u, p.qs[u][0]) && Has(p.qs, u, p.qs[u][0]);
    }
  }

  lemma {:induction false} UnqueueLog(s: State, u: nat, r: nat)
    requires Inv(s) && u < Units(s) && Heads(s, u, r)
    ensures LogOk(Unqueue(s, r))
  {
    var x := s.pq.qs[u][0];
    var s' := Unqueue(s, r);
    UnqueueQueues(s, u, r);
    assert Has(s.pq.qs, u, x);
    hide UnitsOk, ItemsOk, ReqsOk, HostsOk;
    forall v, y | Has(s'.pq.qs, v, y) && y.lpa == x.lpa ensures x.stamp < y.stamp { LaterTag(s.pq, u, x, v, y); }
    hide PqInv;
  }

  lemma {:induction false} UnqueueFound(s: State, u: nat, r: nat, i: nat, second: bool, st: nat)
    requires Inv(s) && u < Units(s) && Heads(s, u, r) && Found(s.pq.qs, i, second, st)
    requires i != r || second != s.pq.qs[u][0].second
    ensures Found(Unqueue(s, r).pq.qs, i, second, st)
  {
    UnqueueQueues(s, u, r);
    hide PqInv, UnitsOk, ItemsOk, ReqsOk, LogOk, HostsOk;
    var v, y :| Has(s.pq.qs, v, y) && y.stamp == st && y.req == i && y.second == second;
    assert Has(Unqueue(s, r).pq.qs, v, y);
  }

  /** A step that takes out u's item, moves u's stage and changes request r as given. */
  lemma {:induction false} UnqueueReqs(s: State, s': State, u: nat, r: nat)
    requires Inv(s) && u < Units(s) && Heads(s, u, r) && Shaped(s') && s'.pq == Unqueue(s, r).pq
    requires !s.stage[u].Removed? && s'.stage == s.stage[u := s'.stage[u]]
    requires |s'.reqs| == |s.reqs| && s'.reqs == s.reqs[r := s'.reqs[r]] && ReqOk(s'.reqs[r], Units(s))
    requires var second := s.pq.qs[u][0].second;
             PartOf(s'.reqs[r], second).Served? && PartOf(s'.reqs[r], !second) == PartOf(s.reqs[r], !second)
    requires s'.reqs[r].outcome.Unlocking? ==> s'.reqs[r].unit == u && s'.stage[u] == Removed(r)
    ensures ReqsOk(s')
  {
    UnqueueQueues(s, u, r);
    hide PqInv, UnitsOk, ItemsOk, LogOk, HostsOk, Found, Unqueue;
    forall i | 0 <= i < |s.reqs|
      ensures && ReqOk(s'.reqs[i], Units(s))
              && (s'.reqs[i].first.Queued? ==> Found(s'.pq.qs, i, false, s'.reqs[i].first.stamp))
              && (s'.reqs[i].second.Queued? ==> Found(s'.pq.qs, i, true, s'.reqs[i].second.stamp))
              && (s'.reqs[i].outcome.Unlocking? ==> s'.stage[s'.reqs[i].unit] == Removed(i))
    {
      assert ReqOk(s.reqs[i], Units(s));
      if s'.reqs[i].first.Queued? { UnqueueFound(s, u, r, i, false, s'.reqs[i].first.stamp); }
      if s'.reqs[i].second.Queued? { UnqueueFound(s, u, r, i, true, s'.reqs[i].second.stamp); }
    }
  }

  lemma {:induction false} UnqueueItems(s: State, s': State, u: nat, r: nat)
    requires Inv(s) && u < Units(s) && Heads(s, u, r) && s'.pq == Unqueue(s, r).pq
    requires |s'.reqs| == |s.reqs| && s'.reqs == s.reqs[r := s'.reqs[r]]
    requires s'.reqs[r].lpa == s.reqs[r].lpa && s'.reqs[r].src == s.reqs[r].src && s'.reqs[r].dst == s.reqs[r].dst
    requires s'.reqs[r].kind.Plain? <==> s.reqs[r].kind.Plain?
    requires var second := s.pq.qs[u][0].second; PartOf(s'.reqs[r], !second) == PartOf(s.reqs[r], !second)
    ensures ItemsOk(s')
  {
    var x := s.pq.qs[u][0];
    UnqueueQueues(s, u, r);
    assert Has(s.pq.qs, u, x);
    forall v, y | Has(s'.pq.qs, v, y) ensures ItemOk(s'.reqs, v, y) {
      assert Has(s.pq.qs, v, y);
      assert ItemOk(s.reqs, v, y) && ItemOk(s.reqs, u, x);
      assert y.stamp != x.stamp by { hide TagsOk, UseOk, UnitsOk, ReqsOk, LogOk, HostsOk, ItemsOk; }
      hide PqInv, UnitsOk, ItemsOk, LogOk, HostsOk, ReqsOk;
    }
  }

  lemma {:induction false} HandlerUnits(s: State, u: nat)
    requires Inv(s) && Enabled(s, Handler(u))
    ensures UnitsOk(Next(s, Handler(u)))
  {
    var s' := Next(s, Handler(u));
    var r := s.stage[u].r;
    assert UnitOk(s, u);
    if !s.stage[u].Removed? { UnqueueQueues(s, u, r); }
    hide PqInv, ItemsOk, LogOk, HostsOk, Found, Unlink, NextTag;
    assert ReqOk(s.reqs[r], Units(s));
    hide ReqsOk;
    assert UnitOk(s', u);
    forall v | 0 <= v < Units(s) && v != u ensures UnitOk(s', v) {
      HandlerLeaves(s, u, v);
      hide UnitOk, Next, HandlerStep;
      UntouchedUnit(s, s', v);
    }
  }

  lemma {:induction false} OtherHead(s: State, u: nat, r: nat, v: nat)
    requires Inv(s) && u < Units(s) && Heads(s, u, r) && v < Units(s) && v != u && s.pq.qs[v] != []
    ensures s.pq.qs[v][0].stamp != s.pq.qs[u][0].stamp
  {
    hide TagsOk, UseOk, UnitsOk, ReqsOk, LogOk, HostsOk, ItemsOk;
    assert Has(s.pq.qs, u, s.pq.qs[u][0]) && Has(s.pq.qs, v, s.pq.qs[v][0]);
  }

  lemma {:induction false} HandlerLeaves(s: State, u: nat, v: nat)
    requires Inv(s) && Enabled(s, Handler(u)) && v < Units(s) && v != u
    ensures Shaped(Next(s, Handler(u))) && Units(Next(s, Handler(u))) == Units(s) && Untouched(s, Next(s, Handler(u)), v)
  {
    var r := s.stage[u].r;
    assert UnitOk(s, u);
    assert s.reqs[r].unit == u;
    if s.stage[u].Removed? || (s.stage[u].Done? && s.reqs[r].kind.RmwRead?) {
      hide Inv, UnitOk, Unqueue;
    } else {
      hide PqInv, ItemsOk, ReqsOk, UnitsOk, LogOk, HostsOk;
      UnqueueQueues(s, u, r);
      if s.pq.qs[v] != [] { OtherHead(s, u, r, v); }
      hide Inv, UnitOk, Heads, Remove;
    }
  }

  /** The request in flight is pending and its item is the part it waits for. */
  lemma {:induction false} InFlight(s: State, u: nat, r: nat)
    requires Inv(s) && u < Units(s) && Heads(s, u, r)
    ensures s.reqs[r].outcome.Pending? && ReqOk(s.reqs[r], Units(s))
    ensures PartOf(s.reqs[r], s.pq.qs[u][0].second).Queued?
  {
    hide PqInv, UnitsOk, LogOk, HostsOk, Found;
    assert Has(s.pq.qs, u, s.pq.qs[u][0]);
    assert ItemOk(s.reqs, u, s.pq.qs[u][0]);
  }

  /** Ending a read half. */
  lemma {:induction false} TurnInv(s: State, u: nat)
    requires Inv(s) && Enabled(s, Handler(u)) && s.stage[u].ReadUnlocked?
    ensures Inv(Next(s, Handler(u)))
  {
    var s' := Next(s, Handler(u));
    var r := s.stage[u].r;
    HandlerUnits(s, u);
    assert UnitOk(s, u);
    hide PqInv, UnitsOk, ItemsOk, ReqsOk, LogOk, HostsOk, UnitOk;
    InFlight(s, u, r);
    UnqueueQueues(s, u, r);
    UnqueueLog(s, u, r);
    hide Heads, Remove;
    HostsFrame(s.reqs, s'.reqs, s.hosts, s.ended);
    UnqueueReqs(s, s', u, r);
    UnqueueItems(s, s', u, r);
    LogFrame(Unqueue(s, r), s');
  }

  lemma {:induction false} LogFrame(s: State, s': State)
    requires LogOk(s) && s'.log == s.log && s'.pq == s.pq
    ensures LogOk(s')
  {
  }

  /** Ending anything else. */
  lemma {:induction false} RetireInv(s: State, u: nat)
    requires Inv(s) && Enabled(s, Handler(u)) && s.stage[u].Done? && !s.reqs[s.stage[u].r].kind.RmwRead?
    ensures Inv(Next(s, Handler(u)))
  {
    var s' := Next(s, Handler(u));
    var r := s.stage[u].r;
    HandlerUnits(s, u);
    assert UnitOk(s, u);
    hide PqInv, UnitsOk, ItemsOk, ReqsOk, LogOk, HostsOk, UnitOk;
    InFlight(s, u, r);
    UnqueueQueues(s, u, r);
    UnqueueLog(s, u, r);
    hide Heads, Remove;
    HostsFrame(s.reqs, s'.reqs, s.hosts, s.ended);
    UnqueueReqs(s, s', u, r);
    UnqueueItems(s, s', u, r);
    LogFrame(Unqueue(s, r), s');
  }

  lemma {:induction false} HandlerInv(s: State, u: nat)
    requires Inv(s) && Enabled(s, Handler(u))
    ensures Inv(Next(s, Handler(u)))
  {
    if s.stage[u].ReadUnlocked? {
      TurnInv(s, u);
    } else if s.stage[u].Done? && !s.reqs[s.stage[u].r].kind.RmwRead? {
      RetireInv(s, u);
    } else {
      HandlerUnits(s, u);
      var s' := Next(s, Handler(u));
      assert UnitOk(s, u);
      hide PqInv, UnitsOk, ItemsOk, ReqsOk, LogOk, HostsOk, UnitOk;
      HostsFrame(s.reqs, s'.reqs, s.hosts, s.ended);
      LogFrame(s, s');
      if s.stage[u].Removed? { ReleaseInv(s, u); } else { StageFrame(s, s', u); ItemsFrame(s, s'); }
    }
  }

  lemma {:induction false} ItemsFrame(s: State, s': State)
    requires ItemsOk(s) && s'.pq == s.pq && s'.reqs == s.reqs
    ensures ItemsOk(s')
  {
  }

  lemma {:induction false} ReleaseInv(s: State, u: nat)
    requires Inv(s) && Enabled(s, Handler(u)) && s.stage[u].Removed?
    ensures ReqsOk(Next(s, Handler(u))) && ItemsOk(Next(s, Handler(u)))
  {
    assert UnitOk(s, u);
    var s' := Next(s, Handler(u));
    hide PqInv, UnitsOk, LogOk, HostsOk, Found;
    forall r | 0 <= r < |s.reqs| ensures s'.reqs[r].outcome.Unlocking? ==> s'.stage[s'.reqs[r].unit] == Removed(r) {
      assert ReqOk(s.reqs[r], Units(s));
    }
  }

  // ---- reporting --------------------------------------------------------------------------------

  lemma {:induction false} FullSubset(a: set<nat>, b: set<nat>)
    requires a <= b
    ensures |a| <= |b| && (|a| == |b| <==> a == b)
  {
    assert b == a + (b - a);
    if a != b {
      var x :| x in b - a;
      assert |b| == |a| + |b - a|;
    }
  }

  lemma {:induction false} ReportHosts(s: State, r: nat)
    requires Inv(s) && Enabled(s, Report(r))
    ensures var s' := Next(s, Report(r)); HostsOk(s'.reqs, s'.hosts, s'.ended)
  {
    hide PqInv, UnitsOk, ItemsOk, ReqsOk, LogOk;
    var s' := Next(s, Report(r));
    var h := s.reqs[r].host;
    var old' := s.hosts[h];
    assert r !in old'.finished;
    FullSubset(s'.hosts[h].finished, old'.subs);
    assert h !in s.ended;
    forall g, i: nat | SubOf(s'.hosts, g, i) ensures i < |s'.reqs| && s'.reqs[i].host == g { assert SubOf(s.hosts, g, i); }
    forall i | 0 <= i < |s'.reqs| ensures s'.reqs[i].outcome.Reported? <==> i in s'.hosts[s'.reqs[i].host].finished {}
  }

  lemma {:induction false} ReportInv(s: State, r: nat)
    requires Inv(s) && Enabled(s, Report(r))
    ensures Inv(Next(s, Report(r)))
  {
    var s' := Next(s, Report(r));
    ReportHosts(s, r);
    hide PqInv, LogOk, HostsOk, Found;
    LogFrame(s, s');
    assert UnitsOk(s') by {
      forall v | 0 <= v < Units(s) ensures UnitOk(s', v) {
        assert UnitOk(s, v);
        ReportLeaves(s, r, v);
      }
    }
    assert ItemsOk(s') by { hide UnitsOk, ReqsOk; }
    assert ReqsOk(s') by { hide UnitsOk, ItemsOk; }
  }

  lemma {:induction false} ReportLeaves(s: State, r: nat, v: nat)
    requires Inv(s) && Enabled(s, Report(r)) && v < Units(s)
    ensures UnitOk(Next(s, Report(r)), v)
  {
    assert UnitOk(s, v);
    if s.stage[v].Taken? || s.stage[v].OnDevice? || s.stage[v].Done? || s.stage[v].ReadUnlocked? {
      InFlight(s, v, s.stage[v].r);
    }
    hide PqInv, UnitsOk, ItemsOk, ReqsOk, LogOk, HostsOk;
  }

  // ---- whole runs --------------------------------------------------------------------------------

  lemma {:induction false} StepInv(s: State, step: Step)
    requires Inv(s) && Enabled(s, step)
    ensures Inv(Next(s, step))
  {
    hide Inv, Enabled, Next;
    match step
    case Arrive(news) => ArriveInv(s, news);
    case Put(r) => PutInv(s, r);
    case Dispatch(u) => DispatchInv(s, u);
    case Send(u) => SendInv(s, u);
    case Complete(u) => CompleteInv(s, u);
    case Handler(u) => HandlerInv(s, u);
    case Report(r) => ReportInv(s, r);
  }

  ghost predicate CanRun(s: State, steps: seq<Step>)
    decreases |steps|
  {
    steps != [] ==> Enabled(s, steps[0]) && CanRun(Next(s, steps[0]), steps[1..])
  }

  ghost function After(s: State, steps: seq<Step>): State
    requires CanRun(s, steps)
    decreases |steps|
  {
    if steps == [] then s else After(Next(s, steps[0]), steps[1..])
  }

  lemma {:induction false} RunInv(s: State, steps: seq<Step>)
    requires Inv(s) && CanRun(s, steps)
    ensures Inv(After(s, steps))
    decreases |steps|
  {
    hide Inv, Enabled, Next;
    if steps != [] {
      StepInv(s, steps[0]);
      RunInv(Next(s, steps[0]), steps[1..]);
    }
  }

  /** Request r is in flight on unit u: dequeued and its unit not yet unlocked. */
  predicate InFlightOn(s: State, u: nat, r: nat)
    requires Shaped(s) && u < Units(s)
  {
    s.stage[u] in {Taken(r), OnDevice(r), Done(r), Removed(r)}
  }

  /** In every run: the device finds its slot empty at each submission and no impossible branch is
      taken; a unit is locked exactly while one request is in flight there; items of one address
      are removed in the order they were enqueued; each host request is ended at most once, and
      exactly when all its requests have been reported. */
  lemma {:induction false} RunsAreSafe(s: State, steps: seq<Step>)
    requires Init(s) && CanRun(s, steps)
    ensures var e := After(s, steps);
            && !e.fault && Shaped(e)
            && (forall u | 0 <= u < Units(e) :: e.locks[u] <==> exists r :: InFlightOn(e, u, r))
            && (forall u, r, q | 0 <= u < Units(e) && InFlightOn(e, u, r) && InFlightOn(e, u, q) :: r == q)
            && (forall u | 0 <= u < Units(e) && e.slots[u].Some? :: InFlightOn(e, u, e.slots[u].value))
            && (forall i, j | 0 <= i < j < |e.log| && e.log[i].lpa == e.log[j].lpa :: e.log[i].stamp < e.log[j].stamp)
            && NoDup(e.ended)
            && (forall h | 0 <= h < |e.hosts| :: e.hosts[h].done == |e.hosts[h].finished| && e.hosts[h].finished <= e.hosts[h].subs)
            && (forall h | 0 <= h < |e.hosts| :: h in e.ended <==> e.hosts[h].finished == e.hosts[h].subs)
  {
    InitInv(s);
    RunInv(s, steps);
    var e := After(s, steps);
    hide PqInv, ItemsOk, ReqsOk;
    forall u | 0 <= u < Units(e)
      ensures (e.locks[u] <==> exists r :: InFlightOn(e, u, r)) && (e.slots[u].Some? ==> InFlightOn(e, u, e.slots[u].value))
    {
      assert UnitOk(e, u);
      hide LogOk, HostsOk, UnitsOk;
      if e.locks[u] { assert InFlightOn(e, u, e.stage[u].r); }
    }
  }

  /** A read-modify-write turns into its write half only after its read half has been served, and
      is reported once both have. */
  lemma {:induction false} RmwReadsThenWrites(s: State, steps: seq<Step>, r: nat)
    requires Init(s) && CanRun(s, steps) && r < |After(s, steps).reqs|
    ensures var q := After(s, steps).reqs[r];
            && (q.kind.RmwWrite? <==> !q.kind.Plain? && q.first.Served?)
            && (!q.kind.Plain? && q.second.Served? ==> q.first.Served?)
            && (!q.outcome.Pending? <==> if q.kind.Plain? then q.first.Served? else q.second.Served?)
  {
    InitInv(s);
    RunInv(s, steps);
    assert ReqOk(After(s, steps).reqs[r], Units(After(s, steps)));
  }

  // ---- what the device does ----------------------------------------------------------------------

  /** The item the device has finished and the handler still holds on unit u. */
  function InHand(s: State, u: nat): Option<Item> {
    if u < |s.stage| && (s.stage[u].Done? || s.stage[u].ReadUnlocked?) && s.stage[u].r < |s.reqs| then s.reqs[s.stage[u].r].item
    else None
  }

  /** Some item of this half of request r is on the list. */
  ghost predicate Logged(log: seq<Item>, r: nat, second: bool) {
    exists i :: 0 <= i < |log| && log[i].req == r && log[i].second == second
  }

  /** What the device did for an item was at the item's unit, and the item is with the handler or removed. */
  predicate OpOk(s: State, d: Op) {
    && (d.item in s.log || InHand(s, d.unit) == Some(d.item))
    && d.item.req < |s.reqs| && d.unit == QueueOf(s.reqs[d.item.req], d.item.second) && d.item.lpa == s.reqs[d.item.req].lpa
  }

  /** A removed item was served: by the device at its unit, and as part of its request. */
  predicate ServedOk(s: State, x: Item) {
    && x.req < |s.reqs| && PartOf(s.reqs[x.req], x.second).Served?
    && Op(QueueOf(s.reqs[x.req], x.second), x) in s.device
  }

  predicate InOrder(a: Item, b: Item) {
    (a.lpa == b.lpa ==> a.stamp < b.stamp) && (a.req == b.req ==> !a.second && b.second)
  }

  ghost predicate OpsOk(s: State) {
    forall i | 0 <= i < |s.device| :: OpOk(s, s.device[i])
  }

  ghost predicate RemovedOk(s: State) {
    forall i | 0 <= i < |s.log| :: ServedOk(s, s.log[i])
  }

  ghost predicate HandsOk(s: State) {
    forall u: nat | InHand(s, u).Some? :: Op(u, InHand(s, u).value) in s.device
  }

  ghost predicate PartsOk(s: State) {
    forall r, second | 0 <= r < |s.reqs| && PartOf(s.reqs[r], second).Served? :: Logged(s.log, r, second)
  }

  ghost predicate DeviceOrder(device: seq<Op>) {
    forall i, j | 0 <= i < j < |device| :: InOrder(device[i].item, device[j].item)
  }

  ghost predicate DeviceOk(s: State) {
    OpsOk(s) && RemovedOk(s) && HandsOk(s) && PartsOk(s) && DeviceOrder(s.device)
  }

  /** A step that changes neither histories nor hands. */
  lemma {:induction false} DeviceFrame(s: State, s': State)
    requires DeviceOk(s) && s'.device == s.device && s'.log == s.log && |s.reqs| <= |s'.reqs|
    requires forall u: nat :: InHand(s', u) == InHand(s, u)
    requires forall r | 0 <= r < |s.reqs| ::
               && s'.reqs[r].lpa == s.reqs[r].lpa && s'.reqs[r].src == s.reqs[r].src && s'.reqs[r].dst == s.reqs[r].dst
               && (s'.reqs[r].first.Served? <==> s.reqs[r].first.Served?) && (s'.reqs[r].second.Served? <==> s.reqs[r].second.Served?)
    requires forall r | |s.reqs| <= r < |s'.reqs| :: !s'.reqs[r].first.Served? && !s'.reqs[r].second.Served?
    ensures DeviceOk(s')
  {
    hide InHand, Logged;
    assert OpsOk(s') by {
      hide RemovedOk, HandsOk, PartsOk, DeviceOrder;
      forall i | 0 <= i < |s'.device| ensures OpOk(s', s'.device[i]) { assert OpOk(s, s.device[i]); }
    }
    assert RemovedOk(s') by {
      hide OpsOk, HandsOk, PartsOk, DeviceOrder;
      forall i | 0 <= i < |s'.log| ensures ServedOk(s', s'.log[i]) { assert ServedOk(s, s.log[i]); }
    }
    assert HandsOk(s') by { hide OpsOk, RemovedOk, PartsOk, DeviceOrder; }
    assert PartsOk(s') by { hide OpsOk, RemovedOk, HandsOk, DeviceOrder; }
  }

  /** Unit u works on item x, the due half of its request. */
  predicate Flight(s: State, u: nat, x: Item) {
    && u < Units(s) && u < |s.stage| && !s.stage[u].Free? && !s.stage[u].Removed? && s.stage[u].r == x.req < |s.reqs|
    && var q := s.reqs[x.req];
       && q.item == Some(x) && q.unit == u == QueueOf(q, x.second) && x.lpa == q.lpa && PartOf(q, x.second).Queued? && !q.second.Served?
       && Has(s.pq.qs, u, x) && s.pq.qs[u][0] == x && x.stamp in s.pq.inUse
  }

  lemma {:induction false} InFlightIs(s: State, u: nat) returns (x: Item)
    requires Inv(s) && u < Units(s) && !s.stage[u].Free? && !s.stage[u].Removed?
    ensures Flight(s, u, x)
  {
    assert UnitOk(s, u);
    x := s.pq.qs[u][0];
    assert Has(s.pq.qs, u, x);
    assert ItemOk(s.reqs, u, x) && ReqOk(s.reqs[x.req], Units(s));
    hide PqInv, LogOk, HostsOk, UnitsOk, ItemsOk, ReqsOk;
  }

  lemma {:induction false} HandIs(s: State, u: nat)
    requires Inv(s) && InHand(s, u).Some?
    ensures Flight(s, u, InHand(s, u).value)
  {
    var x := InFlightIs(s, u);
    hide Inv;
  }

  /** A step that leaves the request in flight on v alone leaves what is in hand there alone. */
  lemma {:induction false} SameHand(s: State, s': State, v: nat)
    requires |s'.stage| == |s.stage| && |s.reqs| <= |s'.reqs| && (v < |s.stage| ==> s'.stage[v] == s.stage[v])
    requires InHand(s, v).Some? ==> v < |s.stage| && s.stage[v].r < |s.reqs| && s'.reqs[s.stage[v].r].item == s.reqs[s.stage[v].r].item
    requires v < |s.stage| && (s.stage[v].Done? || s.stage[v].ReadUnlocked?) ==> InHand(s, v).Some?
    ensures InHand(s', v) == InHand(s, v)
  {
  }

  lemma {:induction false} HandSome(s: State, v: nat)
    requires Inv(s) && v < |s.stage| && (s.stage[v].Done? || s.stage[v].ReadUnlocked?)
    ensures InHand(s, v).Some?
  {
    var x := InFlightIs(s, v);
    hide Inv;
  }

  lemma {:induction false} DispatchHands(s: State, u: nat)
    requires Inv(s) && Enabled(s, Dispatch(u))
    ensures forall v: nat :: InHand(Next(s, Dispatch(u)), v) == InHand(s, v)
  {
    var s', x := Next(s, Dispatch(u)), Dequeue(s.pq, u).value;
    DispatchFree(s, u);
    DispatchedHalf(s, u);
    forall v: nat ensures InHand(s', v) == InHand(s, v) {
      if InHand(s, v).Some? { HandIs(s, v); }
      if v < |s.stage| && (s.stage[v].Done? || s.stage[v].ReadUnlocked?) { HandSome(s, v); }
      hide Inv;
      if v != u { SameHand(s, s', v); }
    }
  }

  /** What the device has done for this address, or for this request, came before what it is doing now. */
  lemma {:induction false} EarlierOps(s: State, u: nat, x: Item, d: Op)
    requires Inv(s) && DeviceOk(s) && Flight(s, u, x) && s.stage[u].OnDevice? && OpOk(s, d)
    ensures InOrder(d.item, x)
  {
    if d.item in s.log {
      var k :| 0 <= k < |s.log| && s.log[k] == d.item;
      assert ServedOk(s, s.log[k]);
      hide PqInv, UnitsOk, ItemsOk, ReqsOk, HostsOk, DeviceOk;
    } else {
      HandIs(s, d.unit);
      hide UnitsOk, ReqsOk, HostsOk, LogOk, ItemsOk, DeviceOk;
      OneInServicePerAddress(s.pq, u, x, d.unit, d.item);
      hide PqInv;
    }
  }

  lemma {:induction false} CompleteDevice(s: State, u: nat)
    requires Inv(s) && DeviceOk(s) && Enabled(s, Complete(u))
    ensures DeviceOk(Next(s, Complete(u)))
  {
    var s' := Next(s, Complete(u));
    assert s.stage[u] == OnDevice(s.slots[u].value) by { assert UnitOk(s, u); }
    var x := InFlightIs(s, u);
    forall i | 0 <= i < |s.device| ensures InOrder(s.device[i].item, x) { EarlierOps(s, u, x, s.device[i]); }
    hide Inv;
    assert s'.device == s.device + [Op(u, x)] && InHand(s', u) == Some(x) && s'.log == s.log && s'.reqs == s.reqs;
    forall v: nat | v != u ensures InHand(s', v) == InHand(s, v) {}
    FlightAt(s, u, x);
    hide InHand, Flight, Next, Enabled;
    assert OpsOk(s') by {
      hide RemovedOk, HandsOk, PartsOk, DeviceOrder;
      forall i | 0 <= i < |s'.device| ensures OpOk(s', s'.device[i]) {
        if i < |s.device| { assert OpOk(s, s.device[i]); }
      }
    }
    assert RemovedOk(s') by {
      hide OpsOk, HandsOk, PartsOk, DeviceOrder;
      forall i | 0 <= i < |s'.log| ensures ServedOk(s', s'.log[i]) { assert ServedOk(s, s.log[i]); }
    }
    assert HandsOk(s') by {
      hide OpsOk, RemovedOk, PartsOk, DeviceOrder;
      assert s'.device[|s.device|] == Op(u, x);
    }
    assert PartsOk(s') by { hide OpsOk, RemovedOk, HandsOk, DeviceOrder, Logged; }
    assert DeviceOrder(s'.device) by { hide OpsOk, RemovedOk, HandsOk, PartsOk, InOrder; }
  }

  lemma {:induction false} FlightAt(s: State, u: nat, x: Item)
    requires Flight(s, u, x)
    ensures x.req < |s.reqs| && u == QueueOf(s.reqs[x.req], x.second) && x.lpa == s.reqs[x.req].lpa && u < Units(s)
  {
  }

  /** The handler takes the item out: it goes from the hand to the log, and its half is served. */
  lemma {:induction false} UnqueueDevice(s: State, s': State, u: nat, x: Item)
    requires DeviceOk(s) && InHand(s, u) == Some(x) && Flight(s, u, x)
    requires s'.device == s.device && s'.log == s.log + [x] && InHand(s', u).None?
    requires forall v: nat | v != u :: InHand(s', v) == InHand(s, v)
    requires |s'.reqs| == |s.reqs| && s'.reqs == s.reqs[x.req := s'.reqs[x.req]]
    requires var q, q' := s.reqs[x.req], s'.reqs[x.req];
             && q'.lpa == q.lpa && q'.src == q.src && q'.dst == q.dst
             && PartOf(q', x.second).Served? && PartOf(q', !x.second) == PartOf(q, !x.second)
    ensures DeviceOk(s')
  {
    FlightAt(s, u, x);
    hide InHand, Flight;
    assert Op(u, x) in s.device;
    assert s'.log[|s.log|] == x;
    forall y | y in s.log ensures y in s'.log {
      var k :| 0 <= k < |s.log| && s.log[k] == y;
      assert s'.log[k] == y;
    }
    assert OpsOk(s') by {
      hide RemovedOk, HandsOk, PartsOk, DeviceOrder;
      forall i | 0 <= i < |s'.device| ensures OpOk(s', s'.device[i]) { assert OpOk(s, s.device[i]); }
    }
    assert RemovedOk(s') by {
      hide OpsOk, HandsOk, PartsOk, DeviceOrder;
      forall i | 0 <= i < |s'.log| ensures ServedOk(s', s'.log[i]) {
        if i < |s.log| { assert ServedOk(s, s.log[i]); }
      }
    }
    assert HandsOk(s') by { hide OpsOk, RemovedOk, PartsOk, DeviceOrder; }
    assert PartsOk(s') by {
      hide OpsOk, RemovedOk, HandsOk, DeviceOrder;
      forall q, second | 0 <= q < |s'.reqs| && PartOf(s'.reqs[q], second).Served? ensures Logged(s'.log, q, second) {
        if q != x.req || second != x.second {
          assert Logged(s.log, q, second);
          var k :| 0 <= k < |s.log| && s.log[k].req == q && s.log[k].second == second;
          assert s'.log[k] == s.log[k];
        }
      }
    }
  }

  /** The handler's step on u leaves the other hands alone. */
  lemma {:induction false} HandlerHands(s: State, u: nat, v: nat)
    requires Inv(s) && Enabled(s, Handler(u)) && v != u
    ensures InHand(Next(s, Handler(u)), v) == InHand(s, v)
  {
    if InHand(s, v).Some? { HandIs(s, v); }
    if v < |s.stage| && (s.stage[v].Done? || s.stage[v].ReadUnlocked?) { HandSome(s, v); }
    assert s.reqs[s.stage[u].r].unit == u by { assert UnitOk(s, u); }
    hide Inv, Remove;
    SameHand(s, Next(s, Handler(u)), v);
  }

  lemma {:induction false} HandlerDevice(s: State, u: nat)
    requires Inv(s) && DeviceOk(s) && Enabled(s, Handler(u))
    ensures DeviceOk(Next(s, Handler(u)))
  {
    var s' := Next(s, Handler(u));
    var r := s.stage[u].r;
    forall v: nat | v != u ensures InHand(s', v) == InHand(s, v) { HandlerHands(s, u, v); }
    if s.stage[u].Removed? || (s.stage[u].Done? && s.reqs[r].kind.RmwRead?) {
      hide Inv, DeviceOk;
      assert InHand(s', u) == InHand(s, u);
      DeviceFrame(s, s');
    } else {
      var x := InFlightIs(s, u);
      hide Inv, DeviceOk, Remove;
      UnqueueDevice(s, s', u, x);
    }
  }

  lemma {:induction false} StepDevice(s: State, step: Step)
    requires Inv(s) && DeviceOk(s) && Enabled(s, step)
    ensures DeviceOk(Next(s, step))
  {
    hide Inv, DeviceOk, Enabled, Next;
    match step
    case Arrive(news) => ArriveDevice(s, news);
    case Dispatch(u) => DispatchDevice(s, u);
    case Complete(u) => CompleteDevice(s, u);
    case Handler(u) => HandlerDevice(s, u);
    case _ => QuietDevice(s, step);
  }

  lemma {:induction false} QuietDevice(s: State, step: Step)
    requires DeviceOk(s) && Enabled(s, step) && (step.Put? || step.Send? || step.Report?)
    ensures DeviceOk(Next(s, step))
  {
    var s' := Next(s, step);
    hide DeviceOk, Enqueue;
    forall v: nat ensures InHand(s', v) == InHand(s, v) {}
    DeviceFrame(s, s');
  }

  lemma {:induction false} DispatchDevice(s: State, u: nat)
    requires Inv(s) && DeviceOk(s) && Enabled(s, Dispatch(u))
    ensures DeviceOk(Next(s, Dispatch(u)))
  {
    DispatchHands(s, u);
    hide Inv, DeviceOk;
    DeviceFrame(s, Next(s, Dispatch(u)));
  }

  lemma {:induction false} ArriveDevice(s: State, news: seq<Req>)
    requires Inv(s) && DeviceOk(s) && Enabled(s, Arrive(news))
    ensures DeviceOk(Next(s, Arrive(news)))
  {
    var s' := Next(s, Arrive(news));
    forall v: nat ensures InHand(s', v) == InHand(s, v) {
      if v < |s.stage| && (s.stage[v].Done? || s.stage[v].ReadUnlocked?) { HandSome(s, v); }
    }
    hide Inv, DeviceOk;
    forall r | |s.reqs| <= r < |s'.reqs| ensures !s'.reqs[r].first.Served? && !s'.reqs[r].second.Served? {
      assert Arriving(news[r - |s.reqs|], |s.hosts|, Units(s));
    }
    DeviceFrame(s, s');
  }

  lemma {:induction false} RunDevice(s: State, steps: seq<Step>)
    requires Inv(s) && DeviceOk(s) && CanRun(s, steps)
    ensures DeviceOk(After(s, steps))
    decreases |steps|
  {
    hide Inv, DeviceOk, Enabled, Next;
    if steps != [] {
      StepInv(s, steps[0]);
      StepDevice(s, steps[0]);
      RunDevice(Next(s, steps[0]), steps[1..]);
    }
  }

  /** The k-th thing the device did was this half of request r, at the unit of its address. */
  predicate DidAt(s: State, k: nat, r: nat, second: bool) {
    && k < |s.device| && r < |s.reqs| && s.device[k].item.req == r && s.device[k].item.second == second
    && s.device[k].unit == (if second then s.reqs[r].dst else s.reqs[r].src) && s.device[k].item.lpa == s.reqs[r].lpa
  }

  /** In every run the device does each half of each request at most once and the halves of one address
      in the order they were queued; a request is reported only after the device has done all of
      it, the read half of a read-modify-write before its write half. */
  lemma {:induction false} DeviceDoesEachOnce(s: State, steps: seq<Step>, r: nat) returns (k: nat, n: nat)
    requires Init(s) && CanRun(s, steps) && r < |After(s, steps).reqs|
    ensures var e := After(s, steps);
            && (forall i, j | 0 <= i < j < |e.device| ::
                  && (e.device[i].item.lpa == e.device[j].item.lpa ==> e.device[i].item.stamp < e.device[j].item.stamp)
                  && (e.device[i].item.req == e.device[j].item.req ==> !e.device[i].item.second && e.device[j].item.second))
            && (!e.reqs[r].outcome.Pending? ==> DidAt(e, k, r, false))
            && (!e.reqs[r].outcome.Pending? && !e.reqs[r].kind.Plain? ==> DidAt(e, n, r, true) && k < n)
  {
    InitInv(s);
    InitDevice(s);
    hide Inv, DeviceOk, Init, Enabled, Next, CanRun, After;
    RunInv(s, steps);
    RunDevice(s, steps);
    k, n := EachOnce(After(s, steps), r);
  }

  lemma {:induction false} InitDevice(s: State)
    requires Init(s)
    ensures DeviceOk(s)
  {
  }

  lemma {:induction false} EachOnce(e: State, r: nat) returns (k: nat, n: nat)
    requires Inv(e) && DeviceOk(e) && r < |e.reqs|
    ensures forall i, j | 0 <= i < j < |e.device| ::
              && (e.device[i].item.lpa == e.device[j].item.lpa ==> e.device[i].item.stamp < e.device[j].item.stamp)
              && (e.device[i].item.req == e.device[j].item.req ==> !e.device[i].item.second && e.device[j].item.second)
    ensures !e.reqs[r].outcome.Pending? ==> DidAt(e, k, r, false)
    ensures !e.reqs[r].outcome.Pending? && !e.reqs[r].kind.Plain? ==> DidAt(e, n, r, true) && k < n
  {
    assert ReqOk(e.reqs[r], Units(e));
    hide Inv, OpsOk, RemovedOk, HandsOk, PartsOk;
    k, n := 0, 0;
    forall i, j | 0 <= i < j < |e.device|
      ensures e.device[i].item.lpa == e.device[j].item.lpa ==> e.device[i].item.stamp < e.device[j].item.stamp
      ensures e.device[i].item.req == e.device[j].item.req ==> !e.device[i].item.second && e.device[j].item.second
    {
      assert InOrder(e.device[i].item, e.device[j].item);
    }
    if !e.reqs[r].outcome.Pending? {
      k := ServedAt(e, r, false);
      if !e.reqs[r].kind.Plain? { n := ServedAt(e, r, true); }
    }
  }

  lemma {:induction false} ServedAt(s: State, r: nat, second: bool) returns (k: nat)
    requires DeviceOk(s) && r < |s.reqs| && PartOf(s.reqs[r], second).Served?
    ensures DidAt(s, k, r, second)
  {
    assert Logged(s.log, r, second);
    var i :| 0 <= i < |s.log| && s.log[i].req == r && s.log[i].second == second;
    assert ServedOk(s, s.log[i]);
    var d := Op(QueueOf(s.reqs[r], second), s.log[i]);
    k :| 0 <= k < |s.device| && s.device[k] == d;
    assert OpOk(s, s.device[k]);
  }

  /** A unit with nothing in flight starts its oldest request as soon as no older one for that address
      is queued anywhere, whatever the other units do. */
  lemma {:induction false} IdleUnitStarts(s: State, u: nat)
    requires Inv(s) && u < Units(s) && (forall r :: !InFlightOn(s, u, r)) && !s.stage[u].ReadUnlocked? && s.pq.qs[u] != []
    requires forall v, y | Has(s.pq.qs, v, y) && y.lpa == s.pq.qs[u][0].lpa :: s.pq.qs[u][0].stamp <= y.stamp
    ensures Enabled(s, Dispatch(u))
    ensures s.pq.qs[u][0].req < |s.reqs| && InFlightOn(Next(s, Dispatch(u)), u, s.pq.qs[u][0].req)
    ensures forall v | 0 <= v < Units(s) && v != u :: Next(s, Dispatch(u)).stage[v] == s.stage[v] && Next(s, Dispatch(u)).locks[v] == s.locks[v]
  {
    var x := s.pq.qs[u][0];
    assert UnitOk(s, u) && Has(s.pq.qs, u, x) && ItemOk(s.reqs, u, x);
    assert s.stage[u].Free? || InFlightOn(s, u, s.stage[u].r);
    hide UnitsOk, ReqsOk, LogOk, HostsOk, ItemsOk;
    var t := s.pq.tags[x.lpa];
    assert Carried(s.pq.qs, x.lpa, t.cur);
    var v, y :| Has(s.pq.qs, v, y) && y.lpa == x.lpa && y.tag == t.cur;
  }

  // ---- every host request ends ------------------------------------------------------------------

  function PartWork(p: Part): nat {
    match p
    case NotYet => 7
    case Queued(_) => 6
    case Served => 0
  }

  function ReqWork(q: Req): nat {
    PartWork(q.first) + (if q.kind.Plain? then 0 else PartWork(q.second)) + (if q.outcome.Reporting? then 1 else 0)
  }

  function StageWork(g: Stage): nat {
    match g
    case Free => 4
    case Taken(_) => 3
    case OnDevice(_) => 2
    case Done(_) => 1
    case ReadUnlocked(_) => 0
    case Removed(_) => 6
  }

  function ReqsWork(reqs: seq<Req>): nat {
    if reqs == [] then 0 else ReqWork(reqs[0]) + ReqsWork(reqs[1..])
  }

  function StagesWork(stage: seq<Stage>): nat {
    if stage == [] then 0 else StageWork(stage[0]) + StagesWork(stage[1..])
  }

  /** The work left over all requests: a bound on the steps until they are reported. */
  function Work(s: State): nat {
    ReqsWork(s.reqs) + StagesWork(s.stage)
  }

  lemma {:induction false} ReqsWorkUpdate(reqs: seq<Req>, r: nat, q: Req)
    requires r < |reqs|
    ensures ReqsWork(reqs[r := q]) == ReqsWork(reqs) - ReqWork(reqs[r]) + ReqWork(q)
  {
    if r == 0 {
      assert reqs[r := q][1..] == reqs[1..];
    } else {
      ReqsWorkUpdate(reqs[1..], r - 1, q);
      assert reqs[r := q][1..] == reqs[1..][r - 1 := q];
    }
  }

  lemma {:induction false} StagesWorkUpdate(stage: seq<Stage>, u: nat, g: Stage)
    requires u < |stage|
    ensures StagesWork(stage[u := g]) == StagesWork(stage) - StageWork(stage[u]) + StageWork(g)
  {
    if u == 0 {
      assert stage[u := g][1..] == stage[1..];
    } else {
      StagesWorkUpdate(stage[1..], u - 1, g);
      assert stage[u := g][1..] == stage[1..][u - 1 := g];
    }
  }

  lemma {:induction false} WorkChange(s: State, s': State, r: nat, u: nat)
    requires r < |s.reqs| == |s'.reqs| && u < |s.stage| == |s'.stage|
    requires s'.reqs == s.reqs[r := s'.reqs[r]] && s'.stage == s.stage[u := s'.stage[u]]
    ensures Work(s') == Work(s) - ReqWork(s.reqs[r]) + ReqWork(s'.reqs[r]) - StageWork(s.stage[u]) + StageWork(s'.stage[u])
  {
    ReqsWorkUpdate(s.reqs, r, s'.reqs[r]);
    StagesWorkUpdate(s.stage, u, s'.stage[u]);
  }

  lemma {:induction false} HandlerWorks(s: State, u: nat)
    requires Inv(s) && Enabled(s, Handler(u))
    ensures Work(Next(s, Handler(u))) < Work(s)
  {
    hide Work;
    var r := s.stage[u].r;
    assert UnitOk(s, u);
    if !s.stage[u].Removed? { InFlight(s, u, r); }
    hide PqInv, UnitsOk, ItemsOk, ReqsOk, LogOk, HostsOk, UnitOk, Remove;
    WorkChange(s, Next(s, Handler(u)), r, u);
  }

  /** Each step but an arrival uses up work. */
  lemma {:induction false} StepWorks(s: State, step: Step)
    requires Inv(s) && Enabled(s, step) && !step.Arrive?
    ensures Work(Next(s, step)) < Work(s)
  {
    hide Work;
    match step
    case Put(r) =>
      hide Inv;
      ReqsWorkUpdate(s.reqs, r, Next(s, step).reqs[r]);
      WorkIs(s);
      WorkIs(Next(s, step));
    case Dispatch(u) =>
      assert s.stage[u].Free? by { DispatchFree(s, u); }
      hide Inv;
      WorkChange(s, Next(s, step), Dequeue(s.pq, u).value.req, u);
    case Send(u) => hide Inv; WorkChange(s, Next(s, step), s.stage[u].r, u);
    case Complete(u) =>
      assert UnitOk(s, u);
      hide Inv;
      WorkChange(s, Next(s, step), s.slots[u].value, u);
    case Handler(u) => HandlerWorks(s, u);
    case Report(r) =>
      hide Inv;
      ReqsWorkUpdate(s.reqs, r, Next(s, step).reqs[r]);
      WorkIs(s);
      WorkIs(Next(s, step));
  }

  lemma {:induction false} WorkIs(s: State)
    ensures Work(s) == ReqsWork(s.reqs) + StagesWork(s.stage)
  {
  }

  lemma {:induction false} DispatchFree(s: State, u: nat)
    requires Inv(s) && Enabled(s, Dispatch(u))
    ensures s.stage[u].Free?
  {
    assert UnitOk(s, u);
  }

  /** There is no deadlock: while some host request is not ended, a step is enabled. */
  lemma {:induction false} NotStuck(s: State, h: nat) returns (step: Step)
    requires Inv(s) && h < |s.hosts| && h !in s.ended
    ensures Enabled(s, step) && !step.Arrive?
  {
    var r :| r in s.hosts[h].subs && r !in s.hosts[h].finished;
    assert SubOf(s.hosts, h, r);
    var q := s.reqs[r];
    assert ReqOk(q, Units(s));
    hide LogOk, HostsOk;
    if q.outcome.Reporting? {
      step := Report(r);
    } else if q.outcome.Unlocking? {
      step := Handler(q.unit);
    } else if q.first.NotYet? || (!q.kind.Plain? && q.second.NotYet?) {
      step := Put(r);
    } else {
      var second := q.kind.RmwWrite?;
      assert Found(s.pq.qs, r, second, PartOf(q, second).stamp);
      step := SomeUnitMoves(s);
    }
  }

  lemma {:induction false} SomeUnitMoves(s: State) returns (step: Step)
    requires Inv(s) && exists v | 0 <= v < Units(s) :: s.pq.qs[v] != []
    ensures Enabled(s, step) && !step.Arrive?
  {
    hide ReqsOk, LogOk, HostsOk;
    var u := NeverBlocked(s.pq);
    var x := s.pq.qs[u][0];
    assert Has(s.pq.qs, u, x);
    assert UnitOk(s, u) && ItemOk(s.reqs, u, x);
    hide PqInv, UnitsOk, ItemsOk;
    match s.stage[u]
    case Free =>
      step := Dispatch(u);
    case Taken(_) => step := Send(u);
    case OnDevice(_) => step := Complete(u);
    case _ => step := Handler(u);
  }

  ghost predicate NoArrivals(steps: seq<Step>) {
    forall i | 0 <= i < |steps| :: !steps[i].Arrive?
  }

  /** Without arrivals a run is no longer than the work left at its start. */
  lemma {:induction false} RunsAreBounded(s: State, steps: seq<Step>)
    requires Inv(s) && CanRun(s, steps) && NoArrivals(steps)
    ensures |steps| + Work(After(s, steps)) <= Work(s)
    decreases |steps|
  {
    hide Inv, Enabled, Next, Work;
    if steps != [] {
      StepInv(s, steps[0]);
      StepWorks(s, steps[0]);
      RunsAreBounded(Next(s, steps[0]), steps[1..]);
    }
  }

  /** Hence every run without arrivals that is carried on as long as possible ends all host requests. */
  lemma {:induction false} AllHostRequestsEnd(s: State, steps: seq<Step>)
    requires Inv(s) && CanRun(s, steps) && NoArrivals(steps)
    requires forall step :: Enabled(After(s, steps), step) ==> step.Arrive?
    ensures forall h: nat | h < |After(s, steps).hosts| :: h in After(s, steps).ended
  {
    RunInv(s, steps);
    hide Inv, Enabled, Next;
    forall h: nat | h < |After(s, steps).hosts| ensures h in After(s, steps).ended {
      if h !in After(s, steps).ended { var step := NotStuck(After(s, steps), h); }
    }
  }
}
