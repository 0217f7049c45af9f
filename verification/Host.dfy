/** Whole runs of the page-level FTL against a plain map from LPA to data. */
module Host {
  import opened Common
  import opened Nand
  import opened Lists
  import opened Geometry
  import opened BlockManager
  import opened Mapping
  import opened Cursor
  import opened Balance
  import opened PageFtl
  import opened Allocation

  /** What can happen to the FTL: a write of some pages, a trim, a garbage collection with the
      erase outcomes the device reports. */
  datatype Op = Write(pages: seq<seq<Slot>>) | Trim(lpa: nat, len: nat) | Collect(bad: seq<bool>)

  predicate OpOk(op: Op, g: Geometry) {
    match op
    case Write(pages) => forall i | 0 <= i < |pages| :: |pages[i]| == g.subpages
    case Trim(_, _) => true
    case Collect(bad) => |bad| == g.Punits()
  }

  /** One operation on the plain map that the device must look like. */
  function Apply(m: map<int, Data>, op: Op, nrLpas: nat): map<int, Data> {
    match op
    case Write(pages) => StorePages(m, pages)
    case Trim(lpa, len) => if lpa + len > nrLpas then m else m - Span(lpa, lpa + len)
    case Collect(_) => m
  }

  function Replay(m: map<int, Data>, ops: seq<Op>, nrLpas: nat): map<int, Data> {
    if ops == [] then m else Apply(Replay(m, ops[..|ops| - 1], nrLpas), ops[|ops| - 1], nrLpas)
  }

  /** Why a run ended: all done, no block to write to, a write beyond the logical space,
      or an allocation failure inside GC. */
  datatype Stop = Finished | Full | Refused | Halted

  /** What an operation's outcome depends on. */
  datatype Frozen = Frozen(blocks: seq<Block>, lists: ListHeads, ac: seq<nat>, pos: nat, nrLpas: nat, contents: map<int, Data>, log: seq<Event>)

  ghost function Freeze(ftl: PageFtl): Frozen
    reads ftl, ftl.abm
  {
    Frozen(ftl.abm.blocks, ftl.abm.lists, ftl.ac, ftl.Position(), |ftl.mt|, ftl.Contents(), ftl.log)
  }

  /** The outcome of an operation, from the state before it. */
  ghost function Outcome(g: Geometry, f: Frozen, op: Op): Stop
    requires g.Valid()
  {
    match op
    case Write(pages) =>
      var good := FirstBadPage(pages, f.nrLpas);
      if !Enough(f.lists, g, f.pos, Min(good + 1, |pages|)) then Full else if good < |pages| then Refused else Finished
    case Trim(_, _) => Finished
    case Collect(_) => if GcFails(f.blocks, f.lists, f.ac, g, f.pos) then Halted else Finished
  }

  lemma {:induction false} EnoughFewer(lists: ListHeads, g: Geometry, pos: nat, n: nat, m: nat)
    requires g.Valid() && n <= m
    ensures Enough(lists, g, pos, m) ==> Enough(lists, g, pos, n)
  {
    RoundPositive(g);
    QuotientGrows(pos + n, pos + m, RoundSize(g));
  }

  lemma {:induction false} QuotientGrows(x: nat, y: nat, d: nat)
    requires x <= y && d > 0
    ensures x / d <= y / d
  {
    if y / d < x / d { MulLe(y / d + 1, x / d, d); }
  }

  function StopOf(r: WriteResult): Stop {
    match r case Written => Finished case NoSpace => Full case BadAddress => Refused
  }

  /** A write's outcome follows from how far it got. */
  lemma {:induction false} WriteOutcome(g: Geometry, f: Frozen, pages: seq<seq<Slot>>, r: WriteResult, done: nat)
    requires g.Valid() && done <= |pages| && (r.Written? <==> done == |pages|)
    requires (forall i | 0 <= i < done :: SlotsOk(pages[i], f.nrLpas)) && Enough(f.lists, g, f.pos, done)
    requires r.NoSpace? ==> !Enough(f.lists, g, f.pos, done + 1)
    requires r.BadAddress? ==> Enough(f.lists, g, f.pos, done + 1) && !SlotsOk(pages[done], f.nrLpas)
    ensures Outcome(g, f, Write(pages)) == StopOf(r)
  {
    hide SlotsOk, Enough;
    var good := FirstBadPage(pages, f.nrLpas);
    if r.NoSpace? { EnoughFewer(f.lists, g, f.pos, done + 1, Min(good + 1, |pages|)); }
  }

  /** Every unit has a victim, so a collection takes place. */
  ghost predicate Collects(f: Frozen) {
    forall u | 0 <= u < |f.ac| :: HasVictim(f.lists, f.ac, u)
  }

  /** The pages an operation writes. */
  ghost function OpPages(g: Geometry, f: Frozen, op: Op): nat
    requires g.Valid()
  {
    match op
    case Write(pages) => |pages|
    case Trim(_, _) => 0
    case Collect(_) => if Collects(f) then GcPages(f.blocks, f.lists, f.ac, g) else 0
  }

  /** What an operation that finishes does.  The pages it writes move the cursor on and take free blocks
      at the ends of a round; a collection erases exactly the greedy victims and gives their
      blocks back, and without a victim on every unit it does nothing. */
  ghost predicate OpStep(g: Geometry, f: Frozen, op: Op, f': Frozen)
    requires g.Valid()
  {
    var n := OpPages(g, f, op);
    var ends := EndsReached(g, f.pos, n);
    && Outcome(g, f, op) == Finished
    && f'.contents == Apply(f.contents, op, f.nrLpas) && f'.nrLpas == f.nrLpas && f'.pos == PositionAfter(g, f.pos, n)
    && if op.Collect? && Collects(f) then
         && Reclaimed(f.blocks, f.lists, f.ac, g.SubpagesPerBlock(), op.bad, f'.blocks, f'.log)
         && Grown(f.log, f'.log, n, ends, g.Punits()) && ends <= 1 && Gained(f.lists, f'.lists, ends == 1, op.bad)
       else
         && Grown(f.log, f'.log, n, ends, 0) && Lost(f.lists, f'.lists, g.Punits(), ends)
         && (op.Collect? ==> f' == f)
  }

  /** One collection. */
  method CollectOnce(ftl: PageFtl, bad: seq<bool>) returns (ok: bool)
    requires ftl.Valid() && |bad| == ftl.g.Punits()
    modifies ftl, ftl.abm
    ensures ok <==> Outcome(ftl.g, old(Freeze(ftl)), Collect(bad)) == Finished
    ensures ok ==> ftl.Valid() && OpStep(ftl.g, old(Freeze(ftl)), Collect(bad), Freeze(ftl))
  {
    hide Span, Logical, BlocksOk, ListsOk, CountersOk, MapInv, CursorOk, UnitsOk, Turns, Tracks, Grown, Lost, GcFails, EndsReached, PositionAfter,
      Gained, HasVictim, Reclaimed, GcPages, FreeLen;
    ghost var f := Freeze(ftl);
    PositionBound(ftl.ac, ftl.turns, ftl.wp, ftl.abm.blocks, ftl.g, ftl.puid, ftl.pageOfs);
    NoPagesNoMove(ftl.g, f.pos);
    GrownNot(ftl.log);
    LostNone(ftl.abm.lists, ftl.g.Punits());
    var r;
    ghost var switched, pages;
    r, switched, pages := ftl.DoGc(bad);
    ok := !r.Bug?;
  }

  /** One operation: its outcome is decided by the state before it, and one that finishes does to the
      contents what it does to a plain map.  A write that stops half way loses only LPAs it names. */
  method Do(ftl: PageFtl, op: Op) returns (stop: Stop)
    requires ftl.Valid() && OpOk(op, ftl.g)
    modifies ftl, ftl.abm
    ensures stop == Outcome(ftl.g, old(Freeze(ftl)), op)
    ensures stop.Finished? ==> ftl.Valid() && OpStep(ftl.g, old(Freeze(ftl)), op, Freeze(ftl))
    ensures stop.Full? || stop.Refused? ==> op.Write? && LostPart(ftl.g, old(Freeze(ftl)), op.pages, stop, ftl.Contents())
  {
    hide StorePages, Span, Logical, BlocksOk, ListsOk, CountersOk, MapInv, CursorOk, UnitsOk, Turns, SlotsOk, Tracks, Grown, Lost, Enough,
      GcFails, EndsReached, PositionAfter, Gained, FirstBadPage, LpasIn, LpasOf, HasVictim, Reclaimed, FreeLen;
    ghost var f := Freeze(ftl);
    match op {
      case Write(ps) =>
        ghost var vflash, loc;
        var r, done;
        r, done, vflash, loc := ftl.WriteRequest(ps);
        WriteOutcome(ftl.g, f, ps, r, done);
        if r.NoSpace? {
          LostAt(ftl.g, f, ps, Full, done, ftl.Contents());
          return Full;
        }
        if r.BadAddress? {
          LostAt(ftl.g, f, ps, Refused, done, ftl.Contents());
          return Refused;
        }
      case Trim(lpa, len) =>
        PositionBound(ftl.ac, ftl.turns, ftl.wp, ftl.abm.blocks, ftl.g, ftl.puid, ftl.pageOfs);
        NoPagesNoMove(ftl.g, f.pos);
        GrownNot(ftl.log);
        var refused := ftl.InvalidateLpa(lpa, len);
        SameLengths(f.lists, ftl.abm.lists, ftl.g.Punits());
      case Collect(bad) =>
        var ok := CollectOnce(ftl, bad);
        if !ok { return Halted; }
    }
    stop := Finished;
  }

  lemma {:induction false} SameLengths(lists0: ListHeads, lists: ListHeads, nrPunits: nat)
    requires forall u | 0 <= u < nrPunits :: FreeLen(lists, u) == FreeLen(lists0, u)
    ensures Lost(lists0, lists, nrPunits, 0)
  {
    hide FreeLen;
  }

  /** A write that stops has lost the LPAs of its first n pages, where page n is the first without
      a free block or the first with a bad address; of that last page it has lost those before the
      bad address. */
  ghost predicate LostPart(g: Geometry, f: Frozen, pages: seq<seq<Slot>>, stop: Stop, m: map<int, Data>)
    requires g.Valid()
  {
    exists n :: LostFrom(g, f, pages, stop, n, m)
  }

  ghost predicate LostFrom(g: Geometry, f: Frozen, pages: seq<seq<Slot>>, stop: Stop, n: nat, m: map<int, Data>)
    requires g.Valid()
  {
    && n < |pages| && Enough(f.lists, g, f.pos, n) && n <= FirstBadPage(pages, f.nrLpas)
    && if stop.Refused? then
         n == FirstBadPage(pages, f.nrLpas) && m == f.contents - LpasIn(pages[..n]) - LpasOf(pages[n][..FirstBad(pages[n], f.nrLpas)])
       else
         !Enough(f.lists, g, f.pos, n + 1) && m == f.contents - LpasIn(pages[..n])
  }

  lemma {:induction false} LostAt(g: Geometry, f: Frozen, pages: seq<seq<Slot>>, stop: Stop, n: nat, m: map<int, Data>)
    requires g.Valid() && n < |pages| && Enough(f.lists, g, f.pos, n) && forall i | 0 <= i < n :: SlotsOk(pages[i], f.nrLpas)
    requires stop.Refused? ==>
               !SlotsOk(pages[n], f.nrLpas) && m == f.contents - LpasIn(pages[..n]) - LpasOf(pages[n][..FirstBad(pages[n], f.nrLpas)])
    requires !stop.Refused? ==> !Enough(f.lists, g, f.pos, n + 1) && m == f.contents - LpasIn(pages[..n])
    ensures LostPart(g, f, pages, stop, m)
  {
    hide LpasIn, LpasOf, SlotsOk, Enough;
    assert LostFrom(g, f, pages, stop, n, m);
  }

  predicate NoBad(bad: seq<bool>) {
    forall u | 0 <= u < |bad| :: !bad[u]
  }

  /** Every unit has gained `up` free blocks and lost `down`. */
  ghost predicate Shifted(lists0: ListHeads, lists: ListHeads, nrPunits: nat, up: nat, down: nat) {
    forall u | 0 <= u < nrPunits :: FreeLen(lists, u) + down == FreeLen(lists0, u) + up
  }

  lemma {:induction false} ShiftedSame(lists: ListHeads, nrPunits: nat)
    ensures Shifted(lists, lists, nrPunits, 0, 0)
  {
  }

  /** Collections add a free block to every unit, ends of a round take one. */
  lemma {:induction false} OpShifts(g: Geometry, f: Frozen, op: Op, f': Frozen)
    requires g.Valid() && OpOk(op, g) && OpStep(g, f, op, f') && (op.Collect? ==> NoBad(op.bad))
    ensures Shifted(f.lists, f'.lists, g.Punits(), if op.Collect? && Collects(f) then 1 else 0, EndsReached(g, f.pos, OpPages(g, f, op)))
  {
    hide FreeLen, EndsReached, Outcome, Apply, Grown, Reclaimed, OpPages, Collects, PositionAfter;
  }

  lemma {:induction false} ShiftedTwice(lists0: ListHeads, lists1: ListHeads, lists: ListHeads, nrPunits: nat, up: nat, down: nat, up': nat, down': nat)
    requires Shifted(lists0, lists1, nrPunits, up, down) && Shifted(lists1, lists, nrPunits, up', down')
    ensures Shifted(lists0, lists, nrPunits, up + up', down + down')
  {
  }

  /** Level units stay level. */
  lemma {:induction false} ShiftedBalanced(lists0: ListHeads, lists: ListHeads, nrPunits: nat, up: nat, down: nat, f: nat)
    requires Shifted(lists0, lists, nrPunits, up, down) && Balanced(lists0, nrPunits, f) && nrPunits > 0
    ensures f + up >= down && Balanced(lists, nrPunits, f + up - down)
  {
    assert FreeLen(lists, 0) + down == FreeLen(lists0, 0) + up && FreeLen(lists0, 0) == f;
  }

  /** Level units are level still, with exactly `up` more free blocks and `down` fewer. */
  ghost predicate KeptLevel(lists0: ListHeads, lists: ListHeads, nrPunits: nat, up: nat, down: nat) {
    forall f: nat | Balanced(lists0, nrPunits, f) :: f + up >= down && Balanced(lists, nrPunits, f + up - down)
  }

  ghost predicate NoBadErase(ops: seq<Op>) {
    forall i | 0 <= i < |ops| && ops[i].Collect? :: NoBad(ops[i].bad)
  }

  /** The states of a run: each operation takes one to the next. */
  ghost predicate Chain(g: Geometry, trace: seq<Frozen>, ops: seq<Op>)
    requires g.Valid()
  {
    |ops| < |trace| && forall i | 0 <= i < |ops| :: OpStep(g, trace[i], ops[i], trace[i + 1])
  }

  /** Pages written, rounds ended and collections made along the way. */
  ghost function PagesIn(g: Geometry, trace: seq<Frozen>, ops: seq<Op>): nat
    requires g.Valid() && |ops| <= |trace|
  {
    if ops == [] then 0 else PagesIn(g, trace, ops[..|ops| - 1]) + OpPages(g, trace[|ops| - 1], ops[|ops| - 1])
  }

  ghost function RoundsIn(g: Geometry, trace: seq<Frozen>, ops: seq<Op>): nat
    requires g.Valid() && |ops| <= |trace|
  {
    if ops == [] then 0
    else
      var n := |ops| - 1;
      RoundsIn(g, trace, ops[..n]) + EndsReached(g, trace[n].pos, OpPages(g, trace[n], ops[n]))
  }

  ghost function CollectionsIn(trace: seq<Frozen>, ops: seq<Op>): nat
    requires |ops| <= |trace|
  {
    if ops == [] then 0
    else CollectionsIn(trace, ops[..|ops| - 1]) + if ops[|ops| - 1].Collect? && Collects(trace[|ops| - 1]) then 1 else 0
  }

  /** Along a chain the contents are those of a plain map, the log grows by what was done, and without bad
      blocks every unit has lost a free block for each round ended and gained one for each
      collection; so level units stay level. */
  ghost predicate Totals(g: Geometry, trace: seq<Frozen>, ops: seq<Op>)
    requires g.Valid() && |ops| < |trace|
  {
    var f, e, up, down := trace[0], trace[|ops|], CollectionsIn(trace, ops), RoundsIn(g, trace, ops);
    && e.contents == Replay(f.contents, ops, f.nrLpas) && e.nrLpas == f.nrLpas
    && Grown(f.log, e.log, PagesIn(g, trace, ops), down, up * g.Punits())
    && (NoBadErase(ops) ==> Shifted(f.lists, e.lists, g.Punits(), up, down) && KeptLevel(f.lists, e.lists, g.Punits(), up, down))
  }

  lemma {:induction false} ChainFront(g: Geometry, trace: seq<Frozen>, ops: seq<Op>)
    requires g.Valid() && |ops| < |trace| && Chain(g, trace, ops) && ops != [] && forall i | 0 <= i < |ops| :: OpOk(ops[i], g)
    ensures var n := |ops| - 1;
            && Chain(g, trace, ops[..n]) && OpStep(g, trace[n], ops[n], trace[n + 1])
            && (forall i | 0 <= i < n :: OpOk(ops[..n][i], g)) && (NoBadErase(ops) ==> NoBadErase(ops[..n]) && (ops[n].Collect? ==> NoBad(ops[n].bad)))
  {
    hide OpStep, OpOk, NoBad;
    var n := |ops| - 1;
    forall i | 0 <= i < n ensures ops[..n][i] == ops[i] {}
  }

  lemma {:induction false} ChainContents(g: Geometry, trace: seq<Frozen>, ops: seq<Op>)
    requires g.Valid() && |ops| < |trace| && Chain(g, trace, ops) && forall i | 0 <= i < |ops| :: OpOk(ops[i], g)
    ensures trace[|ops|].contents == Replay(trace[0].contents, ops, trace[0].nrLpas) && trace[|ops|].nrLpas == trace[0].nrLpas
    decreases |ops|
  {
    hide Chain, Outcome, Reclaimed, Grown, Gained, Lost, Apply, OpOk, EndsReached, PositionAfter, OpPages, Collects, NoBad;
    if ops != [] {
      ChainFront(g, trace, ops);
      ChainContents(g, trace, ops[..|ops| - 1]);
    }
  }

  lemma {:induction false} ChainLog(g: Geometry, trace: seq<Frozen>, ops: seq<Op>)
    requires g.Valid() && |ops| < |trace| && Chain(g, trace, ops) && forall i | 0 <= i < |ops| :: OpOk(ops[i], g)
    ensures Grown(trace[0].log, trace[|ops|].log, PagesIn(g, trace, ops), RoundsIn(g, trace, ops), CollectionsIn(trace, ops) * g.Punits())
    decreases |ops|
  {
    hide Chain, Outcome, Reclaimed, Grown, Gained, Lost, Apply, OpOk, EndsReached, PositionAfter, OpPages, Collects, NoBad;
    if ops == [] {
      GrownNot(trace[0].log);
    } else {
      var n := |ops| - 1;
      var front, op, f := ops[..n], ops[n], trace[n];
      ChainFront(g, trace, ops);
      ChainLog(g, trace, front);
      var c, erases := CollectionsIn(trace, front), CollectionsIn(trace, front) * g.Punits();
      var more := if op.Collect? && Collects(f) then g.Punits() else 0;
      assert CollectionsIn(trace, ops) * g.Punits() == erases + more by {
        if op.Collect? && Collects(f) { Distribute(c, 1, g.Punits()); }
      }
      GrownTwice(trace[0].log, f.log, trace[n + 1].log, PagesIn(g, trace, front), RoundsIn(g, trace, front), erases,
                 OpPages(g, f, op), EndsReached(g, f.pos, OpPages(g, f, op)), more);
    }
  }

  lemma {:induction false} ChainShift(g: Geometry, trace: seq<Frozen>, ops: seq<Op>)
    requires g.Valid() && |ops| < |trace| && Chain(g, trace, ops) && NoBadErase(ops) && forall i | 0 <= i < |ops| :: OpOk(ops[i], g)
    ensures Shifted(trace[0].lists, trace[|ops|].lists, g.Punits(), CollectionsIn(trace, ops), RoundsIn(g, trace, ops))
    decreases |ops|
  {
    hide Chain, OpStep, OpOk, EndsReached, OpPages, Collects, NoBad, Shifted, NoBadErase;
    if ops == [] {
      ShiftedSame(trace[0].lists, g.Punits());
    } else {
      var n := |ops| - 1;
      var front, op, f := ops[..n], ops[n], trace[n];
      ChainFront(g, trace, ops);
      ChainShift(g, trace, front);
      OpShifts(g, f, op, trace[n + 1]);
      ShiftedTwice(trace[0].lists, f.lists, trace[n + 1].lists, g.Punits(), CollectionsIn(trace, front), RoundsIn(g, trace, front),
                   if op.Collect? && Collects(f) then 1 else 0, EndsReached(g, f.pos, OpPages(g, f, op)));
    }
  }

  lemma {:induction false} ChainTotals(g: Geometry, trace: seq<Frozen>, ops: seq<Op>)
    requires g.Valid() && |ops| < |trace| && Chain(g, trace, ops) && forall i | 0 <= i < |ops| :: OpOk(ops[i], g)
    ensures Totals(g, trace, ops)
  {
    ChainContents(g, trace, ops);
    ChainLog(g, trace, ops);
    RoundPositive(g);
    hide Chain, Replay, Grown, PagesIn, RoundsIn, CollectionsIn, NoBadErase, Shifted, KeptLevel, OpOk;
    if NoBadErase(ops) {
      ChainShift(g, trace, ops);
      AllBalanced(trace[0].lists, trace[|ops|].lists, g.Punits(), CollectionsIn(trace, ops), RoundsIn(g, trace, ops));
    }
  }

  lemma {:induction false} ChainPush(g: Geometry, trace: seq<Frozen>, ops: seq<Op>, n: nat, f: Frozen)
    requires g.Valid() && n < |ops| && |trace| == n + 1 && Chain(g, trace, ops[..n]) && OpStep(g, trace[n], ops[n], f)
    ensures Chain(g, trace + [f], ops[..n + 1])
  {
    hide OpStep;
    var trace', ops' := trace + [f], ops[..n + 1];
    forall i | 0 <= i < |ops'| ensures OpStep(g, trace'[i], ops'[i], trace'[i + 1]) {
      if i < n { assert ops[..n][i] == ops'[i]; }
    }
  }

  /** Any run of writes, trims and collections.  `trace` holds the states after the operations done: a
      chain of their steps from the state before the run.  As far as the run gets, the device
      reads as if every operation had been applied to a plain map, and the last state decides
      why it stopped.  Without bad blocks level units stay level. */
  method Run(ftl: PageFtl, ops: seq<Op>) returns (done: nat, stop: Stop, ghost trace: seq<Frozen>)
    requires ftl.Valid() && forall i | 0 <= i < |ops| :: OpOk(ops[i], ftl.g)
    modifies ftl, ftl.abm
    ensures done <= |ops| && (stop.Finished? <==> done == |ops|)
    ensures |trace| == done + 1 && trace[0] == old(Freeze(ftl)) && Chain(ftl.g, trace, ops[..done])
    ensures trace[done].contents == Replay(old(ftl.Contents()), ops[..done], |old(ftl.mt)|) && Totals(ftl.g, trace, ops[..done])
    ensures stop.Finished? ==> ftl.Valid() && trace[done] == Freeze(ftl)
    ensures done < |ops| ==> stop == Outcome(ftl.g, trace[done], ops[done])
    ensures stop.Full? || stop.Refused? ==>
              done < |ops| && ops[done].Write? && LostPart(ftl.g, trace[done], ops[done].pages, stop, ftl.Contents())
  {
    hide Replay, Span, Logical, BlocksOk, ListsOk, CountersOk, MapInv, CursorOk, UnitsOk, Turns, Tracks, Grown, Shifted, KeptLevel, Outcome,
      NoBadErase, OpStep, LostPart, PagesIn, RoundsIn, CollectionsIn, Chain, OpOk;
    done := 0;
    trace := [Freeze(ftl)];
    NoChain(ftl.g, trace);
    assert ops[..0] == [];
    while done < |ops|
      invariant done <= |ops| && ftl.Valid() && |trace| == done + 1 && trace[0] == old(Freeze(ftl)) && trace[done] == Freeze(ftl)
      invariant Chain(ftl.g, trace, ops[..done])
    {
      stop := Do(ftl, ops[done]);
      if !stop.Finished? {
        ChainTotals(ftl.g, trace, ops[..done]);
        return;
      }
      ChainPush(ftl.g, trace, ops, done, Freeze(ftl));
      trace := trace + [Freeze(ftl)];
      done := done + 1;
    }
    stop := Finished;
    ChainTotals(ftl.g, trace, ops[..done]);
  }

  lemma {:induction false} NoChain(g: Geometry, trace: seq<Frozen>)
    requires g.Valid() && |trace| == 1
    ensures Chain(g, trace, [])
  {
  }

  lemma {:induction false} AllBalanced(lists0: ListHeads, lists: ListHeads, nrPunits: nat, up: nat, down: nat)
    requires Shifted(lists0, lists, nrPunits, up, down) && nrPunits > 0
    ensures KeptLevel(lists0, lists, nrPunits, up, down)
  {
    hide Balanced, Shifted;
    forall f: nat | Balanced(lists0, nrPunits, f) ensures f + up >= down && Balanced(lists, nrPunits, f + up - down) {
      ShiftedBalanced(lists0, lists, nrPunits, up, down, f);
    }
  }

  // ---- what the allocator hands out in any run -------------------------------------------------

  /** In every state a run can reach, no page has been handed out twice without an erase of its
      block in between. */
  lemma {:induction false} HandedOutOnce(ftl: PageFtl, i: nat, j: nat)
    requires ftl.Valid() && i < j < |ftl.log| && ftl.log[i].Handed? && ftl.log[j] == ftl.log[i]
    ensures exists k :: i < k < j && ftl.log[k] == Erased(ftl.log[i].blk)
  {
    NoPageTwice(ftl.g, ftl.start, ftl.log, i, j);
  }

  /** ... and the pages of a block since its last erase came out in order from the first one, up to its
      write pointer.  A block that was used up when the FTL was loaded has handed out nothing until
      it is erased. */
  lemma {:induction false} HandedOutInOrder(ftl: PageFtl, b: nat)
    requires ftl.Valid() && b < |ftl.wp|
    ensures forall k | 0 <= k < |PagesOf(ftl.log, b)| :: PagesOf(ftl.log, b)[k] == k < ftl.g.pagesPerBlock
    ensures |ftl.start.next| == |ftl.wp|
    ensures var usedUp := ftl.start.next[b] != 0 && Erased(b) !in ftl.log;
            && (usedUp ==> PagesOf(ftl.log, b) == [])
            && ftl.wp[b] == ftl.g.subpages * if usedUp then ftl.g.pagesPerBlock else |PagesOf(ftl.log, b)|
  {
    hide BlocksOk, ListsOk, CountersOk, MapInv, CursorOk, UnitsOk, Turns, PagesOf, LogOk, StartOk, Allocation.Replay;
    NextLength(ftl.g, ftl.start, ftl.log);
    PagesFromStart(ftl.g, ftl.start, ftl.log, b);
  }

  /** ... and each round, from creation or load on, handed out every page of its active blocks
      exactly once. */
  lemma {:induction false} RoundHandedOut(ftl: PageFtl, k: nat, n: nat, u: nat, p: nat) returns (i: nat)
    requires ftl.Valid() && k <= n <= |ftl.log| && (k > 0 ==> ftl.log[k - 1].Fresh?) && NoFresh(ftl.log[k..n])
    requires HandedCount(ftl.log[k..n]) == RoundSize(ftl.g) && u < ftl.g.Punits() && p < ftl.g.pagesPerBlock
    ensures var ac := RoundBlocks(ftl.start, ftl.log, k);
            && |ac| == ftl.g.Punits() && k <= i < n && ftl.log[i] == Handed(ac[u], p)
            && (forall j | k <= j < n && ftl.log[j] == Handed(ac[u], p) :: j == i)
            && forall j | k <= j < n && ftl.log[j].Handed? :: ftl.log[j].blk in ac
  {
    hide BlocksOk, ListsOk, CountersOk, MapInv, CursorOk, UnitsOk, Turns, HandedCount, RoundSize, Allocation.Replay;
    i := EveryRoundExact(ftl.g, ftl.start, ftl.log, k, n, u, p);
  }

  // ---- writes with on-demand garbage collection ------------------------------------------------

  /** Fewer than 3 percent of the blocks are free. */
  ghost predicate PressedAt(f: Frozen) {
    Count(f.blocks, Free) * 100 < 3 * |f.blocks|
  }

  ghost predicate Pressed(ftl: PageFtl)
    reads ftl, ftl.abm
  {
    PressedAt(Freeze(ftl))
  }

  /** The states of a check for collection: from each but the last, in which free blocks are short, a
      collection leads to the next. */
  ghost predicate Checking(g: Geometry, trace: seq<Frozen>, bad: seq<seq<bool>>)
    requires g.Valid()
  {
    && 0 < |trace| <= |bad| + 1
    && forall i | 0 <= i < |trace| - 1 :: PressedAt(trace[i]) && OpStep(g, trace[i], Collect(bad[i]), trace[i + 1])
  }

  /** It ends with the first state in which they are not short, or when every verdict has been used, ... */
  ghost predicate Checked(g: Geometry, f: Frozen, bad: seq<seq<bool>>, trace: seq<Frozen>)
    requires g.Valid()
  {
    Checking(g, trace, bad) && trace[0] == f && (|trace| == |bad| + 1 || !PressedAt(trace[|trace| - 1]))
  }

  /** ... or in a state in which they are short and the collection fails. */
  ghost predicate CheckFails(g: Geometry, f: Frozen, bad: seq<seq<bool>>, trace: seq<Frozen>)
    requires g.Valid()
  {
    && Checking(g, trace, bad) && trace[0] == f && |trace| <= |bad| && PressedAt(trace[|trace| - 1])
    && Outcome(g, trace[|trace| - 1], Collect(bad[|trace| - 1])) == Halted
  }

  lemma {:induction false} CheckMore(g: Geometry, trace: seq<Frozen>, bad: seq<seq<bool>>, f: Frozen)
    requires g.Valid() && Checking(g, trace, bad) && |trace| <= |bad| && PressedAt(trace[|trace| - 1])
    requires OpStep(g, trace[|trace| - 1], Collect(bad[|trace| - 1]), f)
    ensures Checking(g, trace + [f], bad)
  {
    hide OpStep, PressedAt;
    var n, trace' := |trace| - 1, trace + [f];
    forall i | 0 <= i < |trace'| - 1 ensures PressedAt(trace'[i]) && OpStep(g, trace'[i], Collect(bad[i]), trace'[i + 1]) {}
  }

  /** What one collection keeps. */
  lemma {:induction false} CollectKeeps(g: Geometry, f: Frozen, bad: seq<bool>, f': Frozen)
    requires g.Valid() && OpStep(g, f, Collect(bad), f')
    ensures f'.contents == f.contents && f'.nrLpas == f.nrLpas
    ensures ErasedCount(f'.log) == ErasedCount(f.log) + if Collects(f) then g.Punits() else 0
  {
    hide Reclaimed, Gained, Lost, Collects, EndsReached, PositionAfter, OpPages, Outcome, HandedCount, FreshCount, ErasedCount;
  }

  lemma {:induction false} CollectLevel(g: Geometry, f: Frozen, bad: seq<bool>, f': Frozen, n: nat) returns (n': nat)
    requires g.Valid() && OpStep(g, f, Collect(bad), f') && |bad| == g.Punits() && NoBad(bad) && Balanced(f.lists, g.Punits(), n)
    ensures n <= n' && Balanced(f'.lists, g.Punits(), n')
  {
    hide Reclaimed, Grown, EndsReached, PositionAfter, Outcome, OpPages, Balanced, NoBad, FreeLen, Collects, Lost, Gained;
    n' := n;
    if Collects(f) {
      var ends := EndsReached(g, f.pos, OpPages(g, f, Collect(bad)));
      BalancedGain(f.lists, f'.lists, ends == 1, bad, n);
      n' := n + if ends == 1 then 0 else 1;
    }
  }

  /** A check changes no content and erases victims if it begins by collecting. */
  lemma {:induction false} CheckKeeps(g: Geometry, trace: seq<Frozen>, bad: seq<seq<bool>>, i: nat)
    requires g.Valid() && i < |trace| && Checking(g, trace, bad)
    ensures trace[i].contents == trace[0].contents && trace[i].nrLpas == trace[0].nrLpas
    ensures ErasedCount(trace[i].log) >= ErasedCount(trace[0].log) + if i > 0 && Collects(trace[0]) then g.Punits() else 0
  {
    hide OpStep, Collects, ErasedCount, PressedAt;
    if i > 0 {
      assert OpStep(g, trace[i - 1], Collect(bad[i - 1]), trace[i]);
      CollectKeeps(g, trace[i - 1], bad[i - 1], trace[i]);
      CheckKeeps(g, trace, bad, i - 1);
      hide Checking;
    }
  }

  /** Without bad blocks level units stay level and lose no free block. */
  lemma {:induction false} CheckLevel(g: Geometry, trace: seq<Frozen>, bad: seq<seq<bool>>, i: nat, f: nat) returns (f': nat)
    requires g.Valid() && i < |trace| && Checking(g, trace, bad) && Balanced(trace[0].lists, g.Punits(), f)
    requires forall k | 0 <= k < |bad| :: |bad[k]| == g.Punits() && NoBad(bad[k])
    ensures f <= f' && Balanced(trace[i].lists, g.Punits(), f')
    ensures i == 0 ==> f' == f
  {
    hide OpStep, Balanced, NoBad, PressedAt;
    f' := f;
    if i > 0 {
      f' := CheckLevel(g, trace, bad, i - 1, f);
      assert OpStep(g, trace[i - 1], Collect(bad[i - 1]), trace[i]);
      f' := CollectLevel(g, trace[i - 1], bad[i - 1], trace[i], f');
    }
  }

  /** Up to ten collections before a write.  `trace` holds the states it goes through: it collects exactly
      while free blocks are short, at most ten times, and stops early only when a collection
      fails.  So when none is needed nothing changes, and when one is and every unit has a victim
      and a free block, victims are erased on every unit.  Without bad blocks the units stay
      level, none of them loses free blocks, and no collection fails as long as each has one. */
  method CheckOndemandGc(ftl: PageFtl, bad: seq<seq<bool>>, ghost f: nat) returns (ok: bool, pressed: bool, ghost f': nat, ghost trace: seq<Frozen>)
    requires ftl.Valid() && |bad| == 10 && forall i | 0 <= i < |bad| :: |bad[i]| == ftl.g.Punits()
    modifies ftl, ftl.abm
    ensures if ok then Checked(ftl.g, old(Freeze(ftl)), bad, trace) else CheckFails(ftl.g, old(Freeze(ftl)), bad, trace)
    ensures ok ==> ftl.Valid() && trace[|trace| - 1] == Freeze(ftl) && (pressed <==> Pressed(ftl))
    ensures ok ==> ftl.Contents() == old(ftl.Contents()) && |ftl.mt| == |old(ftl.mt)|
    ensures !old(Pressed(ftl)) ==> ok && !pressed && f' == f && trace == [old(Freeze(ftl))]
    ensures old(Pressed(ftl) && Collects(Freeze(ftl)) && forall u | 0 <= u < ftl.g.Punits() :: FreeLen(ftl.abm.lists, u) > 0) ==>
              |trace| > 1 && ErasedCount(trace[|trace| - 1].log) >= ErasedCount(old(ftl.log)) + ftl.g.Punits()
    ensures f > 0 && (forall i | 0 <= i < |bad| :: NoBad(bad[i])) && Balanced(old(ftl.abm.lists), ftl.g.Punits(), f) ==>
              ok && f <= f' && Balanced(ftl.abm.lists, ftl.g.Punits(), f')
  {
    hide Logical, BlocksOk, ListsOk, CountersOk, MapInv, CursorOk, UnitsOk, Turns, NoBad, Tracks, Balanced, FreeLen, OpStep, Collects, ErasedCount, Checking,
      PressedAt, Count;
    trace := [Freeze(ftl)];
    StartChecking(ftl.g, trace, bad);
    f', ok, pressed := f, true, true;
    var i := 0;
    while i < 10
      invariant ftl.Valid() && i <= 10 && |trace| == i + 1 && trace[0] == old(Freeze(ftl)) && trace[i] == Freeze(ftl) && Checking(ftl.g, trace, bad)
      invariant i > 0 ==> old(Pressed(ftl))
    {
      BlockTotal(ftl.abm.blocks, ftl.abm.units, ftl.g);
      var needed := ftl.IsGcNeeded();
      PressedIs(ftl);
      if !needed { break; }
      ghost var f0 := Freeze(ftl);
      ok := CollectOnce(ftl, bad[i]);
      if !ok {
        CheckEnds(ftl.g, trace, bad, f);
        return;
      }
      CheckMore(ftl.g, trace, bad, Freeze(ftl));
      trace := trace + [Freeze(ftl)];
      i := i + 1;
    }
    BlockTotal(ftl.abm.blocks, ftl.abm.units, ftl.g);
    pressed := ftl.IsGcNeeded();
    PressedIs(ftl);
    CheckKeeps(ftl.g, trace, bad, i);
    if f > 0 && (forall i | 0 <= i < |bad| :: NoBad(bad[i])) && Balanced(trace[0].lists, ftl.g.Punits(), f) {
      f' := CheckLevel(ftl.g, trace, bad, i, f);
    }
  }

  lemma {:induction false} PressedIs(ftl: PageFtl)
    ensures Pressed(ftl) <==> Count(ftl.abm.blocks, Free) * 100 < 3 * |ftl.abm.blocks|
  {
  }

  lemma {:induction false} StartChecking(g: Geometry, trace: seq<Frozen>, bad: seq<seq<bool>>)
    requires g.Valid() && |trace| == 1
    ensures Checking(g, trace, bad)
  {
  }

  /** A check that fails has not begun with a free block on every unit. */
  lemma {:induction false} CheckEnds(g: Geometry, trace: seq<Frozen>, bad: seq<seq<bool>>, f: nat)
    requires g.Valid() && Checking(g, trace, bad) && |trace| <= |bad| && forall k | 0 <= k < |bad| :: |bad[k]| == g.Punits()
    requires Outcome(g, trace[|trace| - 1], Collect(bad[|trace| - 1])) == Halted
    ensures f > 0 && (forall i | 0 <= i < |bad| :: NoBad(bad[i])) ==> !Balanced(trace[0].lists, g.Punits(), f)
    ensures |trace| == 1 ==> exists u :: 0 <= u < g.Punits() && FreeLen(trace[0].lists, u) == 0
    ensures |trace| > 1 && Collects(trace[0]) ==> ErasedCount(trace[|trace| - 1].log) >= ErasedCount(trace[0].log) + g.Punits()
  {
    var n := |trace| - 1;
    var e := trace[n];
    hide GcFails, Checking, NoBad, Collects, ErasedCount;
    CheckKeeps(g, trace, bad, n);
    if forall u | 0 <= u < g.Punits() :: FreeLen(e.lists, u) > 0 { GcSafe(e.blocks, e.lists, e.ac, g, e.pos); }
    if f > 0 && (forall i | 0 <= i < |bad| :: NoBad(bad[i])) && Balanced(trace[0].lists, g.Punits(), f) {
      var f' := CheckLevel(g, trace, bad, n, f);
      BalancedSafe(e.blocks, e.lists, e.ac, g, e.pos, f');
    }
  }

  lemma {:induction false} BalancedSafe(blocks: seq<Block>, lists: ListHeads, ac: seq<nat>, g: Geometry, pos: nat, f: nat)
    requires g.Valid()
    ensures Balanced(lists, g.Punits(), f) && f > 0 ==> !GcFails(blocks, lists, ac, g, pos)
  {
    hide GcFails;
    if Balanced(lists, g.Punits(), f) && f > 0 { GcSafe(blocks, lists, ac, g, pos); }
  }

  lemma {:induction false} BalancedGain(lists0: ListHeads, lists: ListHeads, switched: bool, bad: seq<bool>, f: nat)
    requires Gained(lists0, lists, switched, bad) && NoBad(bad)
    ensures Balanced(lists0, |bad|, f) ==> Balanced(lists, |bad|, f + if switched then 0 else 1)
  {
  }

  lemma {:induction false} BlockTotal(blocks: seq<Block>, units: seq<nat>, g: Geometry)
    requires g.Valid() && UnitsOk(g, units) && BlocksOk(blocks, units, g.Punits(), g.SubpagesPerBlock())
    ensures |blocks| == g.Punits() * g.blocksPerChip > 0
  {
    Positive(g.channels, g.chips);
    Positive(g.Punits(), g.blocksPerChip);
  }

  /** When GC is not needed and a chip has at least 34 blocks, every unit has two free blocks. */
  lemma {:induction false} TwoFree(ftl: PageFtl, f: nat)
    requires ftl.Valid() && Balanced(ftl.abm.lists, ftl.g.Punits(), f)
    requires ftl.g.blocksPerChip >= 34 && !Pressed(ftl)
    ensures f >= 2
  {
    var g := ftl.g;
    BlockTotal(ftl.abm.blocks, ftl.abm.units, g);
    FreeCount(ftl.abm.blocks, ftl.abm.lists, g.Punits(), f);
    Positive(g.channels, g.chips);
    QuotientBelow(ftl.abm.nrFree * 100, |ftl.abm.blocks|);
    ThresholdPerUnit(g.Punits(), g.blocksPerChip, f);
    Threshold(g.blocksPerChip);
  }

  /** Pages written through the allocator, after one check for collection.  The last state of the
      check decides the outcome, and it is the state before when no collection is needed.
      Without bad blocks and with a free block on every unit, it has f' >= f of them on each, and
      the write succeeds exactly when its pages reach no more than f' ends of a round.  So a write
      of at most one round always does. */
  method HostWrite(ftl: PageFtl, pages: seq<seq<Slot>>, bad: seq<seq<bool>>, ghost f: nat)
    returns (r: WriteResult, pressed: bool, halted: bool, ghost f': nat, ghost trace: seq<Frozen>)
    requires ftl.Valid() && forall i | 0 <= i < |pages| :: |pages[i]| == ftl.g.subpages
    requires |bad| == 10 && forall i | 0 <= i < |bad| :: |bad[i]| == ftl.g.Punits()
    modifies ftl, ftl.abm
    ensures if halted then CheckFails(ftl.g, old(Freeze(ftl)), bad, trace) else Checked(ftl.g, old(Freeze(ftl)), bad, trace)
    ensures !halted ==> StopOf(r) == Outcome(ftl.g, trace[|trace| - 1], Write(pages)) && trace[|trace| - 1].contents == old(ftl.Contents())
    ensures !halted && r.Written? ==> ftl.Valid() && ftl.Contents() == StorePages(old(ftl.Contents()), pages)
    ensures !old(Pressed(ftl)) ==> !halted && f' == f && trace == [old(Freeze(ftl))]
    ensures (f > 0 && (forall i | 0 <= i < |bad| :: NoBad(bad[i])) && Balanced(old(ftl.abm.lists), ftl.g.Punits(), f)
             && forall i | 0 <= i < |pages| :: SlotsOk(pages[i], |old(ftl.mt)|)) ==> (
              var at := trace[|trace| - 1];
              && !halted && f <= f' && Balanced(at.lists, ftl.g.Punits(), f') && at.pos < RoundSize(ftl.g)
              && (!pressed && ftl.g.blocksPerChip >= 34 ==> f' >= 2)
              && (r.Written? <==> EndsReached(ftl.g, at.pos, |pages|) <= f')
              && (r.Written? ==> Balanced(ftl.abm.lists, ftl.g.Punits(), f' - EndsReached(ftl.g, at.pos, |pages|)))
              && (|pages| <= RoundSize(ftl.g) ==> r.Written?))
  {
    hide Logical, BlocksOk, ListsOk, CountersOk, MapInv, CursorOk, UnitsOk, Turns, StorePages, SlotsOk, NoBad, LpasOf, LpasIn, Tracks, Grown,
      Lost, Enough, EndsReached, PositionAfter, Count, Balanced, RoundSize, Outcome, PressedAt, Checking, Collects, ErasedCount, FreeLen;
    var ok;
    ok, pressed, f', trace := CheckOndemandGc(ftl, bad, f);
    ghost var at := Freeze(ftl);
    if !ok { return NoSpace, pressed, true, f', trace; }
    ghost var level := f > 0 && (forall i | 0 <= i < |bad| :: NoBad(bad[i])) && Balanced(old(ftl.abm.lists), ftl.g.Punits(), f);
    if level && !pressed && ftl.g.blocksPerChip >= 34 { TwoFree(ftl, f'); }
    PositionBound(ftl.ac, ftl.turns, ftl.wp, ftl.abm.blocks, ftl.g, ftl.puid, ftl.pageOfs);
    var done;
    ghost var vflash, loc;
    r, done, vflash, loc := ftl.WriteRequest(pages);
    halted := false;
    WriteOutcome(ftl.g, at, pages, r, done);
    if level {
      EnoughLevel(at.lists, ftl.g, at.pos, done, f');
      EnoughLevel(at.lists, ftl.g, at.pos, done + 1, f');
      if done < |pages| { MoreEnds(ftl.g, at.pos, done + 1, |pages|); }
      ShortWrite(ftl.g, at.pos, |pages|);
      if r.Written? { LevelLost(at.lists, ftl.abm.lists, ftl.g.Punits(), f', EndsReached(ftl.g, at.pos, |pages|)); }
    }
  }

  lemma {:induction false} EnoughLevel(lists: ListHeads, g: Geometry, pos: nat, n: nat, f: nat)
    requires g.Valid() && Balanced(lists, g.Punits(), f)
    ensures Enough(lists, g, pos, n) <==> EndsReached(g, pos, n) <= f
  {
    hide EndsReached, FreeLen;
    RoundPositive(g);
    assert FreeLen(lists, 0) == f;
  }

  lemma {:induction false} MoreEnds(g: Geometry, pos: nat, n: nat, m: nat)
    requires g.Valid() && n <= m
    ensures EndsReached(g, pos, n) <= EndsReached(g, pos, m)
  {
    RoundPositive(g);
    QuotientGrows(pos + n, pos + m, RoundSize(g));
  }

  lemma {:induction false} LevelLost(lists0: ListHeads, lists: ListHeads, nrPunits: nat, f: nat, c: nat)
    requires Balanced(lists0, nrPunits, f) && Lost(lists0, lists, nrPunits, c) && c <= f
    ensures Balanced(lists, nrPunits, f - c)
  {
  }

  /** At most one round of pages reaches at most one end of a round. */
  lemma {:induction false} ShortWrite(g: Geometry, pos: nat, n: nat)
    requires g.Valid() && pos < RoundSize(g)
    ensures n <= RoundSize(g) ==> EndsReached(g, pos, n) <= 1
  {
    RoundPositive(g);
    if n <= RoundSize(g) { DivBelow(pos + n, 2, RoundSize(g)); }
  }

  /** Enough pages at once run out of blocks, however many free blocks the units have. */
  lemma {:induction false} LongWriteFails(g: Geometry, at: Frozen, pages: seq<seq<Slot>>, f: nat)
    requires g.Valid() && Balanced(at.lists, g.Punits(), f) && |pages| >= (f + 1) * RoundSize(g)
    requires forall i | 0 <= i < |pages| :: SlotsOk(pages[i], at.nrLpas)
    ensures Outcome(g, at, Write(pages)) == Full
  {
    hide Balanced, SlotsOk, Enough, RoundSize;
    RoundPositive(g);
    DivLarge(at.pos + |pages|, RoundSize(g), f + 1);
    EnoughLevel(at.lists, g, at.pos, |pages|, f);
    assert FirstBadPage(pages, at.nrLpas) == |pages|;
  }

  // ---- restart ---------------------------------------------------------------------------------

  /** Shut down, keep the flash, start again: every LPA reads as before, and every block has its erase
      count and stays in use, bad or free, unless it is one of the fresh active ones. */
  method Restart(was: PageFtl, now: PageFtl) returns (ok: bool)
    requires was.Valid() && now.Valid() && was != now && was.abm != now.abm && was.g == now.g
    modifies was, was.abm, now, now.abm
    ensures now.Core() && now.Contents() == old(was.Contents())
    ensures ok ==> now.Valid() && now.Position() == 0 && |now.abm.blocks| == |old(was.abm.blocks)|
    ensures ok ==> forall b | 0 <= b < |now.abm.blocks| :: Survives(old(was.abm.blocks)[b], now.abm.blocks[b])
    ensures ok ==> forall b: nat | b < |now.abm.blocks| && old(was.abm.blocks)[b].status.Free? && b !in now.ac :: now.abm.blocks[b].status.Free?
    ensures ok <==> forall u | 0 <= u < was.g.Punits() :: FreeLen(old(was.abm.lists), u) > 0
  {
    hide Logical, BlocksOk, ListsOk, CountersOk, MapInv, CursorOk, Turns, Sealed, GivenUp, ImageOk, UnitsOk, Recorded, Settled, FreeIn, Resumed,
      SameShape, Survives, Tracks;
    SameUnits(was.g, was.abm.units, now.abm.units);
    ActiveCount(now);
    var table, image := was.StoreSnapshot();
    ImageInv(image, was.abm.blocks, table, was.flash, was.wp);
    FreeImage(image, was.abm.blocks, was.abm.lists, was.g.Punits());
    now.flash := was.flash;
    ok := now.LoadSnapshot(table, image, was.wp);
    if ok { RestartSurvives(old(was.abm.blocks), was.abm.blocks, image, now.abm.blocks, now.ac); }
  }

  lemma {:induction false} RestartSurvives(blocks0: seq<Block>, blocks1: seq<Block>, image: seq<BlockImage>, blocks: seq<Block>, ac: seq<nat>)
    requires SameShape(blocks0, blocks1) && Recorded(image, blocks1) && Resumed(image, blocks, ac)
    ensures |blocks| == |blocks0| && forall b | 0 <= b < |blocks| :: Survives(blocks0[b], blocks[b])
    ensures forall b: nat | b < |blocks| && blocks0[b].status.Free? && b !in ac :: blocks[b].status.Free?
  {
    forall b: nat | b < |blocks| ensures Survives(blocks0[b], blocks[b]) && (blocks0[b].status.Free? && b !in ac ==> blocks[b].status.Free?) {
      assert Record(blocks1[b]) == image[b];
    }
  }

  lemma {:induction false} SameUnits(g: Geometry, units: seq<nat>, units': seq<nat>)
    requires g.Valid() && UnitsOk(g, units) && UnitsOk(g, units')
    ensures units == units'
  {
  }

  lemma {:induction false} ActiveCount(ftl: PageFtl)
    requires ftl.Valid()
    ensures |ftl.ac| == ftl.g.Punits()
  {
  }

  lemma {:induction false} ImageInv(image: seq<BlockImage>, blocks: seq<Block>, mt: Table, flash: Flash, w: seq<nat>)
    requires Recorded(image, blocks)
    requires MapInv(blocks, mt, flash, w) && Sealed(blocks, w)
    ensures MapInv(ImageBlocks(image), mt, flash, w) && Sealed(ImageBlocks(image), w)
  {
    assert SamePst(blocks, ImageBlocks(image));
    SamePstInv(blocks, ImageBlocks(image), mt, flash, w);
  }
}
