/** The single-page allocator over whole runs: what it hands out, as a log of events. */
module Allocation {
  import opened Common
  import opened Geometry

  /** A page handed out, a block erased, a switch to fresh active blocks. */
  datatype Event = Handed(blk: nat, page: nat) | Erased(blk: nat) | Fresh(ac: seq<nat>)

  /** The allocator: active blocks, cursor, and the next page of every block since its last erase. */
  datatype Alloc = Alloc(ac: seq<nat>, puid: nat, page: nat, next: seq<nat>)

  /** The event can happen: the page is the one under the cursor and the next of its block, an
      erased block is not active, fresh active blocks are unused and come at the end of a round. */
  predicate Fits(g: Geometry, a: Alloc, e: Event)
    requires g.Valid()
  {
    match e
    case Handed(b, p) =>
      && a.puid < g.Punits() == |a.ac| && g.UnitAt(a.puid) < |a.ac| && b == a.ac[g.UnitAt(a.puid)]
      && p == a.page < g.pagesPerBlock && b < |a.next| && p == a.next[b]
    case Erased(b) => b < |a.next| && b !in a.ac
    case Fresh(ac) =>
      && a.puid == 0 && a.page == g.pagesPerBlock && |ac| == g.Punits() && NoDup(ac)
      && forall u | 0 <= u < |ac| :: ac[u] < |a.next| && a.next[ac[u]] == 0
  }

  /** What the event does; one that does not fit does nothing. */
  function Step(g: Geometry, a: Alloc, e: Event): Alloc
    requires g.Valid()
  {
    if !Fits(g, a, e) then a else
    match e
    case Handed(b, p) =>
      if a.puid + 1 == g.Punits() then a.(puid := 0, page := p + 1, next := a.next[b := p + 1])
      else a.(puid := a.puid + 1, next := a.next[b := p + 1])
    case Erased(b) => a.(next := a.next[b := 0])
    case Fresh(ac) => Alloc(ac, 0, 0, a.next)
  }

  function Replay(g: Geometry, a: Alloc, log: seq<Event>): Alloc
    requires g.Valid()
    decreases |log|
  {
    if log == [] then a else Step(g, Replay(g, a, log[..|log| - 1]), log[|log| - 1])
  }

  /** Every event of the log fits the allocator at its time. */
  predicate LogOk(g: Geometry, a: Alloc, log: seq<Event>)
    requires g.Valid()
    decreases |log|
  {
    log == [] || (LogOk(g, a, log[..|log| - 1]) && Fits(g, Replay(g, a, log[..|log| - 1]), log[|log| - 1]))
  }

  lemma {:induction false} LogPush(g: Geometry, a: Alloc, log: seq<Event>, e: Event)
    requires g.Valid() && LogOk(g, a, log) && Fits(g, Replay(g, a, log), e)
    ensures LogOk(g, a, log + [e]) && Replay(g, a, log + [e]) == Step(g, Replay(g, a, log), e)
  {
    assert (log + [e])[..|log|] == log;
  }

  lemma {:induction false} LogPrefix(g: Geometry, a: Alloc, log: seq<Event>, n: nat)
    requires g.Valid() && LogOk(g, a, log) && n <= |log|
    ensures LogOk(g, a, log[..n])
    ensures n < |log| ==> Fits(g, Replay(g, a, log[..n]), log[n]) && LogOk(g, a, log[..n + 1])
                          && Replay(g, a, log[..n + 1]) == Step(g, Replay(g, a, log[..n]), log[n])
    decreases |log|
  {
    hide Fits, Step;
    if n == |log| {
      assert log[..n] == log;
    } else {
      var front := log[..|log| - 1];
      if n == |log| - 1 {
        assert log[..n + 1] == log;
      } else {
        LogPrefix(g, a, front, n);
        assert front[..n] == log[..n] && front[..n + 1] == log[..n + 1] && front[n] == log[n];
      }
    }
  }

  // ---- pages of one block ----------------------------------------------------------------------

  /** The pages of block b handed out since its last erase, in order. */
  function PagesOf(log: seq<Event>, b: nat): seq<nat>
    decreases |log|
  {
    if log == [] then []
    else
      var front := PagesOf(log[..|log| - 1], b);
      match log[|log| - 1]
      case Handed(c, p) => if c == b then front + [p] else front
      case Erased(c) => if c == b then [] else front
      case Fresh(_) => front
  }

  /** Between two erases the pages of a block come out as k, k + 1, ..., from 0 after an erase and
      within the block. */
  lemma {:induction false} PagesInOrder(g: Geometry, a: Alloc, log: seq<Event>, b: nat)
    requires g.Valid() && LogOk(g, a, log) && b < |a.next|
    ensures |Replay(g, a, log).next| == |a.next|
    ensures var from := if Erased(b) in log then 0 else a.next[b];
            && Replay(g, a, log).next[b] == from + |PagesOf(log, b)|
            && forall k | 0 <= k < |PagesOf(log, b)| :: PagesOf(log, b)[k] == from + k < g.pagesPerBlock
    decreases |log|
  {
    if log != [] {
      var front, e := log[..|log| - 1], log[|log| - 1];
      PagesInOrder(g, a, front, b);
      assert log == front + [e];
    }
  }

  lemma {:induction false} NextLength(g: Geometry, a: Alloc, log: seq<Event>)
    requires g.Valid()
    ensures |Replay(g, a, log).next| == |a.next|
    decreases |log|
  {
    if log != [] { NextLength(g, a, log[..|log| - 1]); }
  }

  /** No page is handed out twice without an erase of its block in between. */
  lemma {:induction false} NoPageTwice(g: Geometry, a: Alloc, log: seq<Event>, i: nat, j: nat)
    requires g.Valid() && LogOk(g, a, log) && i < j < |log| && log[i].Handed? && log[j] == log[i]
    ensures exists k :: i < k < j && log[k] == Erased(log[i].blk)
  {
    var b, p := log[i].blk, log[i].page;
    LogPrefix(g, a, log, i);
    NextLength(g, a, log[..i]);
    if forall k | i < k < j :: log[k] != Erased(b) {
      NextGrows(g, a, log, b, i + 1, j);
      LogPrefix(g, a, log, j);
    }
  }

  /** Without an erase a block's next page never goes back. */
  lemma {:induction false} NextGrows(g: Geometry, a: Alloc, log: seq<Event>, b: nat, i: nat, j: nat)
    requires g.Valid() && LogOk(g, a, log) && i <= j <= |log| && b < |a.next|
    requires forall k | i <= k < j :: log[k] != Erased(b)
    ensures LogOk(g, a, log[..i]) && LogOk(g, a, log[..j])
    ensures |Replay(g, a, log[..i]).next| == |Replay(g, a, log[..j]).next| == |a.next|
    ensures Replay(g, a, log[..i]).next[b] <= Replay(g, a, log[..j]).next[b]
    decreases j
  {
    hide Replay, LogOk, PagesOf, Fits, Step;
    LogPrefix(g, a, log, i);
    LogPrefix(g, a, log, j);
    PagesInOrder(g, a, log[..i], b);
    PagesInOrder(g, a, log[..j], b);
    if i < j {
      NextGrows(g, a, log, b, i, j - 1);
      LogPrefix(g, a, log, j - 1);
      StepGrows(g, Replay(g, a, log[..j - 1]), log[j - 1], b);
    }
  }

  lemma {:induction false} StepGrows(g: Geometry, a: Alloc, e: Event, b: nat)
    requires g.Valid() && b < |a.next| && e != Erased(b)
    ensures |Step(g, a, e).next| == |a.next| && a.next[b] <= Step(g, a, e).next[b]
  {
  }

  // ---- one round -----------------------------------------------------------------------------------

  function HandedCount(log: seq<Event>): nat
    decreases |log|
  {
    if log == [] then 0 else HandedCount(log[..|log| - 1]) + if log[|log| - 1].Handed? then 1 else 0
  }

  ghost predicate NoFresh(log: seq<Event>) {
    forall i | 0 <= i < |log| :: !log[i].Fresh?
  }

  /** From the start of a round, the cursor after t pages. */
  lemma {:induction false} CursorAfter(g: Geometry, a: Alloc, log: seq<Event>)
    requires g.Valid() && LogOk(g, a, log) && NoFresh(log) && a.puid == 0 && a.page == 0
    ensures g.Punits() > 0
    ensures var r, t := Replay(g, a, log), HandedCount(log);
            r.ac == a.ac && r.puid < g.Punits() && r.page * g.Punits() + r.puid == t
    decreases |log|
  {
    Positive(g.channels, g.chips);
    if log != [] {
      var front := log[..|log| - 1];
      CursorAfter(g, a, front);
      Distribute(Replay(g, a, front).page, 1, g.Punits());
    }
  }

  /** A page handed out in the round that starts at `a`, and the cursor that did it. */
  lemma {:induction false} HandedAt(g: Geometry, a: Alloc, log: seq<Event>, i: nat) returns (page: nat, puid: nat)
    requires g.Valid() && LogOk(g, a, log) && NoFresh(log) && a.puid == 0 && a.page == 0 && i < |log| && log[i].Handed?
    ensures |a.ac| == g.Punits() && puid < g.Punits() && page < g.pagesPerBlock
    ensures HandedCount(log[..i]) == page * g.Punits() + puid
    ensures g.UnitAt(puid) < |a.ac| && log[i] == Handed(a.ac[g.UnitAt(puid)], page)
  {
    LogPrefix(g, a, log, i);
    CursorAfter(g, a, log[..i]);
    var r := Replay(g, a, log[..i]);
    hide Replay, LogOk, HandedCount;
    page, puid := r.page, r.puid;
  }

  /** The position in a round at which page p of unit u is served. */
  function ServedAt(g: Geometry, u: nat, p: nat): nat
    requires g.Valid()
  {
    p * g.Punits() + g.TurnOf(u)
  }

  function RoundSize(g: Geometry): nat { g.pagesPerBlock * g.Punits() }

  /** The position in a round determines unit and page, and they determine it. */
  lemma {:induction false} PositionServes(g: Geometry, u: nat, p: nat, page: nat, puid: nat)
    requires g.Valid() && u < g.Punits() && p < g.pagesPerBlock && puid < g.Punits() && page < g.pagesPerBlock
    ensures ServedAt(g, u, p) < RoundSize(g)
    ensures g.UnitAt(puid) == u && page == p <==> page * g.Punits() + puid == ServedAt(g, u, p)
  {
    TwoDigits(page, puid, g.pagesPerBlock, g.Punits());
    DivMod(page, puid, g.Punits());
    RoundCovers(g, u, p, page * g.Punits() + puid);
  }

  lemma {:induction false} CountMonotone(log: seq<Event>, i: nat, j: nat)
    requires i < j <= |log| && log[i].Handed?
    ensures HandedCount(log[..i]) < HandedCount(log[..j])
    decreases j
  {
    assert log[..j][..j - 1] == log[..j - 1];
    if j == i + 1 {
    } else {
      CountMonotone(log, i, j - 1);
    }
  }

  /** The event at which the count reaches t. */
  lemma {:induction false} EventOf(log: seq<Event>, t: nat) returns (i: nat)
    requires t < HandedCount(log)
    ensures i < |log| && log[i].Handed? && HandedCount(log[..i]) == t
    decreases |log|
  {
    var front := log[..|log| - 1];
    if t == HandedCount(front) {
      i := |log| - 1;
    } else {
      i := EventOf(front, t);
      assert front[..i] == log[..i];
    }
  }

  /** One round of units times pages allocations, collections included, hands out every page of
      every active block exactly once and nothing else. */
  lemma {:induction false} RoundExact(g: Geometry, a: Alloc, log: seq<Event>, u: nat, p: nat) returns (i: nat)
    requires g.Valid() && LogOk(g, a, log) && NoFresh(log) && a.puid == 0 && a.page == 0 && NoDup(a.ac)
    requires HandedCount(log) == RoundSize(g) && u < g.Punits() && p < g.pagesPerBlock
    ensures |a.ac| == g.Punits() && i < |log| && log[i] == Handed(a.ac[u], p)
    ensures forall j | 0 <= j < |log| && log[j] == Handed(a.ac[u], p) :: j == i
    ensures forall j | 0 <= j < |log| && log[j].Handed? :: log[j].blk in a.ac && log[j].page < g.pagesPerBlock
  {
    hide LogOk, Replay, HandedCount, NoFresh, ServedAt, RoundSize;
    Positive(g.channels, g.chips);
    PositionServes(g, u, p, p, 0);
    i := EventOf(log, ServedAt(g, u, p));
    HandedInRound(g, a, log, i, u, p);
    forall j | 0 <= j < |log| && log[j].Handed?
      ensures log[j].blk in a.ac && log[j].page < g.pagesPerBlock && (log[j] == Handed(a.ac[u], p) ==> j == i)
    {
      HandedInRound(g, a, log, j, u, p);
      if j < i { CountMonotone(log, j, i); } else if i < j { CountMonotone(log, i, j); }
    }
  }

  lemma {:induction false} HandedInRound(g: Geometry, a: Alloc, log: seq<Event>, j: nat, u: nat, p: nat)
    requires g.Valid() && LogOk(g, a, log) && NoFresh(log) && a.puid == 0 && a.page == 0 && NoDup(a.ac)
    requires j < |log| && log[j].Handed? && u < g.Punits() && p < g.pagesPerBlock
    ensures |a.ac| == g.Punits() && log[j].blk in a.ac && log[j].page < g.pagesPerBlock
    ensures log[j] == Handed(a.ac[u], p) <==> HandedCount(log[..j]) == ServedAt(g, u, p)
  {
    var page, puid := HandedAt(g, a, log, j);
    hide LogOk, Replay, HandedCount, NoFresh;
    PositionServes(g, u, p, page, puid);
  }

  /** What follows a point of the log is a log of its own. */
  lemma {:induction false} LogSuffix(g: Geometry, a: Alloc, log: seq<Event>, k: nat)
    requires g.Valid() && LogOk(g, a, log) && k <= |log|
    ensures LogOk(g, a, log[..k]) && LogOk(g, Replay(g, a, log[..k]), log[k..])
    ensures Replay(g, Replay(g, a, log[..k]), log[k..]) == Replay(g, a, log)
    decreases |log|
  {
    if k == |log| {
      assert log[..k] == log && log[k..] == [];
    } else {
      var n := |log| - 1;
      var front := log[..n];
      LogSuffix(g, a, front, k);
      assert front[..k] == log[..k] && log[k..][..n - k] == front[k..] && log[k..][n - k] == log[n];
    }
  }

  /** After a switch the cursor stands at the first page of the fresh blocks. */
  lemma {:induction false} RoundStart(g: Geometry, a: Alloc, log: seq<Event>, k: nat, n: nat) returns (from: Alloc)
    requires g.Valid() && LogOk(g, a, log) && k < n <= |log| && log[k].Fresh?
    ensures LogOk(g, from, log[k + 1..n]) && from.puid == 0 && from.page == 0 && from.ac == log[k].ac && NoDup(from.ac)
  {
    var upTo, head := log[..n], log[..k + 1];
    hide LogOk, Replay;
    LogPrefix(g, a, log, n);
    LogPrefix(g, a, log, k);
    LogSuffix(g, a, upTo, k + 1);
    assert upTo[..k + 1] == head && upTo[k + 1..] == log[k + 1..n];
    from := Replay(g, a, head);
  }

  /** The active blocks of the round that begins at position k of the log. */
  function RoundBlocks(a: Alloc, log: seq<Event>, k: nat): seq<nat>
    requires k <= |log| && (k > 0 ==> log[k - 1].Fresh?)
  {
    if k == 0 then a.ac else log[k - 1].ac
  }

  /** The same for every round of a log that starts with one: the first, and each from one switch of
      active blocks to the next. */
  lemma {:induction false} EveryRoundExact(g: Geometry, a: Alloc, log: seq<Event>, k: nat, n: nat, u: nat, p: nat) returns (i: nat)
    requires g.Valid() && LogOk(g, a, log) && a.puid == 0 && a.page == 0 && NoDup(a.ac)
    requires k <= n <= |log| && (k > 0 ==> log[k - 1].Fresh?) && NoFresh(log[k..n])
    requires HandedCount(log[k..n]) == RoundSize(g) && u < g.Punits() && p < g.pagesPerBlock
    ensures var ac := RoundBlocks(a, log, k);
            && |ac| == g.Punits() && k <= i < n && log[i] == Handed(ac[u], p)
            && (forall j | k <= j < n && log[j] == Handed(ac[u], p) :: j == i)
            && forall j | k <= j < n && log[j].Handed? :: log[j].blk in ac && log[j].page < g.pagesPerBlock
  {
    var round, ac := log[k..n], RoundBlocks(a, log, k);
    var from := a;
    if k == 0 {
      LogPrefix(g, a, log, n);
      assert log[..n] == round;
    } else {
      from := RoundStart(g, a, log, k - 1, n);
    }
    hide LogOk, Replay, HandedCount, RoundSize;
    var i' := RoundExact(g, from, round, u, p);
    i := k + i';
    forall j | k <= j < n && log[j].Handed?
      ensures log[j].blk in ac && log[j].page < g.pagesPerBlock && (log[j] == Handed(ac[u], p) ==> j == i)
    {
      assert round[j - k] == log[j];
    }
  }

  /** Switches to fresh active blocks, and erases. */
  function FreshCount(log: seq<Event>): nat
    decreases |log|
  {
    if log == [] then 0 else FreshCount(log[..|log| - 1]) + if log[|log| - 1].Fresh? then 1 else 0
  }

  function ErasedCount(log: seq<Event>): nat
    decreases |log|
  {
    if log == [] then 0 else ErasedCount(log[..|log| - 1]) + if log[|log| - 1].Erased? then 1 else 0
  }

  lemma {:induction false} LogCounts(log: seq<Event>, e: Event)
    ensures HandedCount(log + [e]) == HandedCount(log) + (if e.Handed? then 1 else 0)
    ensures FreshCount(log + [e]) == FreshCount(log) + (if e.Fresh? then 1 else 0)
    ensures ErasedCount(log + [e]) == ErasedCount(log) + (if e.Erased? then 1 else 0)
  {
    assert (log + [e])[..|log|] == log;
  }

  /** The log has grown by that many pages, switches and erases. */
  predicate Grown(log0: seq<Event>, log: seq<Event>, pages: nat, switches: nat, erases: nat) {
    && log0 <= log && HandedCount(log) == HandedCount(log0) + pages
    && FreshCount(log) == FreshCount(log0) + switches && ErasedCount(log) == ErasedCount(log0) + erases
  }

  lemma {:induction false} GrownByPage(log0: seq<Event>, log: seq<Event>, log': seq<Event>, pages: nat, switches: nat, erases: nat,
                                       e: Event, ac: seq<nat>, last: bool)
    requires Grown(log0, log, pages, switches, erases) && e.Handed? && log' == log + [e] + if last then [Fresh(ac)] else []
    ensures Grown(log0, log', pages + 1, if last then switches + 1 else switches, erases)
  {
    LogCounts(log, e);
    if last { LogCounts(log + [e], Fresh(ac)); } else { assert log' == log + [e]; }
  }

  lemma {:induction false} GrownByErase(log0: seq<Event>, log: seq<Event>, pages: nat, switches: nat, erases: nat, b: nat)
    requires Grown(log0, log, pages, switches, erases)
    ensures Grown(log0, log + [Erased(b)], pages, switches, erases + 1)
  {
    LogCounts(log, Erased(b));
  }

  lemma {:induction false} GrownNot(log: seq<Event>)
    ensures Grown(log, log, 0, 0, 0)
  {
  }

  lemma {:induction false} GrownTwice(log0: seq<Event>, log: seq<Event>, log': seq<Event>, p: nat, s: nat, e: nat, p': nat, s': nat, e': nat)
    requires Grown(log0, log, p, s, e) && Grown(log, log', p', s', e')
    ensures Grown(log0, log', p + p', s + s', e + e')
  {
  }

  // ---- following an FTL ------------------------------------------------------------------------------

  /** Write pointers count subpages, the allocator counts pages. */
  predicate Matches(wp: seq<nat>, next: seq<nat>, subpages: nat) {
    |next| == |wp| && forall b | 0 <= b < |wp| :: wp[b] == subpages * next[b]
  }

  lemma {:induction false} MatchSet(wp: seq<nat>, next: seq<nat>, subpages: nat, b: nat, w: nat, p: nat)
    requires Matches(wp, next, subpages) && b < |wp| && w == subpages * p
    ensures Matches(wp[b := w], next[b := p], subpages)
  {
  }

  lemma {:induction false} MatchAt(wp: seq<nat>, next: seq<nat>, subpages: nat, b: nat, p: nat)
    requires Matches(wp, next, subpages) && b < |wp| && wp[b] == subpages * p && subpages > 0
    ensures |next| == |wp| && next[b] == p
  {
    SameFactor(subpages, next[b], p);
  }

  /** A log starts with a round, and with every block either unused or used up. */
  ghost predicate StartOk(g: Geometry, start: Alloc) {
    && start.puid == 0 && start.page == 0 && NoDup(start.ac)
    && forall b | 0 <= b < |start.next| :: start.next[b] == 0 || start.next[b] == g.pagesPerBlock
  }

  /** The log leads to these active blocks, this cursor and these write pointers. */
  ghost predicate Tracks(g: Geometry, start: Alloc, log: seq<Event>, ac: seq<nat>, puid: nat, page: nat, wp: seq<nat>)
    requires g.Valid()
  {
    && StartOk(g, start) && LogOk(g, start, log)
    && var r := Replay(g, start, log);
       r.ac == ac && r.puid == puid && r.page == page && Matches(wp, r.next, g.subpages)
  }

  /** From a proper start the pages of every block come out as 0, 1, 2, ... since its last erase.  A
      block used up at the start hands out nothing until it is erased. */
  lemma {:induction false} PagesFromStart(g: Geometry, start: Alloc, log: seq<Event>, b: nat)
    requires g.Valid() && StartOk(g, start) && LogOk(g, start, log) && b < |start.next|
    ensures forall k | 0 <= k < |PagesOf(log, b)| :: PagesOf(log, b)[k] == k < g.pagesPerBlock
    ensures |Replay(g, start, log).next| == |start.next|
    ensures var usedUp := start.next[b] != 0 && Erased(b) !in log;
            && (usedUp ==> PagesOf(log, b) == [])
            && Replay(g, start, log).next[b] == if usedUp then g.pagesPerBlock else |PagesOf(log, b)|
  {
    hide LogOk, Replay, PagesOf;
    PagesInOrder(g, start, log, b);
    var pages := PagesOf(log, b);
    if pages != [] {
      assert pages[0] == 0 + if Erased(b) in log then 0 else start.next[b];
      assert pages[0] < g.pagesPerBlock;
    }
  }

  lemma {:induction false} SameFactor(s: nat, a: nat, b: nat)
    requires s > 0 && s * a == s * b
    ensures a == b
  {
    if a < b { MulLe(a + 1, b, s); } else { MulLe(b, a, s); }
  }

  lemma {:induction false} TrackHanded(g: Geometry, start: Alloc, log: seq<Event>, ac: seq<nat>, puid: nat, page: nat, wp: seq<nat>, b: nat)
    requires g.Valid() && Tracks(g, start, log, ac, puid, page, wp)
    requires puid < g.Punits() == |ac| && page < g.pagesPerBlock && g.UnitAt(puid) < |ac| && b == ac[g.UnitAt(puid)] < |wp|
    requires wp[b] == g.subpages * page
    ensures Tracks(g, start, log + [Handed(b, page)], ac, if puid + 1 == g.Punits() then 0 else puid + 1,
                   page + (if puid + 1 == g.Punits() then 1 else 0), wp[b := wp[b] + g.subpages])
  {
    hide Replay, LogOk, StartOk, Matches;
    var r := Replay(g, start, log);
    MatchAt(wp, r.next, g.subpages, b, page);
    LogPush(g, start, log, Handed(b, page));
    Distribute(page, 1, g.subpages);
    MatchSet(wp, r.next, g.subpages, b, wp[b] + g.subpages, page + 1);
  }

  lemma {:induction false} TrackFresh(g: Geometry, start: Alloc, log: seq<Event>, ac: seq<nat>, wp: seq<nat>, ac': seq<nat>)
    requires g.Valid() && Tracks(g, start, log, ac, 0, g.pagesPerBlock, wp)
    requires |ac'| == g.Punits() && NoDup(ac') && forall u | 0 <= u < |ac'| :: ac'[u] < |wp| && wp[ac'[u]] == 0
    ensures Tracks(g, start, log + [Fresh(ac')], ac', 0, 0, wp)
  {
    var r := Replay(g, start, log);
    hide Replay, LogOk, StartOk, Matches;
    if |ac'| > 0 { MatchAt(wp, r.next, g.subpages, ac'[0], 0); }
    forall u | 0 <= u < |ac'| ensures ac'[u] < |r.next| && r.next[ac'[u]] == 0 { MatchAt(wp, r.next, g.subpages, ac'[u], 0); }
    LogPush(g, start, log, Fresh(ac'));
  }

  lemma {:induction false} TrackErased(g: Geometry, start: Alloc, log: seq<Event>, ac: seq<nat>, puid: nat, page: nat, wp: seq<nat>, b: nat)
    requires g.Valid() && Tracks(g, start, log, ac, puid, page, wp) && b < |wp| && b !in ac
    ensures Tracks(g, start, log + [Erased(b)], ac, puid, page, wp[b := 0])
  {
    hide Replay, LogOk, StartOk;
    LogPush(g, start, log, Erased(b));
    MatchSet(wp, Replay(g, start, log).next, g.subpages, b, 0, 0);
  }

  /** A log that starts at a known state. */
  lemma {:induction false} TrackStart(g: Geometry, ac: seq<nat>, wp: seq<nat>, next: seq<nat>)
    requires g.Valid() && Matches(wp, next, g.subpages) && StartOk(g, Alloc(ac, 0, 0, next))
    ensures Tracks(g, Alloc(ac, 0, 0, next), [], ac, 0, 0, wp)
  {
  }
}
