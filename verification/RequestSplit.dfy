/** Splitting block requests into flash requests (ftl/hlm_reqs_pool.c). Sizes are counted in
    512-byte sectors, 8 to a kernel page; a mapping unit is `w` kernel pages and a request holds
    `c` mapping units. */
module RequestSplit {
  import opened Common
  import opened Geometry

  const SECTORS_PER_PAGE := 8
  const MAX_REQUESTS := 512

  datatype Slot<+D> = Hole | Data(data: D)

  /** One flash request: the address of each mapping unit, -1 for none, and its kernel pages. */
  datatype WriteReq<+D> = WriteReq(lpas: seq<int>, slots: seq<Slot<D>>, rmw: bool)

  /** The unit sizes the pool accepts. In-place read-modify-write is used when a mapping unit is
      a whole request of several pages. */
  datatype Pool = Pool(w: nat, c: nat) {
    predicate Valid() { w >= 1 && c >= 1 && (c > 1 ==> w == 1) }

    predicate InPlaceRmw() { w > 1 && c == 1 }

    /** The first kernel page of a mapping unit. */
    function Page(unit: nat): nat { unit * w }

    function Width(): nat { Page(c) }
  }

  datatype Created = Rejected | Created(pool: Pool)

  const KPAGE_SIZE := 4096

  /** The pool's checks on the unit sizes in bytes.  Exactly a mapping unit that is a whole request,
      or a kernel page smaller than one, is accepted; read-modify-write in place is on exactly for
      whole requests larger than a kernel page. */
  function CreatePool(mapUnit: nat, ioUnit: nat): (r: Created)
    requires mapUnit % KPAGE_SIZE == 0 && mapUnit > 0 && ioUnit % KPAGE_SIZE == 0 && ioUnit > 0
    ensures r.Created? <==> mapUnit == ioUnit || (mapUnit == KPAGE_SIZE && KPAGE_SIZE < ioUnit)
    ensures r.Created? ==> r.pool.Valid() && r.pool.w * KPAGE_SIZE == mapUnit && r.pool.c * mapUnit == ioUnit
    ensures r.Created? ==> (r.pool.InPlaceRmw() <==> ioUnit > KPAGE_SIZE && mapUnit == ioUnit)
  {
    if mapUnit > ioUnit then Rejected
    else if mapUnit < ioUnit && mapUnit != KPAGE_SIZE then Rejected
    else WholeQuotients(mapUnit, ioUnit); Created(Pool(mapUnit / KPAGE_SIZE, ioUnit / mapUnit))
  }

  lemma {:induction false} WholeQuotients(mapUnit: nat, ioUnit: nat)
    requires mapUnit % KPAGE_SIZE == 0 && ioUnit % KPAGE_SIZE == 0 && 0 < mapUnit <= ioUnit
    requires mapUnit == ioUnit || mapUnit == KPAGE_SIZE
    ensures mapUnit / KPAGE_SIZE >= 1 && mapUnit / KPAGE_SIZE * KPAGE_SIZE == mapUnit
    ensures ioUnit / mapUnit >= 1 && ioUnit / mapUnit * mapUnit == ioUnit && (mapUnit == ioUnit <==> ioUnit / mapUnit == 1)
  {
    if mapUnit == ioUnit { DivMod(1, 0, mapUnit); }
  }

  /** Clearing the low bits, for n a power of two. */
  function AlignDown(a: nat, n: nat): nat
    requires n > 0
  {
    a - a % n
  }

  function AlignUp(a: nat, n: nat): nat
    requires n > 0
  {
    AlignDown(a + (n - 1), n)
  }

  // ---- the meaning of a split ------------------------------------------------------------------

  /** What belongs on kernel page pg when pages [first, last) carry bvec. */
  function SlotAt<D>(first: nat, last: nat, bvec: seq<D>, pg: nat): Slot<D> {
    if first <= pg < last && pg - first < |bvec| then Data(bvec[pg - first]) else Hole
  }

  /** The number of pages of [first, last) below pg. */
  function Before(first: nat, last: nat, pg: nat): nat {
    if pg <= first then 0 else if pg < last then pg - first else if first < last then last - first else 0
  }

  /** The request for the c mapping units from `unit` on, of which those below endUnit are used. */
  ghost predicate RequestOk<D>(pool: Pool, first: nat, last: nat, bvec: seq<D>, unit: nat, endUnit: nat, q: WriteReq<D>) {
    && |q.slots| == pool.Width() && |q.lpas| == pool.c
    && (forall f | 0 <= f < pool.Width() :: q.slots[f] == SlotAt(first, last, bvec, pool.Page(unit) + f))
    && (forall j | 0 <= j < pool.c :: q.lpas[j] == if unit + j < endUnit then unit + j else -1)
    && (q.rmw <==> pool.InPlaceRmw() && Hole in q.slots)
  }

  /** The first n slots hold what belongs on the pages from `page` on, and the rest nothing. */
  predicate Filled<D(==)>(first: nat, last: nat, bvec: seq<D>, page: nat, slots: seq<Slot<D>>, n: nat) {
    forall f | 0 <= f < |slots| :: slots[f] == if f < n then SlotAt(first, last, bvec, page + f) else Hole
  }

  // ---- the loops -------------------------------------------------------------------------------

  /** The kernel pages of one mapping unit, at offset ofs of a request that starts at `page`. */
  method FillUnit<D(==)>(w: nat, first: nat, last: nat, bvec: seq<D>, ghost page: nat,
                         slots0: seq<Slot<D>>, ofs: nat, sec0: nat, cnt0: nat, hole0: bool)
    returns (ok: bool, slots: seq<Slot<D>>, sec: nat, cnt: nat, hole: bool)
    requires ofs + w <= |slots0| && sec0 == SECTORS_PER_PAGE * (page + ofs)
    requires cnt0 == Before(first, last, page + ofs) <= |bvec|
    requires Filled(first, last, bvec, page, slots0, ofs) && (hole0 <==> Hole in slots0[..ofs])
    ensures ok <==> Before(first, last, page + ofs + w) <= |bvec|
    ensures ok ==>
              && sec == SECTORS_PER_PAGE * (page + ofs + w) && cnt == Before(first, last, page + ofs + w)
              && |slots| == |slots0| && Filled(first, last, bvec, page, slots, ofs + w)
              && (hole <==> Hole in slots[..ofs + w])
  {
    ok, slots, sec, cnt, hole := true, slots0, sec0, cnt0, hole0;
    for k := 0 to w
      invariant sec == SECTORS_PER_PAGE * (page + ofs + k) && cnt == Before(first, last, page + ofs + k) <= |bvec|
      invariant |slots| == |slots0| && Filled(first, last, bvec, page, slots, ofs + k)
      invariant hole <==> Hole in slots[..ofs + k]
    {
      var pgOff := sec / SECTORS_PER_PAGE;
      ghost var seen := slots[..ofs + k];
      if first <= pgOff < last {
        if cnt >= |bvec| {
          ok := false;
          return;
        }
        slots := slots[ofs + k := Data(bvec[cnt])];
        cnt := cnt + 1;
      } else {
        hole := true;
      }
      sec := sec + SECTORS_PER_PAGE;
      assert slots[..ofs + k + 1] == seen + [slots[ofs + k]];
    }
  }

  lemma {:induction false} BeforeGrows(first: nat, last: nat, a: nat, b: nat)
    requires a <= b
    ensures Before(first, last, a) <= Before(first, last, b)
  {
  }

  /** The mapping units of one request; the loop ends early at the end of the range. */
  method FillRequest<D(==)>(pool: Pool, first: nat, last: nat, bvec: seq<D>, ghost unit: nat, ghost endUnit: nat,
                        sec0: nat, secEnd: nat, cnt0: nat)
    returns (ok: bool, q: WriteReq<D>, sec: nat, cnt: nat)
    requires pool.Valid() && unit < endUnit && last <= pool.Page(endUnit)
    requires sec0 == SECTORS_PER_PAGE * pool.Page(unit) && secEnd == SECTORS_PER_PAGE * pool.Page(endUnit)
    requires cnt0 == Before(first, last, pool.Page(unit)) <= |bvec|
    ensures ok <==> Before(first, last, pool.Page(Min(unit + pool.c, endUnit))) <= |bvec|
    ensures ok ==>
              && RequestOk(pool, first, last, bvec, unit, endUnit, q)
              && sec == SECTORS_PER_PAGE * pool.Page(Min(unit + pool.c, endUnit))
              && cnt == Before(first, last, pool.Page(Min(unit + pool.c, endUnit)))
  {
    hide Before, Filled, RequestOk, SlotAt, Pool.Page;
    ghost var page := pool.Page(unit);
    ok, sec, cnt := true, sec0, cnt0;
    var slots: seq<Slot<D>> := seq(pool.Width(), _ => Hole);
    var lpas := seq(pool.c, _ => -1);
    var ofs, j, hole := 0, 0, false;
    NothingFilled(first, last, bvec, page, slots);
    PageZero(pool);
    while j < pool.c
      invariant 0 <= j <= pool.c && ofs == pool.Page(j) <= pool.Width() && page + ofs == pool.Page(unit + j)
      invariant unit + j <= endUnit && (j < pool.c ==> unit + j < endUnit)
      invariant sec == SECTORS_PER_PAGE * (page + ofs) && cnt == Before(first, last, page + ofs) <= |bvec|
      invariant |slots| == pool.Width() && |lpas| == pool.c
      invariant Filled(first, last, bvec, page, slots, ofs) && (hole <==> Hole in slots[..ofs])
      invariant forall i | 0 <= i < pool.c :: lpas[i] == if i < j then unit + i else -1
    {
      NextPage(pool, unit, j);
      lpas := lpas[j := SectorUnit(pool, unit + j, sec)];
      ok, slots, sec, cnt, hole := FillUnit(pool.w, first, last, bvec, page, slots, ofs, sec, cnt, hole);
      if !ok {
        PagesOrdered(pool, unit + j + 1, Min(unit + pool.c, endUnit));
        BeforeGrows(first, last, page + ofs + pool.w, pool.Page(Min(unit + pool.c, endUnit)));
        q := WriteReq([], [], false);
        return;
      }
      ofs := ofs + pool.w;
      j := j + 1;
      PagesOrdered(pool, unit + j, endUnit);
      if sec >= secEnd { break; }
    }
    q := WriteReq(lpas, slots, hole && pool.InPlaceRmw());
    FinishedRequest(pool, first, last, bvec, unit, endUnit, q, j);
  }

  /** The mapping unit of a sector. */
  function SectorUnit(pool: Pool, ghost unit: nat, sec: nat): (r: nat)
    requires pool.Valid() && sec == SECTORS_PER_PAGE * pool.Page(unit)
    ensures r == unit
  {
    assert sec == unit * (SECTORS_PER_PAGE * pool.w) + 0;
    DivMod(unit, 0, SECTORS_PER_PAGE * pool.w);
    sec / (SECTORS_PER_PAGE * pool.w)
  }

  lemma {:induction false} PageZero(pool: Pool)
    ensures pool.Page(0) == 0 <= pool.Width()
  {
  }

  lemma {:induction false} NextPage(pool: Pool, unit: nat, j: nat)
    requires j < pool.c
    ensures pool.Page(j + 1) == pool.Page(j) + pool.w <= pool.Width()
    ensures pool.Page(unit + j + 1) == pool.Page(unit + j) + pool.w
  {
    MulLe(j + 1, pool.c, pool.w);
  }

  lemma {:induction false} PagesOrdered(pool: Pool, a: nat, b: nat)
    requires pool.Valid()
    ensures pool.Page(a) < pool.Page(b) <==> a < b
  {
    if a < b { MulLe(a + 1, b, pool.w); } else { MulLe(b, a, pool.w); }
  }

  lemma {:induction false} NothingFilled<D>(first: nat, last: nat, bvec: seq<D>, page: nat, slots: seq<Slot<D>>)
    requires forall f | 0 <= f < |slots| :: slots[f] == Hole
    ensures Filled(first, last, bvec, page, slots, 0) && Hole !in slots[..0]
  {
  }

  /** The slots past the end of the range are holes as they should be. */
  lemma {:induction false} FinishedRequest<D>(pool: Pool, first: nat, last: nat, bvec: seq<D>, unit: nat, endUnit: nat,
                                              q: WriteReq<D>, j: nat)
    requires pool.Valid() && last <= pool.Page(endUnit) && 0 < j <= pool.c
    requires unit + j <= endUnit && (j == pool.c || unit + j == endUnit)
    requires |q.slots| == pool.Width() && |q.lpas| == pool.c && pool.Page(j) <= pool.Width()
    requires Filled(first, last, bvec, pool.Page(unit), q.slots, pool.Page(j))
    requires forall i | 0 <= i < pool.c :: q.lpas[i] == if i < j then unit + i else -1
    requires q.rmw <==> Hole in q.slots[..pool.Page(j)] && pool.InPlaceRmw()
    ensures RequestOk(pool, first, last, bvec, unit, endUnit, q)
  {
    assert pool.Page(unit + j) == pool.Page(unit) + pool.Page(j);
    hide Pool.Page;
    if j == pool.c { assert q.slots[..pool.Page(j)] == q.slots; }
  }

  // ---- the whole range ---------------------------------------------------------------------------

  function FirstPage(off: nat): nat { off / SECTORS_PER_PAGE }

  function LastPage(off: nat, size: nat): nat { (off + size + (SECTORS_PER_PAGE - 1)) / SECTORS_PER_PAGE }

  function FirstUnit(pool: Pool, off: nat): nat
    requires pool.Valid()
  {
    off / (SECTORS_PER_PAGE * pool.w)
  }

  function EndUnit(pool: Pool, off: nat, size: nat): nat
    requires pool.Valid()
  {
    (off + size + (SECTORS_PER_PAGE * pool.w - 1)) / (SECTORS_PER_PAGE * pool.w)
  }

  datatype Split<+D> = Bug | Reqs(reqs: seq<WriteReq<D>>)

  lemma {:induction false} AlignDownIs(a: nat, n: nat)
    requires n > 0
    ensures AlignDown(a, n) / n == a / n && AlignDown(a, n) == a / n * n && AlignDown(a, n) <= a < AlignDown(a, n) + n
  {
    assert AlignDown(a, n) == a / n * n;
    DivMod(a / n, 0, n);
  }

  lemma {:induction false} AlignedQuotients(a: nat, n: nat)
    requires n > 0
    ensures AlignDown(a, n) / n == a / n && AlignUp(a, n) / n == (a + (n - 1)) / n
    ensures AlignDown(a, n) <= a <= AlignUp(a, n) < a + n
  {
    AlignDownIs(a, n);
    AlignDownIs(a + (n - 1), n);
  }

  lemma {:induction false} RoundDown(a: nat, n: nat)
    requires n > 0
    ensures a / n * n <= a < a / n * n + n
  {
  }

  /** The pages of the range lie within its mapping units. */
  lemma {:induction false} PagesWithinUnits(pool: Pool, off: nat, size: nat)
    requires pool.Valid()
    ensures pool.Page(FirstUnit(pool, off)) <= FirstPage(off) && LastPage(off, size) <= pool.Page(EndUnit(pool, off, size))
  {
    var n := SECTORS_PER_PAGE * pool.w;
    RoundDown(off, n);
    RoundDown(off + size + (n - 1), n);
    assert FirstUnit(pool, off) * n == SECTORS_PER_PAGE * pool.Page(FirstUnit(pool, off));
    assert EndUnit(pool, off, size) * n == SECTORS_PER_PAGE * pool.Page(EndUnit(pool, off, size));
  }

  lemma {:induction false} Cancel(d: nat, a: nat, b: nat)
    requires d > 0
    ensures d * a < d * b <==> a < b
  {
    if a < b { MulLe(a + 1, b, d); } else { MulLe(b, a, d); }
  }

  lemma {:induction false} MulSwap(a: nat, b: nat, c: nat)
    ensures a * (b * c) == b * (a * c)
  {
  }

  lemma {:induction false} Ceil(x: nat, m: nat)
    requires m > 0
    ensures x <= AlignUp(x, m) / m * m < x + m
  {
    AlignedQuotients(x, m);
    RoundDown(x + (m - 1), m);
  }

  /** Rounding up d * n to a multiple of d * c rounds up n to a multiple of c. */
  lemma {:induction false} CeilScaled(d: nat, n: nat, c: nat, nr: nat)
    requires d > 0 && d * n <= nr * (d * c) < d * n + d * c
    ensures n <= nr * c < n + c
  {
    var m := nr * c;
    MulSwap(nr, d, c);
    Distribute(n, c, d);
    Cancel(d, m, n);
    Cancel(d, m, n + c);
  }

  function CeilDiv(x: nat, m: nat): nat
    requires m > 0
  {
    AlignUp(x, m) / m
  }

  function RequestCount(pool: Pool, secStart: nat, secEnd: nat): nat
    requires pool.Valid() && secStart <= secEnd
  {
    Positive(pool.w, pool.c);
    CeilDiv(secEnd - secStart, SECTORS_PER_PAGE * (pool.w * pool.c))
  }

  /** The number of requests is the number of units divided by c, rounded up. */
  lemma {:induction false} EnoughRequests(pool: Pool, a: nat, b: nat)
    requires pool.Valid() && a < b
    ensures SECTORS_PER_PAGE * pool.Page(a) <= SECTORS_PER_PAGE * pool.Page(b)
    ensures var nr := RequestCount(pool, SECTORS_PER_PAGE * pool.Page(a), SECTORS_PER_PAGE * pool.Page(b));
            b - a <= nr * pool.c < b - a + pool.c
  {
    PagesOrdered(pool, a, b);
    var d := SECTORS_PER_PAGE * pool.w;
    Positive(pool.w, pool.c);
    MulAssoc(SECTORS_PER_PAGE, pool.w, pool.c);
    var nr := RequestCount(pool, SECTORS_PER_PAGE * pool.Page(a), SECTORS_PER_PAGE * pool.Page(b));
    var x := SECTORS_PER_PAGE * pool.Page(b) - SECTORS_PER_PAGE * pool.Page(a);
    assert x == d * (b - a);
    Ceil(x, d * pool.c);
    hide AlignUp, AlignDown, Pool.Page;
    CeilScaled(d, b - a, pool.c, nr);
  }

  /** Request i starts with unit a + i * c, below the end of the range. */
  lemma {:induction false} RequestStarts(a: nat, b: nat, c: nat, nr: nat, i: nat)
    requires b - a <= nr * c < b - a + c && i < nr && a < b
    ensures a + i * c < b && (i + 1) * c == i * c + c
    ensures i + 1 < nr ==> a + (i + 1) * c < b
    ensures i + 1 == nr ==> b <= a + (i + 1) * c
  {
    MulLe(i, nr - 1, c);
    assert (nr - 1) * c == nr * c - c;
    if i + 1 < nr { MulLe(i + 1, nr - 1, c); }
  }

  /** Request k holds the c mapping units from a + k * c on. */
  ghost predicate RequestsOk<D>(pool: Pool, first: nat, last: nat, bvec: seq<D>, a: nat, b: nat, reqs: seq<WriteReq<D>>) {
    forall k | 0 <= k < |reqs| :: RequestOk(pool, first, last, bvec, a + k * pool.c, b, reqs[k])
  }

  lemma {:induction false} NoRequests<D>(pool: Pool, first: nat, last: nat, bvec: seq<D>, a: nat, b: nat)
    ensures RequestsOk(pool, first, last, bvec, a, b, [])
  {
  }

  lemma {:induction false} OneMoreRequest<D>(pool: Pool, first: nat, last: nat, bvec: seq<D>, a: nat, b: nat, reqs: seq<WriteReq<D>>, q: WriteReq<D>)
    requires RequestsOk(pool, first, last, bvec, a, b, reqs) && RequestOk(pool, first, last, bvec, a + |reqs| * pool.c, b, q)
    ensures RequestsOk(pool, first, last, bvec, a, b, reqs + [q])
  {
    hide RequestOk;
  }

  /** The requests one after another. */
  method SplitLoop<D(==)>(pool: Pool, first: nat, last: nat, bvec: seq<D>, ghost a: nat, ghost b: nat,
                          secStart: nat, secEnd: nat, nr: nat)
    returns (r: Split<D>)
    requires pool.Valid() && a < b && b - a <= nr * pool.c < b - a + pool.c
    requires pool.Page(a) <= first < last <= pool.Page(b)
    requires secStart == SECTORS_PER_PAGE * pool.Page(a) && secEnd == SECTORS_PER_PAGE * pool.Page(b)
    ensures r.Reqs? <==> |bvec| == last - first
    ensures r.Reqs? ==> |r.reqs| == nr && RequestsOk(pool, first, last, bvec, a, b, r.reqs)
  {
    hide Pool.Page, RequestsOk, RequestOk;
    var sec, cnt, i := secStart, 0, 0;
    var reqs: seq<WriteReq<D>> := [];
    ghost var unit := a;
    NoRequests(pool, first, last, bvec, a, b);
    while i < nr
      invariant 0 <= i <= nr && unit == a + i * pool.c
      invariant if i < nr then unit < b else unit >= b
      invariant sec == SECTORS_PER_PAGE * pool.Page(Min(unit, b)) && cnt == Before(first, last, pool.Page(Min(unit, b))) <= |bvec|
      invariant |reqs| == i && RequestsOk(pool, first, last, bvec, a, b, reqs)
    {
      RequestStarts(a, b, pool.c, nr, i);
      var ok, q;
      ok, q, sec, cnt := FillRequest(pool, first, last, bvec, unit, b, sec, secEnd, cnt);
      if !ok {
        PagesOrdered(pool, b, Min(unit + pool.c, b));
        BeforeGrows(first, last, pool.Page(Min(unit + pool.c, b)), pool.Page(b));
        return Bug;
      }
      OneMoreRequest(pool, first, last, bvec, a, b, reqs, q);
      reqs := reqs + [q];
      unit := unit + pool.c;
      i := i + 1;
    }
    if cnt != |bvec| { return Bug; }
    r := Reqs(reqs);
  }

  /** Split a write. It fails on an empty page range, on too many requests, and on a buffer count
      other than the number of pages, and on nothing else. */
  method SplitWrite<D(==)>(pool: Pool, off: nat, size: nat, bvec: seq<D>) returns (r: Split<D>)
    requires pool.Valid()
    ensures var a, b := FirstUnit(pool, off), EndUnit(pool, off, size);
            && (r.Reqs? <==>
                  && FirstPage(off) < LastPage(off, size) && |bvec| == LastPage(off, size) - FirstPage(off)
                  && b - a <= MAX_REQUESTS * pool.c)
            && (r.Reqs? ==>
                  && a < b && b - a <= |r.reqs| * pool.c < b - a + pool.c
                  && RequestsOk(pool, FirstPage(off), LastPage(off, size), bvec, a, b, r.reqs))
  {
    hide AlignDown, AlignUp, Pool.Page, FirstUnit, EndUnit, RequestsOk, RequestCount;
    var n := SECTORS_PER_PAGE * pool.w;
    var sec := AlignDown(off, n);
    var secEnd := AlignUp(off + size, n);
    if sec >= secEnd {
      EmptyUnits(pool, off, size);
      return Bug;
    }
    AlignedQuotients(off, SECTORS_PER_PAGE);
    AlignedQuotients(off + size, SECTORS_PER_PAGE);
    var pgStart := AlignDown(off, SECTORS_PER_PAGE) / SECTORS_PER_PAGE;
    var pgEnd := AlignUp(off + size, SECTORS_PER_PAGE) / SECTORS_PER_PAGE;
    if pgStart >= pgEnd { return Bug; }
    var nr := RequestCount(pool, sec, secEnd);
    ghost var a, b := FirstUnit(pool, off), EndUnit(pool, off, size);
    AlignedUnits(pool, off, size);
    PagesWithinUnits(pool, off, size);
    PagesOrdered(pool, a, b);
    EnoughRequests(pool, a, b);
    CountBound(b - a, pool.c, nr);
    if nr > MAX_REQUESTS { return Bug; }
    r := SplitLoop(pool, pgStart, pgEnd, bvec, a, b, sec, secEnd, nr);
  }

  lemma {:induction false} CountBound(n: nat, c: nat, nr: nat)
    requires c > 0 && n <= nr * c < n + c
    ensures nr > MAX_REQUESTS <==> n > MAX_REQUESTS * c
  {
    if nr > MAX_REQUESTS { MulLe(MAX_REQUESTS, nr - 1, c); } else { MulLe(nr, MAX_REQUESTS, c); }
  }

  lemma {:induction false} AlignedUnits(pool: Pool, off: nat, size: nat)
    requires pool.Valid()
    ensures AlignDown(off, SECTORS_PER_PAGE * pool.w) == SECTORS_PER_PAGE * pool.Page(FirstUnit(pool, off))
    ensures AlignUp(off + size, SECTORS_PER_PAGE * pool.w) == SECTORS_PER_PAGE * pool.Page(EndUnit(pool, off, size))
  {
    AlignDownIs(off, SECTORS_PER_PAGE * pool.w);
    AlignDownIs(off + size + (SECTORS_PER_PAGE * pool.w - 1), SECTORS_PER_PAGE * pool.w);
    MulAssoc(FirstUnit(pool, off), SECTORS_PER_PAGE, pool.w);
    MulAssoc(EndUnit(pool, off, size), SECTORS_PER_PAGE, pool.w);
  }

  lemma {:induction false} EmptyUnits(pool: Pool, off: nat, size: nat)
    requires pool.Valid() && AlignDown(off, SECTORS_PER_PAGE * pool.w) >= AlignUp(off + size, SECTORS_PER_PAGE * pool.w)
    ensures FirstPage(off) >= LastPage(off, size)
  {
    AlignedUnits(pool, off, size);
    AlignedQuotients(off, SECTORS_PER_PAGE * pool.w);
    AlignedQuotients(off + size, SECTORS_PER_PAGE * pool.w);
    hide Pool.Page, FirstUnit, EndUnit, AlignDown, AlignUp;
    assert size == 0 && off == SECTORS_PER_PAGE * pool.Page(FirstUnit(pool, off));
  }

  // ---- what a split achieves ---------------------------------------------------------------------

  /** Slot f of request i stands for this kernel page. */
  function PageAt(pool: Pool, unit: nat, i: nat, f: nat): nat {
    pool.Page(unit + i * pool.c) + f
  }

  lemma {:induction false} PageAtFlat(pool: Pool, unit: nat, i: nat, f: nat)
    ensures PageAt(pool, unit, i, f) == pool.Page(unit) + i * pool.Width() + f
  {
    MulAssoc(i, pool.c, pool.w);
    assert (unit + i * pool.c) * pool.w == unit * pool.w + i * pool.c * pool.w;
  }

  /** No kernel page has two slots. */
  lemma {:induction false} SlotsDistinct(pool: Pool, unit: nat, i: nat, f: nat, i': nat, f': nat)
    requires pool.Valid() && f < pool.Width() && f' < pool.Width()
    ensures PageAt(pool, unit, i, f) == PageAt(pool, unit, i', f') ==> i == i' && f == f'
  {
    PageAtFlat(pool, unit, i, f);
    PageAtFlat(pool, unit, i', f');
    DivMod(i, f, pool.Width());
    DivMod(i', f', pool.Width());
  }

  /** The mapping unit of a page, or of a slot within its request. */
  function UnitOf(pool: Pool, pg: nat): nat
    requires pool.w > 0
  {
    pg / pool.w
  }

  /** Every page of a successful split has a slot, which holds its buffer and lies in the mapping
      unit the page belongs to. */
  lemma {:induction false} EveryPageHasItsSlot<D>(pool: Pool, off: nat, size: nat, bvec: seq<D>, reqs: seq<WriteReq<D>>, pg: nat)
    returns (i: nat, f: nat)
    requires pool.Valid() && FirstPage(off) <= pg < LastPage(off, size) && |bvec| == LastPage(off, size) - FirstPage(off)
    requires EndUnit(pool, off, size) - FirstUnit(pool, off) <= |reqs| * pool.c
    requires RequestsOk(pool, FirstPage(off), LastPage(off, size), bvec, FirstUnit(pool, off), EndUnit(pool, off, size), reqs)
    ensures i < |reqs| && f < pool.Width() == |reqs[i].slots| && PageAt(pool, FirstUnit(pool, off), i, f) == pg
    ensures reqs[i].slots[f] == Data(bvec[pg - FirstPage(off)])
    ensures UnitOf(pool, f) < |reqs[i].lpas| && reqs[i].lpas[UnitOf(pool, f)] == UnitOf(pool, pg)
  {
    var a, b := FirstUnit(pool, off), EndUnit(pool, off, size);
    PagesWithinUnits(pool, off, size);
    hide FirstUnit, EndUnit, FirstPage, LastPage, RequestOk, Pool.Page, UnitOf;
    i, f := Locate(pool, a, b, |reqs|, pg);
    SlotHolds(pool, FirstPage(off), LastPage(off, size), bvec, a + i * pool.c, b, reqs[i], f, UnitOf(pool, f));
  }

  lemma {:induction false} SlotHolds<D>(pool: Pool, first: nat, last: nat, bvec: seq<D>, unit: nat, b: nat, q: WriteReq<D>, f: nat, j: nat)
    requires RequestOk(pool, first, last, bvec, unit, b, q)
    requires f < pool.Width() && j < pool.c && unit + j < b
    requires first <= pool.Page(unit) + f < last && |bvec| == last - first
    ensures |q.slots| == pool.Width() && q.slots[f] == Data(bvec[pool.Page(unit) + f - first])
    ensures |q.lpas| == pool.c && q.lpas[j] == unit + j
  {
    hide Pool.Page;
  }

  /** The mapping unit of a page. */
  lemma {:induction false} UnitOfPage(pool: Pool, a: nat, b: nat, pg: nat)
    requires pool.Valid() && pool.Page(a) <= pg < pool.Page(b)
    ensures a <= pg / pool.w < b && pg == pool.Page(pg / pool.w) + pg % pool.w
  {
    DivBelow(pg, b, pool.w);
    if pg / pool.w < a { MulLe(pg / pool.w + 1, a, pool.w); }
  }

  /** The request and position of the n-th mapping unit. */
  lemma {:induction false} UnitDigits(pool: Pool, a: nat, nr: nat, n: nat) returns (i: nat, j: nat)
    requires pool.Valid() && n < nr * pool.c
    ensures i < nr && j < pool.c && i * pool.c + j == n
    ensures pool.Page(a + n) == pool.Page(a + i * pool.c) + pool.Page(j)
  {
    hide Pool.Page;
    DivBelow(n, nr, pool.c);
    i, j := n / pool.c, n % pool.c;
    PageSum(pool, a + i * pool.c, j);
  }

  lemma {:induction false} PageSum(pool: Pool, x: nat, y: nat)
    ensures pool.Page(x + y) == pool.Page(x) + pool.Page(y)
  {
  }

  lemma {:induction false} PageDigits(pool: Pool, j: nat, k: nat)
    requires j < pool.c && k < pool.w
    ensures (pool.Page(j) + k) / pool.w == j && pool.Page(j) + k < pool.Width()
  {
    DivMod(j, k, pool.w);
    TwoDigits(j, k, pool.c, pool.w);
  }

  /** In in-place mode a request is a read-modify-write exactly when its mapping unit is not
      wholly written. */
  lemma {:induction false} RmwIffPartlyWritten<D>(pool: Pool, first: nat, last: nat, bvec: seq<D>, unit: nat, b: nat, q: WriteReq<D>)
    requires pool.Valid() && RequestOk(pool, first, last, bvec, unit, b, q) && first < last && |bvec| == last - first
    ensures q.rmw <==> pool.InPlaceRmw() && !(first <= pool.Page(unit) && pool.Page(unit) + pool.w <= last)
  {
    if pool.InPlaceRmw() {
      var page, w := pool.Page(unit), pool.w;
      assert pool.Width() == w;
      hide Pool.Page;
      if page < first { assert q.slots[0] == Hole; }
      if page + w > last { assert q.slots[w - 1] == Hole; }
    }
  }

  /** The first page of the range lies in its first mapping unit and the last in its last. */
  lemma {:induction false} EndsTouched(pool: Pool, off: nat, size: nat)
    requires pool.Valid() && FirstPage(off) < LastPage(off, size)
    ensures FirstUnit(pool, off) < EndUnit(pool, off, size)
    ensures FirstPage(off) < pool.Page(FirstUnit(pool, off) + 1) && pool.Page(EndUnit(pool, off, size) - 1) < LastPage(off, size)
  {
    PagesWithinUnits(pool, off, size);
    PagesOrdered(pool, FirstUnit(pool, off), EndUnit(pool, off, size));
    FirstTouched(pool, off);
    LastTouched(pool, off, size);
  }

  lemma {:induction false} FirstTouched(pool: Pool, off: nat)
    requires pool.Valid()
    ensures FirstPage(off) < pool.Page(FirstUnit(pool, off) + 1)
  {
    var n, a := SECTORS_PER_PAGE * pool.w, FirstUnit(pool, off);
    RoundDown(off, n);
    assert a * n + n == SECTORS_PER_PAGE * pool.Page(a + 1);
  }

  lemma {:induction false} LastTouched(pool: Pool, off: nat, size: nat)
    requires pool.Valid() && EndUnit(pool, off, size) > 0
    ensures pool.Page(EndUnit(pool, off, size) - 1) < LastPage(off, size)
  {
    var n, b := SECTORS_PER_PAGE * pool.w, EndUnit(pool, off, size);
    RoundDown(off + size + (n - 1), n);
    assert (b - 1) * n == b * n - n;
    assert (b - 1) * n == SECTORS_PER_PAGE * pool.Page(b - 1);
  }

  /** The mapping unit is written in part and has to be read first. */
  predicate Partly(pool: Pool, first: nat, last: nat, unit: nat) {
    pool.InPlaceRmw() && !(first <= pool.Page(unit) && pool.Page(unit) + pool.w <= last)
  }

  /** Only the first and the last mapping unit of a range can be written in part. */
  lemma {:induction false} OnlyEndsArePartly(pool: Pool, off: nat, size: nat, unit: nat)
    requires pool.Valid() && FirstPage(off) < LastPage(off, size)
    requires FirstUnit(pool, off) < unit < EndUnit(pool, off, size) - 1
    ensures !Partly(pool, FirstPage(off), LastPage(off, size), unit)
  {
    var a, b := FirstUnit(pool, off), EndUnit(pool, off, size);
    EndsTouched(pool, off, size);
    PageSum(pool, unit, 1);
    PagesOrdered(pool, unit, a + 1);
    PagesOrdered(pool, b - 1, unit + 1);
    assert pool.Page(1) == pool.w;
    hide FirstUnit, EndUnit, FirstPage, LastPage, Pool.Page;
  }

  /** Only the first and the last request of a split can be a read-modify-write. */
  lemma {:induction false} OnlyEndsAreRmw<D>(pool: Pool, off: nat, size: nat, bvec: seq<D>, reqs: seq<WriteReq<D>>, k: nat)
    requires pool.Valid() && FirstPage(off) < LastPage(off, size) && |bvec| == LastPage(off, size) - FirstPage(off)
    requires |reqs| * pool.c < EndUnit(pool, off, size) - FirstUnit(pool, off) + pool.c
    requires RequestsOk(pool, FirstPage(off), LastPage(off, size), bvec, FirstUnit(pool, off), EndUnit(pool, off, size), reqs)
    requires 0 < k < |reqs| - 1
    ensures !reqs[k].rmw
  {
    var a, b := FirstUnit(pool, off), EndUnit(pool, off, size);
    hide FirstUnit, EndUnit, FirstPage, LastPage, Pool.Page;
    RmwIffPartlyWritten(pool, FirstPage(off), LastPage(off, size), bvec, a + k * pool.c, b, reqs[k]);
    if pool.InPlaceRmw() { OnlyEndsArePartly(pool, off, size, a + k); }
  }

  /** The number of read-modify-writes of a range of mapping units [a, b). */
  function RmwCount(pool: Pool, first: nat, last: nat, a: nat, b: nat): nat
    requires a < b
  {
    (if Partly(pool, first, last, a) then 1 else 0) + if a + 1 < b && Partly(pool, first, last, b - 1) then 1 else 0
  }

  /** The request and slot of a page, with its mapping unit. */
  lemma {:induction false} Locate(pool: Pool, a: nat, b: nat, nr: nat, pg: nat) returns (i: nat, f: nat)
    requires pool.Valid() && b - a <= nr * pool.c && pool.Page(a) <= pg < pool.Page(b)
    ensures i < nr && f < pool.Width() && PageAt(pool, a, i, f) == pg
    ensures UnitOf(pool, f) < pool.c && a + i * pool.c + UnitOf(pool, f) == UnitOf(pool, pg) < b
  {
    hide Pool.Page;
    UnitOfPage(pool, a, b, pg);
    var unit, k := pg / pool.w, pg % pool.w;
    var j;
    i, j := UnitDigits(pool, a, nr, unit - a);
    PageDigits(pool, j, k);
    f := pool.Page(j) + k;
  }

  // ---- trim ----------------------------------------------------------------------------------------

  /** Mapping unit x, of n sectors, lies wholly in the sectors [off, off + size). */
  predicate Inside(off: nat, size: nat, n: nat, x: nat) {
    off <= x * n && (x + 1) * n <= off + size
  }

  /** A trim covers exactly the mapping units that lie wholly in its range. */
  method TrimRange(pool: Pool, off: nat, size: nat) returns (lpa: nat, len: nat)
    requires pool.Valid()
    ensures forall x: nat :: lpa <= x < lpa + len <==> Inside(off, size, SECTORS_PER_PAGE * pool.w, x)
  {
    hide AlignUp, AlignDown, Inside;
    var n := SECTORS_PER_PAGE * pool.w;
    var secStart := AlignUp(off, n);
    var secEnd := AlignDown(off + size, n);
    lpa := secStart / n;
    if secStart < secEnd { len := (secEnd - secStart) / n; } else { len := 0; }
    forall x: nat ensures lpa <= x < lpa + len <==> Inside(off, size, n, x) { TrimUnit(off, size, n, x); }
  }

  lemma {:induction false} UpLe(y: nat, n: nat, x: nat)
    requires n > 0
    ensures (y + (n - 1)) / n <= x <==> y <= x * n
  {
    var p := (y + (n - 1)) / n;
    RoundDown(y + (n - 1), n);
    if p <= x { MulLe(p, x, n); } else { MulLe(x + 1, p, n); }
  }

  lemma {:induction false} DownLe(y: nat, n: nat, x: nat)
    requires n > 0
    ensures x < y / n <==> (x + 1) * n <= y
  {
    RoundDown(y, n);
    if x < y / n { MulLe(x + 1, y / n, n); } else { MulLe(y / n + 1, x + 1, n); }
  }

  lemma {:induction false} TrimLength(p: nat, q: nat, n: nat)
    requires n > 0
    ensures p * n < q * n <==> p < q
    ensures p < q ==> (q * n - p * n) / n == q - p
  {
    if p < q {
      MulLe(p + 1, q, n);
      assert q * n - p * n == (q - p) * n + 0;
      DivMod(q - p, 0, n);
    } else {
      MulLe(q, p, n);
    }
  }

  lemma {:induction false} TrimUnit(off: nat, size: nat, n: nat, x: nat)
    requires n > 0
    ensures var s, e := AlignUp(off, n), AlignDown(off + size, n);
            Inside(off, size, n, x) <==> s / n <= x < s / n + if s < e then (e - s) / n else 0
  {
    AlignDownIs(off + (n - 1), n);
    AlignDownIs(off + size, n);
    TrimLength((off + (n - 1)) / n, (off + size) / n, n);
    UpLe(off, n, x);
    DownLe(off + size, n, x);
  }
}
