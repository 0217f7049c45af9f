/** Device geometry: block indices, parallel units and the allocation order. */
module Geometry {

  datatype Geometry = Geometry(
    channels: nat,
    chips: nat,          // per channel
    blocksPerChip: nat,
    pagesPerBlock: nat,
    subpages: nat)       // per page
  {
    predicate Valid() {
      channels > 0 && chips > 0 && blocksPerChip > 0 && pagesPerBlock > 0 && subpages > 0
    }

    function Punits(): nat { channels * chips }

    function BlocksPerChannel(): nat { chips * blocksPerChip }

    function BlocksPerSsd(): nat { channels * chips * blocksPerChip }

    function SubpagesPerBlock(): nat { subpages * pagesPerBlock }

    function SubpagesPerSsd(): nat { subpages * (pagesPerBlock * BlocksPerSsd()) }

    function BlockIdx(channel: nat, chip: nat, block: nat): nat {
      channel * BlocksPerChannel() + chip * blocksPerChip + block
    }

    function ChannelOf(idx: nat): nat
      requires Valid()
    {
      Positive(chips, blocksPerChip);
      idx / BlocksPerChannel()
    }

    function ChipOf(idx: nat): nat
      requires Valid()
    {
      Positive(chips, blocksPerChip);
      (idx % BlocksPerChannel()) / blocksPerChip
    }

    function BlockOf(idx: nat): nat
      requires Valid()
    {
      idx % blocksPerChip
    }

    predicate InDevice(channel: nat, chip: nat, block: nat) {
      channel < channels && chip < chips && block < blocksPerChip
    }

    function PunitId(channel: nat, chip: nat): nat { channel * chips + chip }

    /** The parallel unit of a block, from its channel and chip. */
    function PunitOf(idx: nat): nat
      requires Valid()
    {
      PunitId(ChannelOf(idx), ChipOf(idx))
    }

    /** The parallel unit that position `puid` of the allocation cursor addresses. */
    function UnitAt(puid: nat): nat
      requires Valid()
    {
      PunitId(puid % channels, puid / channels)
    }

    /** The cursor position that addresses parallel unit `u`. */
    function TurnOf(u: nat): nat
      requires Valid()
    {
      (u % chips) * channels + u / chips
    }
  }

  // ---- arithmetic -----------------------------------------------------------------

  lemma {:induction false} Positive(a: nat, b: nat)
    requires a > 0 && b > 0
    ensures a * b > 0
  {
  }

  lemma {:induction false} MulLe(a: int, b: int, c: nat)
    requires a <= b
    ensures a * c <= b * c
  {
  }

  /** Uniqueness of quotient and remainder. */
  lemma {:induction false} DivMod(q: nat, r: nat, d: nat)
    requires r < d
    ensures (q * d + r) / d == q && (q * d + r) % d == r
  {
    var x := q * d + r;
    var q', r' := x / d, x % d;
    assert q' * d + r' == x;
    if q' < q {
      MulLe(q' + 1, q, d);
    } else if q' > q {
      MulLe(q + 1, q', d);
    }
  }

  /** Two digits in base d, the high one below n, stay below n * d. */
  lemma {:induction false} TwoDigits(q: nat, r: nat, n: nat, d: nat)
    requires q < n && r < d
    ensures q * d + r < n * d
  {
    MulLe(q + 1, n, d);
    assert (q + 1) * d == q * d + d;
  }

  lemma {:induction false} DivBelow(x: nat, n: nat, d: nat)
    requires d > 0 && x < n * d
    ensures x / d < n
    ensures (x / d) * d + x % d == x
  {
    if x / d >= n { MulLe(n, x / d, d); }
  }

  // ---- block indices -----------------------------------------------------------------

  /** Index to (channel, chip, block) inverts (channel, chip, block) to index. */
  lemma {:induction false} IndexRoundTrip(g: Geometry, channel: nat, chip: nat, block: nat)
    requires g.Valid() && g.InDevice(channel, chip, block)
    ensures var idx := g.BlockIdx(channel, chip, block);
            && idx < g.BlocksPerSsd()
            && g.ChannelOf(idx) == channel && g.ChipOf(idx) == chip && g.BlockOf(idx) == block
  {
    var low := chip * g.blocksPerChip + block;
    TwoDigits(chip, block, g.chips, g.blocksPerChip);
    TwoDigits(channel, low, g.channels, g.BlocksPerChannel());
    assert g.BlocksPerSsd() == g.channels * g.BlocksPerChannel() by { MulAssoc(g.channels, g.chips, g.blocksPerChip); }
    DivMod(channel, low, g.BlocksPerChannel());
    DivMod(chip, block, g.blocksPerChip);
    var idx := g.BlockIdx(channel, chip, block);
    assert idx == channel * g.BlocksPerChannel() + low;
    calc {
      idx;
      channel * (g.chips * g.blocksPerChip) + chip * g.blocksPerChip + block;
      { MulAssoc(channel, g.chips, g.blocksPerChip); }
      (channel * g.chips) * g.blocksPerChip + chip * g.blocksPerChip + block;
      (channel * g.chips + chip) * g.blocksPerChip + block;
    }
    DivMod(channel * g.chips + chip, block, g.blocksPerChip);
  }

  lemma {:induction false} Distribute(a: nat, b: nat, c: nat)
    ensures (a + b) * c == a * c + b * c
  {
  }

  lemma {:induction false} MulAssoc(a: nat, b: nat, c: nat)
    ensures a * (b * c) == (a * b) * c
  {
  }

  /** (channel, chip, block) to index inverts index to (channel, chip, block). */
  lemma {:induction false} AddressRoundTrip(g: Geometry, idx: nat)
    requires g.Valid() && idx < g.BlocksPerSsd()
    ensures g.InDevice(g.ChannelOf(idx), g.ChipOf(idx), g.BlockOf(idx))
    ensures g.BlockIdx(g.ChannelOf(idx), g.ChipOf(idx), g.BlockOf(idx)) == idx
    ensures g.PunitOf(idx) < g.Punits()
  {
    var m := g.BlocksPerChannel();
    Positive(g.chips, g.blocksPerChip);
    MulAssoc(g.channels, g.chips, g.blocksPerChip);
    DivBelow(idx, g.channels, m);
    var low := idx % m;
    DivBelow(low, g.chips, g.blocksPerChip);
    var c, h, b := g.ChannelOf(idx), g.ChipOf(idx), low % g.blocksPerChip;
    assert idx == c * m + (h * g.blocksPerChip + b);
    IndexRoundTrip(g, c, h, b);
    TwoDigits(c, h, g.channels, g.chips);
  }

  /** Blocks are numbered unit by unit. */
  lemma {:induction false} PunitIsQuotient(g: Geometry, idx: nat)
    requires g.Valid() && idx < g.BlocksPerSsd()
    ensures g.PunitOf(idx) == idx / g.blocksPerChip
  {
    AddressRoundTrip(g, idx);
    FlatUnit(g, g.ChannelOf(idx), g.ChipOf(idx), g.BlockOf(idx));
  }

  lemma {:induction false} FlatUnit(g: Geometry, channel: nat, chip: nat, block: nat)
    requires block < g.blocksPerChip
    ensures g.BlockIdx(channel, chip, block) / g.blocksPerChip == g.PunitId(channel, chip)
  {
    var u := channel * g.chips;
    MulAssoc(channel, g.chips, g.blocksPerChip);
    Distribute(u, chip, g.blocksPerChip);
    DivMod(u + chip, block, g.blocksPerChip);
  }

  // ---- the allocation order ---------------------------------------------------------

  /** The cursor visits every parallel unit exactly once per round. */
  lemma {:induction false} TurnRoundTrip(g: Geometry, puid: nat)
    requires g.Valid() && puid < g.Punits()
    ensures puid % g.channels < g.channels && puid / g.channels < g.chips
    ensures g.UnitAt(puid) < g.Punits() && g.TurnOf(g.UnitAt(puid)) == puid
  {
    Commute(g.chips, g.channels);
    DivBelow(puid, g.chips, g.channels);
    SwapDigits(puid % g.channels, puid / g.channels, g.channels, g.chips, puid);
  }

  lemma {:induction false} Commute(a: nat, b: nat)
    ensures a * b == b * a
  {
  }

  /** Exchanging the two digits of a number and back. */
  lemma {:induction false} SwapDigits(q: nat, r: nat, n: nat, d: nat, x: nat)
    requires q < n && r < d && x == r * n + q
    ensures q * d + r < n * d && ((q * d + r) % d) * n + (q * d + r) / d == x
  {
    TwoDigits(q, r, n, d);
    DivMod(q, r, d);
  }

  lemma {:induction false} UnitRoundTrip(g: Geometry, u: nat)
    requires g.Valid() && u < g.Punits()
    ensures g.TurnOf(u) < g.Punits() && g.UnitAt(g.TurnOf(u)) == u
  {
    DivBelow(u, g.channels, g.chips);
    SwapDigits(u % g.chips, u / g.chips, g.chips, g.channels, u);
    assert g.chips * g.channels == g.Punits();
  }

  /** In one round of punits * pages allocations every (unit, page) is served exactly once:
      unit u's page p at position p * punits + TurnOf(u), and nothing else there. */
  lemma {:induction false} RoundCovers(g: Geometry, u: nat, p: nat, pos: nat)
    requires g.Valid() && u < g.Punits() && p < g.pagesPerBlock
    requires pos < g.pagesPerBlock * g.Punits()
    ensures g.TurnOf(u) < g.Punits() && p * g.Punits() + g.TurnOf(u) < g.pagesPerBlock * g.Punits()
    ensures g.Punits() > 0
    ensures g.UnitAt(pos % g.Punits()) == u && pos / g.Punits() == p <==> pos == p * g.Punits() + g.TurnOf(u)
  {
    Positive(g.channels, g.chips);
    UnitRoundTrip(g, u);
    TwoDigits(p, g.TurnOf(u), g.pagesPerBlock, g.Punits());
    DivMod(p, g.TurnOf(u), g.Punits());
    DivBelow(pos, g.pagesPerBlock, g.Punits());
    TurnRoundTrip(g, pos % g.Punits());
  }

  /** A unit's channel and chip are those of any block that lives on it. */
  lemma {:induction false} PunitComponents(g: Geometry, channel: nat, chip: nat)
    requires g.Valid() && chip < g.chips
    ensures g.PunitId(channel, chip) / g.chips == channel && g.PunitId(channel, chip) % g.chips == chip
  {
    DivMod(channel, chip, g.chips);
  }
}
