/** Substring search in the string library (common/3rd/utstring.h): the optimised
    Knuth-Morris-Pratt table and scan, left to right and right to left. */
module Kmp {
  /** The needle occurs at q. */
  predicate MatchAt(text: string, needle: string, q: int) {
    0 <= q && q + |needle| <= |text| && text[q..q + |needle|] == needle
  }

  /** The first k characters are also the last k of the first i. */
  predicate Border(p: string, k: int, i: int) {
    0 <= k < i <= |p| && p[..k] == p[i - k..i]
  }

  /** j is the longest border length of the first i characters, or -1 when i is 0. */
  predicate Longest(p: string, j: int, i: int) {
    if i == 0 then j == -1 else Border(p, j, i) && forall k | j < k < i :: !Border(p, k, i)
  }

  /** f is the longest border of the first i characters that a different character follows. */
  predicate Strong(p: string, f: int, i: int) {
    && 0 <= i < |p| && -1 <= f < i
    && (f >= 0 ==> Border(p, f, i) && p[f] != p[i])
    && forall k | f < k < i && Border(p, k, i) :: p[k] == p[i]
  }

  /** The failure table: strong borders, and the longest proper border in the last entry. */
  predicate TableOk(p: string, table: seq<int>) {
    && |table| == |p| + 1
    && (forall i | 0 <= i < |p| :: Strong(p, table[i], i))
    && Longest(p, table[|p|], |p|)
  }

  // ---- building the table ----------------------------------------------------------------------

  /** No border longer than j is followed by the character at i. */
  predicate Tried(p: string, i: int, j: int) {
    0 <= i < |p| && forall k | j < k < i && Border(p, k, i) :: p[k] != p[i]
  }

  lemma {:induction false} BorderOfBorder(p: string, k: int, j: int, i: int)
    requires Border(p, j, i) && k < j
    ensures Border(p, k, j) <==> Border(p, k, i)
  {
    if 0 <= k {
      assert p[j - k..j] == p[..j][j - k..] == p[i - j..i][j - k..] == p[i - k..i];
    }
  }

  lemma {:induction false} FallBack(p: string, i: int, j: int, f: int)
    requires Border(p, j, i) && Tried(p, i, j) && p[j] != p[i] && Strong(p, f, j)
    ensures Tried(p, i, f) && (f >= 0 ==> Border(p, f, i))
  {
    forall k | f < k < i && Border(p, k, i) ensures p[k] != p[i] {
      if k < j { BorderOfBorder(p, k, j, i); }
    }
    if f >= 0 { BorderOfBorder(p, f, j, i); }
  }

  lemma {:induction false} BorderGrows(p: string, k: int, i: int)
    requires 0 <= k < i < |p|
    ensures Border(p, k + 1, i + 1) <==> Border(p, k, i) && p[k] == p[i]
  {
    var a, b := p[..k + 1], p[i - k..i + 1];
    assert a == p[..k] + [p[k]] && b == p[i - k..i] + [p[i]];
    if a == b { assert a[..k] == p[..k] && b[..k] == p[i - k..i] && a[k] == b[k]; }
  }

  lemma {:induction false} Advance(p: string, i: int, j: int)
    requires Tried(p, i, j) && -1 <= j && (j >= 0 ==> Border(p, j, i) && p[j] == p[i])
    ensures Longest(p, j + 1, i + 1)
  {
    if j >= 0 { BorderGrows(p, j, i); } else { assert p[..0] == p[i + 1..i + 1]; }
    var n := i + 1;
    forall k | j + 1 < k < n ensures !Border(p, k, n) { BorderGrows(p, k - 1, i); }
  }

  lemma {:induction false} StrongEntry(p: string, i: int, j: int, f: int)
    requires 0 < i < |p| && Longest(p, j, i)
    requires if p[i] != p[j] then f == j else Strong(p, f, j)
    ensures Strong(p, f, i)
  {
    forall k | f < k < i && Border(p, k, i) ensures p[k] == p[i] {
      if k < j { BorderOfBorder(p, k, j, i); }
    }
    if f >= 0 && p[i] == p[j] { BorderOfBorder(p, f, j, i); }
  }

  lemma {:induction false} FirstEntry(p: string)
    ensures Longest(p, -1, 0) && (p != [] ==> Strong(p, -1, 0))
  {
  }

  lemma {:induction false} BeginEntry(p: string, i: int, j: int)
    requires 0 <= i < |p| && Longest(p, j, i)
    ensures Tried(p, i, j) && -1 <= j < i && (j >= 0 ==> Border(p, j, i))
  {
  }

  lemma {:induction false} StrongRange(p: string, f: int, i: int)
    requires Strong(p, f, i)
    ensures -1 <= f < i
  {
  }

  lemma {:induction false} LongestRange(p: string, j: int, i: int)
    requires Longest(p, j, i)
    ensures -1 <= j < i || (i == 0 && j == -1)
    ensures 0 < i ==> 0 <= j
  {
  }

  /** Build the table from left to right. */
  method BuildTable(needle: string, table: array<int>)
    requires table.Length == |needle| + 1
    modifies table
    ensures TableOk(needle, table[..])
  {
    hide Border, Longest, Strong, Tried;
    var i, j := 0, -1;
    table[0] := j;
    FirstEntry(needle);
    while i < |needle|
      invariant 0 <= i <= |needle| && Longest(needle, j, i)
      invariant forall k | 0 <= k <= i && k < |needle| :: Strong(needle, table[k], k)
      invariant i == |needle| ==> table[i] == j
    {
      BeginEntry(needle, i, j);
      while j > -1 && needle[i] != needle[j]
        invariant -1 <= j < i
        invariant Tried(needle, i, j) && (j >= 0 ==> Border(needle, j, i))
        modifies {}
        decreases j
      {
        FallBack(needle, i, j, table[j]);
        StrongRange(needle, table[j], j);
        j := table[j];
      }
      Advance(needle, i, j);
      i, j := i + 1, j + 1;
      LongestRange(needle, j, i);
      if i < |needle| {
        if needle[i] == needle[j] { table[i] := table[j]; } else { table[i] := j; }
        StrongEntry(needle, i, j, table[i]);
      } else {
        table[i] := j;
      }
    }
  }

  // ---- the scan ----------------------------------------------------------------------------------

  /** The first i characters of the needle end at position j of the text. */
  predicate Aligned(t: string, p: string, i: int, j: int) {
    0 <= i <= |p| && i <= j <= |t| && p[..i] == t[j - i..j]
  }

  predicate NoneBefore(t: string, p: string, q: int) {
    forall k | 0 <= k < q :: !MatchAt(t, p, k)
  }

  /** A match that covers position j starts a border of the aligned part, and the character that
      follows this border is the one at j. */
  lemma {:induction false} MatchGivesBorder(t: string, p: string, i: int, j: int, q: int)
    requires Aligned(t, p, i, j) && i < |p| && j < |t| && MatchAt(t, p, q) && j - i <= q <= j
    ensures p[j - q] == t[j] && (j - q < i ==> Border(p, j - q, i))
  {
    var k := j - q;
    assert p[k] == t[q..q + |p|][k];
    assert p[..k] == t[q..q + |p|][..k] == t[q..j];
    assert p[i - k..i] == p[..i][i - k..] == t[j - i..j][i - k..] == t[q..j];
  }

  lemma {:induction false} ScanBack(t: string, p: string, i: int, j: int, f: int)
    requires Aligned(t, p, i, j) && i < |p| && j < |t| && p[i] != t[j] && Strong(p, f, i) && NoneBefore(t, p, j - i)
    ensures NoneBefore(t, p, j - f) && (f >= 0 ==> Aligned(t, p, f, j))
  {
    var n := j - f;
    forall q | 0 <= q < n ensures !MatchAt(t, p, q) {
      if MatchAt(t, p, q) && j - i <= q { MatchGivesBorder(t, p, i, j, q); }
    }
    if f >= 0 {
      assert p[..f] == p[i - f..i] == p[..i][i - f..] == t[j - i..j][i - f..] == t[j - f..j];
    }
  }

  /** Search from left to right. */
  method Scan(text: string, needle: string, table: array<int>) returns (pos: int)
    requires TableOk(needle, table[..]) && needle != []
    ensures pos == -1 || MatchAt(text, needle, pos)
    ensures pos == -1 ==> forall q :: !MatchAt(text, needle, q)
    ensures pos != -1 ==> NoneBefore(text, needle, pos)
  {
    pos := -1;
    var i, j := 0, 0;
    hide Border, Strong, Longest, Aligned;
    NothingAligned(text, needle);
    while j < |text| && |text| - j + i >= |needle|
      invariant 0 <= i < |needle| && Aligned(text, needle, i, j) && NoneBefore(text, needle, j - i)
    {
      while i > -1 && needle[i] != text[j]
        invariant -1 <= i < |needle| && NoneBefore(text, needle, j - i) && (i >= 0 ==> Aligned(text, needle, i, j))
        decreases i
      {
        assert Strong(needle, table[..][i], i);
        ScanBack(text, needle, i, j, table[i]);
        StrongRange(needle, table[i], i);
        i := table[i];
      }
      StepOn(text, needle, i, j);
      i, j := i + 1, j + 1;
      if i >= |needle| {
        pos := j - i;
        WholeAligned(text, needle, j);
        return;
      }
    }
  }

  lemma {:induction false} StepOn(t: string, p: string, i: int, j: int)
    requires -1 <= i < |p| && 0 <= j < |t| && (i >= 0 ==> Aligned(t, p, i, j) && p[i] == t[j])
    ensures Aligned(t, p, i + 1, j + 1)
  {
    if i >= 0 { assert p[..i + 1] == p[..i] + [p[i]] && t[j - i..j + 1] == t[j - i..j] + [t[j]]; }
  }

  lemma {:induction false} NothingAligned(t: string, p: string)
    ensures Aligned(t, p, 0, 0)
  {
  }

  lemma {:induction false} WholeAligned(t: string, p: string, j: int)
    requires Aligned(t, p, |p|, j)
    ensures MatchAt(t, p, j - |p|)
  {
    assert p[..|p|] == p;
  }

  /** The least occurrence at or after the start; a negative start counts from the end. */
  method Find(text: string, start: int, needle: string) returns (pos: int)
    requires -|text| <= start
    ensures var from := if start < 0 then |text| + start else start;
            if pos == -1 then needle == [] || forall q | from <= q :: !MatchAt(text, needle, q)
            else needle != [] && from <= pos && MatchAt(text, needle, pos)
                 && forall q | from <= q < pos :: !MatchAt(text, needle, q)
  {
    pos := -1;
    var from := if start < 0 then |text| + start else start;
    if |text| - from >= |needle| && |needle| > 0 {
      var table := new int[|needle| + 1];
      BuildTable(needle, table);
      pos := Scan(text[from..], needle, table);
      forall q | from <= q ensures MatchAt(text, needle, q) <==> MatchAt(text[from..], needle, q - from) {
        if q + |needle| <= |text| { assert text[from..][q - from..q - from + |needle|] == text[q..q + |needle|]; }
      }
      if pos >= 0 { pos := pos + from; }
    }
  }

  // ---- the reverse pair ----------------------------------------------------------------------------

  function Mirror(s: string): (r: string)
    ensures |r| == |s|
  {
    if s == [] then [] else Mirror(s[1..]) + [s[0]]
  }

  lemma {:induction false} MirrorAt(s: string, k: int)
    requires 0 <= k < |s|
    ensures Mirror(s)[k] == s[|s| - 1 - k]
  {
    if k < |s| - 1 { MirrorAt(s[1..], k); }
  }

  // Positions i and j of the needle, and f of its table, as seen from the right.
  predicate BorderR(p: string, j: int, i: int) { Border(Mirror(p), |p| - 1 - j, |p| - 1 - i) }

  predicate LongestR(p: string, j: int, i: int) { Longest(Mirror(p), |p| - 1 - j, |p| - 1 - i) }

  predicate StrongR(p: string, f: int, i: int) { Strong(Mirror(p), |p| - 1 - f, |p| - 1 - i) }

  predicate TriedR(p: string, i: int, j: int) { Tried(Mirror(p), |p| - 1 - i, |p| - 1 - j) }

  /** The table built from the right: entry i + 1 belongs to position i. */
  predicate TableROk(p: string, table: seq<int>) {
    && |table| == |p| + 1
    && (forall x | 1 <= x <= |p| :: StrongR(p, table[x], x - 1))
    && LongestR(p, table[0], -1)
  }

  lemma {:induction false} FirstEntryR(p: string)
    ensures LongestR(p, |p|, |p| - 1) && (p != [] ==> StrongR(p, |p|, |p| - 1))
  {
    FirstEntry(Mirror(p));
  }

  lemma {:induction false} BeginEntryR(p: string, i: int, j: int)
    requires 0 <= i < |p| && LongestR(p, j, i)
    ensures TriedR(p, i, j) && i < j <= |p| && (j < |p| ==> BorderR(p, j, i))
  {
    BeginEntry(Mirror(p), |p| - 1 - i, |p| - 1 - j);
  }

  lemma {:induction false} FallBackR(p: string, i: int, j: int, f: int)
    requires 0 <= i < j < |p| && BorderR(p, j, i) && TriedR(p, i, j) && p[j] != p[i] && StrongR(p, f, j)
    ensures TriedR(p, i, f) && j < f <= |p| && (f < |p| ==> BorderR(p, f, i))
  {
    hide Border, Strong, Tried, Mirror;
    MirrorAt(p, |p| - 1 - i);
    MirrorAt(p, |p| - 1 - j);
    StrongRange(Mirror(p), |p| - 1 - f, |p| - 1 - j);
    FallBack(Mirror(p), |p| - 1 - i, |p| - 1 - j, |p| - 1 - f);
  }

  lemma {:induction false} AdvanceR(p: string, i: int, j: int)
    requires 0 <= i < j <= |p| && TriedR(p, i, j) && (j < |p| ==> BorderR(p, j, i) && p[j] == p[i])
    ensures LongestR(p, j - 1, i - 1) && i - 1 < j - 1 < |p|
  {
    hide Border, Longest, Tried, Mirror;
    MirrorAt(p, |p| - 1 - i);
    if j < |p| { MirrorAt(p, |p| - 1 - j); }
    Advance(Mirror(p), |p| - 1 - i, |p| - 1 - j);
    LongestRange(Mirror(p), |p| - j, |p| - i);
  }

  lemma {:induction false} StrongEntryR(p: string, i: int, j: int, f: int)
    requires 0 <= i < j < |p| && LongestR(p, j, i)
    requires if p[i] != p[j] then f == j else StrongR(p, f, j)
    ensures StrongR(p, f, i)
  {
    hide Strong, Longest, Mirror;
    MirrorAt(p, |p| - 1 - i);
    MirrorAt(p, |p| - 1 - j);
    StrongEntry(Mirror(p), |p| - 1 - i, |p| - 1 - j, |p| - 1 - f);
  }

  /** Build the table from right to left. */
  method BuildTableR(needle: string, table: array<int>)
    requires table.Length == |needle| + 1
    modifies table
    ensures TableROk(needle, table[..])
  {
    hide BorderR, LongestR, StrongR, TriedR;
    var i := |needle| - 1;
    var j := i + 1;
    table[i + 1] := j;
    FirstEntryR(needle);
    while i >= 0
      invariant -1 <= i < |needle| && LongestR(needle, j, i)
      invariant forall x | i < x <= |needle| && 1 <= x :: StrongR(needle, table[x], x - 1)
      invariant i == -1 ==> table[0] == j
      decreases i
    {
      BeginEntryR(needle, i, j);
      while j < |needle| && needle[i] != needle[j]
        invariant i < j <= |needle|
        invariant TriedR(needle, i, j) && (j < |needle| ==> BorderR(needle, j, i))
        modifies {}
        decreases |needle| - j
      {
        FallBackR(needle, i, j, table[j + 1]);
        j := table[j + 1];
      }
      AdvanceR(needle, i, j);
      i, j := i - 1, j - 1;
      if i >= 0 {
        if needle[i] == needle[j] { table[i + 1] := table[j + 1]; } else { table[i + 1] := j; }
        StrongEntryR(needle, i, j, table[i + 1]);
      } else {
        table[i + 1] := j;
      }
    }
  }

  // Position i of the needle and j of the text, the characters to their right being aligned.
  predicate AlignedR(t: string, p: string, i: int, j: int) { Aligned(Mirror(t), Mirror(p), |p| - 1 - i, |t| - 1 - j) }

  /** No match starts after j - i. */
  predicate NoneAfter(t: string, p: string, i: int, j: int) {
    NoneBefore(Mirror(t), Mirror(p), (|t| - 1 - j) - (|p| - 1 - i))
  }

  lemma {:induction false} ScanBackR(t: string, p: string, i: int, j: int, f: int)
    requires 0 <= i < |p| && 0 <= j < |t| && AlignedR(t, p, i, j) && NoneAfter(t, p, i, j)
    requires p[i] != t[j] && StrongR(p, f, i)
    ensures i < f <= |p| && NoneAfter(t, p, f, j) && (f < |p| ==> AlignedR(t, p, f, j))
  {
    MirrorAt(p, |p| - 1 - i);
    MirrorAt(t, |t| - 1 - j);
    ScanBack(Mirror(t), Mirror(p), |p| - 1 - i, |t| - 1 - j, |p| - 1 - f);
  }

  lemma {:induction false} StepOnR(t: string, p: string, i: int, j: int)
    requires 0 <= i <= |p| && 0 <= j < |t| && (i < |p| ==> AlignedR(t, p, i, j) && p[i] == t[j]) && NoneAfter(t, p, i, j)
    ensures AlignedR(t, p, i - 1, j - 1) && NoneAfter(t, p, i - 1, j - 1)
  {
    MirrorAt(t, |t| - 1 - j);
    if i < |p| { MirrorAt(p, |p| - 1 - i); }
    StepOn(Mirror(t), Mirror(p), |p| - 1 - i, |t| - 1 - j);
  }

  lemma {:induction false} StartR(t: string, p: string)
    ensures AlignedR(t, p, |p| - 1, |t| - 1) && NoneAfter(t, p, |p| - 1, |t| - 1)
  {
    NothingAligned(Mirror(t), Mirror(p));
  }

  /** Search from right to left. */
  method ScanR(text: string, needle: string, table: array<int>) returns (pos: int)
    requires TableROk(needle, table[..]) && needle != []
    ensures pos == -1 || MatchAt(text, needle, pos)
    ensures pos == -1 ==> forall q :: !MatchAt(text, needle, q)
    ensures pos != -1 ==> forall q | pos < q :: !MatchAt(text, needle, q)
  {
    hide AlignedR, NoneAfter, StrongR, LongestR, MatchAt;
    pos := -1;
    var j := |text| - 1;
    var i := |needle| - 1;
    StartR(text, needle);
    while j >= 0 && j >= i
      invariant 0 <= i < |needle| && -1 <= j < |text|
      invariant AlignedR(text, needle, i, j) && NoneAfter(text, needle, i, j)
    {
      while i < |needle| && needle[i] != text[j]
        invariant 0 <= i <= |needle| && NoneAfter(text, needle, i, j)
        invariant i < |needle| ==> AlignedR(text, needle, i, j)
        decreases |needle| - i
      {
        assert StrongR(needle, table[..][i + 1], i + 1 - 1);
        ScanBackR(text, needle, i, j, table[i + 1]);
        i := table[i + 1];
      }
      StepOnR(text, needle, i, j);
      i, j := i - 1, j - 1;
      if i < 0 {
        pos := j + 1;
        FoundR(text, needle, j);
        return;
      }
    }
    NotFoundR(text, needle, i, j);
  }

  lemma {:induction false} NotFoundR(t: string, p: string, i: int, j: int)
    requires NoneAfter(t, p, i, j) && j < i
    ensures forall q :: !MatchAt(t, p, q)
  {
    forall q ensures !MatchAt(t, p, q) {
      if MatchAt(t, p, q) { MirrorMatch(t, p, q); }
    }
  }

  /** The first match in the mirror is the last match. */
  lemma {:induction false} FoundR(t: string, p: string, j: int)
    requires AlignedR(t, p, -1, j) && NoneAfter(t, p, -1, j)
    ensures 0 <= j + 1 && MatchAt(t, p, j + 1) && forall q | j + 1 < q :: !MatchAt(t, p, q)
  {
    hide Mirror;
    var pos := j + 1;
    WholeAligned(Mirror(t), Mirror(p), |t| - pos);
    hide Aligned;
    assert MatchAt(t, p, pos) by {
      MirrorMatch(Mirror(t), Mirror(p), |t| - pos - |p|);
      MirrorTwice(t);
      MirrorTwice(p);
    }
    forall q | pos < q ensures !MatchAt(t, p, q) {
      if MatchAt(t, p, q) { MirrorMatch(t, p, q); }
    }
  }

  lemma {:induction false} MirrorMatch(text: string, needle: string, q: int)
    requires MatchAt(text, needle, q)
    ensures MatchAt(Mirror(text), Mirror(needle), |text| - |needle| - q)
  {
    var r := |text| - |needle| - q;
    var t := Mirror(text);
    forall k | 0 <= k < |needle| ensures t[r + k] == Mirror(needle)[k] {
      MirrorAt(text, r + k);
      MirrorAt(needle, k);
      assert text[q..q + |needle|][|needle| - 1 - k] == needle[|needle| - 1 - k];
    }
    assert t[r..r + |needle|] == Mirror(needle);
  }

  lemma {:induction false} MirrorTwice(s: string)
    ensures Mirror(Mirror(s)) == s
  {
    forall k | 0 <= k < |s| ensures Mirror(Mirror(s))[k] == s[k] {
      MirrorAt(Mirror(s), k);
      MirrorAt(s, |s| - 1 - k);
    }
  }

  /** The greatest occurrence that ends at or before the start; a negative start counts from the end. */
  method FindR(text: string, start: int, needle: string) returns (pos: int)
    requires start < |text|
    ensures var last := if start < 0 then |text| + start else start;
            if pos == -1 then needle == [] || forall q | q + |needle| <= last + 1 :: !MatchAt(text, needle, q)
            else needle != [] && pos + |needle| <= last + 1 && MatchAt(text, needle, pos)
                 && forall q | pos < q && q + |needle| <= last + 1 :: !MatchAt(text, needle, q)
  {
    pos := -1;
    var last := if start < 0 then |text| + start else start;
    if last + 1 >= |needle| && |needle| > 0 {
      var table := new int[|needle| + 1];
      BuildTableR(needle, table);
      pos := ScanR(text[..last + 1], needle, table);
      forall q | q + |needle| <= last + 1 ensures MatchAt(text, needle, q) <==> MatchAt(text[..last + 1], needle, q) {
        if 0 <= q { assert text[..last + 1][q..q + |needle|] == text[q..q + |needle|]; }
      }
    }
  }
}
