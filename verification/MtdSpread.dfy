/**
 `mtdparts spread` of common/cmd_mtdparts.c with mtd_get_len_incl_bad of
 drivers/mtd/mtdcore.c: every partition grows over the bad blocks inside it
 and right behind it. The source masks offsets with erasesize - 1; that is
 the remainder for the power-of-two block sizes of the chips concerned.
 */
module MtdSpread {
  import opened Machine
  import opened Option
  import opened Arith
  import opened MtdTable

  predicate IsBad(f: Flash, block: nat) {
    f.bad.Some? && block in f.bad.value
  }

  /** What is left of the block that holds an offset. */
  function BlockRest(f: Flash, offset: nat): (n: nat)
    ensures 0 < n <= f.erasesize
  {
    f.erasesize - offset % f.erasesize
  }

  function BlockOf(f: Flash, offset: nat): nat {
    offset / f.erasesize
  }

  /**
   mtd_get_len_incl_bad from `offset`, with `got` good bytes found before it: bytes passed
   over, and whether the chip ended first.
   */
  function LenFrom(f: Flash, offset: nat, length: nat, got: nat): (r: (nat, bool))
    ensures !r.1 ==> got + r.0 >= length
    decreases if offset < f.size then f.size - offset else 0
  {
    if got >= length then (0, false)
    else if offset >= f.size then (0, true)
    else
      var blockLen := BlockRest(f, offset);
      var (len, truncated) :=
        LenFrom(f, offset + blockLen, length, if IsBad(f, BlockOf(f, offset)) then got else got + blockLen);
      (blockLen + len, truncated)
  }

  function LenInclBad(f: Flash, offset: nat, length: nat): (nat, bool) {
    if f.bad.None? then (length, false) else LenFrom(f, offset, length, 0)
  }

  method GetLenInclBad(f: Flash, start: nat, length: nat) returns (len: nat, truncated: bool)
    ensures (len, truncated) == LenInclBad(f, start, length)
  {
    hide BlockRest, BlockOf;
    truncated := false;
    len := 0;
    if f.bad.None? {
      len := length;
      return;
    }
    var got: nat, offset := 0, start;
    while got < length
      invariant var r := LenFrom(f, offset, length, got); LenFrom(f, start, length, 0) == (len + r.0, r.1)
      decreases if offset < f.size then f.size - offset else 0, if got < length then length - got else 0
    {
      if offset >= f.size {
        truncated := true;
        return;
      }
      var blockLen := BlockRest(f, offset);
      if !IsBad(f, BlockOf(f, offset)) {
        got := got + blockLen;
      }
      len := len + blockLen;
      offset := offset + blockLen;
    }
  }

  /** net_part_size: the good bytes of a partition. */
  function NetSize(f: Flash, p: Part): nat {
    if f.bad.None? then p.size else NetFrom(f, p, 0)
  }

  function NetFrom(f: Flash, p: Part, i: nat): nat
    decreases if i < p.size then p.size - i else 0
  {
    if i >= p.size then 0
    else (if IsBad(f, BlockOf(f, p.offset + i)) then 0 else f.erasesize) + NetFrom(f, p, i + f.erasesize)
  }

  method NetPartSize(f: Flash, p: Part) returns (net: nat)
    ensures net == NetSize(f, p)
  {
    hide BlockOf;
    if f.bad.None? {
      return p.size;
    }
    var i := 0;
    net := 0;
    while i < p.size
      invariant net + NetFrom(f, p, i) == NetFrom(f, p, 0)
      decreases if i < p.size then p.size - i else 0
    {
      if !IsBad(f, BlockOf(f, p.offset + i)) {
        net := net + f.erasesize;
      }
      i := i + f.erasesize;
    }
  }

  // --------------------------------------------------------------------
  // The pass over the partitions
  // --------------------------------------------------------------------

  /**
   How spread_partition sizes a partition: its length over bad blocks, the padding behind
   it, and which search hit the end.
   */
  datatype Spread = Spread(len: nat, padding: nat, noNext: bool)

  function SpreadOf(f: Flash, offset: nat, size: nat): Spread {
    var (len, short) := LenInclBad(f, offset, size);
    if short then Spread(len, 0, true)
    else
      var (next, noNext) := LenInclBad(f, offset + len, f.erasesize);
      Spread(len, if noNext then 0 else next - f.erasesize, noNext)
  }

  /** spread_partition, after spread_partitions moved it behind its predecessor. */
  function SpreadPart(f: Flash, p: Part, cur: nat): Part {
    var offset := if cur > p.offset then cur % ULONG else p.offset;
    var s := SpreadOf(f, offset, p.size);
    p.(offset := offset, size := (s.len + s.padding) % ULONG)
  }

  /** spread_partitions on one device. */
  function SpreadParts(f: Flash, parts: seq<Part>, cur: nat): (r: seq<Part>)
    ensures |r| == |parts|
    decreases |parts|
  {
    if parts == [] then []
    else
      var p := SpreadPart(f, parts[0], cur);
      [p] + SpreadParts(f, parts[1..], PartEnd(p))
  }

  method SpreadPartition(f: Flash, p: Part) returns (q: Part, next: nat)
    ensures q == SpreadPart(f, p, 0) && next == PartEnd(q)
  {
    var len, truncated := GetLenInclBad(f, p.offset, p.size);
    var padding := 0;
    if !truncated {
      padding, truncated := GetLenInclBad(f, p.offset + len, f.erasesize);
      if truncated {
        padding := 0;
      } else {
        padding := padding - f.erasesize;
      }
    }
    q := p.(size := (len + padding) % ULONG);
    next := (q.offset + q.size) % ULONG;
  }

  method SpreadDevice(f: Flash, parts: seq<Part>) returns (r: seq<Part>)
    ensures r == SpreadParts(f, parts, 0)
  {
    hide SpreadPart, SpreadParts;
    ghost var target := SpreadParts(f, parts, 0);
    r := parts;
    var cur: nat, i: nat := 0, 0;
    while i < |r|
      invariant i <= |r| == |parts| && cur < ULONG
      invariant forall j :: i <= j < |r| ==> r[j] == parts[j]
      invariant forall j :: 0 <= j < i ==> r[j] == target[j]
      invariant target[i..] == SpreadParts(f, parts[i..], cur)
    {
      var p := r[i];
      if cur > p.offset {
        p := p.(offset := cur);
      }
      var q, next := SpreadPartition(f, p);
      SpreadMoved(f, parts[i], cur);
      SpreadPartsNext(f, parts, cur, i, target);
      r := r[i := q];
      cur, i := next, i + 1;
    }
  }

  lemma SpreadMoved(f: Flash, p: Part, cur: nat)
    requires cur < ULONG
    ensures SpreadPart(f, p, cur) == SpreadPart(f, if cur > p.offset then p.(offset := cur) else p, 0)
  {
    hide SpreadOf;
  }

  lemma SpreadPartsNext(f: Flash, parts: seq<Part>, cur: nat, i: nat, target: seq<Part>)
    requires i < |parts| == |target| && target[i..] == SpreadParts(f, parts[i..], cur)
    ensures target[i] == SpreadPart(f, parts[i], cur)
    ensures target[i + 1..] == SpreadParts(f, parts[i + 1..], PartEnd(target[i]))
  {
    hide SpreadPart;
    assert parts[i..][0] == parts[i] && parts[i..][1..] == parts[i + 1..];
    assert target[i..][0] == target[i] && target[i..][1..] == target[i + 1..];
  }

  // --------------------------------------------------------------------
  // In whole blocks
  // --------------------------------------------------------------------

  function GoodBlocks(f: Flash, b: nat, n: nat): nat
    decreases n
  {
    if n == 0 then 0 else (if IsBad(f, b) then 0 else 1) + GoodBlocks(f, b + 1, n - 1)
  }

  lemma BlockArith(es: Positive, a: nat, b: nat)
    ensures (a * es) % es == 0 && (a * es) / es == a
    ensures a * es + es == (a + 1) * es
    ensures a * es < b * es <==> a < b
    ensures a * es + b * es == (a + b) * es
  {
    if a < b {
      assert b * es == a * es + (b - a) * es;
    } else {
      assert a * es == b * es + (a - b) * es;
    }
    MultipleDivides(a, es);
  }

  /** mtd_get_len_incl_bad counted in blocks: blocks passed until `need` good ones are found. */
  function BlocksFor(f: Flash, total: nat, b: nat, need: nat): (nat, bool)
    decreases if b < total then total - b else 0
  {
    if need == 0 then (0, false)
    else if b >= total then (0, true)
    else
      var (m, truncated) := BlocksFor(f, total, b + 1, if IsBad(f, b) then need else need - 1);
      (m + 1, truncated)
  }

  lemma {:induction false} LenFromBlocks(f: Flash, total: nat, b: nat, k: nat, g: nat)
    requires f.size == total * f.erasesize && g <= k
    ensures var (m, truncated) := BlocksFor(f, total, b, k - g);
            LenFrom(f, b * f.erasesize, k * f.erasesize, g * f.erasesize) == (m * f.erasesize, truncated)
    decreases if b < total then total - b else 0
  {
    var es := f.erasesize;
    BlockArith(es, g, k);
    BlockArith(es, b, total);
    if g < k && b < total {
      var g' := if IsBad(f, b) then g else g + 1;
      BlockArith(es, g, 1);
      LenFromBlocks(f, total, b + 1, k, g');
      var (m, _) := BlocksFor(f, total, b + 1, k - g');
      BlockArith(es, m, 1);
    }
  }

  /** The search stops right after the block that completes the count, or at the end of the chip. */
  lemma {:induction false} BlocksForIs(f: Flash, total: nat, b: nat, need: nat)
    requires b <= total
    ensures var (m, truncated) := BlocksFor(f, total, b, need);
            && b + m <= total
            && (truncated <==> GoodBlocks(f, b, total - b) < need)
            && (truncated ==> b + m == total)
            && (!truncated ==> GoodBlocks(f, b, m) == need)
            && (!truncated && need > 0 ==> m > 0 && !IsBad(f, b + m - 1))
    decreases total - b
  {
    if need > 0 && b < total {
      BlocksForIs(f, total, b + 1, if IsBad(f, b) then need else need - 1);
    }
  }

  lemma {:induction false} GoodBlocksSplit(f: Flash, b: nat, m: nat, n: nat)
    ensures GoodBlocks(f, b, m + n) == GoodBlocks(f, b, m) + GoodBlocks(f, b + m, n)
    decreases m
  {
    if m > 0 {
      GoodBlocksSplit(f, b + 1, m - 1, n);
    }
  }

  lemma {:induction false} NetFromBlocks(f: Flash, p: Part, b: nat, m: nat, j: nat)
    requires p.offset == b * f.erasesize && p.size == m * f.erasesize && j <= m
    ensures NetFrom(f, p, j * f.erasesize) == GoodBlocks(f, b + j, m - j) * f.erasesize
    decreases m - j
  {
    var es := f.erasesize;
    BlockArith(es, j, m);
    if j < m {
      BlockArith(es, b, j);
      MultipleDivides(b + j, es);
      NetFromBlocks(f, p, b, m, j + 1);
      BlockArith(es, GoodBlocks(f, b + j + 1, m - j - 1), 1);
    }
  }

  /** Good bytes between an offset and the end of the chip. */
  function Available(f: Flash, offset: nat): nat
  {
    var total, b := f.size / f.erasesize, BlockOf(f, offset);
    if b < total then GoodBlocks(f, b, total - b) * f.erasesize else 0
  }

  predicate WholeBlocks(f: Flash) {
    f.bad.Some? && f.size % f.erasesize == 0 && f.size < ULONG
  }

  predicate OnBlocks(f: Flash, p: Part) {
    p.offset % f.erasesize == 0 && p.size % f.erasesize == 0 && p.offset <= f.size
  }

  /** How many blocks spread_partition gives to a partition of k blocks at block b. */
  function SpreadCount(f: Flash, total: nat, b: nat, k: nat): nat {
    var (m, short) := BlocksFor(f, total, b, k);
    var (n, noNext) := BlocksFor(f, total, b + m, 1);
    if short || noNext || n == 0 then m else m + (n - 1)
  }

  lemma SpreadOfBlocks(f: Flash, total: nat, b: nat, k: nat)
    requires f.bad.Some? && f.size == total * f.erasesize && b <= total
    ensures var s := SpreadOf(f, b * f.erasesize, k * f.erasesize);
            s.len + s.padding == SpreadCount(f, total, b, k) * f.erasesize
  {
    hide LenFrom, BlocksFor;
    var es: nat := f.erasesize;
    LenFromBlocks(f, total, b, k, 0);
    BlocksForIs(f, total, b, k);
    var (m, short) := BlocksFor(f, total, b, k);
    assert 0 * es == 0 && 1 * es == es;
    if !short {
      BlockArith(es, b, m);
      LenFromBlocks(f, total, b + m, 1, 0);
      BlocksForIs(f, total, b + m, 1);
      var (n, noNext) := BlocksFor(f, total, b + m, 1);
      if !noNext {
        BlockArith(es, n - 1, 1);
        BlockArith(es, m, n - 1);
      }
    }
  }

  lemma GoodBlocksOne(f: Flash, b: nat)
    ensures GoodBlocks(f, b, 1) == if IsBad(f, b) then 0 else 1
  {
    assert GoodBlocks(f, b + 1, 0) == 0;
  }

  lemma SpreadBlocks(f: Flash, total: nat, b: nat, k: nat)
    requires b <= total
    ensures var w := SpreadCount(f, total, b, k);
            var good := GoodBlocks(f, b, total - b);
            && b + w <= total
            && GoodBlocks(f, b, w) == (if good < k then good else k)
            && (good < k ==> b + w == total)
            && (good > k ==> b + w < total && !IsBad(f, b + w))
  {
    hide BlocksFor, GoodBlocks, IsBad;
    BlocksForIs(f, total, b, k);
    var (m, short) := BlocksFor(f, total, b, k);
    GoodBlocksSplit(f, b, m, total - b - m);
    if short {
      assert GoodBlocks(f, b + m, 0) == 0 by { GoodBlocksNone(f, b + m); }
    } else {
      BlocksForIs(f, total, b + m, 1);
      var (n, noNext) := BlocksFor(f, total, b + m, 1);
      if !noNext {
        var w := m + (n - 1);
        GoodBlocksSplit(f, b + m, n - 1, 1);
        GoodBlocksOne(f, b + w);
        GoodBlocksSplit(f, b, m, n - 1);
        GoodBlocksSplit(f, b + m, n, total - b - m - n);
      }
    }
  }

  lemma GoodBlocksNone(f: Flash, b: nat)
    ensures GoodBlocks(f, b, 0) == 0
  {
  }

  /** In bytes: what spread_partition leaves in a partition, and what comes right behind it. */
  lemma SpreadBytes(f: Flash, offset: nat, size: nat)
    requires WholeBlocks(f) && offset % f.erasesize == 0 && size % f.erasesize == 0 && offset <= f.size
    ensures var s := SpreadOf(f, offset, size);
            var p := Part("", true, s.len + s.padding, offset, false);
            var end := offset + p.size;
            && end % f.erasesize == 0 && end <= f.size
            && NetSize(f, p) == (if Available(f, offset) < size then Available(f, offset) else size)
            && (Available(f, offset) < size ==> end == f.size)
            && (Available(f, offset) > size ==> end < f.size && !IsBad(f, BlockOf(f, end)))
  {
    hide *;
    var es: Positive := f.erasesize;
    var total, b, k := f.size / es, offset / es, size / es;
    ChipBlocks(f, offset, size);
    SpreadOfBlocks(f, total, b, k);
    SpreadBlocks(f, total, b, k);
    var s := SpreadOf(f, offset, size);
    var good := GoodBlocks(f, b, total - b);
    var m := SpreadCount(f, total, b, k);
    var p := Part("", true, s.len + s.padding, offset, false);
    NetBlocks(f, p, b, m);
    EndOfBlocks(es, b, m, total);
    Compare(es, good, k);
    BlockOfIs(f, b + m);
  }

  lemma EndOfBlocks(es: Positive, b: nat, m: nat, total: nat)
    requires b + m <= total
    ensures b * es + m * es == (b + m) * es <= total * es && ((b + m) * es) % es == 0
    ensures b + m < total <==> (b + m) * es < total * es
  {
    BlockArith(es, b, m);
    BlockArith(es, b + m, total);
    BlockArith(es, total, b + m);
  }

  lemma Compare(es: Positive, x: nat, y: nat)
    ensures x < y <==> x * es < y * es
    ensures x == y <==> x * es == y * es
  {
    BlockArith(es, x, y);
    BlockArith(es, y, x);
  }

  /** The chip, an offset and a size counted in blocks. */
  lemma ChipBlocks(f: Flash, offset: nat, size: nat)
    requires WholeBlocks(f) && offset % f.erasesize == 0 && size % f.erasesize == 0 && offset <= f.size
    ensures var total, b, k := f.size / f.erasesize, offset / f.erasesize, size / f.erasesize;
            && f.bad.Some?
            && f.size == total * f.erasesize && offset == b * f.erasesize && size == k * f.erasesize
            && b <= total
            && Available(f, offset) == GoodBlocks(f, b, total - b) * f.erasesize
  {
    var es: Positive := f.erasesize;
    var total, b := f.size / es, offset / es;
    assert f.size == total * es && offset == b * es;
    BlockArith(es, total, b);
    if b == total {
      assert GoodBlocks(f, b, 0) == 0;
    }
  }

  lemma NetBlocks(f: Flash, p: Part, b: nat, m: nat)
    requires f.bad.Some? && p.offset == b * f.erasesize && p.size == m * f.erasesize
    ensures NetSize(f, p) == GoodBlocks(f, b, m) * f.erasesize
  {
    NetFromBlocks(f, p, b, m, 0);
  }

  lemma BlockOfIs(f: Flash, b: nat)
    ensures BlockOf(f, b * f.erasesize) == b
  {
    MultipleDivides(b, f.erasesize);
  }

  // --------------------------------------------------------------------
  // The theorem
  // --------------------------------------------------------------------

  /**
   What spreading promises of one partition: it starts where it was or right
   behind its predecessor, holds as many good bytes as it had bytes (all that are
   left, if fewer are), and the block behind it is good when any is left.
   */
  predicate WellSpread(f: Flash, was: Part, now: Part, prevEnd: nat) {
    var end, left := now.offset + now.size, Available(f, now.offset);
    && now == was.(offset := now.offset, size := now.size)
    && now.offset == (if prevEnd > was.offset then prevEnd else was.offset)
    && OnBlocks(f, now) && end <= f.size
    && NetSize(f, now) == (if left < was.size then left else was.size)
    && (left < was.size ==> end == f.size)
    && (left > was.size ==> end < f.size && !IsBad(f, BlockOf(f, end)))
  }

  lemma {:induction false} NetSizeSame(f: Flash, p: Part, q: Part, i: nat)
    requires p.offset == q.offset && p.size == q.size
    ensures NetFrom(f, p, i) == NetFrom(f, q, i)
    decreases if i < p.size then p.size - i else 0
  {
    hide BlockOf;
    if i < p.size {
      NetSizeSame(f, p, q, i + f.erasesize);
    }
  }

  lemma SpreadPartOk(f: Flash, p: Part, cur: nat)
    requires WholeBlocks(f) && OnBlocks(f, p) && cur % f.erasesize == 0 && cur <= f.size
    ensures WellSpread(f, p, SpreadPart(f, p, cur), cur)
    ensures PartEnd(SpreadPart(f, p, cur)) == SpreadPart(f, p, cur).offset + SpreadPart(f, p, cur).size
  {
    hide *;
    var offset := if cur > p.offset then cur else p.offset;
    PlacedOnBlocks(f, p, cur);
    SpreadBytes(f, offset, p.size);
    var s := SpreadOf(f, offset, p.size);
    var bare := Part("", true, s.len + s.padding, offset, false);
    SpreadPartIs(f, p, cur);
    var q := SpreadPart(f, p, cur);
    SameNetSize(f, q, bare);
    DifferenceOfMultiples(offset, q.size, f.erasesize);
    ConcludeWellSpread(f, p, q, cur);
  }

  lemma PlacedOnBlocks(f: Flash, p: Part, cur: nat)
    requires WholeBlocks(f) && OnBlocks(f, p) && cur % f.erasesize == 0 && cur <= f.size
    ensures var offset := if cur > p.offset then cur else p.offset;
            offset % f.erasesize == 0 && offset <= f.size && p.size % f.erasesize == 0 && f.size < ULONG
  {
  }

  lemma SpreadPartIs(f: Flash, p: Part, cur: nat)
    requires cur < ULONG && p.offset < ULONG
    requires var offset := if cur > p.offset then cur else p.offset;
             offset + SpreadOf(f, offset, p.size).len + SpreadOf(f, offset, p.size).padding < ULONG
    ensures var offset := if cur > p.offset then cur else p.offset;
            var s := SpreadOf(f, offset, p.size);
            && SpreadPart(f, p, cur) == p.(offset := offset, size := s.len + s.padding)
            && PartEnd(SpreadPart(f, p, cur)) == offset + s.len + s.padding
  {
    hide SpreadOf;
  }

  /** On a chip without a bad-block query spreading only moves partitions apart. */
  lemma SpreadWithoutQuery(f: Flash, p: Part, cur: nat)
    requires f.bad.None? && p.size < ULONG && cur < ULONG
    ensures SpreadPart(f, p, cur) == p.(offset := if cur > p.offset then cur else p.offset)
    ensures NetSize(f, SpreadPart(f, p, cur)) == p.size
  {
  }

  lemma SameNetSize(f: Flash, p: Part, q: Part)
    requires p.offset == q.offset && p.size == q.size
    ensures NetSize(f, p) == NetSize(f, q)
  {
    hide NetFrom;
    NetSizeSame(f, p, q, 0);
  }

  lemma ConcludeWellSpread(f: Flash, p: Part, q: Part, cur: nat)
    requires q == p.(offset := if cur > p.offset then cur else p.offset, size := q.size)
    requires q.offset % f.erasesize == 0 && q.size % f.erasesize == 0 && q.offset + q.size <= f.size
    requires var left := Available(f, q.offset);
             && NetSize(f, q) == (if left < p.size then left else p.size)
             && (left < p.size ==> q.offset + q.size == f.size)
             && (left > p.size ==> q.offset + q.size < f.size && !IsBad(f, BlockOf(f, q.offset + q.size)))
    ensures WellSpread(f, p, q, cur)
  {
    hide Available, NetSize, IsBad, BlockOf;
  }

  /** Where the partition before i ends; cur before the first. */
  function PrevEnd(parts: seq<Part>, i: nat, cur: nat): nat
    requires i <= |parts|
  {
    if i == 0 then cur else parts[i - 1].offset + parts[i - 1].size
  }

  lemma {:induction false} SpreadPartsOk(f: Flash, parts: seq<Part>, cur: nat)
    requires WholeBlocks(f) && cur % f.erasesize == 0 && cur <= f.size
    requires forall i :: 0 <= i < |parts| ==> OnBlocks(f, parts[i])
    ensures var r := SpreadParts(f, parts, cur);
            forall i :: 0 <= i < |r| ==> WellSpread(f, parts[i], r[i], PrevEnd(r, i, cur))
    decreases |parts|
  {
    hide WellSpread, WholeBlocks, SpreadPart;
    if parts != [] {
      var p, more := parts[0], parts[1..];
      var q := SpreadPart(f, p, cur);
      SpreadPartOk(f, p, cur);
      WellSpreadEnd(f, p, q, cur);
      SpreadPartsOk(f, more, PartEnd(q));
      var r, r' := SpreadParts(f, parts, cur), SpreadParts(f, more, PartEnd(q));
      assert r == [q] + r';
      forall i | 0 <= i < |r| ensures WellSpread(f, parts[i], r[i], PrevEnd(r, i, cur)) {
        if i > 0 {
          assert r[i] == r'[i - 1] && parts[i] == more[i - 1];
          assert PrevEnd(r, i, cur) == PrevEnd(r', i - 1, PartEnd(q));
        }
      }
    }
  }

  lemma WellSpreadEnd(f: Flash, p: Part, q: Part, cur: nat)
    requires WellSpread(f, p, q, cur)
    ensures q.offset + q.size <= f.size && (q.offset + q.size) % f.erasesize == 0
    ensures cur <= q.offset
  {
    hide NetSize, Available, IsBad, BlockOf;
    SumOfMultiples(q.offset, q.size, f.erasesize);
  }

  /** A partition right behind one that left a good block over starts on a good block. */
  predicate StartsGood(f: Flash, parts: seq<Part>, r: seq<Part>, i: nat)
    requires 0 < i < |r| == |parts|
  {
    Available(f, r[i - 1].offset) > parts[i - 1].size && r[i].offset == PrevEnd(r, i, 0) ==>
      !IsBad(f, BlockOf(f, r[i].offset))
  }

  /** What spread_partitions makes of the partitions of a device. */
  predicate SpreadWell(f: Flash, parts: seq<Part>, r: seq<Part>)
    requires |r| == |parts|
  {
    && (forall i, j :: 0 <= i < j < |r| ==> r[i].offset + r[i].size <= r[j].offset)
    && (forall i :: 0 <= i < |r| ==> Available(f, r[i].offset) >= parts[i].size ==> NetSize(f, r[i]) == parts[i].size)
    && (forall i :: 0 <= i < |r| ==> Available(f, r[i].offset) < parts[i].size ==> r[i].offset + r[i].size == f.size)
    && (forall i :: 0 < i < |r| ==> StartsGood(f, parts, r, i))
  }

  /**
   After `mtdparts spread` the partitions of a device are in order and disjoint,
   each keeps its old size in good bytes unless the chip runs out, and a partition
   that starts right behind one that left a good block over starts on a good block.
   */
  lemma SpreadTheorem(f: Flash, parts: seq<Part>)
    requires WholeBlocks(f) && forall i :: 0 <= i < |parts| ==> OnBlocks(f, parts[i])
    ensures SpreadWell(f, parts, SpreadParts(f, parts, 0))
  {
    hide WholeBlocks, OnBlocks, SpreadParts, WellSpread, Available, NetSize, StartsGood, PrevEnd;
    ZeroAligned(f);
    SpreadPartsOk(f, parts, 0);
    var r := SpreadParts(f, parts, 0);
    forall i | 0 <= i < |r|
      ensures Available(f, r[i].offset) >= parts[i].size ==> NetSize(f, r[i]) == parts[i].size
      ensures Available(f, r[i].offset) < parts[i].size ==> r[i].offset + r[i].size == f.size
      ensures PrevEnd(r, i, 0) <= r[i].offset
    {
      WellSpreadMeans(f, parts[i], r[i], PrevEnd(r, i, 0));
    }
    forall i, j | 0 <= i < j < |r| ensures r[i].offset + r[i].size <= r[j].offset {
      Chained(r, i, j);
    }
    forall i | 0 < i < |r| ensures StartsGood(f, parts, r, i) {
      WellSpreadNext(f, parts, r, i);
    }
  }

  lemma ZeroAligned(f: Flash)
    ensures 0 % f.erasesize == 0
  {
  }

  lemma WellSpreadMeans(f: Flash, was: Part, now: Part, prevEnd: nat)
    requires WellSpread(f, was, now, prevEnd)
    ensures Available(f, now.offset) >= was.size ==> NetSize(f, now) == was.size
    ensures Available(f, now.offset) < was.size ==> now.offset + now.size == f.size
    ensures prevEnd <= now.offset
  {
    hide NetSize, Available, IsBad, BlockOf, OnBlocks;
  }

  lemma WellSpreadNext(f: Flash, parts: seq<Part>, r: seq<Part>, i: nat)
    requires 0 < i < |r| == |parts| && WellSpread(f, parts[i - 1], r[i - 1], PrevEnd(r, i - 1, 0))
    ensures StartsGood(f, parts, r, i)
  {
    hide NetSize, Available, IsBad, BlockOf, OnBlocks;
  }

  lemma {:induction false} Chained(r: seq<Part>, i: nat, j: nat)
    requires i < j < |r| && forall k :: 0 <= k < |r| ==> PrevEnd(r, k, 0) <= r[k].offset
    ensures r[i].offset + r[i].size <= r[j].offset
    decreases j - i
  {
    assert PrevEnd(r, j, 0) <= r[j].offset;
    if i + 1 < j {
      Chained(r, i, j - 1);
    }
  }
}
