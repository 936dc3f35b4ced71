/**
 What the parsers of cmd_mtdparts.c make of any text they accept: which sizes
 and offsets the partitions of a table get, and that a `-` partition reaches the
 end of its device.
 */
module MtdGrammar {
  import opened Machine
  import opened Arith
  import opened Option
  import opened Numerals
  import opened MtdTable
  import opened MtdRoundTrip

  // --------------------------------------------------------------------
  // Sizes with a suffix
  // --------------------------------------------------------------------

  /** What one unit of a suffix stands for, in either case. */
  function UnitOf(suffix: char): nat {
    if suffix == 'K' || suffix == 'k' then 0x400
    else if suffix == 'M' || suffix == 'm' then 0x10_0000
    else if suffix == 'G' || suffix == 'g' then 0x4000_0000
    else 1
  }

  lemma ShiftTwice(n: nat, a: nat, b: nat)
    ensures n * a % ULONG * b % ULONG == n * a * b % ULONG
  {
    var q, r := n * a / ULONG, n * a % ULONG;
    assert n * a == q * ULONG + r;
    assert n * a * b == q * b * ULONG + r * b by { assert (q * ULONG + r) * b == q * b * ULONG + r * b; }
    AddWords(r * b, q * b);
  }

  lemma {:induction false} AddWords(x: nat, k: nat)
    ensures (k * ULONG + x) % ULONG == x % ULONG
  {
    if k > 0 {
      AddWords(x, k - 1);
      assert k * ULONG + x == (k - 1) * ULONG + x + ULONG;
    }
  }

  /** A number with a suffix, in capitals or not, is that many units, with 32-bit wrap-around. */
  lemma SuffixedSize(n: nat, suffix: char, rest: string)
    requires n < ULONG && IsSuffix(suffix) && EndsSize(rest)
    ensures MemSizeParse(Format(n, 10) + ([suffix] + rest)) == (n * UnitOf(suffix) % ULONG, rest)
  {
    hide Format, MemSizeParse;
    assert !IsXDigit(suffix);
    MemSizeParseText(n, [suffix], rest);
    ShiftTwice(n, 1024, 1024);
    ShiftTwice(n, 1024 * 1024, 1024);
    assert Shl10(n) == n * 1024 % ULONG;
    assert Shl10(Shl10(n)) == n * 0x10_0000 % ULONG;
    assert Shl10(Shl10(Shl10(n))) == n * 0x4000_0000 % ULONG;
  }

  // --------------------------------------------------------------------
  // Validation
  // --------------------------------------------------------------------

  /** The partition that takes all the rest is accepted exactly below the device end, and ends there. */
  lemma FillsDevice(id: MtdId, p: Part)
    requires p.size == SIZE_REMAINING && id.size < ULONG
    ensures Validate(id, p).Some? <==> p.offset < id.size && BlockAligned(id, p.offset, id.size - p.offset)
    ensures Validate(id, p).Some? ==>
      var q := Validate(id, p).value;
      q == p.(size := q.size) && q.offset + q.size == id.size
  {
    hide BlockAligned;
  }

  /** A partition of a given size is accepted exactly when it is not empty, lies inside the device, and is aligned. */
  lemma FitsDevice(id: MtdId, p: Part)
    requires p.size < ULONG && p.size != SIZE_REMAINING && id.size < ULONG
    ensures Validate(id, p) == Some(p) <==>
      p.size > 0 && p.offset + p.size <= id.size && BlockAligned(id, p.offset, p.size)
    ensures Validate(id, p) == Some(p) || Validate(id, p) == None
  {
    hide BlockAligned;
  }

  /** x lies on a block boundary of a region. */
  predicate OnBoundary(r: Region, x: nat) {
    r.erasesize > 0 && r.offset <= x < r.offset + r.numblocks * r.erasesize && (x - r.offset) % r.erasesize == 0
  }

  predicate NoRegionWraps(regions: seq<Region>) {
    forall i :: 0 <= i < |regions| ==>
      regions[i].erasesize > 0 && regions[i].offset + regions[i].numblocks * regions[i].erasesize < ULONG
  }

  /** The walk over regions and blocks finds exactly the block boundaries. */
  lemma BoundaryIff(regions: seq<Region>, x: nat)
    requires NoRegionWraps(regions)
    ensures IsBlockStart(regions, x) <==> exists i :: 0 <= i < |regions| && OnBoundary(regions[i], x)
  {
    hide BlockStart, OnBoundary;
    forall i | 0 <= i < |regions| && OnBoundary(regions[i], x) ensures IsBlockStart(regions, x) {
      var j := BoundaryBlock(regions[i], x);
      assert BlockStart(regions[i], j) == x;
    }
    if IsBlockStart(regions, x) {
      var i, j :| 0 <= i < |regions| && 0 <= j < regions[i].numblocks && BlockStart(regions[i], j) == x;
      BlockBoundary(regions[i], j);
    }
  }

  lemma BoundaryBlock(r: Region, x: nat) returns (j: nat)
    requires OnBoundary(r, x) && r.offset + r.numblocks * r.erasesize < ULONG
    ensures j < r.numblocks && BlockStart(r, j) == x
  {
    j := (x - r.offset) / r.erasesize;
    assert x - r.offset == j * r.erasesize;
    Below(j, r.numblocks, r.erasesize, 0);
  }

  lemma BlockBoundary(r: Region, j: nat)
    requires j < r.numblocks && r.erasesize > 0 && r.offset + r.numblocks * r.erasesize < ULONG
    ensures OnBoundary(r, BlockStart(r, j))
  {
    var n := j * r.erasesize;
    assert (r.numblocks - j) * r.erasesize == r.numblocks * r.erasesize - n;
    assert (r.numblocks - j) * r.erasesize > 0;
    assert n % r.erasesize == 0 by { MultipleDivides(j, r.erasesize); }
  }

  /** Both ends on block boundaries; with regions, the end may also be that of the last region. */
  lemma AlignedIff(id: MtdId, offset: nat, size: nat)
    requires id.flash.Some? && NoRegionWraps(id.flash.value.regions) && offset + size < ULONG
    ensures var f, end := id.flash.value, offset + size;
      BlockAligned(id, offset, size) <==>
      if f.regions == [] then offset % f.erasesize == 0 && end % f.erasesize == 0
      else
        var last := f.regions[|f.regions| - 1];
        && (exists i :: 0 <= i < |f.regions| && OnBoundary(f.regions[i], offset))
        && ((exists i :: 0 <= i < |f.regions| && OnBoundary(f.regions[i], end))
            || end == last.offset + last.numblocks * last.erasesize)
  {
    hide OnBoundary, IsBlockStart;
    var f := id.flash.value;
    BoundaryIff(f.regions, offset);
    BoundaryIff(f.regions, offset + size);
    if f.regions == [] {
      hide NoRegionWraps;
      BothEnds(f.erasesize, offset, size);
    }
  }

  lemma BothEnds(m: Positive, a: nat, n: nat)
    ensures a % m == 0 ==> (n % m == 0 <==> (a + n) % m == 0)
  {
    if a % m == 0 {
      var q, k, r := a / m, n / m, n % m;
      assert a == q * m && n == k * m + r;
      assert a + n == (q + k) * m + r by { assert (q + k) * m == q * m + k * m; }
      QuotientUnique(a + n, m, q + k, r);
    }
  }

  // --------------------------------------------------------------------
  // The partitions of a device text
  // --------------------------------------------------------------------

  /** The partition definitions of a text as part_parse reads them, nothing resolved. */
  function RawParts(s: string): (r: Option<(seq<Part>, string)>)
    decreases |s|
  {
    if s == "" || s[0] == ';' then Some(([], s))
    else
      match PartParse(s)
      case None => None
      case Some((p, rest)) =>
        match RawParts(rest)
        case None => None
        case Some((more, left)) => Some(([p] + more, left))
  }

  /** What a definition becomes behind a partition that ends at prevEnd. */
  predicate ResolvesTo(id: MtdId, raw: Part, prevEnd: nat, p: Part) {
    && p == raw.(offset := p.offset, size := p.size)
    && p.offset == (if raw.offset == OFFSET_NOT_SPECIFIED then prevEnd else raw.offset)
    && (if raw.size == SIZE_REMAINING then p.offset + p.size == id.size else p.size == raw.size)
    && p.size > 0 && p.offset + p.size <= id.size
    && BlockAligned(id, p.offset, p.size)
  }

  predicate AllResolveTo(id: MtdId, raw: seq<Part>, prevEnd: nat, parts: seq<Part>)
    decreases |raw|
  {
    if raw == [] || parts == [] then raw == [] && parts == []
    else
      ResolvesTo(id, raw[0], prevEnd, parts[0]) &&
      AllResolveTo(id, raw[1..], parts[0].offset + parts[0].size, parts[1..])
  }

  lemma ValidateIff(id: MtdId, raw: Part, prevEnd: nat, p: Part)
    requires raw.size < ULONG && id.size < ULONG
    ensures Validate(id, Placed(raw, prevEnd)) == Some(p) <==> ResolvesTo(id, raw, prevEnd, p)
  {
    hide BlockAligned, Validate;
    var q := Placed(raw, prevEnd);
    if q.size == SIZE_REMAINING {
      FillsDevice(id, q);
    } else {
      FitsDevice(id, q);
    }
  }

  /**
   The partition loop of device_parse accepts a text as exactly the list that its
   definitions resolve to, each behind the one before.
   */
  lemma {:induction false} ParsePartsIff(id: MtdId, s: string, offset: nat, parts: seq<Part>, left: string)
    requires id.size < ULONG && offset < ULONG
    ensures ParseParts(id, s, offset) == Some((parts, left)) <==>
      RawParts(s).Some? && RawParts(s).value.1 == left && AllResolveTo(id, RawParts(s).value.0, offset, parts)
    decreases |s|
  {
    hide PartParse, Validate, Placed, ResolvesTo;
    if s != "" && s[0] != ';' && PartParse(s).Some? {
      var (raw, rest) := PartParse(s).value;
      if parts != [] {
        ValidateIff(id, raw, offset, parts[0]);
        var end := PartEnd(parts[0]);
        if ResolvesTo(id, raw, offset, parts[0]) {
          NoWrap(id, raw, offset, parts[0]);
          ParsePartsIff(id, rest, end, parts[1..], left);
        }
      }
      if RawParts(rest).Some? {
        var more := RawParts(rest).value.0;
        assert ([raw] + more)[1..] == more;
      }
      ParsePartsSplit(id, s, offset, raw, rest, parts, left);
    }
  }

  lemma NoWrap(id: MtdId, raw: Part, prevEnd: nat, p: Part)
    requires ResolvesTo(id, raw, prevEnd, p) && id.size < ULONG
    ensures PartEnd(p) == p.offset + p.size
  {
    hide BlockAligned;
  }

  lemma ParsePartsSplit(id: MtdId, s: string, offset: nat, raw: Part, rest: string, parts: seq<Part>, left: string)
    requires s != "" && s[0] != ';' && PartParse(s) == Some((raw, rest))
    ensures ParseParts(id, s, offset) == Some((parts, left)) <==>
      && parts != [] && Validate(id, Placed(raw, offset)) == Some(parts[0])
      && ParseParts(id, rest, PartEnd(parts[0])) == Some((parts[1..], left))
  {
    hide PartParse, Validate, Placed;
    if parts != [] {
      assert parts == [parts[0]] + parts[1..];
    }
    if ParseParts(id, s, offset) == Some((parts, left)) {
      var q := Validate(id, Placed(raw, offset)).value;
      var more := ParseParts(id, rest, PartEnd(q)).value.0;
      assert ([q] + more)[1..] == more;
    }
  }

  // --------------------------------------------------------------------
  // A whole table
  // --------------------------------------------------------------------

  datatype RawDevice = RawDevice(name: string, parts: seq<Part>)

  /** The device definitions of a text, nothing resolved. */
  function RawDevices(s: string): Option<seq<RawDevice>>
    decreases |s|
  {
    if s == "" then Some([])
    else
      match IndexOf(s, ':')
      case None => None
      case Some(k) =>
        match RawParts(s[k + 1..])
        case None => None
        case Some((parts, rest)) =>
          if |rest| >= |s| then None
          else
            match RawDevices(if rest == "" then rest else rest[1..])
            case None => None
            case Some(more) => Some([RawDevice(s[..k], parts)] + more)
  }

  predicate NamedAt(ids: seq<MtdId>, name: string, i: nat) {
    i < |ids| && ids[i].mtdId == name && forall j :: 0 <= j < i ==> ids[j].mtdId != name
  }

  /** The first id of that name. */
  ghost predicate Named(ids: seq<MtdId>, name: string, id: MtdId) {
    exists i: nat :: i < |ids| && NamedAt(ids, name, i) && ids[i] == id
  }

  /** id_find_by_mtd_id finds an id exactly when one has the name, and then the first one. */
  lemma {:induction false} FindIdIff(ids: seq<MtdId>, name: string, id: MtdId)
    ensures FindId(ids, name) == Some(id) <==> Named(ids, name, id)
  {
    hide Named;
    if ids != [] {
      FindIdIff(ids[1..], name, id);
      NamedStep(ids, name, id);
    } else {
      NamedNothing(name, id);
    }
  }

  lemma NamedNothing(name: string, id: MtdId)
    ensures !Named([], name, id)
  {
  }

  lemma NamedStep(ids: seq<MtdId>, name: string, id: MtdId)
    requires ids != []
    ensures Named(ids, name, id) <==> if ids[0].mtdId == name then ids[0] == id else Named(ids[1..], name, id)
  {
    hide NamedAt;
    if Named(ids, name, id) {
      var i: nat :| i < |ids| && NamedAt(ids, name, i) && ids[i] == id;
      FirstStep(ids, name, i);
    }
    if ids[0].mtdId == name {
      FirstStep(ids, name, 0);
    } else if Named(ids[1..], name, id) {
      var i: nat :| i < |ids[1..]| && NamedAt(ids[1..], name, i) && ids[1..][i] == id;
      FirstStep(ids, name, i + 1);
    }
  }

  lemma FirstStep(ids: seq<MtdId>, name: string, i: nat)
    requires ids != []
    ensures NamedAt(ids, name, 0) <==> ids[0].mtdId == name
    ensures i > 0 ==> (NamedAt(ids, name, i) <==> ids[0].mtdId != name && NamedAt(ids[1..], name, i - 1))
  {
    var more := ids[1..];
    assert forall j :: 0 <= j < |more| ==> more[j] == ids[j + 1];
    if i > 0 && NamedAt(ids, name, i) {
      assert forall j :: 0 <= j < i - 1 ==> more[j] == ids[j + 1];
    }
    if i > 0 && ids[0].mtdId != name && NamedAt(more, name, i - 1) {
      assert forall j :: 1 <= j < i ==> ids[j] == more[j - 1];
    }
  }

  /** The device of that name, holding what its definitions resolve to from offset 0 on, in some order. */
  ghost predicate DeviceIs(ids: seq<MtdId>, raw: RawDevice, d: Device) {
    && Named(ids, raw.name, d.id)
    && exists parts :: AllResolveTo(d.id, raw.parts, 0, parts) && multiset(parts) == multiset(d.parts)
  }

  ghost predicate TableIs(ids: seq<MtdId>, raw: seq<RawDevice>, t: seq<Device>) {
    |raw| == |t| && forall i :: 0 <= i < |t| ==> DeviceIs(ids, raw[i], t[i])
  }

  lemma SortInsertSame(parts: seq<Part>, p: Part)
    requires SortInsert(parts, p).Some?
    ensures multiset(SortInsert(parts, p).value) == multiset(parts) + multiset{p}
  {
    hide InsertPos;
    var k := InsertPos(parts, p.offset);
    assert parts == parts[..k] + parts[k..];
  }

  /** Moving the partitions to the device loses and doubles none. */
  lemma {:induction false} SortInsertAllSame(parts: seq<Part>, done: seq<Part>)
    requires SortInsertAll(parts, done).Some?
    ensures multiset(SortInsertAll(parts, done).value) == multiset(done) + multiset(parts)
    decreases |parts|
  {
    hide SortInsert;
    if parts != [] {
      var next := SortInsert(done, parts[0]).value;
      SortInsertSame(done, parts[0]);
      SortInsertAllSame(parts[1..], next);
      assert parts == [parts[0]] + parts[1..];
    }
  }

  /** The parts of a device text and where they come from. */
  lemma ParsedFrom(ids: seq<MtdId>, known: seq<Device>, s: string, d: Device, rest: string)
    returns (k: nat, parts: seq<Part>, left: string)
    requires DeviceParse(ids, known, s) == Some((d, rest))
    ensures IndexOf(s, ':') == Some(k)
    ensures FindId(ids, s[..k]) == Some(d.id)
    ensures ParseParts(d.id, s[k + 1..], StartOffset(known, d.id)) == Some((parts, left))
    ensures SortInsertAll(parts, []) == Some(d.parts)
    ensures rest == if left == "" then left else left[1..]
  {
    hide ParseParts, SortInsertAll, FindId, IndexOf, StartOffset;
    k := IndexOf(s, ':').value;
    var r := ParseParts(d.id, s[k + 1..], StartOffset(known, d.id)).value;
    parts, left := r.0, r.1;
  }

  lemma DeviceResolves(ids: seq<MtdId>, known: seq<Device>, s: string, d: Device, rest: string)
    returns (k: nat, raw: seq<Part>, left: string)
    requires forall i :: 0 <= i < |ids| ==> ids[i].size < ULONG
    requires DeviceParse(ids, known, s) == Some((d, rest)) && FindDevice(known, d.id).None?
    ensures IndexOf(s, ':') == Some(k)
    ensures RawParts(s[k + 1..]) == Some((raw, left))
    ensures DeviceIs(ids, RawDevice(s[..k], raw), d)
    ensures rest == if left == "" then left else left[1..]
  {
    hide DeviceParse, ParseParts, RawParts, SortInsertAll, AllResolveTo, FindId, IndexOf, FindDevice, Named;
    var parts;
    k, parts, left := ParsedFrom(ids, known, s, d, rest);
    ParsePartsIff(d.id, s[k + 1..], 0, parts, left);
    raw := RawParts(s[k + 1..]).value.0;
    SortInsertAllSame(parts, []);
    FindIdIff(ids, s[..k], d.id);
    assert multiset(parts) == multiset(d.parts);
  }

  lemma {:induction false} DevicesResolve(ids: seq<MtdId>, s: string, known: seq<Device>)
    requires forall i :: 0 <= i < |ids| ==> ids[i].size < ULONG
    requires ParseDevices(ids, s, known).Some?
    ensures RawDevices(s).Some?
    ensures var t := ParseDevices(ids, s, known).value;
      |known| <= |t| && t[..|known|] == known && TableIs(ids, RawDevices(s).value, t[|known|..])
    decreases |s|
  {
    hide DeviceParse, RawParts, DeviceIs, IndexOf;
    if s != "" {
      var (d, rest) := DeviceParse(ids, known, s).value;
      var k, _, left := DeviceResolves(ids, known, s, d, rest);
      RestShorter(s);
      DevicesResolve(ids, rest, known + [d]);
      var t := ParseDevices(ids, s, known).value;
      var raw, more := RawDevices(s).value, RawDevices(rest).value;
      assert t[..|known| + 1] == known + [d];
      assert t[|known|] == t[..|known| + 1][|known|] == d;
      assert t[..|known|] == t[..|known| + 1][..|known|] == known;
      forall i | 0 <= i < |raw| ensures DeviceIs(ids, raw[i], t[|known|..][i]) {
        if i > 0 {
          assert t[|known| + 1..][i - 1] == t[|known|..][i];
          assert raw[i] == more[i - 1];
        }
      }
    }
  }

  lemma RestShorter(s: string)
    requires IndexOf(s, ':').Some? && RawParts(s[IndexOf(s, ':').value + 1..]).Some?
    ensures |RawParts(s[IndexOf(s, ':').value + 1..]).value.1| < |s|
  {
    hide IndexOf;
    RawPartsLeft(s[IndexOf(s, ':').value + 1..]);
  }

  lemma {:induction false} RawPartsLeft(s: string)
    requires RawParts(s).Some?
    ensures |RawParts(s).value.1| <= |s|
    decreases |s|
  {
    hide PartParse;
    if s != "" && s[0] != ';' {
      RawPartsLeft(PartParse(s).value.1);
    }
  }

  /** Every accepted table holds exactly what the definitions of its text resolve to. */
  lemma TableResolves(ids: seq<MtdId>, text: string)
    requires forall i :: 0 <= i < |ids| ==> ids[i].size < ULONG
    requires ParseTable(ids, text).Some?
    ensures PREFIX <= text && RawDevices(text[|PREFIX|..]).Some?
    ensures TableIs(ids, RawDevices(text[|PREFIX|..]).value, ParseTable(ids, text).value)
  {
    hide ParseDevices, TableIs, RawDevices;
    DevicesResolve(ids, text[|PREFIX|..], []);
    var t := ParseTable(ids, text).value;
    assert t[0..] == t;
  }

  lemma {:induction false} ResolvedAt(id: MtdId, raw: seq<Part>, prevEnd: nat, parts: seq<Part>, k: nat)
    requires AllResolveTo(id, raw, prevEnd, parts) && k < |raw|
    ensures |parts| == |raw|
    ensures ResolvesTo(id, raw[k], if k == 0 then prevEnd else parts[k - 1].offset + parts[k - 1].size, parts[k])
    decreases k
  {
    hide ResolvesTo;
    ResolvedLen(id, raw, prevEnd, parts);
    if k > 0 {
      ResolvedAt(id, raw[1..], parts[0].offset + parts[0].size, parts[1..], k - 1);
    }
  }

  lemma {:induction false} ResolvedLen(id: MtdId, raw: seq<Part>, prevEnd: nat, parts: seq<Part>)
    requires AllResolveTo(id, raw, prevEnd, parts)
    ensures |parts| == |raw|
    decreases |raw|
  {
    hide ResolvesTo;
    if raw != [] {
      ResolvedLen(id, raw[1..], parts[0].offset + parts[0].size, parts[1..]);
    }
  }

  /** In every accepted text a partition that takes all the rest reaches the end of its device. */
  lemma FillReachesEnd(ids: seq<MtdId>, text: string, i: nat, k: nat)
    requires forall j :: 0 <= j < |ids| ==> ids[j].size < ULONG
    requires ParseTable(ids, text).Some? && PREFIX <= text && RawDevices(text[|PREFIX|..]).Some?
    requires var raw := RawDevices(text[|PREFIX|..]).value;
      i < |raw| && k < |raw[i].parts| && raw[i].parts[k].size == SIZE_REMAINING
    ensures var t, raw := ParseTable(ids, text).value, RawDevices(text[|PREFIX|..]).value[i].parts[k];
      && i < |t|
      && exists p :: p in t[i].parts && p.name == raw.name && p.ro == raw.ro && p.offset + p.size == t[i].id.size
  {
    hide ParseTable, RawDevices, AllResolveTo, BlockAligned, FindId;
    TableResolves(ids, text);
    var d, raw := ParseTable(ids, text).value[i], RawDevices(text[|PREFIX|..]).value[i];
    assert DeviceIs(ids, raw, d);
    var parts :| AllResolveTo(d.id, raw.parts, 0, parts) && multiset(parts) == multiset(d.parts);
    ResolvedAt(d.id, raw.parts, 0, parts, k);
    assert parts[k] in multiset(parts);
  }

  // --------------------------------------------------------------------
  // Definitions as they are written
  // --------------------------------------------------------------------

  /** The pieces of a definition behind its size. */
  datatype Spec = Spec(offset: Option<nat>, name: Option<string>, ro: bool)

  predicate SpecOk(d: Spec) {
    && (d.offset.Some? ==> d.offset.value < ULONG)
    && (d.name.Some? ==> IsUserName(d.name.value))
  }

  function SpecTail(d: Spec, tail: string): string {
    var flags := if d.ro then "ro" + tail else tail;
    var named := if d.name.Some? then "(" + (d.name.value + (")" + flags)) else flags;
    if d.offset.Some? then "@" + (MemSizeFormat(d.offset.value) + named) else named
  }

  lemma HexField(n: nat, rest: string)
    requires n < ULONG && StopsScan(rest, 16)
    ensures StrToUL("0x" + (FormatPadded(n, 16, 8) + rest), 0) == (n, rest)
  {
    hide FormatPadded, Scan, Fold;
    ScanPadded(n, 16, 8, rest);
    HexPrefix(FormatPadded(n, 16, 8), rest, 0);
    ScanDigits(FormatPadded(n, 16, 8), rest, 16, 0);
  }

  /** A generated name tells size and offset, in hexadecimal. */
  lemma AutoNameTells(size: nat, offset: nat)
    requires size < ULONG && offset < ULONG
    ensures var (n, rest) := StrToUL(AutoName(size, offset), 0);
      && n == size && rest != "" && rest[0] == '@' && StrToUL(rest[1..], 0) == (offset, "")
  {
    hide FormatPadded, StrToUL;
    var a, b := FormatPadded(size, 16, 8), FormatPadded(offset, 16, 8);
    var middle := "@0x" + b;
    HexField(size, middle);
    HexField(offset, "");
    assert AutoName(size, offset) == "0x" + (a + middle);
    assert middle[1..] == "0x" + (b + "");
  }

  /** What part_parse makes of a definition of that size. */
  function SpecPart(d: Spec, size: nat): Part {
    var offset := if d.offset.Some? then d.offset.value else OFFSET_NOT_SPECIFIED;
    Part(if d.name.Some? then d.name.value else AutoName(size, offset), d.name.None?, size, offset, d.ro)
  }

  /** The fields behind the size are read as they were written. */
  lemma SpecFields(d: Spec, tail: string)
    requires SpecOk(d) && EndsPart(tail)
    ensures var p := SpecPart(d, 0);
      var (offset, s2) := OffsetField(SpecTail(d, tail));
      && offset == p.offset && EndsSize(SpecTail(d, tail))
      && NameField(s2).Some? && NameField(s2).value.0 == d.name
      && RoField(NameField(s2).value.1) == (d.ro, tail)
  {
    hide MemSizeParse, MemSizeFormat, AutoName;
    var offset := if d.offset.Some? then d.offset.value else OFFSET_NOT_SPECIFIED;
    var prevEnd := if d.offset.Some? then offset + 1 else offset;
    var p := Part(if d.name.Some? then d.name.value else "", d.name.None?, 0, offset, d.ro);
    var flags := RoText(d.ro, tail);
    RoFieldText(d.ro, tail);
    NameFieldText(p, flags);
    var named := NameText(p, flags);
    if d.offset.Some? {
      MemSizeRoundTrip(offset, named);
      assert SpecTail(d, tail)[1..] == MemSizeFormat(offset) + named;
    }
  }

  /** A definition that begins with `-` takes all the rest; nothing but the end of the device may follow it. */
  lemma FillText(d: Spec, tail: string)
    requires SpecOk(d) && EndsPart(tail)
    ensures PartParse("-" + SpecTail(d, tail)) ==
      if tail != "" && tail[0] == ',' then None else Some((SpecPart(d, SIZE_REMAINING), tail))
  {
    hide MemSizeParse, MemSizeFormat, AutoName, OffsetField, NameField, RoField;
    SpecFields(d, tail);
    assert ("-" + SpecTail(d, tail))[1..] == SpecTail(d, tail);
  }

  /** A definition with a size in any unit, in capitals or not. */
  lemma SizedText(n: nat, suffix: char, d: Spec, tail: string)
    requires n < ULONG && IsSuffix(suffix) && SpecOk(d) && EndsPart(tail)
    ensures var size := n * UnitOf(suffix) % ULONG;
      PartParse(Format(n, 10) + ([suffix] + SpecTail(d, tail))) ==
      if size < MIN_PART_SIZE || (tail != "" && tail[0] == ',' && size == SIZE_REMAINING) then None
      else Some((SpecPart(d, size), if tail != "" && tail[0] == ',' then tail[1..] else tail))
  {
    hide MemSizeParse, MemSizeFormat, AutoName, OffsetField, NameField, RoField, Format;
    SpecFields(d, tail);
    SuffixedSize(n, suffix, SpecTail(d, tail));
    var s := Format(n, 10) + ([suffix] + SpecTail(d, tail));
    assert s[0] == Format(n, 10)[0] && IsDigitOf(s[0], 10);
  }
}
