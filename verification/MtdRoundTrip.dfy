/**
 Parsing what generate_mtdparts prints. The text leaves out every offset that
 follows from the previous partition and every generated name; the theorem at
 the end says exactly which tables survive the trip.
 */
module MtdRoundTrip {
  import opened Machine
  import opened Option
  import opened Numerals
  import opened MtdTable

  // --------------------------------------------------------------------
  // Sizes
  // --------------------------------------------------------------------

  /** Text that cannot be mistaken for more of a size. */
  predicate EndsSize(rest: string) {
    rest == "" || rest[0] == '@' || rest[0] == '(' || rest[0] == 'r' || rest[0] == ',' || rest[0] == ';'
  }

  lemma UnitsScale(size: nat)
    requires size < ULONG
    ensures var (n, suffix) := Units(size);
            n < ULONG && (suffix == "" ==> n == size)
            && (suffix != "" ==>
              |suffix| == 1 && IsSuffix(suffix[0]) && !IsXDigit(suffix[0]) && Scaled(n, suffix[0]) == size)
  {
    hide Shl10;
    var n := Units(size).0;
    if size % SIZE_GB == 0 {
      assert n * SIZE_GB == size;
      Shl10Small(n);
      Shl10Small(n * SIZE_KB);
      Shl10Small(n * SIZE_MB);
    } else if size % SIZE_MB == 0 {
      assert n * SIZE_MB == size;
      Shl10Small(n);
      Shl10Small(n * SIZE_KB);
    } else if size % SIZE_KB == 0 {
      assert n * SIZE_KB == size;
      Shl10Small(n);
    }
  }

  lemma Shl10Small(n: nat)
    requires n * 1024 < ULONG
    ensures Shl10(n) == n * 1024
  {
  }

  lemma MemSizeParseText(n: nat, suffix: string, rest: string)
    requires n < ULONG && EndsSize(rest)
    requires suffix == "" || (|suffix| == 1 && IsSuffix(suffix[0]) && !IsXDigit(suffix[0]))
    ensures MemSizeParse(Format(n, 10) + (suffix + rest)) == (if suffix == "" then n else Scaled(n, suffix[0]), rest)
  {
    hide Format, StrToUL, Scaled;
    var after := suffix + rest;
    if suffix == "" {
      assert after == rest;
    } else {
      assert after[0] == suffix[0] && after[1..] == rest;
    }
    StrToULDecimal(n, after);
  }

  /** memsize_parse undoes memsize_format for every 32-bit size. */
  lemma MemSizeRoundTrip(size: nat, rest: string)
    requires size < ULONG && EndsSize(rest)
    ensures MemSizeParse(MemSizeFormat(size) + rest) == (size, rest)
  {
    var u := Units(size);
    UnitsScale(size);
    assert MemSizeFormat(size) + rest == Format(u.0, 10) + (u.1 + rest);
    MemSizeParseText(u.0, u.1, rest);
  }

  // --------------------------------------------------------------------
  // One partition
  // --------------------------------------------------------------------

  /** Text that may follow a partition. */
  predicate EndsPart(tail: string) {
    tail == "" || tail[0] == ',' || tail[0] == ';'
  }

  /** How the offset comes out of the text: not given when the printer left it out. */
  function GivenOffset(prevEnd: nat, p: Part): nat {
    if p.offset == prevEnd then OFFSET_NOT_SPECIFIED else p.offset
  }

  /** The record part_parse makes of a printed partition, before its offset is resolved. */
  function Given(prevEnd: nat, p: Part): Part {
    var offset := GivenOffset(prevEnd, p);
    p.(offset := offset, name := if p.autoName then AutoName(p.size, offset) else p.name)
  }

  lemma {:induction false} FirstIndexOf(name: string, c: char, tail: string)
    requires c !in name
    ensures IndexOf(name + ([c] + tail), c) == Some(|name|)
  {
    var s := name + ([c] + tail);
    if name == "" {
      assert s[0] == c;
    } else {
      assert s[0] == name[0] && s[1..] == name[1..] + ([c] + tail);
      FirstIndexOf(name[1..], c, tail);
    }
  }

  lemma NameFieldText(p: Part, tail: string)
    requires WellNamed(p) && (tail == "" || tail[0] != '(')
    ensures NameField(NameText(p, tail)) == Some((if p.autoName then None else Some(p.name), tail))
  {
    if !p.autoName {
      FirstIndexOf(p.name, ')', tail);
      var s := NameText(p, tail);
      var body := p.name + (")" + tail);
      assert s[1..] == body;
      assert body[..|p.name|] == p.name && body[|p.name| + 1..] == tail;
    }
  }

  lemma OffsetFieldText(prevEnd: nat, p: Part, tail: string)
    requires WellNamed(p) && (tail == "" || tail[0] != '@') && EndsSize(tail)
    ensures OffsetField(OffsetText(prevEnd, p.offset, tail)) == (GivenOffset(prevEnd, p), tail)
  {
    if p.offset != prevEnd {
      MemSizeRoundTrip(p.offset, tail);
      assert OffsetText(prevEnd, p.offset, tail)[1..] == MemSizeFormat(p.offset) + tail;
    }
  }

  lemma RoFieldText(ro: bool, tail: string)
    requires EndsPart(tail)
    ensures RoField(RoText(ro, tail)) == (ro, tail)
  {
    var s := RoText(ro, tail);
    if ro {
      assert s[2..] == tail;
    } else {
      assert "ro"[0] == 'r';
    }
  }

  lemma SizeFieldText(p: Part, rest: string)
    requires WellNamed(p) && EndsSize(rest)
    ensures SizeField(MemSizeFormat(p.size) + rest) == if p.size < MIN_PART_SIZE then None else Some((p.size, rest))
  {
    MemSizeRoundTrip(p.size, rest);
    assert (MemSizeFormat(p.size) + rest)[0] == MemSizeFormat(p.size)[0];
  }

  /** part_parse reads a printed partition back exactly when its size is one it accepts there. */
  lemma PartParseText(prevEnd: nat, p: Part, tail: string)
    requires WellNamed(p) && EndsPart(tail)
    ensures PartParse(PrintPart(prevEnd, p, tail)) ==
            (if p.size < MIN_PART_SIZE then None
             else match EndField(p.size, tail)
               case None => None
               case Some(rest) => Some((Given(prevEnd, p), rest)))
  {
    var s4 := tail;
    var s3 := RoText(p.ro, s4);
    var s2 := NameText(p, s3);
    var s1 := OffsetText(prevEnd, p.offset, s2);
    RoFieldText(p.ro, tail);
    NameFieldText(p, s3);
    OffsetFieldText(prevEnd, p, s2);
    SizeFieldText(p, s1);
  }

  // --------------------------------------------------------------------
  // The partitions of a device
  // --------------------------------------------------------------------

  /** part_validate accepts the partition and leaves it as it is. */
  predicate Validated(id: MtdId, parts: seq<Part>) {
    forall i :: 0 <= i < |parts| ==> Validate(id, parts[i]) == Some(parts[i])
  }

  /** part_validate would accept every partition that is long enough for part_parse. */
  predicate Fitting(id: MtdId, parts: seq<Part>) {
    forall i :: 0 <= i < |parts| ==> parts[i].size >= MIN_PART_SIZE ==> Validate(id, parts[i]) == Some(parts[i])
  }

  predicate AllWellNamed(parts: seq<Part>) {
    forall i :: 0 <= i < |parts| ==> WellNamed(parts[i])
  }

  /** Sizes that part_parse takes: at least the minimum, and "all the rest" only at the end. */
  predicate SizesOk(parts: seq<Part>) {
    && (forall i :: 0 <= i < |parts| ==> parts[i].size >= MIN_PART_SIZE)
    && (forall i :: 0 <= i < |parts| - 1 ==> parts[i].size != SIZE_REMAINING)
  }

  /** A partition as read back: the same, but a generated name is generated afresh. */
  function Reread(prevEnd: nat, p: Part): Part {
    if p.autoName then p.(name := AutoName(p.size, GivenOffset(prevEnd, p))) else p
  }

  function RereadAll(prevEnd: nat, parts: seq<Part>): (r: seq<Part>)
    ensures |r| == |parts|
    ensures forall i :: 0 <= i < |r| ==> Bare(r[i]) == Bare(parts[i])
    decreases |parts|
  {
    if parts == [] then [] else [Reread(prevEnd, parts[0])] + RereadAll(PartEnd(parts[0]), parts[1..])
  }

  /** A partition without its generated name. */
  function Bare(p: Part): Part {
    if p.autoName then p.(name := "") else p
  }

  lemma ValidateReread(id: MtdId, prevEnd: nat, p: Part)
    requires Validate(id, p) == Some(p) && WellNamed(p)
    ensures Validate(id, Placed(Given(prevEnd, p), prevEnd)) == Some(Reread(prevEnd, p))
  {
    ValidateName(id, p, Reread(prevEnd, p).name);
    hide Validate;
    assert Placed(Given(prevEnd, p), prevEnd) == Reread(prevEnd, p);
  }

  /** An accepted partition lies below 4 GB, and its name plays no part. */
  lemma ValidateName(id: MtdId, p: Part, name: string)
    requires Validate(id, p) == Some(p) && WellNamed(p)
    ensures p.offset != OFFSET_NOT_SPECIFIED && p.offset + p.size < ULONG
    ensures Validate(id, p.(name := name)) == Some(p.(name := name))
  {
    hide BlockAligned;
  }

  /** The partition loop of device_parse inverts the one of generate_mtdparts, whatever the order of the partitions. */
  lemma {:induction false} ParsePartsText(id: MtdId, prevEnd: nat, parts: seq<Part>, tail: string)
    requires parts != [] && AllWellNamed(parts) && Fitting(id, parts)
    requires tail == "" || tail[0] == ';'
    ensures ParseParts(id, PrintParts(prevEnd, parts, tail), prevEnd) ==
            if SizesOk(parts) then Some((RereadAll(prevEnd, parts), tail)) else None
    decreases |parts|
  {
    hide Validate, ParseParts, PrintPart;
    var p, more := parts[0], parts[1..];
    if more == [] {
      ParseLastPart(id, prevEnd, p, tail);
      assert PrintParts(prevEnd, parts, tail) == PrintPart(prevEnd, p, tail);
      assert RereadAll(prevEnd, parts) == [Reread(prevEnd, p)];
      assert SizesOk(parts) <==> p.size >= MIN_PART_SIZE;
    } else {
      ParsePartsText(id, PartEnd(p), more, tail);
      ParseFirstPart(id, prevEnd, p, PrintParts(PartEnd(p), more, tail));
      SizesOkSplit(parts);
    }
  }

  lemma ParseLastPart(id: MtdId, prevEnd: nat, p: Part, tail: string)
    requires WellNamed(p) && (p.size >= MIN_PART_SIZE ==> Validate(id, p) == Some(p))
    requires tail == "" || tail[0] == ';'
    ensures ParseParts(id, PrintPart(prevEnd, p, tail), prevEnd) ==
            if p.size >= MIN_PART_SIZE then Some(([Reread(prevEnd, p)], tail)) else None
  {
    hide Validate, PartParse, PrintPart, Reread, Given, Placed, PartEnd;
    PartParseText(prevEnd, p, tail);
    if p.size >= MIN_PART_SIZE {
      ValidateReread(id, prevEnd, p);
    }
    PrintPartStarts(prevEnd, p, tail);
    var q := Reread(prevEnd, p);
    assert ParseParts(id, tail, PartEnd(q)) == Some(([], tail));
    assert [q] + [] == [q];
  }

  lemma RereadEnd(prevEnd: nat, p: Part)
    ensures PartEnd(Reread(prevEnd, p)) == PartEnd(p)
  {
    hide AutoName;
  }

  lemma ParseFirstPart(id: MtdId, prevEnd: nat, p: Part, more: string)
    requires WellNamed(p) && (p.size >= MIN_PART_SIZE ==> Validate(id, p) == Some(p))
    ensures ParseParts(id, PrintPart(prevEnd, p, "," + more), prevEnd) ==
            if p.size < MIN_PART_SIZE || p.size == SIZE_REMAINING then None
            else match ParseParts(id, more, PartEnd(p))
              case None => None
              case Some((parts, left)) => Some(([Reread(prevEnd, p)] + parts, left))
  {
    hide Validate, PartParse, PrintPart, Reread, Given, Placed, PartEnd;
    RereadEnd(prevEnd, p);
    var tail := "," + more;
    assert tail[1..] == more;
    PartParseText(prevEnd, p, tail);
    if p.size >= MIN_PART_SIZE {
      ValidateReread(id, prevEnd, p);
    }
    PrintPartStarts(prevEnd, p, tail);
  }

  lemma PrintPartStarts(prevEnd: nat, p: Part, tail: string)
    ensures var s := PrintPart(prevEnd, p, tail); s != "" && s[0] != ';'
  {
    assert PrintPart(prevEnd, p, tail)[0] == MemSizeFormat(p.size)[0];
  }

  lemma SizesOkSplit(parts: seq<Part>)
    requires |parts| > 1
    ensures SizesOk(parts) <==> parts[0].size >= MIN_PART_SIZE && parts[0].size != SIZE_REMAINING && SizesOk(parts[1..])
  {
    var more := parts[1..];
    if parts[0].size >= MIN_PART_SIZE && parts[0].size != SIZE_REMAINING && SizesOk(more) {
      forall i | 0 <= i < |parts|
        ensures parts[i].size >= MIN_PART_SIZE && (i < |parts| - 1 ==> parts[i].size != SIZE_REMAINING)
      {
        if i > 0 { assert parts[i] == more[i - 1]; }
      }
    }
    if SizesOk(parts) {
      forall i | 0 <= i < |more|
        ensures more[i].size >= MIN_PART_SIZE && (i < |more| - 1 ==> more[i].size != SIZE_REMAINING)
      {
        assert more[i] == parts[i + 1];
      }
    }
  }

  // --------------------------------------------------------------------
  // Rebuilding the sorted list
  // --------------------------------------------------------------------

  /** The order part_sort_add keeps. */
  predicate SortedByOffset(parts: seq<Part>) {
    forall i, j :: 0 <= i < j < |parts| ==> parts[i].offset <= parts[j].offset
  }

  predicate DistinctOffsets(parts: seq<Part>) {
    forall i, j :: 0 <= i < j < |parts| ==> parts[i].offset < parts[j].offset
  }

  /** At most one partition starts at 0. */
  predicate OneAtZero(parts: seq<Part>) {
    |parts| > 1 ==> parts[1].offset != 0
  }

  /** The position opposite to i among the partitions that start where i does. */
  function Opposite(parts: seq<Part>, i: nat): (k: int)
    requires i < |parts| && SortedByOffset(parts)
    ensures 0 <= k < |parts| && parts[k].offset == parts[i].offset
  {
    var o := parts[i].offset;
    var lo, hi := InsertPos(parts, o), InsertPos(parts, o + 1);
    assert lo <= i < hi by {
      if hi < |parts| { assert o + 1 <= parts[hi].offset; }
    }
    assert lo < hi <= |parts|;
    lo + hi - 1 - i
  }

  /** Partitions that share an offset in reverse order, everything else in place. */
  function Mirrored(parts: seq<Part>): (r: seq<Part>)
    requires SortedByOffset(parts)
    ensures |r| == |parts|
  {
    seq(|parts|, i requires 0 <= i < |parts| => parts[Opposite(parts, i)])
  }

  lemma MirroredAt(parts: seq<Part>, i: nat)
    requires SortedByOffset(parts) && i < |parts|
    ensures Mirrored(parts)[i] == parts[Opposite(parts, i)] && Mirrored(parts)[i].offset == parts[i].offset
  {
    hide Opposite;
  }

  lemma MirroredInsertPos(parts: seq<Part>, offset: nat)
    requires SortedByOffset(parts)
    ensures InsertPos(Mirrored(parts), offset) == InsertPos(parts, offset)
  {
    hide Mirrored, InsertPos, Opposite, SortedByOffset;
    forall i | 0 <= i < |parts| ensures Mirrored(parts)[i].offset == parts[i].offset {
      MirroredAt(parts, i);
    }
    SameOffsetsSamePos(Mirrored(parts), parts, offset);
  }

  lemma MirrorStep(parts: seq<Part>, p: Part)
    requires SortedByOffset(parts + [p])
    requires SortedByOffset(parts)
    ensures var k := InsertPos(parts, p.offset);
            && InsertPos(Mirrored(parts), p.offset) == k
            && Mirrored(parts)[..k] + [p] + Mirrored(parts)[k..] == Mirrored(parts + [p])
  {
    hide InsertPos, Opposite, Mirrored, SortedByOffset;
    var m, k := Mirrored(parts), InsertPos(parts, p.offset);
    MirroredInsertPos(parts, p.offset);
    var r, all := m[..k] + [p] + m[k..], parts + [p];
    forall i | 0 <= i < |r| ensures r[i] == Mirrored(all)[i] {
      if i < k {
        MirrorBelow(parts, p, i);
        MirroredAt(parts, i);
        MirroredAt(all, i);
      } else {
        MirrorAbove(parts, p, i);
      }
    }
  }

  lemma OppositeInRun(parts: seq<Part>, i: nat, lo: nat, hi: nat)
    requires SortedByOffset(parts) && lo <= i < hi <= |parts|
    requires InsertPos(parts, parts[i].offset) == lo && InsertPos(parts, parts[i].offset + 1) == hi
    ensures Opposite(parts, i) == lo + hi - 1 - i
  {
    hide SortedByOffset;
  }

  /** A partition appended to a sorted list belongs to its last run. */
  lemma LastRun(parts: seq<Part>, p: Part, i: nat)
    requires SortedByOffset(parts + [p]) && InsertPos(parts, p.offset) <= i <= |parts|
    ensures InsertPos(parts + [p], p.offset) == InsertPos(parts, p.offset)
    ensures InsertPos(parts + [p], p.offset + 1) == |parts| + 1
    ensures InsertPos(parts, p.offset + 1) == |parts|
    ensures (parts + [p])[i].offset == p.offset
    ensures i < |parts| ==> parts[i].offset == p.offset
  {
    hide InsertPos, SortedByOffset;
    var all, n, k := parts + [p], |parts|, InsertPos(parts, p.offset);
    AllBelow(parts, p);
    assert forall j :: 0 <= j < n ==> all[j] == parts[j];
    assert k <= i < n ==> parts[k].offset <= parts[i].offset by { if k <= i < n { InOrder(all, k, i); } }
  }

  lemma AllBelow(parts: seq<Part>, p: Part)
    requires SortedByOffset(parts + [p])
    ensures forall j :: 0 <= j < |parts| ==> parts[j].offset <= p.offset
  {
    var all := parts + [p];
    assert all[|parts|] == p;
    assert forall j :: 0 <= j < |parts| ==> parts[j] == all[j];
  }

  lemma InOrder(parts: seq<Part>, i: nat, j: nat)
    requires SortedByOffset(parts) && i <= j < |parts|
    ensures parts[i].offset <= parts[j].offset
  {
  }

  lemma MirrorAbove(parts: seq<Part>, p: Part, i: nat)
    requires SortedByOffset(parts + [p]) && SortedByOffset(parts)
    requires InsertPos(parts, p.offset) <= i <= |parts|
    ensures i == InsertPos(parts, p.offset) ==> Mirrored(parts + [p])[i] == p
    ensures i > InsertPos(parts, p.offset) ==> Mirrored(parts + [p])[i] == Mirrored(parts)[i - 1]
  {
    hide *;
    var all, n, k := parts + [p], |parts|, InsertPos(parts, p.offset);
    LastRun(parts, p, i);
    MirrorInRun(all, i, k, n + 1);
    if i > k {
      LastRun(parts, p, i - 1);
      MirrorInRun(parts, i - 1, k, n);
    }
  }

  lemma MirrorInRun(parts: seq<Part>, i: nat, lo: nat, hi: nat)
    requires SortedByOffset(parts) && lo <= i < hi <= |parts|
    requires InsertPos(parts, parts[i].offset) == lo && InsertPos(parts, parts[i].offset + 1) == hi
    ensures Mirrored(parts)[i] == parts[lo + hi - 1 - i]
  {
    hide InsertPos, Mirrored, Opposite, SortedByOffset;
    OppositeInRun(parts, i, lo, hi);
    MirroredAt(parts, i);
  }

  lemma MirrorBelow(parts: seq<Part>, p: Part, i: nat)
    requires SortedByOffset(parts + [p]) && SortedByOffset(parts)
    requires i < |parts| && parts[i].offset < p.offset
    ensures Opposite(parts + [p], i) == Opposite(parts, i) < |parts|
  {
    var all, o := parts + [p], parts[i].offset;
    assert forall j :: 0 <= j < |parts| ==> all[j] == parts[j];
    assert InsertPos(all, o) == InsertPos(parts, o);
    assert all[|parts|] == p;
    assert InsertPos(all, o + 1) == InsertPos(parts, o + 1);
  }

  /** Moving a sorted list to a new device one partition at a time mirrors the runs of equal offsets. */
  lemma {:induction false} SortInsertAllMirrors(done: seq<Part>, parts: seq<Part>)
    requires SortedByOffset(done + parts) && SortedByOffset(done)
    requires OneAtZero(done)
    ensures SortInsertAll(parts, Mirrored(done)) ==
            if OneAtZero(done + parts) then Some(Mirrored(done + parts)) else None
    decreases |parts|
  {
    hide InsertPos, Opposite, Mirrored;
    if parts == [] {
      assert done + parts == done;
    } else {
      var p, all := parts[0], done + parts;
      var next := done + [p];
      assert next + parts[1..] == all;
      assert next == all[..|done| + 1];
      assert SortedByOffset(next);
      MirrorStep(done, p);
      InsertAtZero(done, p);
      if OneAtZero(next) {
        SortInsertAllMirrors(next, parts[1..]);
      } else {
        assert all[1] == next[1];
      }
    }
  }

  /** part_sort_add refuses exactly the second partition at 0. */
  lemma InsertAtZero(done: seq<Part>, p: Part)
    requires SortedByOffset(done + [p]) && SortedByOffset(done) && OneAtZero(done)
    ensures InsertPos(Mirrored(done), p.offset) == InsertPos(done, p.offset)
    ensures SortInsert(Mirrored(done), p).None? <==> !OneAtZero(done + [p])
  {
    hide Opposite, Mirrored;
    var m, k, next := Mirrored(done), InsertPos(done, p.offset), done + [p];
    MirroredInsertPos(done, p.offset);
    if k < |done| { MirroredAt(done, k); }
    assert next[|done|] == p;
    assert forall i :: 0 <= i < |done| ==> next[i] == done[i] && next[i].offset <= next[|done|].offset;
    if !OneAtZero(next) {
      assert next[0].offset <= next[1].offset;
      assert |done| == 1 && p.offset == 0 && done[0].offset == 0;
    }
  }

  // --------------------------------------------------------------------
  // Devices
  // --------------------------------------------------------------------

  function BareParts(parts: seq<Part>): (r: seq<Part>)
    ensures |r| == |parts|
    ensures forall i :: 0 <= i < |r| ==> r[i] == Bare(parts[i])
  {
    seq(|parts|, i requires 0 <= i < |parts| => Bare(parts[i]))
  }

  function BareDevice(d: Device): Device {
    d.(parts := BareParts(d.parts))
  }

  /** A table up to generated names, which the text does not carry. */
  function BareTable(t: seq<Device>): (r: seq<Device>)
    ensures |r| == |t|
    ensures forall i :: 0 <= i < |r| ==> r[i] == BareDevice(t[i])
  {
    seq(|t|, i requires 0 <= i < |t| => BareDevice(t[i]))
  }

  /** What every device of the running system is: found under its own name and not empty. */
  predicate DeviceOk(ids: seq<MtdId>, d: Device) {
    && FindId(ids, d.id.mtdId) == Some(d.id)
    && ':' !in d.id.mtdId
    && d.parts != []
    && AllWellNamed(d.parts)
  }

  predicate TableOk(ids: seq<MtdId>, t: seq<Device>) {
    && (forall i :: 0 <= i < |t| ==> DeviceOk(ids, t[i]))
    && (forall i, j :: 0 <= i < j < |t| ==> !SameDevice(t[i].id, t[j].id))
  }

  predicate TableSorted(t: seq<Device>) {
    forall i :: 0 <= i < |t| ==> SortedByOffset(t[i].parts)
  }

  predicate TableValidated(t: seq<Device>) {
    forall i :: 0 <= i < |t| ==> Validated(t[i].id, t[i].parts)
  }

  predicate TableFitting(t: seq<Device>) {
    forall i :: 0 <= i < |t| ==> Fitting(t[i].id, t[i].parts)
  }

  /** What device_parse makes of a printed partition list. */
  function Rebuilt(parts: seq<Part>): Option<seq<Part>> {
    if SizesOk(parts) then SortInsertAll(RereadAll(0, parts), []) else None
  }

  function RebuiltAll(done: seq<Device>, devices: seq<Device>): Option<seq<Device>>
    decreases |devices|
  {
    if devices == [] then Some(done)
    else
      match Rebuilt(devices[0].parts)
      case None => None
      case Some(parts) => RebuiltAll(done + [Device(devices[0].id, parts)], devices[1..])
  }

  lemma DeviceParseText(ids: seq<MtdId>, known: seq<Device>, d: Device, tail: string)
    requires DeviceOk(ids, d) && Fitting(d.id, d.parts)
    requires FindDevice(known, d.id).None?
    requires tail == "" || tail[0] == ';'
    ensures DeviceParse(ids, known, d.id.mtdId + (":" + PrintParts(0, d.parts, tail))) ==
            match Rebuilt(d.parts)
            case None => None
            case Some(parts) => Some((Device(d.id, parts), if tail == "" then tail else tail[1..]))
  {
    hide PrintParts, ParseParts, IndexOf, FindId, SortInsertAll, SizesOk, Fitting, AllWellNamed, SortedByOffset;
    var name, body := d.id.mtdId, PrintParts(0, d.parts, tail);
    var s := name + (":" + body);
    FirstIndexOf(name, ':', body);
    assert s[..|name|] == name && s[|name| + 1..] == body;
    assert StartOffset(known, d.id) == 0;
    ParsePartsText(d.id, 0, d.parts, tail);
  }

  /** parse_mtdparts over a printed device list, whatever devices came before. */
  lemma {:induction false} ParseDevicesText(ids: seq<MtdId>, known: seq<Device>, devices: seq<Device>)
    requires TableOk(ids, devices) && TableFitting(devices)
    requires forall i :: 0 <= i < |devices| ==> FindDevice(known, devices[i].id).None?
    ensures ParseDevices(ids, PrintDevices(devices), known) == RebuiltAll(known, devices)
    decreases |devices|
  {
    hide DeviceParse, Rebuilt, PrintParts, DeviceOk, Fitting, FindDevice, SameDevice;
    if devices != [] {
      var d, more := devices[0], devices[1..];
      var tail := if more == [] then "" else ";" + PrintDevices(more);
      DeviceParseText(ids, known, d, tail);
      var text := PrintDevices(devices);
      assert text == d.id.mtdId + (":" + PrintParts(0, d.parts, tail));
      assert |text| > 0;
      if Rebuilt(d.parts).Some? {
        var next := known + [Device(d.id, Rebuilt(d.parts).value)];
        assert TableOk(ids, more) && TableFitting(more);
        forall i | 0 <= i < |more| ensures FindDevice(next, more[i].id).None? {
          assert more[i] == devices[i + 1];
          NotFoundSnoc(known, Device(d.id, Rebuilt(d.parts).value), more[i].id);
        }
        ParseDevicesText(ids, next, more);
        assert tail != "" ==> tail[1..] == PrintDevices(more);
      }
    }
  }

  lemma NotFoundSnoc(known: seq<Device>, d: Device, id: MtdId)
    requires FindDevice(known, id).None? && !SameDevice(d.id, id)
    ensures FindDevice(known + [d], id).None?
  {
    hide FindDevice;
  }

  // --------------------------------------------------------------------
  // The theorem
  // --------------------------------------------------------------------

  /** Partitions that share an offset are listed as a palindrome, up to generated names. */
  predicate SharedOffsetsMirror(parts: seq<Part>)
    requires SortedByOffset(parts)
  {
    forall i :: 0 <= i < |parts| ==> Bare(parts[Opposite(parts, i)]) == Bare(parts[i])
  }

  /** The tables that can be printed and read back: nothing here needs the printer or the parser. */
  predicate Printable(parts: seq<Part>)
    requires SortedByOffset(parts)
  {
    SizesOk(parts) && OneAtZero(parts) && SharedOffsetsMirror(parts)
  }

  predicate TablePrintable(t: seq<Device>) {
    forall i :: 0 <= i < |t| ==> SortedByOffset(t[i].parts) && Printable(t[i].parts)
  }

  /** Reading the text back gives the same table up to generated names. */
  predicate Reproduces(ids: seq<MtdId>, text: string, t: seq<Device>) {
    match ParseTable(ids, text)
    case None => false
    case Some(u) => BareTable(u) == BareTable(t)
  }

  lemma SameOffsetsSamePos(a: seq<Part>, b: seq<Part>, o: nat)
    requires |a| == |b| && forall i :: 0 <= i < |a| ==> a[i].offset == b[i].offset
    ensures InsertPos(a, o) == InsertPos(b, o)
  {
    hide InsertPos;
  }

  lemma OppositeReread(parts: seq<Part>, r: seq<Part>, i: nat)
    requires SortedByOffset(parts) && |r| == |parts| && i < |parts|
    requires forall j :: 0 <= j < |r| ==> r[j].offset == parts[j].offset
    ensures SortedByOffset(r) && Opposite(r, i) == Opposite(parts, i)
  {
    hide InsertPos;
    SameOffsetsSamePos(parts, r, parts[i].offset);
    SameOffsetsSamePos(parts, r, parts[i].offset + 1);
  }

  lemma RereadOffsets(prevEnd: nat, parts: seq<Part>)
    ensures forall j :: 0 <= j < |parts| ==> RereadAll(prevEnd, parts)[j].offset == parts[j].offset
  {
    hide RereadAll;
    var r := RereadAll(prevEnd, parts);
    assert forall j :: 0 <= j < |r| ==> Bare(r[j]) == Bare(parts[j]);
  }

  lemma SortInsertAllFresh(parts: seq<Part>)
    requires SortedByOffset(parts)
    ensures SortInsertAll(parts, []) == if OneAtZero(parts) then Some(Mirrored(parts)) else None
  {
    hide Opposite, SortInsertAll;
    assert [] + parts == parts && Mirrored([]) == [];
    SortInsertAllMirrors([], parts);
  }

  /** The rebuilt list, position by position. */
  lemma RebuiltAt(parts: seq<Part>)
    requires SortedByOffset(parts) && parts != []
    ensures Rebuilt(parts).Some? <==> SizesOk(parts) && OneAtZero(parts)
    ensures Rebuilt(parts).Some? ==>
              && |Rebuilt(parts).value| == |parts|
              && forall i :: 0 <= i < |parts| ==> Bare(Rebuilt(parts).value[i]) == Bare(parts[Opposite(parts, i)])
  {
    hide Opposite, SizesOk, SortInsertAll, RereadAll, Mirrored, Bare, SortedByOffset;
    var r := RereadAll(0, parts);
    RereadOffsets(0, parts);
    OppositeReread(parts, r, 0);
    SortInsertAllFresh(r);
    if SizesOk(parts) && OneAtZero(parts) {
      forall i | 0 <= i < |r| ensures Bare(Mirrored(r)[i]) == Bare(parts[Opposite(parts, i)]) {
        OppositeReread(parts, r, i);
        MirroredAt(r, i);
      }
    }
  }

  lemma BarePartsEqual(a: seq<Part>, b: seq<Part>)
    requires |a| == |b|
    ensures BareParts(a) == BareParts(b) <==> forall i :: 0 <= i < |a| ==> Bare(a[i]) == Bare(b[i])
  {
    hide Bare, BareParts;
    if BareParts(a) == BareParts(b) {
      forall i | 0 <= i < |a| ensures Bare(a[i]) == Bare(b[i]) {
        assert BareParts(a)[i] == BareParts(b)[i];
      }
    }
  }

  lemma RebuiltBare(parts: seq<Part>)
    requires SortedByOffset(parts) && parts != []
    ensures Printable(parts) <==> Rebuilt(parts).Some? && BareParts(Rebuilt(parts).value) == BareParts(parts)
  {
    hide Opposite, Rebuilt, SizesOk, OneAtZero, Bare, BareParts;
    RebuiltAt(parts);
    if Rebuilt(parts).Some? {
      BarePartsEqual(Rebuilt(parts).value, parts);
    }
  }

  lemma {:induction false} RebuiltAllAt(done: seq<Device>, devices: seq<Device>)
    ensures match RebuiltAll(done, devices)
            case None => exists i :: 0 <= i < |devices| && Rebuilt(devices[i].parts).None?
            case Some(u) =>
              && |u| == |done| + |devices| && u[..|done|] == done
              && forall i :: 0 <= i < |devices| ==>
                   && Rebuilt(devices[i].parts).Some?
                   && u[|done| + i] == Device(devices[i].id, Rebuilt(devices[i].parts).value)
    decreases |devices|
  {
    hide Rebuilt;
    if devices != [] && Rebuilt(devices[0].parts).Some? {
      var d := Device(devices[0].id, Rebuilt(devices[0].parts).value);
      var more, next := devices[1..], done + [d];
      RebuiltAllAt(next, more);
      match RebuiltAll(next, more)
      case None =>
        var i :| 0 <= i < |more| && Rebuilt(more[i].parts).None?;
        assert devices[i + 1] == more[i];
      case Some(u) =>
        assert u[|done|] == u[..|next|][|done|] == d;
        assert u[..|done|] == u[..|next|][..|done|];
        forall i | 0 <= i < |devices|
          ensures Rebuilt(devices[i].parts).Some?
          ensures u[|done| + i] == Device(devices[i].id, Rebuilt(devices[i].parts).value) {
          if i > 0 {
            assert devices[i] == more[i - 1] && u[|done| + i] == u[|next| + (i - 1)];
          }
        }
    }
  }

  lemma BareTableEqual(a: seq<Device>, b: seq<Device>)
    requires |a| == |b|
    ensures BareTable(a) == BareTable(b) <==> forall i :: 0 <= i < |a| ==> BareDevice(a[i]) == BareDevice(b[i])
  {
    hide BareTable, BareDevice;
    if BareTable(a) == BareTable(b) {
      forall i | 0 <= i < |a| ensures BareDevice(a[i]) == BareDevice(b[i]) {
        assert BareTable(a)[i] == BareTable(b)[i];
      }
    }
  }

  lemma ParseTableText(ids: seq<MtdId>, t: seq<Device>)
    requires t != [] && TableOk(ids, t) && TableFitting(t)
    ensures ParseTable(ids, PrintTable(t)) == RebuiltAll([], t)
  {
    hide ParseDevices, PrintDevices, RebuiltAll, DeviceOk, Fitting, SameDevice;
    var text := PrintTable(t);
    assert text[|PREFIX|..] == PrintDevices(t);
    PrintDevicesNonEmpty(t);
    ParseDevicesText(ids, [], t);
  }

  lemma RebuiltDeviceBare(ids: seq<MtdId>, d: Device)
    requires DeviceOk(ids, d) && SortedByOffset(d.parts)
    ensures Printable(d.parts) <==>
            Rebuilt(d.parts).Some? && BareDevice(Device(d.id, Rebuilt(d.parts).value)) == BareDevice(d)
  {
    hide Printable, Rebuilt, BareParts;
    RebuiltBare(d.parts);
  }

  /**
   Parsing the printed table gives the table back, up to generated names, exactly
   when every size can be written in an mtdparts text, no device has two
   partitions at 0, and partitions that share an offset read the same backwards.
   */
  lemma RoundTrip(ids: seq<MtdId>, t: seq<Device>)
    requires t != [] && TableOk(ids, t) && TableFitting(t) && TableSorted(t)
    ensures Reproduces(ids, PrintTable(t), t) <==> TablePrintable(t)
  {
    hide ParseTable, PrintTable, Printable, Rebuilt, RebuiltAll, BareDevice, BareTable;
    ParseTableText(ids, t);
    RebuiltAllAt([], t);
    forall i | 0 <= i < |t|
      ensures SortedByOffset(t[i].parts)
      ensures Printable(t[i].parts) <==>
              Rebuilt(t[i].parts).Some? && BareDevice(Device(t[i].id, Rebuilt(t[i].parts).value)) == BareDevice(t[i]) {
      RebuiltDeviceBare(ids, t[i]);
    }
    match RebuiltAll([], t)
    case None =>
    case Some(u) =>
      BareTableEqual(u, t);
      assert forall i :: 0 <= i < |t| ==> u[0 + i] == u[i];
  }

  lemma PrintDevicesNonEmpty(t: seq<Device>)
    requires t != []
    ensures PrintDevices(t) != ""
  {
  }

  /** With distinct offsets, which is what the kernel expects, only the sizes matter. */
  lemma DistinctPrintable(parts: seq<Part>)
    requires SortedByOffset(parts) && DistinctOffsets(parts)
    ensures Printable(parts) <==> SizesOk(parts)
  {
    hide SizesOk, Opposite;
    assert |parts| > 1 ==> parts[0].offset < parts[1].offset;
    assert forall i :: 0 <= i < |parts| ==> parts[Opposite(parts, i)].offset == parts[i].offset;
  }
}
