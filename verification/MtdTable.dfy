/**
 The `mtdparts` text of common/cmd_mtdparts.c: the partition and device
 records, the parser for the mtdparts grammar and the generator that prints a
 table back. Parsers map a text to a record and the text that is left;
 printers take the text that follows, so that a print and the parse that
 undoes it have the same shape.
 */
module MtdTable {
  import opened Machine
  import opened Option
  import opened Numerals
  import opened Arith

  /** All remaining space of the device. */
  const SIZE_REMAINING := 0xFFFF_FFFF

  /** Used while parsing, when no offset was given. */
  const OFFSET_NOT_SPECIFIED := 0xFFFF_FFFF

  const MIN_PART_SIZE := 4096

  datatype DevType = Nor | Nand | OneNand

  datatype Region = Region(offset: nat, erasesize: nat, numblocks: nat)

  /**
   What get_mtd_info finds out about a chip. No regions means uniform erase
   blocks; `bad` lists the bad blocks by number, None when the driver has no
   block_isbad.
   */
  datatype Flash = Flash(size: nat, erasesize: Positive, regions: seq<Region>, bad: Option<set<nat>>)

  /** struct mtdids; `flash` is None when get_mtd_info does not find the device. */
  datatype MtdId = MtdId(devType: DevType, num: nat, size: nat, mtdId: string, flash: Option<Flash>)

  /** struct part_info; `ro` is the one flag kept in mask_flags. */
  datatype Part = Part(name: string, autoName: bool, size: nat, offset: nat, ro: bool)

  /** struct mtd_device. */
  datatype Device = Device(id: MtdId, parts: seq<Part>)

  // --------------------------------------------------------------------
  // Sizes
  // --------------------------------------------------------------------

  function Shl10(n: nat): (r: nat)
    ensures r < ULONG
  {
    n * 1024 % ULONG
  }

  /** The value of a number n with that suffix; any other character is no suffix. */
  function Scaled(n: nat, suffix: char): (r: nat)
    requires n < ULONG
    ensures r < ULONG && (n == 0 ==> r == 0)
  {
    if suffix == 'G' || suffix == 'g' then Shl10(Shl10(Shl10(n)))
    else if suffix == 'M' || suffix == 'm' then Shl10(Shl10(n))
    else if suffix == 'K' || suffix == 'k' then Shl10(n)
    else n
  }

  predicate IsSuffix(c: char) {
    c == 'G' || c == 'g' || c == 'M' || c == 'm' || c == 'K' || c == 'k'
  }

  function MemSizeParse(s: string): (r: (nat, string))
    ensures r.0 < ULONG && |r.1| <= |s|
    ensures r.0 != 0 ==> |r.1| < |s|
  {
    var (v, rest) := StrToUL(s, 0);
    if rest != "" && IsSuffix(rest[0]) then (Scaled(v, rest[0]), rest[1..]) else (v, rest)
  }

  const SIZE_KB := 1024
  const SIZE_MB := 1024 * 1024
  const SIZE_GB := 1024 * 1024 * 1024

  /** The number and the suffix that memsize_format prints. */
  function Units(size: nat): (nat, string) {
    if size % SIZE_GB == 0 then (size / SIZE_GB, "g")
    else if size % SIZE_MB == 0 then (size / SIZE_MB, "m")
    else if size % SIZE_KB == 0 then (size / SIZE_KB, "k")
    else (size, "")
  }

  function MemSizeFormat(size: nat): (s: string)
    ensures s != "" && IsXDigit(s[0])
  {
    var (n, suffix) := Units(size);
    Format(n, 10) + suffix
  }

  // --------------------------------------------------------------------
  // Validation
  // --------------------------------------------------------------------

  function BlockStart(r: Region, j: nat): nat {
    (r.offset + j * r.erasesize) % ULONG
  }

  /** x is where some block of the regions starts. */
  predicate IsBlockStart(regions: seq<Region>, x: nat) {
    exists i, j | 0 <= i < |regions| && 0 <= j < regions[i].numblocks :: BlockStart(regions[i], j) == x
  }

  /** part_validate_eraseblock: a partition starts and ends where erase blocks do. */
  predicate BlockAligned(id: MtdId, offset: nat, size: nat) {
    match id.flash
    case None => false
    case Some(f) =>
      var end := (offset + size) % ULONG;
      if f.regions == [] then
        offset % f.erasesize == 0 && size % f.erasesize == 0
      else
        var last := f.regions[|f.regions| - 1];
        && IsBlockStart(f.regions, offset)
        && (IsBlockStart(f.regions, end)
            || end == BlockStart(last, last.numblocks))
  }

  /** part_validate: the partition with its size resolved, or None when it does not fit. */
  function Validate(id: MtdId, p: Part): (r: Option<Part>)
    ensures r.Some? ==> r.value == p.(size := r.value.size)
  {
    var size := if p.size == SIZE_REMAINING then (id.size - p.offset) % ULONG else p.size;
    var end := (p.offset + size) % ULONG;
    if p.offset > id.size || end <= p.offset || end > id.size || !BlockAligned(id, p.offset, size)
    then None
    else Some(p.(size := size))
  }

  // --------------------------------------------------------------------
  // One partition
  // --------------------------------------------------------------------

  function IndexOf(s: string, c: char): (r: Option<nat>)
    ensures r.Some? ==> r.value < |s| && s[r.value] == c && c !in s[..r.value]
    ensures r.None? ==> c !in s
  {
    if s == "" then None
    else if s[0] == c then Some(0)
    else
      match IndexOf(s[1..], c)
      case None => None
      case Some(i) => Some(i + 1)
  }

  function SizeField(s: string): (r: Option<(nat, string)>)
    ensures r.Some? ==> |r.value.1| < |s| && r.value.0 < ULONG
  {
    if s != "" && s[0] == '-' then Some((SIZE_REMAINING, s[1..]))
    else
      var (size, rest) := MemSizeParse(s);
      if size < MIN_PART_SIZE then None else Some((size, rest))
  }

  function OffsetField(s: string): (r: (nat, string))
    ensures |r.1| <= |s| && r.0 < ULONG
  {
    if s != "" && s[0] == '@' then MemSizeParse(s[1..]) else (OFFSET_NOT_SPECIFIED, s)
  }

  function NameField(s: string): (r: Option<(Option<string>, string)>)
    ensures r.Some? ==> |r.value.1| <= |s|
    ensures r.Some? && r.value.0.Some? ==> IsUserName(r.value.0.value)
  {
    if s != "" && s[0] == '(' then
      match IndexOf(s[1..], ')')
      case None => None
      case Some(k) => if k == 0 then None else Some((Some(s[1..][..k]), s[1..][k + 1..]))
    else Some((None, s))
  }

  function RoField(s: string): (r: (bool, string))
    ensures |r.1| <= |s|
  {
    if "ro" <= s then (true, s[2..]) else (false, s)
  }

  function EndField(size: nat, s: string): (r: Option<string>)
    ensures r.Some? ==> |r.value| <= |s|
  {
    if s != "" && s[0] == ',' then
      if size == SIZE_REMAINING then None else Some(s[1..])
    else if s == "" || s[0] == ';' then Some(s)
    else None
  }

  /** A name that can stand between parentheses. */
  predicate IsUserName(name: string) {
    name != "" && ')' !in name
  }

  /** The name given to a partition without one. */
  function AutoName(size: nat, offset: nat): string {
    "0x" + FormatPadded(size, 16, 8) + "@0x" + FormatPadded(offset, 16, 8)
  }

  predicate WellNamed(p: Part) {
    && (!p.autoName ==> IsUserName(p.name))
    && p.size < ULONG
    && p.offset < ULONG
  }

  /** part_parse: one `<size>[@<offset>][<name>][<ro-flag>]`. */
  function PartParse(s: string): (r: Option<(Part, string)>)
    ensures r.Some? ==> |r.value.1| < |s| && WellNamed(r.value.0)
  {
    match SizeField(s)
    case None => None
    case Some((size, s1)) =>
      var (offset, s2) := OffsetField(s1);
      match NameField(s2)
      case None => None
      case Some((name, s3)) =>
        var (ro, s4) := RoField(s3);
        match EndField(size, s4)
        case None => None
        case Some(rest) =>
          match name
          case Some(n) => Some((Part(n, false, size, offset, ro), rest))
          case None => Some((Part(AutoName(size, offset), true, size, offset, ro), rest))
  }

  // --------------------------------------------------------------------
  // The sorted partition list
  // --------------------------------------------------------------------

  /** Where part_sort_add links a partition: before the first one that does not start below it. */
  function InsertPos(parts: seq<Part>, offset: nat): (k: nat)
    ensures k <= |parts|
    ensures forall i :: 0 <= i < k ==> parts[i].offset < offset
    ensures k < |parts| ==> offset <= parts[k].offset
  {
    if parts == [] || offset <= parts[0].offset then 0 else 1 + InsertPos(parts[1..], offset)
  }

  /** part_sort_add on the list alone; only one partition may start at 0. */
  function SortInsert(parts: seq<Part>, p: Part): Option<seq<Part>> {
    var k := InsertPos(parts, p.offset);
    if k < |parts| && parts[k].offset == p.offset == 0 then None
    else Some(parts[..k] + [p] + parts[k..])
  }

  /** device_parse moves its partitions to the device one by one. */
  function SortInsertAll(parts: seq<Part>, done: seq<Part>): Option<seq<Part>>
    decreases |parts|
  {
    if parts == [] then Some(done)
    else
      match SortInsert(done, parts[0])
      case None => None
      case Some(next) => SortInsertAll(parts[1..], next)
  }

  // --------------------------------------------------------------------
  // Devices
  // --------------------------------------------------------------------

  /** id_find_by_mtd_id: the first id of that name. */
  function FindId(ids: seq<MtdId>, name: string): (r: Option<MtdId>)
    ensures r.Some? ==> r.value in ids && r.value.mtdId == name
  {
    if ids == [] then None
    else if ids[0].mtdId == name then Some(ids[0])
    else FindId(ids[1..], name)
  }

  predicate SameDevice(a: MtdId, b: MtdId) {
    a.devType == b.devType && a.num == b.num
  }

  /** device_find, as a position in the list. */
  function FindDevice(devices: seq<Device>, id: MtdId): (r: Option<nat>)
    ensures r.Some? ==> r.value < |devices| && SameDevice(devices[r.value].id, id)
    ensures r.Some? ==> forall i :: 0 <= i < r.value ==> !SameDevice(devices[i].id, id)
    ensures r.None? ==> forall i :: 0 <= i < |devices| ==> !SameDevice(devices[i].id, id)
  {
    if devices == [] then None
    else if SameDevice(devices[0].id, id) then Some(0)
    else
      match FindDevice(devices[1..], id)
      case None => None
      case Some(i) => Some(i + 1)
  }

  function PartEnd(p: Part): nat {
    (p.offset + p.size) % ULONG
  }

  /** Where the first partition of a device text starts when it gives no offset. */
  function StartOffset(devices: seq<Device>, id: MtdId): nat {
    match FindDevice(devices, id)
    case None => 0
    case Some(i) =>
      var parts := devices[i].parts;
      if parts == [] then 0 else PartEnd(parts[|parts| - 1])
  }

  /** The partition with its offset resolved against the running one. */
  function Placed(p: Part, offset: nat): Part {
    if p.offset == OFFSET_NOT_SPECIFIED then p.(offset := offset) else p
  }

  /** The partition loop of device_parse. */
  function ParseParts(id: MtdId, s: string, offset: nat): (r: Option<(seq<Part>, string)>)
    ensures r.Some? ==> |r.value.1| <= |s|
    decreases |s|
  {
    if s == "" || s[0] == ';' then Some(([], s))
    else
      match PartParse(s)
      case None => None
      case Some((p, rest)) =>
        match Validate(id, Placed(p, offset))
        case None => None
        case Some(q) =>
          match ParseParts(id, rest, PartEnd(q))
          case None => None
          case Some((more, left)) => Some(([q] + more, left))
  }

  /** device_parse: one `<mtd-id>:<part-def>[,<part-def>...]`, given the devices known so far. */
  function DeviceParse(ids: seq<MtdId>, devices: seq<Device>, s: string): (r: Option<(Device, string)>)
    ensures r.Some? ==> |r.value.1| < |s|
  {
    match IndexOf(s, ':')
    case None => None
    case Some(k) =>
      match FindId(ids, s[..k])
      case None => None
      case Some(id) =>
        match ParseParts(id, s[k + 1..], StartOffset(devices, id))
        case None => None
        case Some((parts, rest)) =>
          if parts == [] then None
          else
            match SortInsertAll(parts, [])
            case None => None
            case Some(sorted) =>
              Some((Device(id, sorted), if rest == "" then rest else rest[1..]))
  }

  /** The device loop of parse_mtdparts; a device may be described once. */
  function ParseDevices(ids: seq<MtdId>, s: string, devices: seq<Device>): Option<seq<Device>>
    decreases |s|
  {
    if s == "" then Some(devices)
    else
      match DeviceParse(ids, devices, s)
      case None => None
      case Some((dev, rest)) =>
        if FindDevice(devices, dev.id).Some? then None
        else ParseDevices(ids, rest, devices + [dev])
  }

  const PREFIX := "mtdparts="

  /** parse_mtdparts, started from an empty device list. */
  function ParseTable(ids: seq<MtdId>, s: string): Option<seq<Device>> {
    if !(PREFIX <= s) || |s| == |PREFIX| then None
    else ParseDevices(ids, s[|PREFIX|..], [])
  }

  // --------------------------------------------------------------------
  // Printing
  // --------------------------------------------------------------------

  function RoText(ro: bool, tail: string): string {
    if ro then "ro" + tail else tail
  }

  function NameText(p: Part, tail: string): string {
    if p.autoName then tail else "(" + (p.name + (")" + tail))
  }

  /** The offset is printed only when it is not where the previous partition ended. */
  function OffsetText(prevEnd: nat, offset: nat, tail: string): string {
    if offset == prevEnd then tail else "@" + (MemSizeFormat(offset) + tail)
  }

  function PrintPart(prevEnd: nat, p: Part, tail: string): string {
    MemSizeFormat(p.size) + OffsetText(prevEnd, p.offset, NameText(p, RoText(p.ro, tail)))
  }

  function PrintParts(prevEnd: nat, parts: seq<Part>, tail: string): string
    decreases |parts|
  {
    if parts == [] then tail
    else
      PrintPart(prevEnd, parts[0],
                if |parts| == 1 then tail
                else "," + PrintParts(PartEnd(parts[0]), parts[1..], tail))
  }

  function PrintDevices(devices: seq<Device>): string {
    if devices == [] then ""
    else
      devices[0].id.mtdId + (":" +
      PrintParts(0, devices[0].parts, if |devices| == 1 then "" else ";" + PrintDevices(devices[1..])))
  }

  /** generate_mtdparts, before the length check. */
  function PrintTable(devices: seq<Device>): string {
    if devices == [] then "" else PREFIX + PrintDevices(devices)
  }
}
