/**
 The state behind the `mtdparts` and `chpart` commands of common/cmd_mtdparts.c
 and what every command does to it: the device list, the current partition,
 the text `last_parts` that decides whether the table is parsed again, and the
 environment variables. The mtdids variable is fixed and its list is `ids`.
 */
module MtdSession {
  import opened Option
  import opened Numerals
  import opened MtdTable
  import opened MtdSpread

  const MTDPARTS_MAXLEN := 1024
  const PART_ADD_DESC_MAXLEN := 64

  datatype Env = Env(mtdparts: Option<string>, partition: Option<string>,
                     mtddevnum: Option<nat>, mtddevname: Option<string>)

  /** `current` is the id of current_mtd_dev; a device is known by its type and number. */
  datatype Session = Session(devices: seq<Device>, current: Option<MtdId>, partnum: nat,
                             lastParts: string, lastPartition: string, idsKnown: bool, env: Env)

  const BOOT := Session([], None, 0, "", "", false, Env(None, None, None, None))

  // --------------------------------------------------------------------
  // The current partition
  // --------------------------------------------------------------------

  /** Partitions in the devices before position i. */
  function PartsBefore(devices: seq<Device>, i: nat): nat
    requires i <= |devices|
  {
    if i == 0 then 0 else PartsBefore(devices, i - 1) + |devices[i - 1].parts|
  }

  /** index_partitions; where the source would follow a NULL mtd_part_info the name is None. */
  function IndexPartitions(s: Session): Session {
    match s.current
    case None => s.(env := s.env.(mtddevnum := None, mtddevname := None))
    case Some(id) =>
      match FindDevice(s.devices, id)
      case None => s
      case Some(i) =>
        var parts := s.devices[i].parts;
        s.(env := s.env.(
             mtddevnum := Some((PartsBefore(s.devices, i) + s.partnum) % 0x1_0000),
             mtddevname := if s.partnum < |parts| then Some(parts[s.partnum].name) else None))
  }

  function TypeName(t: DevType): string {
    match t
    case Nand => "nand"
    case OneNand => "onenand"
    case Nor => "nor"
  }

  function PartitionText(id: MtdId, partnum: nat): string {
    TypeName(id.devType) + (Format(id.num, 10) + ("," + Format(partnum, 10)))
  }

  function CurrentSave(s: Session): Session {
    match s.current
    case None => IndexPartitions(s.(lastPartition := "", env := s.env.(partition := None)))
    case Some(id) =>
      var text := PartitionText(id, s.partnum);
      IndexPartitions(s.(lastPartition := text, env := s.env.(partition := Some(text))))
  }

  predicate IsCurrent(s: Session, i: nat)
    requires i < |s.devices|
  {
    s.current.Some? && SameDevice(s.devices[i].id, s.current.value)
  }

  function SetParts(s: Session, i: nat, parts: seq<Part>): Session
    requires i < |s.devices|
  {
    s.(devices := s.devices[i := s.devices[i].(parts := parts)])
  }

  /** device_del of the device at position i. */
  function DeviceDel(s: Session, i: nat): Session
    requires i < |s.devices|
  {
    var left := s.devices[..i] + s.devices[i + 1..];
    if IsCurrent(s, i) then
      if left == [] then CurrentSave(s.(devices := left, current := None))
      else CurrentSave(s.(devices := left, current := Some(left[0].id), partnum := 0))
    else IndexPartitions(s.(devices := left))
  }

  /** The current partition number after partition k of the current device goes; it is a u8. */
  function PartnumAfterDel(parts: seq<Part>, k: nat, partnum: nat): nat
    requires k < |parts| && partnum < |parts|
  {
    if k == partnum then 0
    else if parts[k].offset <= parts[partnum].offset then (partnum - 1) % 256
    else partnum
  }

  /** part_del of partition k of the device at position i. */
  function PartDel(s: Session, i: nat, k: nat): Session
    requires i < |s.devices| && k < |s.devices[i].parts|
  {
    var parts := s.devices[i].parts;
    if |parts| == 1 then DeviceDel(s, i)
    else
      var left := SetParts(s, i, parts[..k] + parts[k + 1..]);
      if IsCurrent(s, i) && s.partnum < |parts|
      then CurrentSave(left.(partnum := PartnumAfterDel(parts, k, s.partnum)))
      else IndexPartitions(left)
  }

  /** The current partition number after a partition is linked in front of position k of the current device. */
  function PartnumAfterInsert(parts: seq<Part>, k: nat, partnum: nat): nat
    requires k <= |parts| && partnum < |parts|
  {
    if k < |parts| && parts[k].offset <= parts[partnum].offset then (partnum + 1) % 256 else partnum
  }

  /** part_sort_add on a device of the list. */
  function PartSortAdd(s: Session, i: nat, p: Part): Option<Session>
    requires i < |s.devices|
  {
    var parts := s.devices[i].parts;
    var k := InsertPos(parts, p.offset);
    match SortInsert(parts, p)
    case None => None
    case Some(more) =>
      var next := SetParts(s, i, more);
      if IsCurrent(s, i) && s.partnum < |parts| && k < |parts| && parts[k].offset <= parts[s.partnum].offset
      then Some(CurrentSave(next.(partnum := PartnumAfterInsert(parts, k, s.partnum))))
      else Some(IndexPartitions(next))
  }

  function PartAdd(s: Session, i: nat, p: Part): Option<Session>
    requires i < |s.devices|
  {
    match Validate(s.devices[i].id, p)
    case None => None
    case Some(q) => PartSortAdd(s, i, q)
  }

  function DeviceAdd(s: Session, d: Device): Session {
    var next := s.(devices := s.devices + [d]);
    if s.devices == [] then CurrentSave(next.(current := Some(d.id), partnum := 0)) else IndexPartitions(next)
  }

  // --------------------------------------------------------------------
  // The text
  // --------------------------------------------------------------------

  /** generate_mtdparts_save(last_parts, ...): the nine characters of the prefix are not counted. */
  function GenerateSave(s: Session): (Session, bool) {
    var text := PrintTable(s.devices);
    if |text| <= MTDPARTS_MAXLEN - 1 + |PREFIX|
    then (s.(lastParts := text, env := s.env.(mtdparts := if text == "" then None else Some(text))), true)
    else (s.(lastParts := "", env := s.env.(mtdparts := None)), false)
  }

  /** mtd_devices_init. */
  function DevicesInit(s: Session): Session {
    CurrentSave(s.(lastParts := "", current := None)).(devices := [])
  }

  /** mtd_id_parse: device type, number and what follows. */
  function MtdIdParse(s: string): Option<(DevType, nat, string)> {
    if "nand" <= s then MtdNumParse(Nand, s[4..])
    else if "nor" <= s then MtdNumParse(Nor, s[3..])
    else if "onenand" <= s then MtdNumParse(OneNand, s[7..])
    else None
  }

  function MtdNumParse(t: DevType, s: string): Option<(DevType, nat, string)> {
    if s == "" || !IsDigit(s[0]) then None
    else
      var (n, rest) := StrToUL(s, 0);
      Some((t, n % 256, rest))
  }

  /** Position of the first partition of that name. */
  function FindName(parts: seq<Part>, name: string): (r: Option<nat>)
    ensures r.Some? ==> r.value < |parts| && parts[r.value].name == name
    ensures r.None? ==> forall i :: 0 <= i < |parts| ==> parts[i].name != name
  {
    if parts == [] then None
    else if parts[0].name == name then Some(0)
    else
      match FindName(parts[1..], name)
      case None => None
      case Some(k) => Some(k + 1)
  }

  function FindNamed(devices: seq<Device>, name: string): (r: Option<(nat, nat)>)
    ensures r.Some? ==> r.value.0 < |devices| && r.value.1 < |devices[r.value.0].parts|
    ensures r.None? ==> forall i :: 0 <= i < |devices| ==> FindName(devices[i].parts, name).None?
  {
    if devices == [] then None
    else
      match FindName(devices[0].parts, name)
      case Some(k) => Some((0, k))
      case None =>
        match FindNamed(devices[1..], name)
        case None => None
        case Some((i, k)) => Some((i + 1, k))
  }

  function FindTypeNum(devices: seq<Device>, t: DevType, num: nat): (r: Option<nat>)
    ensures r.Some? ==> r.value < |devices|
  {
    FindDevice(devices, MtdId(t, num, 0, "", None))
  }

  /** find_dev_and_part: by name, else as `<dev-id>,<part-num>`. */
  function FindDevAndPart(devices: seq<Device>, id: string): (r: Option<(nat, nat)>)
    ensures r.Some? ==> r.value.0 < |devices| && r.value.1 < |devices[r.value.0].parts|
  {
    match FindNamed(devices, id)
    case Some(r) => Some(r)
    case None =>
      match MtdIdParse(id)
      case None => None
      case Some((t, num, rest)) =>
        if |rest| < 2 || rest[0] != ',' then None
        else
          var (n, left) := StrToUL(rest[1..], 0);
          if left != "" then None
          else
            match FindTypeNum(devices, t, num)
            case None => None
            case Some(i) => if n % 256 < |devices[i].parts| then Some((i, n % 256)) else None
  }

  // --------------------------------------------------------------------
  // Commands
  // --------------------------------------------------------------------

  /** mtdparts_init parses again unless the text it parsed last is still the one in the environment. */
  predicate MustParse(s: Session, parts: string) {
    s.lastParts == "" || s.lastParts != parts || !s.idsKnown
  }

  /** The state after parse_mtdparts(parts), before the partition variable is looked at. */
  function Reparse(ids: seq<MtdId>, s: Session, parts: string): (Session, bool) {
    var clean := DevicesInit(s);
    match ParseTable(ids, parts)
    case None => (clean, false)
    case Some(t) =>
      if t == [] then (clean, false)
      else (CurrentSave(clean.(devices := t, lastParts := parts, current := Some(t[0].id), partnum := 0)), true)
  }

  /** The end of mtdparts_init: follow the partition variable as it was on entry. */
  function FollowPartition(s: Session, wanted: Option<string>): Session {
    if wanted.Some? && wanted.value != "" && wanted.value != s.lastPartition then
      match FindDevAndPart(s.devices, wanted.value)
      case None => s
      case Some((i, k)) => CurrentSave(s.(current := Some(s.devices[i].id), partnum := k % 256))
    else if s.env.partition.None? then CurrentSave(s)
    else s
  }

  function Init(ids: seq<MtdId>, s: Session): (Session, bool) {
    match s.env.mtdparts
    case None =>
      var known := s.(idsKnown := true);
      if s.lastParts != "" then (DevicesInit(known), true) else (known, true)
    case Some(parts) =>
      if |parts| > MTDPARTS_MAXLEN - 1 then (s, false)
      else
        var known := s.(idsKnown := true);
        if MustParse(s, parts) then
          var (next, ok) := Reparse(ids, known, parts);
          if ok then (FollowPartition(next, s.env.partition), true) else (next, false)
        else (FollowPartition(known, s.env.partition), true)
  }

  /** id_find. */
  function IdOf(ids: seq<MtdId>, t: DevType, num: nat): Option<MtdId> {
    if ids == [] then None
    else if ids[0].devType == t && ids[0].num == num then Some(ids[0])
    else IdOf(ids[1..], t, num)
  }

  /** The arguments of `mtdparts add[.spread] <mtd-dev> <size>[@<offset>] <name> [ro]`. */
  datatype AddArgs = AddArgs(dev: string, size: string, name: string, ro: Option<string>, spread: bool)

  function AddText(id: MtdId, a: AddArgs): string {
    id.mtdId + (":" + (a.size + ("(" + (a.name + (")" + if a.ro.Some? then a.ro.value else "")))))
  }

  /** The length the source computes in a u8 before it prints the description. */
  function AddLen(id: MtdId, a: AddArgs): nat {
    (|id.mtdId| + 1 + |a.size| + |a.name| + 2 + (if a.ro.Some? && |a.ro.value| == 2 then 2 else 0)) % 256
  }

  /** The device that `add` parses from its arguments, with its first partition spread when asked for. */
  function AddDevice(ids: seq<MtdId>, devices: seq<Device>, a: AddArgs): Option<Device> {
    match MtdIdParse(a.dev)
    case None => None
    case Some((t, num, _)) =>
      match IdOf(ids, t, num)
      case None => None
      case Some(id) =>
        if AddLen(id, a) >= PART_ADD_DESC_MAXLEN then None
        else
          match DeviceParse(ids, devices, AddText(id, a))
          case None => None
          case Some((d, _)) =>
            if d.id.flash.None? || d.parts == [] then None
            else if a.spread then Some(d.(parts := d.parts[0 := SpreadPart(d.id.flash.value, d.parts[0], 0)]))
            else Some(d)
  }

  /** `mtdparts add` after mtdparts_init. */
  function Add(ids: seq<MtdId>, s: Session, a: AddArgs): (Session, bool) {
    match AddDevice(ids, s.devices, a)
    case None => (s, false)
    case Some(d) =>
      match FindDevice(s.devices, d.id)
      case None => GenerateSave(DeviceAdd(s, d))
      case Some(i) =>
        if d.parts == [] then (s, false)
        else
          match PartAdd(s, i, d.parts[0])
          case None => (IndexPartitions(s), false)
          case Some(next) => GenerateSave(next)
  }

  /** delete_partition. */
  function Delete(s: Session, id: string): (Session, bool) {
    match FindDevAndPart(s.devices, id)
    case None => (s, false)
    case Some((i, k)) => GenerateSave(PartDel(s, i, k))
  }

  /** The devices before the first one without a chip, spread; and whether there is no such device. */
  function SpreadDevices(devices: seq<Device>): (r: (seq<Device>, bool))
    ensures |r.0| == |devices|
  {
    if devices == [] then ([], true)
    else
      var d := devices[0];
      match d.id.flash
      case None => (devices, false)
      case Some(f) =>
        var (more, ok) := SpreadDevices(devices[1..]);
        ([d.(parts := SpreadParts(f, d.parts, 0))] + more, ok)
  }

  /** spread_partitions. */
  function SpreadAll(s: Session): (Session, bool) {
    var (devices, ok) := SpreadDevices(s.devices);
    var next := s.(devices := devices);
    if ok then GenerateSave(IndexPartitions(next)) else (next, false)
  }

  datatype Command =
    | SetMtdparts(text: Option<string>)       // setenv mtdparts
    | SetPartition(text: Option<string>)      // setenv partition
    | List                                    // mtdparts
    | AddPart(args: AddArgs)                  // mtdparts add[.spread] ...
    | DelPart(id: string)                     // mtdparts del <part-id>
    | DelAll                                  // mtdparts delall
    | Default(text: Option<string>)           // mtdparts default, with MTDPARTS_DEFAULT
    | SpreadTable                             // mtdparts spread
    | Chpart(id: string)                      // chpart <part-id>

  function Step(ids: seq<MtdId>, s: Session, c: Command): Session {
    match c
    case SetMtdparts(text) => s.(env := s.env.(mtdparts := text))
    case SetPartition(text) => s.(env := s.env.(partition := text))
    case List => Init(ids, s).0
    case AddPart(args) =>
      var (t, ok) := Init(ids, s);
      if ok then Add(ids, t, args).0 else t
    case DelPart(id) =>
      var (t, ok) := Init(ids, s);
      if ok then Delete(t, id).0 else t
    case DelAll =>
      var t := Init(ids, s).0;
      DevicesInit(t.(env := t.env.(mtdparts := None)))
    case Default(text) => Init(ids, s.(env := s.env.(mtdparts := text, partition := None))).0
    case SpreadTable =>
      var (t, ok) := Init(ids, s);
      if ok then SpreadAll(t).0 else t
    case Chpart(id) =>
      var (t, ok) := Init(ids, s);
      if !ok then t
      else
        match FindDevAndPart(t.devices, id)
        case None => t
        case Some((i, k)) => CurrentSave(t.(current := Some(t.devices[i].id), partnum := k % 256))
  }

  function Run(ids: seq<MtdId>, s: Session, commands: seq<Command>): Session
    decreases |commands|
  {
    if commands == [] then s else Run(ids, Step(ids, s, commands[0]), commands[1..])
  }
}
