/**
 common/cmd_mtdparts.c as it runs: the global device list, current partition,
 cached text and environment are fields, and the routines change them in
 place. Each routine is tied to the function of MtdSession or MtdTable that
 says what it computes; the laws about those functions are in MtdRoundTrip,
 MtdRuns, MtdTracking and MtdSpread.
 */
module MtdCommands {
  import opened Machine
  import opened Option
  import opened MtdTable
  import Spreading = MtdSpread
  import M = MtdSession

  // --------------------------------------------------------------------
  // Printing into a buffer of limited length
  // --------------------------------------------------------------------

  /** Copy a piece if it fits. `rest` stands for whatever will be printed after it. */
  method Put(buf: string, maxlen: nat, piece: string, ghost rest: string) returns (ok: bool, out: string, left: nat)
    ensures ok ==> out + rest == buf + (piece + rest) && left + |out| == maxlen + |buf|
    ensures !ok ==> maxlen + |buf| < |buf + (piece + rest)|
  {
    if |piece| > maxlen {
      return false, buf, maxlen;
    }
    return true, buf + piece, maxlen - |piece|;
  }

  /** One partition. */
  method PutPart(buf: string, maxlen: nat, prevEnd: nat, p: Part, ghost tail: string)
    returns (ok: bool, out: string, left: nat)
    ensures ok ==> out + tail == buf + PrintPart(prevEnd, p, tail) && left + |out| == maxlen + |buf|
    ensures !ok ==> maxlen + |buf| < |buf + PrintPart(prevEnd, p, tail)|
  {
    hide MemSizeFormat;
    ghost var ro := RoText(p.ro, tail);
    ghost var name := NameText(p, ro);
    ghost var offset := OffsetText(prevEnd, p.offset, name);
    ok, out, left := Put(buf, maxlen, MemSizeFormat(p.size), offset);
    if !ok { return; }
    if p.offset != prevEnd {
      var text := "@" + MemSizeFormat(p.offset);
      assert text + name == offset;
      ok, out, left := Put(out, left, text, name);
      if !ok { return; }
    }
    if !p.autoName {
      var text := "(" + p.name + ")";
      assert text + ro == name;
      ok, out, left := Put(out, left, text, ro);
      if !ok { return; }
    }
    if p.ro {
      ok, out, left := Put(out, left, "ro", tail);
    }
  }

  /** The partitions of one device. */
  method PutParts(buf: string, maxlen: nat, parts: seq<Part>, ghost tail: string)
    returns (ok: bool, out: string, left: nat)
    ensures ok ==> out + tail == buf + PrintParts(0, parts, tail) && left + |out| == maxlen + |buf|
    ensures !ok ==> maxlen + |buf| < |buf + PrintParts(0, parts, tail)|
  {
    hide PrintPart;
    var prevEnd, i := 0, 0;
    ok, out, left := true, buf, maxlen;
    while i < |parts|
      invariant 0 <= i <= |parts| && prevEnd >= 0
      invariant out + PrintParts(prevEnd, parts[i..], tail) == buf + PrintParts(0, parts, tail)
      invariant left + |out| == maxlen + |buf|
    {
      var p := parts[i];
      ghost var more := parts[i + 1..];
      assert parts[i..][0] == p && parts[i..][1..] == more;
      ghost var rest := PrintParts(PartEnd(p), more, tail);
      ghost var after := if more == [] then tail else "," + rest;
      assert more == [] ==> rest == tail;
      ok, out, left := PutPart(out, left, prevEnd, p, after);
      if !ok { return; }
      if |parts| > i + 1 {
        ok, out, left := Put(out, left, ",", rest);
        if !ok { return; }
      }
      prevEnd := PartEnd(p);
      i := i + 1;
    }
    assert parts[i..] == [];
  }

  /** One device. */
  method PutDevice(buf: string, maxlen: nat, d: Device, ghost tail: string) returns (ok: bool, out: string, left: nat)
    ensures ok ==>
      out + tail == buf + (d.id.mtdId + (":" + PrintParts(0, d.parts, tail))) && left + |out| == maxlen + |buf|
    ensures !ok ==> maxlen + |buf| < |buf + (d.id.mtdId + (":" + PrintParts(0, d.parts, tail)))|
  {
    hide PrintParts;
    ghost var parts := PrintParts(0, d.parts, tail);
    var text := d.id.mtdId + ":";
    assert text + parts == d.id.mtdId + (":" + parts);
    ok, out, left := Put(buf, maxlen, text, parts);
    if !ok { return; }
    ok, out, left := PutParts(out, left, d.parts, tail);
  }

  /** generate_mtdparts: the text, unless it is too long for the buffer. */
  method GenerateMtdparts(devices: seq<Device>, buflen: nat) returns (ok: bool, buf: string)
    requires buflen > 0
    ensures ok <==> |PrintTable(devices)| <= buflen - 1 + |PREFIX|
    ensures ok ==> buf == PrintTable(devices)
  {
    if devices == [] {
      return true, "";
    }
    hide PrintParts;
    ghost var target := PrintTable(devices);
    buf := PREFIX;
    var maxlen, i := buflen - 1, 0;
    assert devices[i..] == devices;
    while i < |devices|
      invariant 0 <= i <= |devices| && maxlen >= 0
      invariant buf + PrintDevices(devices[i..]) == target
      invariant maxlen + |buf| == buflen - 1 + |PREFIX|
    {
      ghost var more := devices[i + 1..];
      assert devices[i..][0] == devices[i] && devices[i..][1..] == more;
      ghost var tail := if more == [] then "" else ";" + PrintDevices(more);
      ok, buf, maxlen := PutDevice(buf, maxlen, devices[i], tail);
      if !ok { return; }
      if i + 1 < |devices| {
        ok, buf, maxlen := Put(buf, maxlen, ";", PrintDevices(more));
        if !ok { return; }
      }
      i := i + 1;
    }
    ok := true;
    assert devices[i..] == [];
  }

  // --------------------------------------------------------------------
  // Validation
  // --------------------------------------------------------------------

  /** Walk all blocks of all regions looking for one that starts at x; `start` is where the walk ends. */
  method FindBlock(regions: seq<Region>, x: nat) returns (found: bool, start: nat)
    ensures found <==> IsBlockStart(regions, x)
    ensures !found && regions != [] ==>
            var last := regions[|regions| - 1]; start == BlockStart(last, last.numblocks)
  {
    hide BlockStart;
    start := 0;
    var i := 0;
    while i < |regions|
      invariant 0 <= i <= |regions|
      invariant forall a, b :: 0 <= a < i && 0 <= b < regions[a].numblocks ==> BlockStart(regions[a], b) != x
      invariant i > 0 ==> start == BlockStart(regions[i - 1], regions[i - 1].numblocks)
    {
      start := FirstBlock(regions[i]);
      var j := 0;
      while j < regions[i].numblocks
        invariant 0 <= j <= regions[i].numblocks
        invariant start == BlockStart(regions[i], j)
        invariant forall b :: 0 <= b < j ==> BlockStart(regions[i], b) != x
      {
        if x == start {
          return true, start;
        }
        start := NextBlock(regions[i], j, start);
        j := j + 1;
      }
      i := i + 1;
    }
    found := false;
  }

  method FirstBlock(r: Region) returns (start: nat)
    ensures start == BlockStart(r, 0)
  {
    start := r.offset % ULONG;
  }

  method NextBlock(r: Region, j: nat, start: nat) returns (next: nat)
    requires start == BlockStart(r, j)
    ensures next == BlockStart(r, j + 1)
  {
    next := (start + r.erasesize) % ULONG;
    ghost var a := r.offset + j * r.erasesize;
    assert r.offset + (j + 1) * r.erasesize == a + r.erasesize;
    AddMod(a, r.erasesize);
  }

  method PartValidateEraseblock(id: MtdId, p: Part) returns (ok: bool)
    ensures ok <==> BlockAligned(id, p.offset, p.size)
  {
    hide IsBlockStart, BlockStart;
    if id.flash.None? {
      return false;
    }
    var f := id.flash.value;
    if f.regions == [] {
      if p.offset % f.erasesize != 0 {
        return false;
      }
      return p.size % f.erasesize == 0;
    }
    var found, start := FindBlock(f.regions, p.offset);
    if !found {
      return false;
    }
    var end := (p.offset + p.size) % ULONG;
    found, start := FindBlock(f.regions, end);
    return found || end == start;
  }

  method PartValidate(id: MtdId, p: Part) returns (r: Option<Part>)
    ensures r == Validate(id, p)
  {
    hide BlockAligned;
    var q := p;
    if q.size == SIZE_REMAINING {
      q := q.(size := (id.size - q.offset) % ULONG);
    }
    if q.offset > id.size {
      return None;
    }
    if (q.offset + q.size) % ULONG <= q.offset {
      return None;
    }
    if (q.offset + q.size) % ULONG > id.size {
      return None;
    }
    var ok := PartValidateEraseblock(id, q);
    return if ok then Some(q) else None;
  }

  // --------------------------------------------------------------------
  // Parsing
  // --------------------------------------------------------------------

  /** The list walk of part_sort_add. */
  method SortAdd(parts: seq<Part>, p: Part) returns (r: Option<seq<Part>>)
    ensures r == SortInsert(parts, p)
  {
    var i := 0;
    while i < |parts|
      invariant 0 <= i <= |parts|
      invariant forall j :: 0 <= j < i ==> parts[j].offset < p.offset
    {
      var q := parts[i];
      if p.offset == q.offset && q.offset == 0 {
        return None;
      }
      if p.offset <= q.offset {
        return Some(parts[..i] + [p] + parts[i..]);
      }
      i := i + 1;
    }
    assert parts[..i] + [p] + parts[i..] == parts + [p];
    return Some(parts + [p]);
  }

  /** The partition loop of device_parse. */
  method ParsePartsLoop(id: MtdId, s: string, start: nat) returns (r: Option<(seq<Part>, string)>)
    ensures r == ParseParts(id, s, start)
  {
    hide PartParse, Validate, PartEnd;
    var p, offset: nat, list: seq<Part> := s, start, [];
    assert forall more :: list + more == more;
    while p != "" && p[0] != ';'
      invariant match ParseParts(id, p, offset)
                case None => ParseParts(id, s, start).None?
                case Some((more, left)) => ParseParts(id, s, start) == Some((list + more, left))
      decreases |p|
    {
      match PartParse(p)
      case None =>
        return None;
      case Some((part, rest)) =>
        var valid := PartValidate(id, Placed(part, offset));
        if valid.None? { return None; }
        var q := valid.value;
        ghost var before := list;
        p, offset, list := rest, PartEnd(q), list + [q];
        assert forall more :: before + ([q] + more) == list + more;
    }
    r := Some((list, p));
    assert list + [] == list;
  }

  /** device_parse. */
  method ParseDevice(ids: seq<MtdId>, devices: seq<Device>, s: string) returns (r: Option<(Device, string)>)
    ensures r == DeviceParse(ids, devices, s)
  {
    hide ParseParts, StartOffset;
    var colon := IndexOf(s, ':');
    if colon.None? { return None; }
    var found := FindId(ids, s[..colon.value]);
    if found.None? { return None; }
    var id := found.value;
    var parsed := ParsePartsLoop(id, s[colon.value + 1..], StartOffset(devices, id));
    if parsed.None? || parsed.value.0 == [] { return None; }
    var (parts, rest) := parsed.value;
    var sorted, i := [], 0;
    while i < |parts|
      invariant 0 <= i <= |parts|
      invariant SortInsertAll(parts[i..], sorted) == SortInsertAll(parts, [])
    {
      assert parts[i..][0] == parts[i] && parts[i..][1..] == parts[i + 1..];
      var next := SortAdd(sorted, parts[i]);
      if next.None? { return None; }
      sorted, i := next.value, i + 1;
    }
    return Some((Device(id, sorted), if rest == "" then rest else rest[1..]));
  }

  /** The device loop of parse_mtdparts, from an empty list. */
  method ParseText(ids: seq<MtdId>, text: string) returns (r: Option<seq<Device>>)
    ensures r == ParseTable(ids, text)
  {
    hide DeviceParse, FindDevice;
    if !(PREFIX <= text) { return None; }
    var p, devices := text[|PREFIX|..], [];
    if p == "" { return None; }
    while p != ""
      invariant ParseDevices(ids, p, devices) == ParseTable(ids, text)
      decreases |p|
    {
      var parsed := ParseDevice(ids, devices, p);
      if parsed.None? { return None; }
      var (d, rest) := parsed.value;
      if FindDevice(devices, d.id).Some? { return None; }
      devices, p := devices + [d], rest;
    }
    return Some(devices);
  }

  /** The device loop of spread_partitions. */
  method SpreadList(devices: seq<Device>) returns (r: seq<Device>, ok: bool)
    ensures (r, ok) == M.SpreadDevices(devices)
  {
    hide Spreading.SpreadParts;
    r := [];
    var i := 0;
    assert devices[i..] == devices && r + M.SpreadDevices(devices).0 == M.SpreadDevices(devices).0;
    while i < |devices|
      invariant 0 <= i <= |devices|
      invariant var s := M.SpreadDevices(devices[i..]); M.SpreadDevices(devices) == (r + s.0, s.1)
    {
      var d := devices[i];
      assert devices[i..][0] == d && devices[i..][1..] == devices[i + 1..];
      if d.id.flash.None? {
        return r + devices[i..], false;
      }
      var parts := Spreading.SpreadDevice(d.id.flash.value, d.parts);
      ghost var more := M.SpreadDevices(devices[i + 1..]).0;
      assert r + ([d.(parts := parts)] + more) == (r + [d.(parts := parts)]) + more;
      r, i := r + [d.(parts := parts)], i + 1;
    }
    assert devices[i..] == [] && r + [] == r;
    ok := true;
  }

  // --------------------------------------------------------------------
  // The commands
  // --------------------------------------------------------------------

  class MtdParts {
    const ids: seq<MtdId>
    var devices: seq<Device>
    var current: Option<MtdId>
    var partnum: nat
    var lastParts: string
    var lastPartition: string
    var idsKnown: bool
    var env: M.Env

    ghost function State(): M.Session
      reads this
    {
      M.Session(devices, current, partnum, lastParts, lastPartition, idsKnown, env)
    }

    constructor (ids: seq<MtdId>)
      ensures State() == M.BOOT && this.ids == ids
    {
      this.ids := ids;
      devices, current, partnum := [], None, 0;
      lastParts, lastPartition, idsKnown := "", "", false;
      env := M.Env(None, None, None, None);
    }

    /** Walk the device list up to the current device. */
    method IndexPartitions()
      modifies this`env
      ensures State() == M.IndexPartitions(old(State()))
    {
      if current.None? {
        env := env.(mtddevnum := None, mtddevname := None);
        return;
      }
      var mtddevnum, i: nat := 0, 0;
      while i < |devices| && !SameDevice(devices[i].id, current.value)
        invariant i <= |devices|
        invariant forall j :: 0 <= j < i ==> !SameDevice(devices[j].id, current.value)
        invariant mtddevnum == M.PartsBefore(devices, i)
      {
        mtddevnum := mtddevnum + |devices[i].parts|;
        i := i + 1;
      }
      if i < |devices| {
        assert FindDevice(devices, current.value) == Some(i);
        var parts := devices[i].parts;
        env := env.(mtddevnum := Some((mtddevnum + partnum) % 0x1_0000),
                    mtddevname := if partnum < |parts| then Some(parts[partnum].name) else None);
      }
    }

    method CurrentSave()
      modifies this`env, this`lastPartition
      ensures State() == M.CurrentSave(old(State()))
    {
      hide M.IndexPartitions;
      if current.None? {
        env := env.(partition := None);
        lastPartition := "";
      } else {
        var text := M.PartitionText(current.value, partnum);
        env := env.(partition := Some(text));
        lastPartition := text;
      }
      IndexPartitions();
    }

    method DeviceDel(i: nat)
      requires i < |devices|
      modifies this
      ensures State() == M.DeviceDel(old(State()), i)
    {
      hide M.CurrentSave, M.IndexPartitions;
      var wasCurrent := current.Some? && SameDevice(devices[i].id, current.value);
      devices := devices[..i] + devices[i + 1..];
      if wasCurrent {
        if devices == [] {
          current := None;
        } else {
          current := Some(devices[0].id);
          partnum := 0;
        }
        CurrentSave();
      } else {
        IndexPartitions();
      }
    }

    method PartDel(i: nat, k: nat)
      requires i < |devices| && k < |devices[i].parts|
      modifies this
      ensures State() == M.PartDel(old(State()), i, k)
    {
      hide M.CurrentSave, M.IndexPartitions, M.DeviceDel;
      var parts := devices[i].parts;
      if |parts| == 1 {
        DeviceDel(i);
        return;
      }
      var saveNeeded := false;
      if current.Some? && SameDevice(devices[i].id, current.value) && partnum < |parts| {
        if partnum == k {
          partnum := 0;
        } else if parts[k].offset <= parts[partnum].offset {
          partnum := (partnum - 1) % 256;
        }
        saveNeeded := true;
      }
      devices := devices[i := devices[i].(parts := parts[..k] + parts[k + 1..])];
      if saveNeeded {
        CurrentSave();
      } else {
        IndexPartitions();
      }
    }

    method PartSortAdd(i: nat, p: Part) returns (ok: bool)
      requires i < |devices|
      modifies this
      ensures M.PartSortAdd(old(State()), i, p) == if ok then Some(State()) else None
      ensures !ok ==> State() == old(State())
    {
      hide M.CurrentSave, M.IndexPartitions, InsertPos;
      var parts := devices[i].parts;
      var r := SortAdd(parts, p);
      if r.None? {
        return false;
      }
      ok := true;
      var k := InsertPos(parts, p.offset);
      var isCurrent := current.Some? && SameDevice(devices[i].id, current.value) && partnum < |parts|;
      devices := devices[i := devices[i].(parts := r.value)];
      if isCurrent && k < |parts| && parts[k].offset <= parts[partnum].offset {
        partnum := (partnum + 1) % 256;
        CurrentSave();
      } else {
        IndexPartitions();
      }
    }

    method PartAdd(i: nat, p: Part) returns (ok: bool)
      requires i < |devices|
      modifies this
      ensures M.PartAdd(old(State()), i, p) == if ok then Some(State()) else None
      ensures !ok ==> State() == old(State())
    {
      hide Validate, M.PartSortAdd;
      var q := PartValidate(devices[i].id, p);
      if q.None? {
        return false;
      }
      ok := PartSortAdd(i, q.value);
    }

    method DeviceAdd(d: Device)
      modifies this
      ensures State() == M.DeviceAdd(old(State()), d)
    {
      hide M.CurrentSave, M.IndexPartitions;
      var saveNeeded := devices == [];
      if saveNeeded {
        current := Some(d.id);
        partnum := 0;
      }
      devices := devices + [d];
      if saveNeeded {
        CurrentSave();
      } else {
        IndexPartitions();
      }
    }

    method GenerateSave() returns (ok: bool)
      modifies this`lastParts, this`env
      ensures (State(), ok) == M.GenerateSave(old(State()))
    {
      var text;
      ok, text := GenerateMtdparts(devices, M.MTDPARTS_MAXLEN);
      if ok {
        lastParts := text;
        env := env.(mtdparts := if text == "" then None else Some(text));
      } else {
        lastParts := "";
        env := env.(mtdparts := None);
      }
    }

    method DevicesInit()
      modifies this
      ensures State() == M.DevicesInit(old(State()))
    {
      lastParts := "";
      current := None;
      CurrentSave();
      devices := [];
    }

    /** parse_mtdparts and what mtdparts_init does when it succeeds. */
    method Reparse(parts: string) returns (ok: bool)
      modifies this
      ensures (State(), ok) == M.Reparse(ids, old(State()), parts)
    {
      hide M.CurrentSave, M.DevicesInit, ParseTable;
      DevicesInit();
      var t := ParseText(ids, parts);
      if t.None? || t.value == [] {
        return false;
      }
      devices := t.value;
      lastParts := parts;
      current := Some(devices[0].id);
      partnum := 0;
      CurrentSave();
      ok := true;
    }

    method FollowPartition(wanted: Option<string>)
      modifies this
      ensures State() == M.FollowPartition(old(State()), wanted)
    {
      hide M.CurrentSave, M.FindDevAndPart;
      if wanted.Some? && wanted.value != "" && wanted.value != lastPartition {
        var found := M.FindDevAndPart(devices, wanted.value);
        if found.Some? {
          current := Some(devices[found.value.0].id);
          partnum := found.value.1 % 256;
          CurrentSave();
        }
      } else if env.partition.None? {
        CurrentSave();
      }
    }

    method MtdpartsInit() returns (ok: bool)
      modifies this
      ensures (State(), ok) == M.Init(ids, old(State()))
    {
      hide M.Reparse, M.FollowPartition, M.DevicesInit;
      var parts, wanted := env.mtdparts, env.partition;
      if parts.Some? && |parts.value| > M.MTDPARTS_MAXLEN - 1 {
        return false;
      }
      var idsChanged := !idsKnown;
      idsKnown := true;
      ok := true;
      if parts.Some? && (lastParts == "" || lastParts != parts.value || idsChanged) {
        ok := Reparse(parts.value);
        if !ok { return; }
      }
      if parts.None? && lastParts != "" {
        DevicesInit();
        return;
      }
      if parts.None? { return; }
      FollowPartition(wanted);
    }

    /** `mtdparts add` after mtdparts_init. */
    method Add(a: M.AddArgs) returns (ok: bool)
      modifies this
      ensures (State(), ok) == M.Add(ids, old(State()), a)
    {
      hide M.AddDevice, M.DeviceAdd, M.PartAdd, M.GenerateSave, M.IndexPartitions, FindDevice;
      var parsed := AddDevice(a);
      if parsed.None? {
        return false;
      }
      var d := parsed.value;
      var found := FindDevice(devices, d.id);
      if found.None? {
        DeviceAdd(d);
      } else {
        if d.parts == [] {
          return false;
        }
        ok := PartAdd(found.value, d.parts[0]);
        if !ok {
          IndexPartitions();
          return;
        }
      }
      ok := GenerateSave();
    }

    method AddDevice(a: M.AddArgs) returns (r: Option<Device>)
      ensures r == M.AddDevice(ids, devices, a)
    {
      hide DeviceParse, M.MtdIdParse, M.IdOf, M.AddText, M.AddLen, Spreading.SpreadPart;
      var dev := M.MtdIdParse(a.dev);
      if dev.None? { return None; }
      var id := M.IdOf(ids, dev.value.0, dev.value.1);
      if id.None? { return None; }
      if M.AddLen(id.value, a) >= M.PART_ADD_DESC_MAXLEN { return None; }
      var parsed := ParseDevice(ids, devices, M.AddText(id.value, a));
      if parsed.None? { return None; }
      var d := parsed.value.0;
      if d.id.flash.None? || d.parts == [] { return None; }
      if a.spread {
        var q, _ := Spreading.SpreadPartition(d.id.flash.value, d.parts[0]);
        d := d.(parts := d.parts[0 := q]);
      }
      return Some(d);
    }

    method DeletePartition(id: string) returns (ok: bool)
      modifies this
      ensures (State(), ok) == M.Delete(old(State()), id)
    {
      hide M.FindDevAndPart, M.PartDel, M.GenerateSave;
      var found := M.FindDevAndPart(devices, id);
      if found.None? {
        return false;
      }
      PartDel(found.value.0, found.value.1);
      ok := GenerateSave();
    }

    method SpreadPartitions() returns (ok: bool)
      modifies this
      ensures (State(), ok) == M.SpreadAll(old(State()))
    {
      hide M.IndexPartitions, M.GenerateSave, M.SpreadDevices;
      devices, ok := SpreadList(devices);
      if !ok { return; }
      IndexPartitions();
      ok := GenerateSave();
    }

    /** One command line. */
    method Execute(c: M.Command)
      modifies this
      ensures State() == M.Step(ids, old(State()), c)
    {
      hide M.Init, M.Add, M.Delete, M.SpreadAll, M.DevicesInit, M.CurrentSave, M.FindDevAndPart;
      match c
      case SetMtdparts(text) => env := env.(mtdparts := text);
      case SetPartition(text) => env := env.(partition := text);
      case List => var _ := MtdpartsInit();
      case AddPart(args) =>
        var ok := MtdpartsInit();
        if ok { var _ := Add(args); }
      case DelPart(id) =>
        var ok := MtdpartsInit();
        if ok { var _ := DeletePartition(id); }
      case DelAll =>
        var _ := MtdpartsInit();
        env := env.(mtdparts := None);
        DevicesInit();
      case Default(text) =>
        env := env.(mtdparts := text, partition := None);
        var _ := MtdpartsInit();
      case SpreadTable =>
        var ok := MtdpartsInit();
        if ok { var _ := SpreadPartitions(); }
      case Chpart(id) =>
        var ok := MtdpartsInit();
        if ok {
          var found := M.FindDevAndPart(devices, id);
          if found.Some? {
            current := Some(devices[found.value.0].id);
            partnum := found.value.1 % 256;
            CurrentSave();
          }
        }
    }
  }
}
