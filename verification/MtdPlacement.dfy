/**
 Order and alignment over whole runs, spreading included: on chips of whole
 erase blocks that can tell their bad ones, every partition list stays sorted
 and on block boundaries, and the `spread` command gives what it promises after
 any run.
 */
module MtdPlacement {
  import opened Option
  import opened Machine
  import opened MtdTable
  import opened MtdSpread
  import opened MtdSession
  import opened MtdRoundTrip
  import opened MtdRuns
  import opened MtdTracking

  /** The chip is uniform, can tell bad blocks, and is as large as its entry in mtdids says. */
  predicate ChipOk(id: MtdId) {
    id.flash.Some? ==> WholeBlocks(id.flash.value) && id.flash.value.regions == [] && id.flash.value.size == id.size
  }

  predicate ChipsOk(ids: seq<MtdId>) {
    forall i :: 0 <= i < |ids| ==> ChipOk(ids[i])
  }

  /** On block boundaries and inside the chip. */
  predicate Inside(f: Flash, p: Part) {
    OnBlocks(f, p) && p.offset + p.size <= f.size
  }

  predicate PartsPlaced(id: MtdId, parts: seq<Part>) {
    id.flash.Some? && forall k :: 0 <= k < |parts| ==> Inside(id.flash.value, parts[k])
  }

  predicate TablePlaced(t: seq<Device>) {
    forall i :: 0 <= i < |t| ==> SortedByOffset(t[i].parts) && PartsPlaced(t[i].id, t[i].parts)
  }

  // --------------------------------------------------------------------
  // What the operations leave
  // --------------------------------------------------------------------

  lemma ValidIsPlaced(id: MtdId, p: Part)
    requires ChipOk(id) && Validate(id, p).Some? && p.size < ULONG
    ensures id.flash.Some? && Inside(id.flash.value, Validate(id, p).value)
  {
  }

  lemma KnownChip(ids: seq<MtdId>, t: seq<Device>, i: nat)
    requires ChipsOk(ids) && TableWF(ids, t) && i < |t|
    ensures ChipOk(t[i].id) && t[i].id.flash.Some?
  {
    hide FindId, AllWellNamed, SameDevice;
    WFAt(ids, t, i);
    assert t[i].id in ids;
  }

  lemma SoundIsPlaced(ids: seq<MtdId>, t: seq<Device>)
    requires ChipsOk(ids) && TableWF(ids, t) && TableSound(t)
    ensures TablePlaced(t)
  {
    hide PartsPlaced, ChipOk, TableWF, SortedByOffset, Validated, AllWellNamed, FindId;
    forall i | 0 <= i < |t| ensures PartsPlaced(t[i].id, t[i].parts) {
      KnownChip(ids, t, i);
      WFAt(ids, t, i);
      ValidatedPlaced(t[i].id, t[i].parts);
    }
  }

  lemma PartDelDevices(s: Session, i: nat, k: nat)
    requires i < |s.devices| && k < |s.devices[i].parts|
    ensures PartDel(s, i, k).devices ==
      var parts := s.devices[i].parts;
      if |parts| == 1 then s.devices[..i] + s.devices[i + 1..]
      else s.devices[i := s.devices[i].(parts := parts[..k] + parts[k + 1..])]
  {
    hide CurrentSave, IndexPartitions, DeviceDel, PartnumAfterDel;
    var parts := s.devices[i].parts;
    if |parts| == 1 {
      DeviceDelKeeps(s, i);
    } else {
      var left := SetParts(s, i, parts[..k] + parts[k + 1..]);
      SavesOnly(left);
      if s.partnum < |parts| {
        SavesOnly(left.(partnum := PartnumAfterDel(parts, k, s.partnum)));
      }
    }
  }

  lemma PartAddDevices(s: Session, i: nat, p: Part)
    requires i < |s.devices| && PartAdd(s, i, p).Some?
    ensures Validate(s.devices[i].id, p).Some?
    ensures var d := s.devices[i];
      var more := SortInsert(d.parts, Validate(d.id, p).value);
      more.Some? && PartAdd(s, i, p).value.devices == s.devices[i := d.(parts := more.value)]
  {
    hide Validate, CurrentSave, IndexPartitions, InsertPos, SortInsert, PartnumAfterInsert;
    var d := s.devices[i];
    var q := Validate(d.id, p).value;
    var next := SetParts(s, i, SortInsert(d.parts, q).value);
    SavesOnly(next);
    if s.partnum < |d.parts| {
      SavesOnly(next.(partnum := PartnumAfterInsert(d.parts, InsertPos(d.parts, q.offset), s.partnum)));
    }
  }

  lemma RemovePlaced(parts: seq<Part>, id: MtdId, k: nat)
    requires k < |parts| && SortedByOffset(parts) && PartsPlaced(id, parts)
    ensures SortedByOffset(parts[..k] + parts[k + 1..]) && PartsPlaced(id, parts[..k] + parts[k + 1..])
  {
    hide Inside;
  }

  lemma DeletePlaced(s: Session, id: string)
    requires TablePlaced(s.devices)
    ensures TablePlaced(Delete(s, id).0.devices)
  {
    hide FindDevAndPart, PartDel, GenerateSave, SortedByOffset, PartsPlaced;
    match FindDevAndPart(s.devices, id)
    case None =>
    case Some((i, k)) =>
      PartDelDevices(s, i, k);
      RemovePlaced(s.devices[i].parts, s.devices[i].id, k);
      SavedDevices(PartDel(s, i, k));
  }

  lemma SavedDevices(s: Session)
    ensures GenerateSave(s).0.devices == s.devices
  {
    hide PrintTable;
  }

  lemma InsertPlaced(id: MtdId, parts: seq<Part>, p: Part)
    requires ChipOk(id) && SortedByOffset(parts) && PartsPlaced(id, parts) && Validate(id, p).Some? && p.size < ULONG
    requires SortInsert(parts, Validate(id, p).value).Some?
    ensures var r := SortInsert(parts, Validate(id, p).value).value; SortedByOffset(r) && PartsPlaced(id, r)
  {
    hide Validate, SortInsert, SortedByOffset, Inside, ChipOk;
    var q := Validate(id, p).value;
    ValidIsPlaced(id, p);
    SortInsertOk(parts, q);
    var r := SortInsert(parts, q).value;
    forall k | 0 <= k < |r| ensures Inside(id.flash.value, r[k]) {
      if r[k] != q {
        var j :| 0 <= j < |parts| && parts[j] == r[k];
      }
    }
  }

  /** The device that `add` makes, its first partition spread or not. */
  lemma AddDevicePlaced(ids: seq<MtdId>, devices: seq<Device>, a: AddArgs)
    requires ChipsOk(ids) && AddDevice(ids, devices, a).Some?
    ensures var d := AddDevice(ids, devices, a).value; SortedByOffset(d.parts) && PartsPlaced(d.id, d.parts)
  {
    hide DeviceParse, MtdIdParse, IdOf, AddText, AddLen, SpreadPart, FindId, SortedByOffset, PartsPlaced, ChipOk;
    var (t, num, _) := MtdIdParse(a.dev).value;
    var text := AddText(IdOf(ids, t, num).value, a);
    DeviceParseOk(ids, devices, text);
    var d := DeviceParse(ids, devices, text).value.0;
    assert d.id in ids;
    ValidatedPlaced(d.id, d.parts);
    if a.spread {
      SpreadFirstPlaced(d.id, d.parts);
    }
  }

  lemma ValidatedPlaced(id: MtdId, parts: seq<Part>)
    requires ChipOk(id) && id.flash.Some? && Validated(id, parts) && AllWellNamed(parts)
    ensures PartsPlaced(id, parts)
  {
    hide Validate, ChipOk, Inside;
    forall k | 0 <= k < |parts| ensures Inside(id.flash.value, parts[k]) {
      ValidIsPlaced(id, parts[k]);
    }
  }

  lemma SpreadFirstPlaced(id: MtdId, parts: seq<Part>)
    requires ChipOk(id) && SortedByOffset(parts) && PartsPlaced(id, parts) && parts != []
    ensures var r := parts[0 := SpreadPart(id.flash.value, parts[0], 0)]; SortedByOffset(r) && PartsPlaced(id, r)
  {
    hide SpreadPart, Inside, WholeBlocks, NetSize, Available;
    var f := id.flash.value;
    assert Inside(f, parts[0]);
    FirstOnBlocks(f, parts[0]);
  }

  lemma FirstOnBlocks(f: Flash, p: Part)
    requires WholeBlocks(f) && Inside(f, p)
    ensures Inside(f, SpreadPart(f, p, 0)) && SpreadPart(f, p, 0).offset == p.offset
  {
    hide SpreadPart, NetSize, Available;
    SpreadPartOk(f, p, 0);
  }

  lemma SnocPlaced(t: seq<Device>, d: Device)
    requires TablePlaced(t) && SortedByOffset(d.parts) && PartsPlaced(d.id, d.parts)
    ensures TablePlaced(t + [d])
  {
    hide SortedByOffset, PartsPlaced;
  }

  lemma AddPlaced(ids: seq<MtdId>, s: Session, a: AddArgs)
    requires ChipsOk(ids) && Inv(ids, s) && TablePlaced(s.devices)
    ensures TablePlaced(Add(ids, s, a).0.devices)
  {
    hide AddDevice, DeviceAdd, PartAdd, GenerateSave, IndexPartitions, SortedByOffset, PartsPlaced, Tied,
         TableWF, ChipOk;
    SavesOnly(s);
    match AddDevice(ids, s.devices, a)
    case None =>
    case Some(d) =>
      AddDevicePlaced(ids, s.devices, a);
      AddDeviceOk(ids, s.devices, a);
      match FindDevice(s.devices, d.id)
      case None =>
        DeviceAddKeeps(s, d);
        SnocPlaced(s.devices, d);
        SavedDevices(DeviceAdd(s, d));
      case Some(i) =>
        if d.parts != [] && PartAdd(s, i, d.parts[0]).Some? {
          KnownChip(ids, s.devices, i);
          assert WellNamed(d.parts[0]);
          PartAddDevices(s, i, d.parts[0]);
          InsertPlaced(s.devices[i].id, s.devices[i].parts, d.parts[0]);
          SavedDevices(PartAdd(s, i, d.parts[0]).value);
        }
  }

  // --------------------------------------------------------------------
  // Spreading
  // --------------------------------------------------------------------

  /** Every device of a table with chips is spread by itself. */
  lemma {:induction false} SpreadDevicesAt(t: seq<Device>, i: nat)
    requires i < |t| && forall j :: 0 <= j < |t| ==> HasChip(t[j])
    ensures SpreadDevices(t).1 && HasChip(t[i])
    ensures SpreadDevices(t).0[i] == t[i].(parts := SpreadParts(t[i].id.flash.value, t[i].parts, 0))
  {
    hide SpreadParts;
    assert HasChip(t[0]);
    var more := t[1..];
    if |more| > 0 {
      assert forall j :: 0 <= j < |more| ==> HasChip(more[j]);
      SpreadDevicesAt(more, if i > 0 then i - 1 else 0);
    }
  }

  lemma SpreadSorted(f: Flash, parts: seq<Part>)
    requires WholeBlocks(f) && forall k :: 0 <= k < |parts| ==> OnBlocks(f, parts[k])
    ensures SortedByOffset(SpreadParts(f, parts, 0))
    ensures forall k :: 0 <= k < |parts| ==> Inside(f, SpreadParts(f, parts, 0)[k])
  {
    hide SpreadParts, WholeBlocks, OnBlocks, NetSize, Available, StartsGood, WellSpread;
    var r := SpreadParts(f, parts, 0);
    SpreadTheorem(f, parts);
    assert SortedByOffset(r) by {
      forall i, j | 0 <= i < j < |r| ensures r[i].offset <= r[j].offset {
        assert r[i].offset + r[i].size <= r[j].offset;
      }
    }
    ZeroOnBlocks(f);
    SpreadPartsOk(f, parts, 0);
    forall k | 0 <= k < |parts| ensures Inside(f, r[k]) {
      assert WellSpread(f, parts[k], r[k], PrevEnd(r, k, 0));
      WellSpreadOnBlocks(f, parts[k], r[k], PrevEnd(r, k, 0));
    }
  }

  lemma ZeroOnBlocks(f: Flash)
    ensures 0 % f.erasesize == 0 && 0 <= f.size
  {
  }

  lemma WellSpreadOnBlocks(f: Flash, was: Part, now: Part, prevEnd: nat)
    requires WellSpread(f, was, now, prevEnd)
    ensures Inside(f, now)
  {
    hide NetSize, Available;
  }

  lemma SpreadPlaced(ids: seq<MtdId>, s: Session)
    requires ChipsOk(ids) && Inv(ids, s) && TablePlaced(s.devices)
    ensures TablePlaced(SpreadAll(s).0.devices)
    ensures SpreadAll(s).0.devices == SpreadDevices(s.devices).0
  {
    hide SpreadDevices, SpreadParts, IndexPartitions, GenerateSave, SortedByOffset, OnBlocks, Tied, ChipOk, DeviceOk;
    SpreadDevicesWF(ids, s.devices);
    var r := SpreadDevices(s.devices).0;
    var next := s.(devices := r);
    SavesOnly(next);
    SavedDevices(IndexPartitions(next));
    forall i | 0 <= i < |r| ensures SortedByOffset(r[i].parts) && PartsPlaced(r[i].id, r[i].parts) {
      var d := s.devices[i];
      KnownChip(ids, s.devices, i);
      SpreadDevicesAt(s.devices, i);
      assert PartsPlaced(d.id, d.parts);
      assert WholeBlocks(d.id.flash.value) by { ChipWhole(d.id); }
      PlacedOnBlocks(d.id, d.parts);
      SpreadSorted(d.id.flash.value, d.parts);
    }
  }

  lemma PlacedOnBlocks(id: MtdId, parts: seq<Part>)
    requires PartsPlaced(id, parts)
    ensures forall k :: 0 <= k < |parts| ==> OnBlocks(id.flash.value, parts[k])
  {
    hide OnBlocks;
    forall k | 0 <= k < |parts| ensures OnBlocks(id.flash.value, parts[k]) {
      assert Inside(id.flash.value, parts[k]);
    }
  }

  lemma ChipWhole(id: MtdId)
    requires ChipOk(id) && id.flash.Some?
    ensures WholeBlocks(id.flash.value)
  {
  }

  // --------------------------------------------------------------------
  // Whole runs
  // --------------------------------------------------------------------

  lemma InitPlaced(ids: seq<MtdId>, s: Session)
    requires ChipsOk(ids) && Inv(ids, s) && TablePlaced(s.devices)
    ensures Inv(ids, Init(ids, s).0) && TablePlaced(Init(ids, s).0.devices)
  {
    hide Init, TableSound, TableWF, Tied, ChipOk, SortedByOffset, PartsPlaced;
    InitInv(ids, s);
    var t := Init(ids, s).0;
    if TableSound(t.devices) {
      SoundIsPlaced(ids, t.devices);
    }
  }

  lemma StepPlaced(ids: seq<MtdId>, s: Session, c: Command)
    requires ChipsOk(ids) && Inv(ids, s) && TablePlaced(s.devices)
    ensures TablePlaced(Step(ids, s, c).devices)
  {
    hide Init, Add, Delete, SpreadAll, DevicesInit, CurrentSave, Inv, TablePlaced, ChipsOk, FindDevAndPart;
    InitPlaced(ids, s);
    NothingPlaced();
    var t := Init(ids, s).0;
    match c
    case SetMtdparts(text) =>
    case SetPartition(text) =>
    case List =>
    case AddPart(args) => AddPlaced(ids, t, args);
    case DelPart(id) => DeletePlaced(t, id);
    case DelAll => DevicesInitInv(ids, t.(env := t.env.(mtdparts := None)));
    case Default(text) =>
      EnvOnly(ids, s, s.env.(mtdparts := text, partition := None));
      InitPlaced(ids, s.(env := s.env.(mtdparts := text, partition := None)));
    case SpreadTable => SpreadPlaced(ids, t);
    case Chpart(id) =>
      match FindDevAndPart(t.devices, id)
      case None =>
      case Some((i, k)) => SavesOnly(t.(current := Some(t.devices[i].id), partnum := k % 256));
  }

  lemma NothingPlaced()
    ensures TablePlaced([])
  {
  }

  lemma EnvOnly(ids: seq<MtdId>, s: Session, env: Env)
    requires Inv(ids, s)
    ensures Inv(ids, s.(env := env))
  {
    hide TableWF, ParseTable, PrintTable;
  }

  lemma {:induction false} RunPlacedFrom(ids: seq<MtdId>, s: Session, commands: seq<Command>)
    requires ChipsOk(ids) && Inv(ids, s) && TablePlaced(s.devices)
    ensures Inv(ids, Run(ids, s, commands)) && TablePlaced(Run(ids, s, commands).devices)
    decreases |commands|
  {
    hide Inv, Step, TablePlaced, ChipsOk;
    if commands != [] {
      StepInv(ids, s, commands[0]);
      StepPlaced(ids, s, commands[0]);
      RunPlacedFrom(ids, Step(ids, s, commands[0]), commands[1..]);
    }
  }

  /** On such chips every run, spreading included, keeps every list sorted and every partition on block boundaries. */
  lemma RunPlaced(ids: seq<MtdId>, commands: seq<Command>)
    requires ChipsOk(ids)
    ensures TablePlaced(Run(ids, BOOT, commands).devices)
    ensures TableSorted(Run(ids, BOOT, commands).devices)
  {
    hide Run, Inv, SortedByOffset, PartsPlaced, ChipsOk;
    BootInv(ids);
    RunPlacedFrom(ids, BOOT, commands);
  }

  predicate NoSpreads(commands: seq<Command>) {
    forall i :: 0 <= i < |commands| ==> !Spreads(commands[i])
  }

  /** Every list stays sorted: in runs without spreading on any chips, and in all runs on these chips. */
  lemma RunSorted(ids: seq<MtdId>, commands: seq<Command>)
    requires NoSpreads(commands) || ChipsOk(ids)
    ensures TableSorted(Run(ids, BOOT, commands).devices)
  {
    hide Run, Inv, ChipsOk, Spreads, TableSorted, TableValidated;
    BootInv(ids);
    if NoSpreads(commands) {
      RunInv(ids, BOOT, commands);
    } else {
      RunPlaced(ids, commands);
    }
  }

  /**
   Hence the deletions that lose the current partition are, in all these runs,
   exactly those of a later partition at its offset.
   */
  lemma ConfusedInRuns(ids: seq<MtdId>, commands: seq<Command>, i: nat, k: nat)
    requires NoSpreads(commands) || ChipsOk(ids)
    requires var t := Run(ids, BOOT, commands).devices; i < |t| && k < |t[i].parts|
    ensures var s := Run(ids, BOOT, commands);
      var parts := s.devices[i].parts;
      Confused(s, i, k) <==> IsCurrent(s, i) && s.partnum < k && parts[k].offset == parts[s.partnum].offset
  {
    hide Run, ChipsOk, NoSpreads, Confused, IsCurrent, SortedByOffset;
    RunSorted(ids, commands);
    SortedConfused(Run(ids, BOOT, commands), i, k);
  }

  /** The `spread` command after any run: every device is spread as promised, whatever its bad blocks. */
  lemma SpreadAfterRun(ids: seq<MtdId>, commands: seq<Command>, i: nat)
    requires ChipsOk(ids)
    requires var t := Init(ids, Run(ids, BOOT, commands)); t.1 && i < |t.0.devices|
    ensures var s := Run(ids, BOOT, commands);
      var d, r := Init(ids, s).0.devices[i], Step(ids, s, SpreadTable).devices;
      && |r| == |Init(ids, s).0.devices| && r[i].id == d.id && |r[i].parts| == |d.parts|
      && d.id.flash.Some? && SpreadWell(d.id.flash.value, d.parts, r[i].parts)
  {
    hide Run, Init, SpreadParts, SpreadDevices, SpreadAll, SortedByOffset, OnBlocks, WholeBlocks, NetSize, Available,
         StartsGood, Tied, DeviceOk, ChipOk;
    BootInv(ids);
    RunPlacedFrom(ids, BOOT, commands);
    var s := Run(ids, BOOT, commands);
    InitPlaced(ids, s);
    var t := Init(ids, s).0;
    var d := t.devices[i];
    SpreadPlaced(ids, t);
    KnownChip(ids, t.devices, i);
    SpreadDevicesAt(t.devices, i);
    ChipWhole(d.id);
    assert PartsPlaced(d.id, d.parts);
    PlacedOnBlocks(d.id, d.parts);
    SpreadTheorem(d.id.flash.value, d.parts);
  }

  // --------------------------------------------------------------------
  // The cache, spreading included
  // --------------------------------------------------------------------

  lemma PlacedValidates(id: MtdId, p: Part)
    requires ChipOk(id) && id.flash.Some? && Inside(id.flash.value, p) && p.size >= MIN_PART_SIZE
    ensures Validate(id, p) == Some(p)
  {
    var f := id.flash.value;
    assert (p.offset + p.size) % ULONG == p.offset + p.size;
    if p.size == SIZE_REMAINING {
      assert id.size - p.offset == p.size;
    }
  }

  lemma PlacedFits(ids: seq<MtdId>, t: seq<Device>)
    requires ChipsOk(ids) && TableWF(ids, t) && TablePlaced(t)
    ensures TableSorted(t) && TableFitting(t)
  {
    hide Validate, Inside, ChipOk, TableWF, SortedByOffset;
    forall i | 0 <= i < |t| ensures Fitting(t[i].id, t[i].parts) {
      KnownChip(ids, t, i);
      assert PartsPlaced(t[i].id, t[i].parts);
      forall k | 0 <= k < |t[i].parts| && t[i].parts[k].size >= MIN_PART_SIZE
        ensures Validate(t[i].id, t[i].parts[k]) == Some(t[i].parts[k])
      {
        PlacedValidates(t[i].id, t[i].parts[k]);
      }
    }
  }

  /**
   Cache agreement for all runs, spreading included: a cached text reproduces the
   table in memory when the table is printable, and a printed one only then.
   */
  lemma CacheAgreementPlaced(ids: seq<MtdId>, commands: seq<Command>)
    requires ChipsOk(ids)
    ensures var s := Run(ids, BOOT, commands);
      && (s.lastParts != "" && TablePrintable(s.devices) ==> Reproduces(ids, s.lastParts, s.devices))
      && (s.lastParts == PrintTable(s.devices) != "" ==>
          (Reproduces(ids, s.lastParts, s.devices) <==> TablePrintable(s.devices)))
  {
    hide Run, ParseTable, PrintTable, TablePrintable, TablePlaced, TableWF, BareTable, ChipsOk, TableSorted,
         TableFitting;
    BootInv(ids);
    NothingPlaced();
    RunPlacedFrom(ids, BOOT, commands);
    var s := Run(ids, BOOT, commands);
    PlacedFits(ids, s.devices);
    if s.lastParts == PrintTable(s.devices) != "" {
      PrintedReproduces(ids, s.devices);
    }
  }
}
