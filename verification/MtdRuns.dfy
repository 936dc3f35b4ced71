/**
 What holds in every state that mtdparts commands can reach: the table stays
 well formed, and the cached text is always either the text that was parsed
 into the table or the text printed from it.
 */
module MtdRuns {
  import opened Machine
  import opened Option
  import opened MtdTable
  import opened MtdSpread
  import opened MtdSession
  import opened MtdRoundTrip

  predicate HasChip(d: Device) {
    d.id.flash.Some?
  }

  predicate TableWF(ids: seq<MtdId>, t: seq<Device>) {
    TableOk(ids, t) && forall i :: 0 <= i < |t| ==> HasChip(t[i])
  }

  // --------------------------------------------------------------------
  // What the parser produces
  // --------------------------------------------------------------------

  lemma ValidateAgain(id: MtdId, p: Part)
    requires Validate(id, p).Some?
    ensures Validate(id, Validate(id, p).value) == Validate(id, p)
    ensures Validate(id, p).value.size < ULONG || Validate(id, p).value.size == p.size
    ensures id.flash.Some?
  {
    assert !BlockAligned(id, p.offset, p.size) || id.flash.Some?;
    assert !BlockAligned(id, p.offset, (id.size - p.offset) % ULONG) || id.flash.Some?;
    hide BlockAligned;
  }

  lemma {:induction false} ParsePartsOk(id: MtdId, s: string, offset: nat)
    requires offset < ULONG && ParseParts(id, s, offset).Some?
    ensures var parts := ParseParts(id, s, offset).value.0;
            AllWellNamed(parts) && Validated(id, parts) && (parts != [] ==> id.flash.Some?)
    decreases |s|
  {
    hide Validate, PartParse;
    if s != "" && s[0] != ';' {
      var (p, rest) := PartParse(s).value;
      var q := Validate(id, Placed(p, offset)).value;
      ValidateAgain(id, Placed(p, offset));
      ParsePartsOk(id, rest, PartEnd(q));
    }
  }

  /** Inserting adds the partition and keeps the order. */
  lemma SortInsertOk(parts: seq<Part>, p: Part)
    requires SortInsert(parts, p).Some?
    ensures var r := SortInsert(parts, p).value;
            && |r| == |parts| + 1
            && (forall i :: 0 <= i < |r| ==> r[i] == p || r[i] in parts)
            && (SortedByOffset(parts) ==> SortedByOffset(r))
  {
    var k := InsertPos(parts, p.offset);
    hide InsertPos;
  }

  lemma {:induction false} SortInsertAllOk(parts: seq<Part>, done: seq<Part>)
    requires SortInsertAll(parts, done).Some?
    ensures var r := SortInsertAll(parts, done).value;
            && |r| == |parts| + |done|
            && (forall i :: 0 <= i < |r| ==> r[i] in parts || r[i] in done)
            && (SortedByOffset(done) ==> SortedByOffset(r))
    decreases |parts|
  {
    hide SortInsert, SortedByOffset;
    if parts != [] {
      SortInsertOk(done, parts[0]);
      SortInsertAllOk(parts[1..], SortInsert(done, parts[0]).value);
    }
  }

  lemma AllWellNamedOf(parts: seq<Part>, from: seq<Part>, id: MtdId)
    requires AllWellNamed(from) && Validated(id, from)
    requires forall i :: 0 <= i < |parts| ==> parts[i] in from
    ensures AllWellNamed(parts) && Validated(id, parts)
  {
    hide Validate, WellNamed;
  }

  lemma StartOffsetSmall(devices: seq<Device>, id: MtdId)
    ensures StartOffset(devices, id) < ULONG
  {
  }

  lemma DeviceParseOk(ids: seq<MtdId>, known: seq<Device>, s: string)
    requires DeviceParse(ids, known, s).Some?
    ensures var d := DeviceParse(ids, known, s).value.0;
            DeviceOk(ids, d) && HasChip(d) && SortedByOffset(d.parts) && Validated(d.id, d.parts)
  {
    hide ParseParts, SortInsertAll, SortedByOffset, Validated, AllWellNamed, StartOffset;
    var k := IndexOf(s, ':').value;
    var id := FindId(ids, s[..k]).value;
    var start := StartOffset(known, id);
    StartOffsetSmall(known, id);
    var parts := ParseParts(id, s[k + 1..], start).value.0;
    ParsePartsOk(id, s[k + 1..], start);
    SortInsertAllOk(parts, []);
    assert SortedByOffset([]) by { EmptySorted(); }
    AllWellNamedOf(SortInsertAll(parts, []).value, parts, id);
  }

  lemma EmptySorted()
    ensures SortedByOffset([])
  {
  }

  lemma TableSnoc(ids: seq<MtdId>, t: seq<Device>, d: Device)
    requires TableWF(ids, t) && DeviceOk(ids, d) && HasChip(d) && FindDevice(t, d.id).None?
    ensures TableWF(ids, t + [d])
  {
    hide DeviceOk, FindDevice, HasChip;
  }

  predicate TableSound(t: seq<Device>) {
    TableSorted(t) && TableValidated(t)
  }

  lemma SoundSnoc(t: seq<Device>, d: Device)
    requires TableSound(t) && SortedByOffset(d.parts) && Validated(d.id, d.parts)
    ensures TableSound(t + [d])
  {
    hide SortedByOffset, Validated;
  }

  lemma {:induction false} ParseDevicesOk(ids: seq<MtdId>, s: string, known: seq<Device>)
    requires TableWF(ids, known) && TableSound(known) && ParseDevices(ids, s, known).Some?
    ensures var t := ParseDevices(ids, s, known).value;
            TableWF(ids, t) && TableSound(t) && |known| <= |t| && (s != "" ==> t != [])
    decreases |s|
  {
    hide DeviceParse, TableWF, TableSound, SortedByOffset, Validated;
    if s != "" {
      var (d, rest) := DeviceParse(ids, known, s).value;
      DeviceParseOk(ids, known, s);
      TableSnoc(ids, known, d);
      SoundSnoc(known, d);
      ParseDevicesOk(ids, rest, known + [d]);
    }
  }

  /** Every table that comes out of parse_mtdparts is well formed, sorted and validated. */
  lemma ParseTableOk(ids: seq<MtdId>, text: string)
    requires ParseTable(ids, text).Some?
    ensures var t := ParseTable(ids, text).value;
            t != [] && TableWF(ids, t) && TableSound(t)
  {
    hide ParseDevices;
    ParseDevicesOk(ids, text[|PREFIX|..], []);
  }

  // --------------------------------------------------------------------
  // What every command keeps
  // --------------------------------------------------------------------

  /** The cached text belongs to the table: it was parsed into it or printed from it. */
  predicate Tied(ids: seq<MtdId>, s: Session) {
    || s.lastParts == ""
    || ParseTable(ids, s.lastParts) == Some(s.devices)
    || s.lastParts == PrintTable(s.devices)
  }

  predicate Inv(ids: seq<MtdId>, s: Session) {
    TableWF(ids, s.devices) && Tied(ids, s)
  }

  lemma SavesOnly(s: Session)
    ensures CurrentSave(s).devices == IndexPartitions(s).devices == s.devices
    ensures CurrentSave(s).lastParts == IndexPartitions(s).lastParts == s.lastParts
  {
    hide FindDevice, PartsBefore, PartitionText;
  }

  lemma GenerateSaveTied(ids: seq<MtdId>, s: Session)
    ensures GenerateSave(s).0.devices == s.devices && Tied(ids, GenerateSave(s).0)
  {
    hide PrintTable;
  }

  lemma DevicesInitInv(ids: seq<MtdId>, s: Session)
    ensures DevicesInit(s).devices == [] && DevicesInit(s).lastParts == "" && Inv(ids, DevicesInit(s))
  {
    hide CurrentSave;
    SavesOnly(s.(lastParts := "", current := None));
  }

  lemma FollowPartitionKeeps(s: Session, wanted: Option<string>)
    ensures FollowPartition(s, wanted).devices == s.devices && FollowPartition(s, wanted).lastParts == s.lastParts
  {
    hide CurrentSave, FindDevAndPart;
    SavesOnly(s);
    match FindDevAndPart(s.devices, if wanted.Some? then wanted.value else "")
    case None =>
    case Some((i, k)) => SavesOnly(s.(current := Some(s.devices[i].id), partnum := k % 256));
  }

  lemma ReparseInv(ids: seq<MtdId>, s: Session, parts: string)
    ensures var (t, ok) := Reparse(ids, s, parts);
            && Inv(ids, t)
            && (t.devices == [] || ParseTable(ids, parts) == Some(t.devices))
            && (ok ==> t.lastParts == parts && ParseTable(ids, parts) == Some(t.devices))
  {
    hide DevicesInit, ParseTable, CurrentSave, TableWF, TableSound;
    DevicesInitInv(ids, s);
    var clean := DevicesInit(s);
    if ParseTable(ids, parts).Some? {
      var t := ParseTable(ids, parts).value;
      ParseTableOk(ids, parts);
      SavesOnly(clean.(devices := t, lastParts := parts, current := Some(t[0].id), partnum := 0));
    }
  }

  /** mtdparts_init either keeps the table or replaces it by a parsed one. */
  lemma InitInv(ids: seq<MtdId>, s: Session)
    requires Inv(ids, s)
    ensures var t := Init(ids, s).0;
            Inv(ids, t) && (t.devices == s.devices || t.devices == [] || TableSound(t.devices))
  {
    hide Reparse, DevicesInit, FollowPartition, TableWF, ParseTable, PrintTable, TableSound;
    var known := s.(idsKnown := true);
    DevicesInitInv(ids, known);
    FollowPartitionKeeps(known, s.env.partition);
    if s.env.mtdparts.Some? {
      var parts := s.env.mtdparts.value;
      ReparseInv(ids, known, parts);
      FollowPartitionKeeps(Reparse(ids, known, parts).0, s.env.partition);
      if ParseTable(ids, parts).Some? {
        ParseTableOk(ids, parts);
      }
    }
  }

  // -- deleting

  lemma RemoveWF(ids: seq<MtdId>, t: seq<Device>, i: nat)
    requires TableWF(ids, t) && i < |t|
    ensures TableWF(ids, t[..i] + t[i + 1..])
    ensures TableSound(t) ==> TableSound(t[..i] + t[i + 1..])
  {
    hide DeviceOk, HasChip, SameDevice, SortedByOffset, Validated;
    var r := t[..i] + t[i + 1..];
    assert forall j :: 0 <= j < |r| ==> r[j] == t[if j < i then j else j + 1];
  }

  lemma SetPartsWF(ids: seq<MtdId>, s: Session, i: nat, parts: seq<Part>)
    requires TableWF(ids, s.devices) && i < |s.devices| && parts != [] && AllWellNamed(parts)
    ensures TableWF(ids, SetParts(s, i, parts).devices)
    ensures TableSound(s.devices) && SortedByOffset(parts) && Validated(s.devices[i].id, parts) ==>
            TableSound(SetParts(s, i, parts).devices)
  {
    hide SameDevice, SortedByOffset, Validated, AllWellNamed, FindId;
    var t := s.devices;
    var r := SetParts(s, i, parts).devices;
    assert forall j :: 0 <= j < |r| ==> r[j].id == t[j].id && (j != i ==> r[j] == t[j]);
    assert DeviceOk(ids, t[i]) && HasChip(t[i]);
    assert forall j :: 0 <= j < |r| ==> DeviceOk(ids, r[j]) && HasChip(r[j]);
  }

  lemma RemovePartOk(id: MtdId, parts: seq<Part>, k: nat)
    requires k < |parts|
    ensures var r := parts[..k] + parts[k + 1..];
            && (AllWellNamed(parts) ==> AllWellNamed(r))
            && (SortedByOffset(parts) ==> SortedByOffset(r))
            && (Validated(id, parts) ==> Validated(id, r))
  {
    hide WellNamed, Validate;
    var r := parts[..k] + parts[k + 1..];
    assert forall j :: 0 <= j < |r| ==> r[j] == parts[if j < k then j else j + 1];
  }

  lemma DeviceDelKeeps(s: Session, i: nat)
    requires i < |s.devices|
    ensures DeviceDel(s, i).devices == s.devices[..i] + s.devices[i + 1..]
  {
    hide CurrentSave, IndexPartitions;
    var left := s.devices[..i] + s.devices[i + 1..];
    SavesOnly(s.(devices := left));
    SavesOnly(s.(devices := left, current := None));
    if left != [] {
      SavesOnly(s.(devices := left, current := Some(left[0].id), partnum := 0));
    }
  }

  lemma PartDelWF(ids: seq<MtdId>, s: Session, i: nat, k: nat)
    requires TableWF(ids, s.devices) && i < |s.devices| && k < |s.devices[i].parts|
    ensures TableWF(ids, PartDel(s, i, k).devices)
    ensures TableSound(s.devices) ==> TableSound(PartDel(s, i, k).devices)
  {
    hide CurrentSave, IndexPartitions, DeviceDel, TableWF, SortedByOffset, Validated, AllWellNamed, PartnumAfterDel;
    var parts := s.devices[i].parts;
    if |parts| == 1 {
      DeviceDelKeeps(s, i);
      RemoveWF(ids, s.devices, i);
    } else {
      var r := parts[..k] + parts[k + 1..];
      assert DeviceOk(ids, s.devices[i]) by { WFAt(ids, s.devices, i); }
      RemovePartOk(s.devices[i].id, parts, k);
      SetPartsWF(ids, s, i, r);
      var left := SetParts(s, i, r);
      SavesOnly(left);
      if s.partnum < |parts| {
        SavesOnly(left.(partnum := PartnumAfterDel(parts, k, s.partnum)));
      }
    }
  }

  lemma WFAt(ids: seq<MtdId>, t: seq<Device>, i: nat)
    requires TableWF(ids, t) && i < |t|
    ensures DeviceOk(ids, t[i]) && HasChip(t[i])
  {
  }

  // -- adding

  lemma PartAddWF(ids: seq<MtdId>, s: Session, i: nat, p: Part)
    requires TableWF(ids, s.devices) && i < |s.devices| && WellNamed(p) && PartAdd(s, i, p).Some?
    ensures TableWF(ids, PartAdd(s, i, p).value.devices)
    ensures TableSound(s.devices) ==> TableSound(PartAdd(s, i, p).value.devices)
  {
    hide Validate, CurrentSave, IndexPartitions, InsertPos, TableWF, SortInsert, SortedByOffset, FindId,
         PartnumAfterInsert;
    var d := s.devices[i];
    WFAt(ids, s.devices, i);
    ValidateAgain(d.id, p);
    var q := Validate(d.id, p).value;
    SortInsertOk(d.parts, q);
    var r := SortInsert(d.parts, q).value;
    assert AllWellNamed(r);
    assert Validated(d.id, d.parts) ==> Validated(d.id, r);
    SetPartsWF(ids, s, i, r);
    var next := SetParts(s, i, r);
    SavesOnly(next);
    if s.partnum < |d.parts| {
      SavesOnly(next.(partnum := PartnumAfterInsert(d.parts, InsertPos(d.parts, q.offset), s.partnum)));
    }
  }

  lemma DeviceAddKeeps(s: Session, d: Device)
    ensures DeviceAdd(s, d).devices == s.devices + [d]
  {
    hide CurrentSave, IndexPartitions;
    var next := s.(devices := s.devices + [d]);
    SavesOnly(next);
    SavesOnly(next.(current := Some(d.id), partnum := 0));
  }

  lemma SpreadPartNamed(f: Flash, p: Part, cur: nat)
    requires WellNamed(p)
    ensures WellNamed(SpreadPart(f, p, cur))
  {
    hide SpreadOf;
  }

  lemma AddDeviceOk(ids: seq<MtdId>, devices: seq<Device>, a: AddArgs)
    requires AddDevice(ids, devices, a).Some?
    ensures var d := AddDevice(ids, devices, a).value;
            && DeviceOk(ids, d) && HasChip(d)
            && (!a.spread ==> SortedByOffset(d.parts) && Validated(d.id, d.parts))
  {
    hide DeviceParse, MtdIdParse, IdOf, AddText, AddLen, SpreadPart, FindId, Validated, SortedByOffset;
    var (t, num, _) := MtdIdParse(a.dev).value;
    var text := AddText(IdOf(ids, t, num).value, a);
    DeviceParseOk(ids, devices, text);
    var d := DeviceParse(ids, devices, text).value.0;
    if a.spread {
      assert WellNamed(d.parts[0]);
      SpreadPartNamed(d.id.flash.value, d.parts[0], 0);
    }
  }

  lemma AddInv(ids: seq<MtdId>, s: Session, a: AddArgs)
    requires Inv(ids, s)
    ensures Inv(ids, Add(ids, s, a).0)
    ensures TableSound(s.devices) && !a.spread ==> TableSound(Add(ids, s, a).0.devices)
  {
    hide AddDevice, DeviceAdd, PartAdd, GenerateSave, TableWF, TableSound, IndexPartitions, SortedByOffset,
         Validated, FindId;
    SavesOnly(s);
    match AddDevice(ids, s.devices, a)
    case None =>
    case Some(d) =>
      AddDeviceOk(ids, s.devices, a);
      match FindDevice(s.devices, d.id)
      case None =>
        DeviceAddKeeps(s, d);
        TableSnoc(ids, s.devices, d);
        if TableSound(s.devices) && !a.spread { SoundSnoc(s.devices, d); }
        GenerateSaveTied(ids, DeviceAdd(s, d));
      case Some(i) =>
        assert WellNamed(d.parts[0]);
        if PartAdd(s, i, d.parts[0]).Some? {
          PartAddWF(ids, s, i, d.parts[0]);
          GenerateSaveTied(ids, PartAdd(s, i, d.parts[0]).value);
        }
  }

  // -- spreading

  lemma {:induction false} SpreadPartsNamed(f: Flash, parts: seq<Part>, cur: nat)
    requires AllWellNamed(parts)
    ensures AllWellNamed(SpreadParts(f, parts, cur))
    decreases |parts|
  {
    hide SpreadPart, WellNamed;
    if parts != [] {
      SpreadPartNamed(f, parts[0], cur);
      SpreadPartsNamed(f, parts[1..], PartEnd(SpreadPart(f, parts[0], cur)));
    }
  }

  lemma {:induction false} SpreadDevicesWF(ids: seq<MtdId>, t: seq<Device>)
    requires TableWF(ids, t)
    ensures SpreadDevices(t).1 && TableWF(ids, SpreadDevices(t).0)
    ensures forall i :: 0 <= i < |t| ==>
      SpreadDevices(t).0[i].id == t[i].id && |SpreadDevices(t).0[i].parts| == |t[i].parts|
  {
    hide SpreadParts, FindId, SameDevice, AllWellNamed;
    if t != [] {
      var d, more := t[0], t[1..];
      WFAt(ids, t, 0);
      SpreadPartsNamed(d.id.flash.value, d.parts, 0);
      assert TableWF(ids, more);
      SpreadDevicesWF(ids, more);
      var e := d.(parts := SpreadParts(d.id.flash.value, d.parts, 0));
      var r := SpreadDevices(t).0;
      assert r == [e] + SpreadDevices(more).0;
      assert DeviceOk(ids, e) && HasChip(e);
      assert forall i :: 1 <= i < |r| ==> r[i] == SpreadDevices(more).0[i - 1] && t[i] == more[i - 1];
    }
  }

  lemma SpreadAllInv(ids: seq<MtdId>, s: Session)
    requires Inv(ids, s)
    ensures Inv(ids, SpreadAll(s).0)
  {
    hide SpreadDevices, IndexPartitions, GenerateSave, TableWF;
    SpreadDevicesWF(ids, s.devices);
    var next := s.(devices := SpreadDevices(s.devices).0);
    SavesOnly(next);
    GenerateSaveTied(ids, IndexPartitions(next));
  }

  // -- all commands

  /** Commands that fit partitions around bad blocks. */
  predicate Spreads(c: Command) {
    c.SpreadTable? || (c.AddPart? && c.args.spread)
  }

  lemma DeleteInv(ids: seq<MtdId>, s: Session, id: string)
    requires Inv(ids, s)
    ensures Inv(ids, Delete(s, id).0)
    ensures TableSound(s.devices) ==> TableSound(Delete(s, id).0.devices)
  {
    hide FindDevAndPart, PartDel, GenerateSave, TableWF, TableSound;
    match FindDevAndPart(s.devices, id)
    case None =>
    case Some((i, k)) =>
      PartDelWF(ids, s, i, k);
      GenerateSaveTied(ids, PartDel(s, i, k));
  }

  lemma StepInv(ids: seq<MtdId>, s: Session, c: Command)
    requires Inv(ids, s)
    ensures Inv(ids, Step(ids, s, c))
    ensures TableSound(s.devices) && !Spreads(c) ==> TableSound(Step(ids, s, c).devices)
  {
    hide Init, Add, Delete, SpreadAll, DevicesInit, CurrentSave, TableWF, TableSound, ParseTable, PrintTable,
         FindDevAndPart;
    EmptySound();
    InitInv(ids, s);
    var t := Init(ids, s).0;
    match c
    case SetMtdparts(text) =>
    case SetPartition(text) =>
    case List =>
    case AddPart(args) => AddInv(ids, t, args);
    case DelPart(id) => DeleteInv(ids, t, id);
    case DelAll => DevicesInitInv(ids, t.(env := t.env.(mtdparts := None)));
    case Default(text) => InitInv(ids, s.(env := s.env.(mtdparts := text, partition := None)));
    case SpreadTable => SpreadAllInv(ids, t);
    case Chpart(id) =>
      match FindDevAndPart(t.devices, id)
      case None =>
      case Some((i, k)) => SavesOnly(t.(current := Some(t.devices[i].id), partnum := k % 256));
  }

  lemma EmptySound()
    ensures TableSound([])
  {
  }

  // --------------------------------------------------------------------
  // The cache
  // --------------------------------------------------------------------

  lemma {:induction false} RunInv(ids: seq<MtdId>, s: Session, commands: seq<Command>)
    requires Inv(ids, s)
    ensures Inv(ids, Run(ids, s, commands))
    ensures TableSound(s.devices) && (forall i :: 0 <= i < |commands| ==> !Spreads(commands[i])) ==>
            TableSound(Run(ids, s, commands).devices)
    decreases |commands|
  {
    hide Inv, Step, TableSound;
    if commands != [] {
      StepInv(ids, s, commands[0]);
      RunInv(ids, Step(ids, s, commands[0]), commands[1..]);
    }
  }

  /**
   Cache agreement. Whatever commands were run since boot, a non-empty cached
   text parses back to the table in memory (up to generated names) as long as
   that table is sorted, validated and printable.
   */
  lemma CacheAgreement(ids: seq<MtdId>, commands: seq<Command>)
    ensures var s := Run(ids, BOOT, commands);
            s.lastParts != "" && TableSound(s.devices) && TablePrintable(s.devices) ==>
            Reproduces(ids, s.lastParts, s.devices)
  {
    hide Run, ParseTable, PrintTable, TableSound, TablePrintable, BareTable;
    assert Inv(ids, BOOT) by { BootInv(ids); }
    RunInv(ids, BOOT, commands);
    var s := Run(ids, BOOT, commands);
    if s.lastParts != "" && TableSound(s.devices) && TablePrintable(s.devices)
       && ParseTable(ids, s.lastParts) != Some(s.devices) {
      SoundFits(s.devices);
      PrintedReproduces(ids, s.devices);
    }
  }

  lemma SoundFits(t: seq<Device>)
    requires TableSound(t)
    ensures TableSorted(t) && TableFitting(t)
  {
    hide Validate, SortedByOffset;
    forall i | 0 <= i < |t| ensures Fitting(t[i].id, t[i].parts) {
      assert Validated(t[i].id, t[i].parts);
    }
  }

  lemma BootInv(ids: seq<MtdId>)
    ensures Inv(ids, BOOT) && TableSound(BOOT.devices)
  {
  }

  /** A printed text agrees with its table exactly when the table is printable. */
  lemma PrintedReproduces(ids: seq<MtdId>, t: seq<Device>)
    requires TableWF(ids, t) && TableSorted(t) && TableFitting(t) && PrintTable(t) != ""
    ensures Reproduces(ids, PrintTable(t), t) <==> TablePrintable(t)
  {
    hide Reproduces, TablePrintable, TableOk, TableSorted, TableFitting;
    assert t != [] by { assert PrintTable([]) == ""; }
    RoundTrip(ids, t);
  }

  /**
   Without spreading the table is always sorted and validated, so its sizes and
   its shared offsets alone decide: right after a command that printed the table,
   the cache agrees if and only if the table is printable.
   */
  lemma CacheAgreementIff(ids: seq<MtdId>, commands: seq<Command>)
    requires forall i :: 0 <= i < |commands| ==> !Spreads(commands[i])
    ensures var s := Run(ids, BOOT, commands);
            s.lastParts == PrintTable(s.devices) != "" ==>
            (Reproduces(ids, s.lastParts, s.devices) <==> TablePrintable(s.devices))
  {
    hide Run, PrintTable, TableSound, TablePrintable, Reproduces;
    BootInv(ids);
    RunInv(ids, BOOT, commands);
    var s := Run(ids, BOOT, commands);
    if s.lastParts == PrintTable(s.devices) != "" {
      SoundFits(s.devices);
      PrintedReproduces(ids, s.devices);
    }
  }

  /**
   Skipping the parse is sound: when mtdparts_init finds the cached text in the
   environment and keeps the table, parsing would have produced the same table.
   */
  lemma SkipIsSound(ids: seq<MtdId>, commands: seq<Command>, parts: string)
    ensures var s := Run(ids, BOOT, commands);
            !MustParse(s, parts) && TableSound(s.devices) && TablePrintable(s.devices) ==>
            Reparse(ids, s, parts).1 && BareTable(Reparse(ids, s, parts).0.devices) == BareTable(s.devices)
  {
    hide Run, ParseTable, TableSound, TablePrintable, CurrentSave, DevicesInit;
    var s := Run(ids, BOOT, commands);
    CacheAgreement(ids, commands);
    if !MustParse(s, parts) && TableSound(s.devices) && TablePrintable(s.devices) {
      var t := ParseTable(ids, parts).value;
      ParseTableOk(ids, parts);
      SavesOnly(DevicesInit(s).(devices := t, lastParts := parts, current := Some(t[0].id), partnum := 0));
    }
  }

  // --------------------------------------------------------------------
  // The current partition
  // --------------------------------------------------------------------

  /** Where position i of a list goes when something is linked in front of position k. */
  function AfterInsert(i: nat, k: nat): nat {
    if k <= i then i + 1 else i
  }

  /** Where position i goes when position k is unlinked. */
  function AfterDelete(i: nat, k: nat): nat
    requires i != k
  {
    if k < i then i - 1 else i
  }

  /** The insertions after which the current number no longer names the current partition. */
  predicate Misplaced(parts: seq<Part>, offset: nat, partnum: nat)
    requires partnum < |parts|
  {
    var k := InsertPos(parts, offset);
    k <= partnum && (partnum == 255 || parts[k].offset > parts[partnum].offset)
  }

  /**
   part_sort_add keeps the current partition current exactly when the insertion
   is not a misplaced one; in a sorted list that is only the u8 passing 255.
   */
  lemma InsertTracks(parts: seq<Part>, p: Part, partnum: nat)
    requires partnum < |parts| && partnum < 256 && SortInsert(parts, p).Some?
    ensures var k := InsertPos(parts, p.offset);
      && SortInsert(parts, p).value[AfterInsert(partnum, k)] == parts[partnum]
      && (PartnumAfterInsert(parts, k, partnum) == AfterInsert(partnum, k) <==> !Misplaced(parts, p.offset, partnum))
      && (SortedByOffset(parts) ==> (Misplaced(parts, p.offset, partnum) <==> k <= partnum == 255))
  {
    hide InsertPos, SortInsert, SortedByOffset;
    InsertedAt(parts, p, partnum);
    if SortedByOffset(parts) {
      InsertPosOrder(parts, p.offset, partnum);
    }
  }

  /** The offset test of part_sort_add tells positions apart. */
  lemma InsertPosOrder(parts: seq<Part>, offset: nat, i: nat)
    requires SortedByOffset(parts) && i < |parts|
    ensures var k := InsertPos(parts, offset);
            k <= i <==> k < |parts| && parts[k].offset <= parts[i].offset
  {
    hide InsertPos;
    var k := InsertPos(parts, offset);
    if k < i {
      assert parts[k].offset <= parts[i].offset;
    }
  }

  lemma InsertedAt(parts: seq<Part>, p: Part, i: nat)
    requires i < |parts| && SortInsert(parts, p).Some?
    ensures |SortInsert(parts, p).value| == |parts| + 1
    ensures SortInsert(parts, p).value[AfterInsert(i, InsertPos(parts, p.offset))] == parts[i]
  {
    hide InsertPos;
    LinkedAt(parts, p, InsertPos(parts, p.offset), i);
  }

  lemma LinkedAt(parts: seq<Part>, p: Part, k: nat, i: nat)
    requires i < |parts| && k <= |parts|
    ensures (parts[..k] + [p] + parts[k..])[AfterInsert(i, k)] == parts[i]
  {
  }

  /**
   part_del keeps the current partition current exactly when the offsets of the
   deleted and the current one are ordered like their positions; in a sorted list
   that excludes only later partitions with the same offset.
   */
  lemma DeleteTracks(parts: seq<Part>, k: nat, partnum: nat)
    requires k < |parts| && partnum < |parts| && partnum < 256 && k != partnum
    ensures (parts[..k] + parts[k + 1..])[AfterDelete(partnum, k)] == parts[partnum]
    ensures PartnumAfterDel(parts, k, partnum) == AfterDelete(partnum, k) <==>
      (k < partnum <==> parts[k].offset <= parts[partnum].offset)
    ensures SortedByOffset(parts) ==> ((k < partnum <==> parts[k].offset <= parts[partnum].offset) <==>
      !(k > partnum && parts[k].offset == parts[partnum].offset))
  {
    if SortedByOffset(parts) {
      if k < partnum {
        assert parts[k].offset <= parts[partnum].offset;
      } else {
        assert parts[partnum].offset <= parts[k].offset;
      }
    }
  }

  /** Two partitions at one offset, the first one current: deleting the second makes the current number 255. */
  lemma DeleteTracksFails()
    ensures var parts := [Part("a", false, 4096, 8192, false), Part("b", false, 4096, 8192, false)];
            PartnumAfterDel(parts, 1, 0) == 255
  {
  }
}
