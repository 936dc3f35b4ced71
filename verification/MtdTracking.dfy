/**
 The current partition over whole runs: it always exists while there are
 devices, commands that do not touch it leave it current, and `mtddevnum` is
 its index in the list of all partitions of all devices.
 */
module MtdTracking {
  import opened Option
  import opened Numerals
  import opened MtdTable
  import opened MtdSpread
  import opened MtdSession
  import opened MtdRoundTrip
  import opened MtdRuns

  predicate CurrentOk(s: Session) {
    && s.partnum < 256
    && (s.current.None? ==> s.devices == [])
    && (s.current.Some? ==>
          && FindDevice(s.devices, s.current.value).Some?
          && s.partnum < |s.devices[FindDevice(s.devices, s.current.value).value].parts|)
  }

  function CurrentPart(s: Session): Part
    requires CurrentOk(s) && s.current.Some?
  {
    s.devices[FindDevice(s.devices, s.current.value).value].parts[s.partnum]
  }

  /** mtddevnum and mtddevname are what index_partitions would set them to. */
  predicate InSync(s: Session) {
    IndexPartitions(s) == s
  }

  predicate Tracked(s: Session) {
    CurrentOk(s) && InSync(s)
  }

  // --------------------------------------------------------------------
  // The global index
  // --------------------------------------------------------------------

  /** All partitions of the first n devices, in order. */
  function AllParts(devices: seq<Device>, n: nat): seq<Part>
    requires n <= |devices|
  {
    if n == 0 then [] else AllParts(devices, n - 1) + devices[n - 1].parts
  }

  lemma {:induction false} AllPartsAt(devices: seq<Device>, n: nat, i: nat, k: nat)
    requires i < n <= |devices| && k < |devices[i].parts|
    ensures |AllParts(devices, n)| == PartsBefore(devices, n)
    ensures PartsBefore(devices, i) + k < PartsBefore(devices, n)
    ensures AllParts(devices, n)[PartsBefore(devices, i) + k] == devices[i].parts[k]
    decreases n
  {
    AllPartsLen(devices, n);
    AllPartsLen(devices, n - 1);
    if i < n - 1 {
      AllPartsAt(devices, n - 1, i, k);
    }
  }

  lemma {:induction false} AllPartsLen(devices: seq<Device>, n: nat)
    requires n <= |devices|
    ensures |AllParts(devices, n)| == PartsBefore(devices, n)
  {
    if n > 0 {
      AllPartsLen(devices, n - 1);
    }
  }

  /** `mtddevnum` (a u16) is the index of the current partition among all partitions. */
  lemma MtddevnumIsIndex(s: Session)
    requires Tracked(s) && s.current.Some? && PartsBefore(s.devices, |s.devices|) <= 0x1_0000
    ensures s.env.mtddevnum.Some? && s.env.mtddevnum.value < |AllParts(s.devices, |s.devices|)|
    ensures AllParts(s.devices, |s.devices|)[s.env.mtddevnum.value] == CurrentPart(s)
    ensures s.env.mtddevname == Some(CurrentPart(s).name)
  {
    var i := FindDevice(s.devices, s.current.value).value;
    AllPartsAt(s.devices, |s.devices|, i, s.partnum);
    assert IndexPartitions(s).env.mtddevnum == s.env.mtddevnum;
    assert IndexPartitions(s).env.mtddevname == s.env.mtddevname;
  }

  // --------------------------------------------------------------------
  // What the operations do to it
  // --------------------------------------------------------------------

  lemma SavesTrack(s: Session)
    requires CurrentOk(s)
    ensures Tracked(IndexPartitions(s)) && Tracked(CurrentSave(s))
    ensures IndexPartitions(s).current == CurrentSave(s).current == s.current
    ensures IndexPartitions(s).partnum == CurrentSave(s).partnum == s.partnum
    ensures IndexPartitions(s).devices == CurrentSave(s).devices == s.devices
  {
    hide FindDevice, PartsBefore, PartitionText;
  }

  lemma GenerateSaveTracks(s: Session)
    requires Tracked(s)
    ensures Tracked(GenerateSave(s).0)
    ensures GenerateSave(s).0.(env := s.env, lastParts := s.lastParts) == s
  {
    hide FindDevice, PartsBefore, PrintTable;
  }

  lemma DevicesInitTracks(s: Session)
    requires s.partnum < 256
    ensures Tracked(DevicesInit(s))
  {
  }

  /** Devices are told apart by their ids alone. */
  lemma {:induction false} FindDeviceById(t: seq<Device>, u: seq<Device>, id: MtdId)
    requires |t| == |u| && forall i :: 0 <= i < |t| ==> t[i].id == u[i].id
    ensures FindDevice(t, id) == FindDevice(u, id)
  {
    hide SameDevice;
    if t != [] && !SameDevice(t[0].id, id) {
      FindDeviceById(t[1..], u[1..], id);
    }
  }

  lemma FindDeviceIs(ids: seq<MtdId>, t: seq<Device>, i: nat, id: MtdId)
    requires TableOk(ids, t) && i < |t| && SameDevice(t[i].id, id)
    ensures FindDevice(t, id) == Some(i)
  {
    hide FindDevice, DeviceOk;
    var j := FindDevice(t, id);
    assert j.Some?;
    assert j.value < i ==> !SameDevice(t[j.value].id, t[i].id);
  }

  /** Linking or unlinking partitions of one device. */
  lemma SetPartsCurrent(ids: seq<MtdId>, s: Session, i: nat, parts: seq<Part>, partnum: nat)
    requires TableOk(ids, s.devices) && CurrentOk(s) && i < |s.devices| && partnum < 256
    requires if IsCurrent(s, i) then partnum < |parts| else partnum == s.partnum
    ensures var r := SetParts(s, i, parts).(partnum := partnum);
            && CurrentOk(r) && r.current == s.current
            && (s.current.Some? ==> CurrentPart(r) == if IsCurrent(s, i) then parts[partnum] else CurrentPart(s))
  {
    hide DeviceOk, FindDevice, SameDevice;
    if s.current.Some? {
      var r := SetParts(s, i, parts);
      FindDeviceById(s.devices, r.devices, s.current.value);
      if IsCurrent(s, i) {
        FindDeviceIs(ids, s.devices, i, s.current.value);
      }
    }
  }

  /** device_del of another device. */
  lemma RemoveOtherCurrent(ids: seq<MtdId>, s: Session, i: nat)
    requires TableOk(ids, s.devices) && CurrentOk(s) && i < |s.devices| && !IsCurrent(s, i)
    ensures var r := s.(devices := s.devices[..i] + s.devices[i + 1..]);
            CurrentOk(r) && s.current.Some? && CurrentPart(r) == CurrentPart(s)
  {
    hide DeviceOk, FindDevice, SameDevice;
    var left := s.devices[..i] + s.devices[i + 1..];
    var id := s.current.value;
    var j := FindDevice(s.devices, id).value;
    var j' := if j < i then j else j - 1;
    assert left[j'] == s.devices[j];
    assert TableOk(ids, left) by {
      assert forall k :: 0 <= k < |left| ==> left[k] == s.devices[if k < i then k else k + 1];
    }
    FindDeviceIs(ids, left, j', id);
  }

  lemma DeviceDelTracks(ids: seq<MtdId>, s: Session, i: nat)
    requires TableOk(ids, s.devices) && CurrentOk(s) && i < |s.devices|
    ensures Tracked(DeviceDel(s, i))
    ensures !IsCurrent(s, i) ==> DeviceDel(s, i).current == s.current && CurrentPart(DeviceDel(s, i)) == CurrentPart(s)
    ensures IsCurrent(s, i) && |s.devices| > 1 ==>
      DeviceDel(s, i).current == Some(DeviceDel(s, i).devices[0].id) && DeviceDel(s, i).partnum == 0
    ensures IsCurrent(s, i) && |s.devices| == 1 ==> DeviceDel(s, i).current == None
  {
    hide FindDevice, SameDevice, IndexPartitions, CurrentSave;
    var left := s.devices[..i] + s.devices[i + 1..];
    if IsCurrent(s, i) {
      if left == [] {
        SavesTrack(s.(devices := left, current := None));
      } else {
        FirstCurrent(ids, s, i);
        SavesTrack(s.(devices := left, current := Some(left[0].id), partnum := 0));
      }
    } else {
      RemoveOtherCurrent(ids, s, i);
      SavesTrack(s.(devices := left));
    }
  }

  lemma FirstCurrent(ids: seq<MtdId>, s: Session, i: nat)
    requires TableOk(ids, s.devices) && i < |s.devices| && |s.devices| > 1
    ensures var left := s.devices[..i] + s.devices[i + 1..];
            CurrentOk(s.(devices := left, current := Some(left[0].id), partnum := 0))
  {
    var left := s.devices[..i] + s.devices[i + 1..];
    assert left[0] == s.devices[if i == 0 then 1 else 0];
    assert DeviceOk(ids, left[0]);
    assert SameDevice(left[0].id, left[0].id);
  }

  /** The deletions whose offset test mistakes a later partition for an earlier one or the other way round. */
  predicate Confused(s: Session, i: nat, k: nat)
    requires i < |s.devices| && k < |s.devices[i].parts|
  {
    var parts := s.devices[i].parts;
    && IsCurrent(s, i) && s.partnum < |parts| && k != s.partnum
    && (k < s.partnum) != (parts[k].offset <= parts[s.partnum].offset)
  }

  /** In a sorted list these are the deletions of a later partition at the offset of the current one. */
  lemma SortedConfused(s: Session, i: nat, k: nat)
    requires i < |s.devices| && k < |s.devices[i].parts| && SortedByOffset(s.devices[i].parts)
    ensures Confused(s, i, k) <==>
      var parts := s.devices[i].parts;
      IsCurrent(s, i) && s.partnum < k && parts[k].offset == parts[s.partnum].offset
  {
    hide SameDevice;
    var parts := s.devices[i].parts;
    if s.partnum < k {
      assert parts[s.partnum].offset <= parts[k].offset;
    } else if k < s.partnum < |parts| {
      assert parts[k].offset <= parts[s.partnum].offset;
    }
  }

  /**
   part_del: unless it deletes the current partition the same partition stays
   current; if it does, the first partition of that device (or of the first
   device left) becomes current.
   */
  lemma PartDelTracks(ids: seq<MtdId>, s: Session, i: nat, k: nat)
    requires TableOk(ids, s.devices) && CurrentOk(s) && i < |s.devices| && k < |s.devices[i].parts|
    requires !Confused(s, i, k)
    ensures Tracked(PartDel(s, i, k))
    ensures !(IsCurrent(s, i) && k == s.partnum) ==>
            PartDel(s, i, k).current == s.current && CurrentPart(PartDel(s, i, k)) == CurrentPart(s)
    ensures IsCurrent(s, i) && k == s.partnum ==> PartDel(s, i, k).current.None? || PartDel(s, i, k).partnum == 0
  {
    hide FindDevice, SameDevice, IndexPartitions, CurrentSave, DeviceDel, SortedByOffset, PartnumAfterDel;
    var parts := s.devices[i].parts;
    if |parts| == 1 {
      DeviceDelTracks(ids, s, i);
      if IsCurrent(s, i) {
        FindDeviceIs(ids, s.devices, i, s.current.value);
      }
    } else {
      var left := parts[..k] + parts[k + 1..];
      if IsCurrent(s, i) {
        FindDeviceIs(ids, s.devices, i, s.current.value);
        var n := PartnumAfterDel(parts, k, s.partnum);
        if k == s.partnum {
          assert n == 0 by { DeletedIsZero(parts, k); }
        } else {
          DeleteTracks(parts, k, s.partnum);
        }
        SetPartsCurrent(ids, s, i, left, n);
        SavesTrack(SetParts(s, i, left).(partnum := n));
      } else {
        SetPartsCurrent(ids, s, i, left, s.partnum);
        SavesTrack(SetParts(s, i, left));
      }
    }
  }

  lemma DeletedIsZero(parts: seq<Part>, k: nat)
    requires k < |parts|
    ensures PartnumAfterDel(parts, k, k) == 0
  {
  }

  /** The partition would be a misplaced one on the current device. */
  predicate PartMisplaced(s: Session, i: nat, p: Part)
    requires i < |s.devices|
  {
    var parts := s.devices[i].parts;
    IsCurrent(s, i) && (s.partnum < |parts| ==> Misplaced(parts, p.offset, s.partnum))
  }

  /** part_add leaves a valid current partition, and the same one unless the insertion is a misplaced one. */
  lemma PartAddTracks(ids: seq<MtdId>, s: Session, i: nat, p: Part)
    requires TableOk(ids, s.devices) && CurrentOk(s) && i < |s.devices| && PartAdd(s, i, p).Some?
    ensures Tracked(PartAdd(s, i, p).value)
    ensures PartAdd(s, i, p).value.current == s.current
    ensures s.current.Some? && !PartMisplaced(s, i, p) ==> CurrentPart(PartAdd(s, i, p).value) == CurrentPart(s)
  {
    hide FindDevice, SameDevice, IndexPartitions, CurrentSave, Validate, SortedByOffset, InsertPos, PartnumAfterInsert,
         SortInsert, Misplaced;
    var q := Validate(s.devices[i].id, p).value;
    var parts := s.devices[i].parts;
    var k := InsertPos(parts, q.offset);
    var more := SortInsert(parts, q).value;
    SortInsertOk(parts, q);
    if IsCurrent(s, i) {
      FindDeviceIs(ids, s.devices, i, s.current.value);
      InsertTracks(parts, q, s.partnum);
      var n := PartnumAfterInsert(parts, k, s.partnum);
      InsertMoves(parts, k, s.partnum);
      SetPartsCurrent(ids, s, i, more, n);
      SavesTrack(SetParts(s, i, more).(partnum := n));
      SetPartsCurrent(ids, s, i, more, s.partnum);
      SavesTrack(SetParts(s, i, more).(partnum := s.partnum));
    } else {
      SetPartsCurrent(ids, s, i, more, s.partnum);
      SavesTrack(SetParts(s, i, more));
    }
  }

  lemma InsertMoves(parts: seq<Part>, k: nat, partnum: nat)
    requires k <= |parts| && partnum < |parts| && partnum < 256
    ensures PartnumAfterInsert(parts, k, partnum) < 256 && PartnumAfterInsert(parts, k, partnum) <= |parts|
    ensures PartnumAfterInsert(parts, k, partnum) != partnum ==> k < |parts| && parts[k].offset <= parts[partnum].offset
    ensures PartnumAfterInsert(parts, k, partnum) == partnum <==>
      !(k < |parts| && parts[k].offset <= parts[partnum].offset)
  {
  }

  lemma DeviceAddTracks(ids: seq<MtdId>, s: Session, d: Device)
    requires TableOk(ids, s.devices + [d]) && CurrentOk(s)
    ensures Tracked(DeviceAdd(s, d))
    ensures s.devices != [] ==> DeviceAdd(s, d).current == s.current && CurrentPart(DeviceAdd(s, d)) == CurrentPart(s)
  {
    hide FindDevice, SameDevice, IndexPartitions, CurrentSave;
    var all := s.devices + [d];
    var next := s.(devices := all);
    assert all[|s.devices|] == d;
    assert DeviceOk(ids, d);
    if s.devices == [] {
      assert SameDevice(d.id, d.id) by { SameSelf(d.id); }
      FindDeviceIs(ids, all, 0, d.id);
      SavesTrack(next.(current := Some(d.id), partnum := 0));
    } else {
      var j := FindDevice(s.devices, s.current.value).value;
      assert all[j] == s.devices[j];
      FindDeviceIs(ids, all, j, s.current.value);
      SavesTrack(next);
    }
  }

  lemma SameSelf(id: MtdId)
    ensures SameDevice(id, id)
  {
  }

  // --------------------------------------------------------------------
  // Whole runs
  // --------------------------------------------------------------------

  lemma ReparseTracks(ids: seq<MtdId>, s: Session, parts: string)
    requires s.partnum < 256
    ensures Tracked(Reparse(ids, s, parts).0)
  {
    hide ParseTable, DevicesInit, CurrentSave, IndexPartitions, FindDevice, SameDevice;
    DevicesInitTracks(s);
    var clean := DevicesInit(s);
    if ParseTable(ids, parts).Some? {
      var t := ParseTable(ids, parts).value;
      ParseTableOk(ids, parts);
      assert DeviceOk(ids, t[0]);
      SameSelf(t[0].id);
      FindDeviceIs(ids, t, 0, t[0].id);
      SavesTrack(clean.(devices := t, lastParts := parts, current := Some(t[0].id), partnum := 0));
    }
  }

  lemma ChooseTracks(ids: seq<MtdId>, s: Session, i: nat, k: nat)
    requires TableOk(ids, s.devices) && i < |s.devices| && k < |s.devices[i].parts|
    ensures Tracked(CurrentSave(s.(current := Some(s.devices[i].id), partnum := k % 256)))
  {
    hide CurrentSave, IndexPartitions, FindDevice, SameDevice;
    SameSelf(s.devices[i].id);
    FindDeviceIs(ids, s.devices, i, s.devices[i].id);
    SavesTrack(s.(current := Some(s.devices[i].id), partnum := k % 256));
  }

  lemma FollowTracks(ids: seq<MtdId>, s: Session, wanted: Option<string>)
    requires TableOk(ids, s.devices) && Tracked(s)
    ensures Tracked(FollowPartition(s, wanted))
  {
    hide CurrentSave, FindDevAndPart, TableOk, CurrentOk, InSync;
    SavesTrack(s);
    if wanted.Some? {
      match FindDevAndPart(s.devices, wanted.value)
      case None =>
      case Some((i, k)) => ChooseTracks(ids, s, i, k);
    }
  }

  lemma InitTracks(ids: seq<MtdId>, s: Session)
    requires Inv(ids, s) && Tracked(s)
    ensures Tracked(Init(ids, s).0)
  {
    hide Reparse, DevicesInit, FollowPartition, ParseTable, PrintTable, FindDevice, PartsBefore, DeviceOk,
         SameDevice, HasChip;
    var known := s.(idsKnown := true);
    assert Tracked(known);
    DevicesInitTracks(known);
    FollowTracks(ids, known, s.env.partition);
    if s.env.mtdparts.Some? {
      ReparseTracks(ids, known, s.env.mtdparts.value);
      ReparseInv(ids, known, s.env.mtdparts.value);
      FollowTracks(ids, Reparse(ids, known, s.env.mtdparts.value).0, s.env.partition);
    }
  }

  /** What a caller can check before a command: a deletion is not a confused one. */
  predicate SafeStep(ids: seq<MtdId>, s: Session, c: Command) {
    var (t, ok) := Init(ids, s);
    match c
    case DelPart(id) =>
      ok ==>
        (match FindDevAndPart(t.devices, id)
         case None => true
         case Some((i, k)) => !Confused(t, i, k))
    case _ => true
  }

  lemma AddTracks(ids: seq<MtdId>, s: Session, a: AddArgs)
    requires Inv(ids, s) && Tracked(s)
    ensures Tracked(Add(ids, s, a).0)
  {
    hide AddDevice, DeviceAdd, PartAdd, GenerateSave, IndexPartitions, SortedByOffset, Validated, Tied,
         DeviceOk, HasChip, FindDevice, SameDevice;
    SavesTrack(s);
    match AddDevice(ids, s.devices, a)
    case None =>
    case Some(d) =>
      AddDeviceOk(ids, s.devices, a);
      match FindDevice(s.devices, d.id)
      case None =>
        TableSnoc(ids, s.devices, d);
        DeviceAddTracks(ids, s, d);
        GenerateSaveTracks(DeviceAdd(s, d));
      case Some(i) =>
        if d.parts != [] && PartAdd(s, i, d.parts[0]).Some? {
          PartAddTracks(ids, s, i, d.parts[0]);
          GenerateSaveTracks(PartAdd(s, i, d.parts[0]).value);
        }
  }

  lemma SpreadTracks(ids: seq<MtdId>, s: Session)
    requires Inv(ids, s) && Tracked(s)
    ensures Tracked(SpreadAll(s).0)
  {
    hide SpreadDevices, IndexPartitions, GenerateSave, Tied, FindDevice, TableOk, HasChip;
    SpreadDevicesWF(ids, s.devices);
    var devices := SpreadDevices(s.devices).0;
    var next := s.(devices := devices);
    if s.current.Some? {
      FindDeviceById(s.devices, devices, s.current.value);
    }
    SavesTrack(next);
    GenerateSaveTracks(IndexPartitions(next));
  }

  lemma DeleteCommandTracks(ids: seq<MtdId>, s: Session, id: string)
    requires Inv(ids, s) && Tracked(s)
    requires match FindDevAndPart(s.devices, id)
             case None => true
             case Some((i, k)) => !Confused(s, i, k)
    ensures Tracked(Delete(s, id).0)
  {
    hide FindDevAndPart, PartDel, GenerateSave, SortedByOffset, Confused, CurrentOk, InSync, Tied, TableOk, HasChip;
    match FindDevAndPart(s.devices, id)
    case None =>
    case Some((i, k)) =>
      PartDelTracks(ids, s, i, k);
      GenerateSaveTracks(PartDel(s, i, k));
  }

  lemma StepTracks(ids: seq<MtdId>, s: Session, c: Command)
    requires Inv(ids, s) && Tracked(s) && SafeStep(ids, s, c)
    ensures Tracked(Step(ids, s, c))
  {
    hide Init, Add, Delete, SpreadAll, DevicesInit, CurrentSave, FindDevAndPart, Confused, Inv, Tracked;
    InitInv(ids, s);
    InitTracks(ids, s);
    var t := Init(ids, s).0;
    match c
    case SetMtdparts(text) => EnvTracks(ids, s, text, s.env.partition);
    case SetPartition(text) => EnvTracks(ids, s, s.env.mtdparts, text);
    case List =>
    case AddPart(args) => AddTracks(ids, t, args);
    case DelPart(id) =>
      if Init(ids, s).1 {
        DeleteCommandTracks(ids, t, id);
      }
    case DelAll =>
      EnvTracks(ids, t, None, t.env.partition);
      NumberSmall(t.(env := t.env.(mtdparts := None)));
      DevicesInitTracks(t.(env := t.env.(mtdparts := None)));
    case Default(text) =>
      EnvTracks(ids, s, text, None);
      InitTracks(ids, s.(env := s.env.(mtdparts := text, partition := None)));
    case SpreadTable => SpreadTracks(ids, t);
    case Chpart(id) =>
      match FindDevAndPart(t.devices, id)
      case None =>
      case Some((i, k)) => ChosenTracks(ids, t, i, k);
  }

  lemma EnvTracks(ids: seq<MtdId>, s: Session, mtdparts: Option<string>, partition: Option<string>)
    requires Inv(ids, s) && Tracked(s)
    ensures var r := s.(env := s.env.(mtdparts := mtdparts, partition := partition)); Inv(ids, r) && Tracked(r)
  {
    hide TableWF, ParseTable, PrintTable, FindDevice, PartsBefore;
  }

  lemma NumberSmall(s: Session)
    requires Tracked(s)
    ensures s.partnum < 256
  {
    hide FindDevice, InSync;
  }

  lemma ChosenTracks(ids: seq<MtdId>, s: Session, i: nat, k: nat)
    requires Inv(ids, s) && i < |s.devices| && k < |s.devices[i].parts|
    ensures Tracked(CurrentSave(s.(current := Some(s.devices[i].id), partnum := k % 256)))
  {
    hide Tracked, CurrentSave, TableOk, HasChip, Tied;
    ChooseTracks(ids, s, i, k);
  }

  predicate SafeRun(ids: seq<MtdId>, s: Session, commands: seq<Command>)
    decreases |commands|
  {
    commands == [] || (SafeStep(ids, s, commands[0]) && SafeRun(ids, Step(ids, s, commands[0]), commands[1..]))
  }

  lemma {:induction false} RunTracksFrom(ids: seq<MtdId>, s: Session, commands: seq<Command>)
    requires Inv(ids, s) && Tracked(s) && SafeRun(ids, s, commands)
    ensures Tracked(Run(ids, s, commands))
    decreases |commands|
  {
    hide Inv, Tracked, Step, SafeStep;
    if commands != [] {
      StepInv(ids, s, commands[0]);
      StepTracks(ids, s, commands[0]);
      RunTracksFrom(ids, Step(ids, s, commands[0]), commands[1..]);
    }
  }

  /**
   After every run since boot without a confused deletion the current partition
   exists whenever there are devices, and mtddevnum and mtddevname describe it.
   */
  lemma RunTracks(ids: seq<MtdId>, commands: seq<Command>)
    requires SafeRun(ids, BOOT, commands)
    ensures var s := Run(ids, BOOT, commands);
            && Tracked(s)
            && (s.devices != [] ==> s.current.Some?)
            && (s.current.Some? && PartsBefore(s.devices, |s.devices|) <= 0x1_0000 ==>
                  && s.env.mtddevnum.Some? && s.env.mtddevnum.value < |AllParts(s.devices, |s.devices|)|
                  && AllParts(s.devices, |s.devices|)[s.env.mtddevnum.value] == CurrentPart(s))
  {
    hide SafeRun, Run, AllParts, PartsBefore, InSync;
    BootInv(ids);
    assert Tracked(BOOT) by { BootTracked(); }
    RunTracksFrom(ids, BOOT, commands);
    var s := Run(ids, BOOT, commands);
    if s.current.Some? && PartsBefore(s.devices, |s.devices|) <= 0x1_0000 {
      MtddevnumIsIndex(s);
    }
  }

  lemma BootTracked()
    ensures Tracked(BOOT)
  {
  }

  /** Distinct offsets rule the confused deletions out. */
  lemma DistinctNotConfused(s: Session, i: nat, k: nat)
    requires i < |s.devices| && k < |s.devices[i].parts| && DistinctOffsets(s.devices[i].parts)
    ensures !Confused(s, i, k)
  {
    hide SameDevice;
    var parts := s.devices[i].parts;
    assert s.partnum < k ==> parts[s.partnum].offset < parts[k].offset;
    assert k < s.partnum < |parts| ==> parts[k].offset < parts[s.partnum].offset;
  }

  predicate TableDistinct(t: seq<Device>) {
    forall i :: 0 <= i < |t| ==> DistinctOffsets(t[i].parts)
  }

  /** Every deletion of the run finds tables with distinct offsets. */
  predicate DistinctRun(ids: seq<MtdId>, s: Session, commands: seq<Command>)
    decreases |commands|
  {
    commands == [] ||
    ((commands[0].DelPart? ==> TableDistinct(Init(ids, s).0.devices)) &&
     DistinctRun(ids, Step(ids, s, commands[0]), commands[1..]))
  }

  lemma {:induction false} DistinctRunIsSafe(ids: seq<MtdId>, s: Session, commands: seq<Command>)
    requires DistinctRun(ids, s, commands)
    ensures SafeRun(ids, s, commands)
    decreases |commands|
  {
    hide Init, Step, FindDevAndPart, Confused, DistinctOffsets;
    if commands != [] {
      var c, t := commands[0], Init(ids, s).0;
      if c.DelPart? && FindDevAndPart(t.devices, c.id).Some? {
        var (i, k) := FindDevAndPart(t.devices, c.id).value;
        DistinctNotConfused(t, i, k);
      }
      DistinctRunIsSafe(ids, Step(ids, s, c), commands[1..]);
    }
  }

  /** With distinct offsets at every deletion, any run keeps track of the current partition. */
  lemma DistinctRunTracks(ids: seq<MtdId>, commands: seq<Command>)
    requires DistinctRun(ids, BOOT, commands)
    ensures Tracked(Run(ids, BOOT, commands))
    ensures Run(ids, BOOT, commands).devices != [] ==> Run(ids, BOOT, commands).current.Some?
  {
    hide DistinctRun, SafeRun, Run, Tracked, AllParts, PartsBefore;
    DistinctRunIsSafe(ids, BOOT, commands);
    RunTracks(ids, commands);
  }

  // --------------------------------------------------------------------
  // The same partition stays current
  // --------------------------------------------------------------------

  /** `mtdparts del` of a partition that is not current leaves the current one current. */
  lemma DelKeepsCurrent(ids: seq<MtdId>, s: Session, id: string)
    requires Inv(ids, s) && Tracked(s) && FindDevAndPart(s.devices, id).Some?
    requires var (i, k) := FindDevAndPart(s.devices, id).value;
      !Confused(s, i, k) && !(IsCurrent(s, i) && k == s.partnum)
    ensures var r := Delete(s, id).0;
      Tracked(r) && r.current == s.current && (s.current.Some? ==> CurrentPart(r) == CurrentPart(s))
  {
    hide FindDevAndPart, PartDel, GenerateSave, Confused, FindDevice, PartsBefore, Tied, DeviceOk, HasChip, SameDevice;
    var (i, k) := FindDevAndPart(s.devices, id).value;
    PartDelTracks(ids, s, i, k);
    GenerateSaveTracks(PartDel(s, i, k));
  }

  /** The partition that `add` makes would be a misplaced one on the current device. */
  predicate AddMisplaces(ids: seq<MtdId>, s: Session, a: AddArgs) {
    match AddDevice(ids, s.devices, a)
    case None => false
    case Some(d) =>
      match FindDevice(s.devices, d.id)
      case None => false
      case Some(i) =>
        d.parts != [] && PartMisplaced(s, i, d.parts[0])
  }

  /** `mtdparts add` leaves the current partition current, unless the insertion is a misplaced one. */
  lemma AddKeepsCurrent(ids: seq<MtdId>, s: Session, a: AddArgs)
    requires Inv(ids, s) && Tracked(s) && s.current.Some? && !AddMisplaces(ids, s, a)
    ensures var r := Add(ids, s, a).0;
      Tracked(r) && r.current == s.current && CurrentPart(r) == CurrentPart(s)
  {
    hide AddDevice, DeviceAdd, PartAdd, GenerateSave, IndexPartitions, SortedByOffset, Validated, Tied,
         DeviceOk, HasChip,
         FindDevice, SameDevice, Misplaced;
    SavesTrack(s);
    match AddDevice(ids, s.devices, a)
    case None =>
    case Some(d) =>
      AddDeviceOk(ids, s.devices, a);
      match FindDevice(s.devices, d.id)
      case None =>
        TableSnoc(ids, s.devices, d);
        DeviceAddTracks(ids, s, d);
        GenerateSaveTracks(DeviceAdd(s, d));
      case Some(i) =>
        if d.parts != [] && PartAdd(s, i, d.parts[0]).Some? {
          if IsCurrent(s, i) {
            FindDeviceIs(ids, s.devices, i, s.current.value);
          }
          PartAddTracks(ids, s, i, d.parts[0]);
          GenerateSaveTracks(PartAdd(s, i, d.parts[0]).value);
        }
  }

  // --------------------------------------------------------------------
  // The `partition` variable
  // --------------------------------------------------------------------

  lemma MtdIdParseText(id: MtdId, rest: string)
    requires id.num < 256 && (rest == "" || (!IsXDigit(rest[0]) && rest[0] != 'x'))
    ensures MtdIdParse(TypeName(id.devType) + (Format(id.num, 10) + rest)) == Some((id.devType, id.num, rest))
  {
    hide Format, StrToUL, MtdNumParse;
    var name, body := TypeName(id.devType), Format(id.num, 10) + rest;
    var s := name + body;
    assert s[|name|..] == body && s[0] == name[0] && s[1] == name[1] && name <= s;
    NumParseText(id.devType, id.num, rest);
    if id.devType != Nand {
      NotPrefix("nand", s, 1);
      if id.devType == OneNand { NotPrefix("nor", s, 0); }
    }
  }

  lemma NumParseText(t: DevType, num: nat, rest: string)
    requires num < 256 && (rest == "" || (!IsXDigit(rest[0]) && rest[0] != 'x'))
    ensures MtdNumParse(t, Format(num, 10) + rest) == Some((t, num, rest))
  {
    hide Format, StrToUL;
    var body := Format(num, 10) + rest;
    assert body[0] == Format(num, 10)[0];
    assert IsDigitOf(body[0], 10);
    StrToULDecimal(num, rest);
  }

  lemma NotPrefix(p: string, s: string, i: nat)
    requires i < |p| && i < |s| && (p[i] != s[i] || p[0] != s[0])
    ensures !(p <= s)
  {
  }

  /**
   What current_save writes to the environment is what find_dev_and_part reads
   back, if and only if no other partition bears that text as its name.
   */
  lemma PartitionTextFound(ids: seq<MtdId>, s: Session)
    requires TableOk(ids, s.devices) && CurrentOk(s) && s.current.Some? && s.current.value.num < 256
    ensures var text := PartitionText(s.current.value, s.partnum);
      var current := (FindDevice(s.devices, s.current.value).value, s.partnum);
      FindDevAndPart(s.devices, text) == Some(current) <==>
      FindNamed(s.devices, text).None? || FindNamed(s.devices, text) == Some(current)
  {
    hide FindDevice, FindNamed, MtdIdParse, Format, StrToUL, SameDevice, TypeName;
    var id := s.current.value;
    var n := Format(s.partnum, 10);
    var rest := "," + n;
    MtdIdParseText(id, rest);
    assert rest[1..] == n && n + "" == n;
    StrToULDecimal(s.partnum, "");
    SameKey(s.devices, id);
  }

  lemma {:induction false} SameKey(t: seq<Device>, id: MtdId)
    ensures FindTypeNum(t, id.devType, id.num) == FindDevice(t, id)
  {
    if t != [] {
      SameKey(t[1..], id);
    }
  }
}
