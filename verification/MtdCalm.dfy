/**
 The current partition through whole runs of add, del and list: as long as the
 environment is not set from outside, mtdparts_init does nothing, and commands
 that do not delete the current partition leave it current.
 */
module MtdCalm {
  import opened Option
  import opened MtdTable
  import opened MtdSession
  import opened MtdRoundTrip
  import opened MtdRuns
  import opened MtdTracking
  import opened MtdPlacement

  /** The partition variable is the one that current_save wrote. */
  predicate PartitionSynced(s: Session) {
    s.current.Some? ==> s.env.partition == Some(s.lastPartition)
  }

  /** The environment is what the commands themselves have left in it. */
  predicate Synced(s: Session) {
    && s.idsKnown
    && s.env.mtdparts == (if s.lastParts == "" then None else Some(s.lastParts))
    && (s.lastParts != "" ==> s.current.Some?)
    && PartitionSynced(s)
  }

  /** Then mtdparts_init, whether it succeeds or not, changes nothing. */
  lemma InitIdle(ids: seq<MtdId>, s: Session)
    requires Synced(s)
    ensures Init(ids, s).0 == s
  {
    hide Reparse, FindDevAndPart, CurrentSave;
  }

  /** A parse of the environment brings everything into step. */
  lemma ParseSyncs(ids: seq<MtdId>, s: Session)
    requires s.env.mtdparts.Some? && MustParse(s, s.env.mtdparts.value) && Init(ids, s).1
    ensures Synced(Init(ids, s).0)
  {
    hide ParseTable, FindDevAndPart, IndexPartitions, PartitionText, MustParse;
    var parts, known := s.env.mtdparts.value, s.(idsKnown := true);
    var r := Reparse(ids, known, parts).0;
    IndexOnly(known.(lastParts := "", current := None, lastPartition := "", env := known.env.(partition := None)));
    ParsedNotEmpty(ids, parts);
    ReparseSyncs(ids, known, parts);
    FollowSyncs(r, s.env.partition);
  }

  lemma ParsedNotEmpty(ids: seq<MtdId>, parts: string)
    ensures ParseTable(ids, parts).Some? ==> parts != ""
  {
    hide ParseDevices;
  }

  /** index_partitions sets mtddevnum and mtddevname only. */
  lemma IndexOnly(s: Session)
    ensures var r := IndexPartitions(s);
      r == s.(env := s.env.(mtddevnum := r.env.mtddevnum, mtddevname := r.env.mtddevname))
  {
    hide FindDevice, PartsBefore;
  }

  lemma SaveSyncs(s: Session)
    ensures var r := CurrentSave(s);
      && PartitionSynced(r) && r.env.mtdparts == s.env.mtdparts && r.lastParts == s.lastParts
      && r.idsKnown == s.idsKnown && r.current == s.current
    ensures PartitionSynced(s) ==> PartitionSynced(IndexPartitions(s))
    ensures IndexPartitions(s).idsKnown == s.idsKnown && IndexPartitions(s).env.mtdparts == s.env.mtdparts
    ensures IndexPartitions(s).lastParts == s.lastParts && IndexPartitions(s).current == s.current
  {
    hide IndexPartitions, PartitionText;
    IndexOnly(s);
    IndexOnly(s.(lastPartition := "", env := s.env.(partition := None)));
    if s.current.Some? {
      var text := PartitionText(s.current.value, s.partnum);
      IndexOnly(s.(lastPartition := text, env := s.env.(partition := Some(text))));
    }
  }

  lemma ReparseSyncs(ids: seq<MtdId>, s: Session, parts: string)
    requires s.idsKnown && s.env.mtdparts == Some(parts) && parts != "" && Reparse(ids, s, parts).1
    ensures Synced(Reparse(ids, s, parts).0)
  {
    hide ParseTable, CurrentSave, IndexPartitions;
    var t := ParseTable(ids, parts).value;
    var cleared := s.(lastParts := "", current := None);
    SaveSyncs(cleared);
    SaveSyncs(DevicesInit(s).(devices := t, lastParts := parts, current := Some(t[0].id), partnum := 0));
  }

  lemma FollowSyncs(s: Session, wanted: Option<string>)
    requires Synced(s)
    ensures Synced(FollowPartition(s, wanted))
  {
    hide CurrentSave, FindDevAndPart;
    SaveSyncs(s);
    if wanted.Some? {
      match FindDevAndPart(s.devices, wanted.value)
      case None =>
      case Some((i, k)) => SaveSyncs(s.(current := Some(s.devices[i].id), partnum := k % 256));
    }
  }

  // --------------------------------------------------------------------
  // The commands keep it so
  // --------------------------------------------------------------------

  lemma GenerateSyncs(s: Session)
    requires s.idsKnown && PartitionSynced(s) && (s.devices != [] ==> s.current.Some?)
    ensures Synced(GenerateSave(s).0)
  {
    hide PrintDevices;
    assert s.devices == [] ==> PrintTable(s.devices) == "";
  }

  lemma DeviceDelSyncs(s: Session, i: nat)
    requires i < |s.devices| && s.idsKnown && PartitionSynced(s)
    ensures DeviceDel(s, i).idsKnown && PartitionSynced(DeviceDel(s, i))
  {
    hide CurrentSave, IndexPartitions, IsCurrent;
    var left := s.devices[..i] + s.devices[i + 1..];
    SaveSyncs(s.(devices := left));
    SaveSyncs(s.(devices := left, current := None));
    if left != [] {
      SaveSyncs(s.(devices := left, current := Some(left[0].id), partnum := 0));
    }
  }

  lemma PartDelSyncs(s: Session, i: nat, k: nat)
    requires i < |s.devices| && k < |s.devices[i].parts| && s.idsKnown && PartitionSynced(s)
    ensures PartDel(s, i, k).idsKnown && PartitionSynced(PartDel(s, i, k))
  {
    hide CurrentSave, IndexPartitions, DeviceDel, IsCurrent, PartnumAfterDel;
    var parts := s.devices[i].parts;
    if |parts| == 1 {
      DeviceDelSyncs(s, i);
    } else {
      var left := SetParts(s, i, parts[..k] + parts[k + 1..]);
      SaveSyncs(left);
      if s.partnum < |parts| {
        SaveSyncs(left.(partnum := PartnumAfterDel(parts, k, s.partnum)));
      }
    }
  }

  lemma PartAddSyncs(s: Session, i: nat, p: Part)
    requires i < |s.devices| && PartAdd(s, i, p).Some? && s.idsKnown && PartitionSynced(s)
    ensures PartAdd(s, i, p).value.idsKnown && PartitionSynced(PartAdd(s, i, p).value)
  {
    hide Validate, CurrentSave, IndexPartitions, InsertPos, SortInsert, PartnumAfterInsert, IsCurrent;
    var parts := s.devices[i].parts;
    var q := Validate(s.devices[i].id, p).value;
    var next := SetParts(s, i, SortInsert(parts, q).value);
    SaveSyncs(next);
    if s.partnum < |parts| {
      SaveSyncs(next.(partnum := PartnumAfterInsert(parts, InsertPos(parts, q.offset), s.partnum)));
    }
  }

  lemma DeviceAddSyncs(s: Session, d: Device)
    requires s.idsKnown && PartitionSynced(s)
    ensures DeviceAdd(s, d).idsKnown && PartitionSynced(DeviceAdd(s, d))
  {
    hide CurrentSave, IndexPartitions;
    var next := s.(devices := s.devices + [d]);
    SaveSyncs(next);
    SaveSyncs(next.(current := Some(d.id), partnum := 0));
  }

  /** add, del or list that neither deletes the current partition nor confuses its number. */
  predicate Calm(ids: seq<MtdId>, s: Session, c: Command) {
    match c
    case List => true
    case AddPart(a) => !AddMisplaces(ids, s, a)
    case DelPart(id) =>
      (match FindDevAndPart(s.devices, id)
       case None => true
       case Some((i, k)) => !Confused(s, i, k) && !(IsCurrent(s, i) && k == s.partnum))
    case _ => false
  }

  /** Good for a state in which the commands may go on. */
  predicate Steady(ids: seq<MtdId>, s: Session) {
    Inv(ids, s) && Tracked(s) && Synced(s) && s.current.Some?
  }

  lemma AddCalm(ids: seq<MtdId>, s: Session, a: AddArgs)
    requires Steady(ids, s) && !AddMisplaces(ids, s, a)
    ensures var r := Add(ids, s, a).0;
      Steady(ids, r) && r.current == s.current && CurrentPart(r) == CurrentPart(s)
  {
    hide AddDevice, DeviceAdd, PartAdd, GenerateSave, IndexPartitions, Inv, CurrentOk, InSync, AddMisplaces, FindDevice;
    AddInv(ids, s, a);
    AddKeepsCurrent(ids, s, a);
    SaveSyncs(s);
    match AddDevice(ids, s.devices, a)
    case None =>
    case Some(d) =>
      match FindDevice(s.devices, d.id)
      case None =>
        DeviceAddSyncs(s, d);
        GenerateKeeps(DeviceAdd(s, d));
        GenerateSyncs(DeviceAdd(s, d));
      case Some(i) =>
        if d.parts != [] && PartAdd(s, i, d.parts[0]).Some? {
          PartAddSyncs(s, i, d.parts[0]);
          GenerateKeeps(PartAdd(s, i, d.parts[0]).value);
          GenerateSyncs(PartAdd(s, i, d.parts[0]).value);
        }
  }

  lemma GenerateKeeps(s: Session)
    ensures GenerateSave(s).0.current == s.current
  {
    hide PrintTable;
  }

  lemma DelCalm(ids: seq<MtdId>, s: Session, id: string)
    requires Steady(ids, s) && Calm(ids, s, DelPart(id))
    ensures var r := Delete(s, id).0;
      Steady(ids, r) && r.current == s.current && CurrentPart(r) == CurrentPart(s)
  {
    hide FindDevAndPart, PartDel, GenerateSave, Inv, CurrentOk, InSync, Confused, IsCurrent;
    DeleteInv(ids, s, id);
    match FindDevAndPart(s.devices, id)
    case None =>
    case Some((i, k)) =>
      DelKeepsCurrent(ids, s, id);
      PartDelSyncs(s, i, k);
      GenerateKeeps(PartDel(s, i, k));
      GenerateSyncs(PartDel(s, i, k));
  }

  lemma StepCalm(ids: seq<MtdId>, s: Session, c: Command)
    requires Steady(ids, s) && Calm(ids, s, c)
    ensures var r := Step(ids, s, c);
      Steady(ids, r) && r.current == s.current && CurrentPart(r) == CurrentPart(s)
  {
    hide Init, Add, Delete, Inv, CurrentOk, InSync, AddMisplaces, FindDevAndPart, Confused, IsCurrent;
    InitIdle(ids, s);
    match c
    case List =>
    case AddPart(a) => AddCalm(ids, s, a);
    case DelPart(id) => DelCalm(ids, s, id);
  }

  predicate CalmRun(ids: seq<MtdId>, s: Session, commands: seq<Command>)
    decreases |commands|
  {
    commands == [] || (Calm(ids, s, commands[0]) && CalmRun(ids, Step(ids, s, commands[0]), commands[1..]))
  }

  /** Through any such run the same partition stays current, whatever is added and deleted around it. */
  lemma {:induction false} RunKeepsCurrent(ids: seq<MtdId>, s: Session, commands: seq<Command>)
    requires Steady(ids, s) && CalmRun(ids, s, commands)
    ensures var r := Run(ids, s, commands);
      Steady(ids, r) && r.current == s.current && CurrentPart(r) == CurrentPart(s)
    decreases |commands|
  {
    hide Calm, Step, Inv, CurrentOk, InSync, Synced;
    if commands != [] {
      StepCalm(ids, s, commands[0]);
      RunKeepsCurrent(ids, Step(ids, s, commands[0]), commands[1..]);
    }
  }

  /** In sorted lists an insertion is misplaced only when the number would pass 255. */
  lemma SortedNotMisplaced(parts: seq<Part>, offset: nat, partnum: nat)
    requires SortedByOffset(parts) && partnum < |parts| && partnum < 255
    ensures !Misplaced(parts, offset, partnum)
  {
    hide InsertPos;
    InsertPosOrder(parts, offset, partnum);
  }

  /** So after all runs that keep the lists sorted, `add` leaves a current partition below number 255 current. */
  lemma AddKeepsInRuns(ids: seq<MtdId>, commands: seq<Command>, a: AddArgs)
    requires (NoSpreads(commands) || ChipsOk(ids)) && SafeRun(ids, BOOT, commands)
    requires var t := Init(ids, Run(ids, BOOT, commands)).0; t.current.Some? && t.partnum < 255
    ensures var t := Init(ids, Run(ids, BOOT, commands)).0;
      var r := Add(ids, t, a).0;
      CurrentOk(t) && CurrentOk(r) && r.current == t.current && CurrentPart(r) == CurrentPart(t)
  {
    hide Run, Init, Add, NoSpreads, ChipsOk, SafeRun, InSync, AddDevice, FindDevice, Misplaced, SortedByOffset, TableWF,
         Tied, SameDevice, AllParts, PartsBefore, TableValidated;
    var s := Run(ids, BOOT, commands);
    BootInv(ids);
    RunInv(ids, BOOT, commands);
    RunTracks(ids, commands);
    RunSorted(ids, commands);
    InitInv(ids, s);
    InitTracks(ids, s);
    var t := Init(ids, s).0;
    assert TableSorted(t.devices);
    if AddMisplaces(ids, t, a) {
      var d := AddDevice(ids, t.devices, a).value;
      var i := FindDevice(t.devices, d.id).value;
      CurrentNumber(ids, t, i);
      SortedNotMisplaced(t.devices[i].parts, d.parts[0].offset, t.partnum);
    }
    AddKeepsCurrent(ids, t, a);
  }

  lemma CurrentNumber(ids: seq<MtdId>, s: Session, i: nat)
    requires Inv(ids, s) && Tracked(s) && i < |s.devices| && IsCurrent(s, i)
    ensures s.partnum < |s.devices[i].parts|
  {
    hide FindDevice, SameDevice, InSync, Tied, DeviceOk, HasChip;
    FindDeviceIs(ids, s.devices, i, s.current.value);
  }
}
