/**
 Which partition a name or a `<dev-id>,<part-num>` text stands for, and what the
 commands that look one up do to exactly that partition.
 */
module MtdLookup {
  import opened Machine
  import opened Option
  import opened Numerals
  import opened MtdTable
  import opened MtdSession
  import opened MtdRoundTrip
  import opened MtdGrammar
  import opened MtdRuns
  import opened MtdTracking
  import opened MtdPlacement

  // --------------------------------------------------------------------
  // Names
  // --------------------------------------------------------------------

  predicate Bears(devices: seq<Device>, i: nat, k: nat, name: string) {
    i < |devices| && k < |devices[i].parts| && devices[i].parts[k].name == name
  }

  predicate Before(i: nat, k: nat, j: nat, m: nat) {
    i < j || (i == j && k < m)
  }

  lemma {:induction false} FirstInList(parts: seq<Part>, name: string)
    ensures FindName(parts, name).Some? ==>
      forall m :: 0 <= m < FindName(parts, name).value ==> parts[m].name != name
  {
    if parts != [] && parts[0].name != name {
      FirstInList(parts[1..], name);
    }
  }

  /** A name stands for the first partition, in the order of all lists, that bears it. */
  lemma {:induction false} FirstNamed(devices: seq<Device>, name: string)
    ensures FindNamed(devices, name).Some? ==>
      var (i, k) := FindNamed(devices, name).value;
      && Bears(devices, i, k, name)
      && forall j: nat, m: nat :: Bears(devices, j, m, name) ==> !Before(j, m, i, k)
    ensures FindNamed(devices, name).None? ==> forall j: nat, m: nat :: !Bears(devices, j, m, name)
  {
    hide FindName;
    if devices != [] {
      FirstInList(devices[0].parts, name);
      var more := devices[1..];
      FirstNamed(more, name);
      forall j: nat, m: nat | Bears(devices, j, m, name) && j > 0 ensures Bears(more, j - 1, m, name) {
      }
      if FindName(devices[0].parts, name).None? && FindNamed(more, name).Some? {
        var (i, k) := FindNamed(more, name).value;
        forall j: nat, m: nat | Bears(devices, j, m, name) ensures !Before(j, m, i + 1, k) {
          assert Bears(more, j - 1, m, name);
        }
      }
    }
  }

  // --------------------------------------------------------------------
  // Device and number
  // --------------------------------------------------------------------

  /** The text is a device type, a number, a comma and a number, both numbers taken as u8. */
  predicate Denotes(id: string, t: DevType, num: nat, k: nat) {
    var name := TypeName(t);
    && name <= id && |id| > |name| && IsDigit(id[|name|])
    && var (n, rest) := StrToUL(id[|name|..], 0);
       && num == n % 256 && |rest| >= 2 && rest[0] == ','
       && var (m, left) := StrToUL(rest[1..], 0);
          left == "" && k == m % 256
  }

  lemma TypesDiffer(id: string)
    ensures "nand" <= id ==> !("nor" <= id) && !("onenand" <= id)
    ensures "nor" <= id ==> !("onenand" <= id)
  {
    if "nand" <= id {
      assert id[0] == 'n' && id[1] == 'a';
    }
    if "nor" <= id {
      assert id[0] == 'n' && id[1] == 'o';
    }
    if "onenand" <= id {
      assert id[0] == 'o';
    }
  }

  /** mtd_id_parse reads a device type and a number. */
  lemma MtdIdIff(id: string, t: DevType, num: nat, rest: string)
    ensures MtdIdParse(id) == Some((t, num, rest)) <==>
      var name := TypeName(t);
      && name <= id && |id| > |name| && IsDigit(id[|name|])
      && num == StrToUL(id[|name|..], 0).0 % 256 && rest == StrToUL(id[|name|..], 0).1
  {
    hide StrToUL, IsDigit;
    TypesDiffer(id);
  }

  lemma DenotesIff(id: string, t: DevType, num: nat, k: nat)
    ensures Denotes(id, t, num, k) <==>
      && MtdIdParse(id).Some? && MtdIdParse(id).value.0 == t && MtdIdParse(id).value.1 == num
      && var rest := MtdIdParse(id).value.2;
         && |rest| >= 2 && rest[0] == ','
         && StrToUL(rest[1..], 0).1 == "" && k == StrToUL(rest[1..], 0).0 % 256
  {
    hide StrToUL, IsDigit, MtdIdParse;
    var rest := StrToUL(id[if TypeName(t) <= id then |TypeName(t)| else 0..], 0).1;
    MtdIdIff(id, t, num, rest);
    if MtdIdParse(id).Some? {
      var (a, b, c) := MtdIdParse(id).value;
      MtdIdIff(id, a, b, c);
    }
  }

  /** What a partition is called by: its name, or its device and number when no partition bears the text. */
  predicate Called(devices: seq<Device>, id: string, i: nat, k: nat)
    requires i < |devices| && k < |devices[i].parts|
  {
    if exists j, m :: 0 <= j < |devices| && 0 <= m < |devices[j].parts| && Bears(devices, j, m, id) then
      && Bears(devices, i, k, id)
      && forall j, m :: 0 <= j < |devices| && 0 <= m < |devices[j].parts| && Bears(devices, j, m, id) ==>
        !Before(j, m, i, k)
    else
      && Denotes(id, devices[i].id.devType, devices[i].id.num, k)
      && forall j :: 0 <= j < i ==> !SameDevice(devices[j].id, devices[i].id)
  }

  /** find_dev_and_part finds exactly the partition that the text calls, and nothing when it calls none. */
  lemma FindsCalled(devices: seq<Device>, id: string)
    ensures FindDevAndPart(devices, id).Some? ==>
      var (i, k) := FindDevAndPart(devices, id).value; Called(devices, id, i, k)
    ensures forall i, k :: 0 <= i < |devices| && 0 <= k < |devices[i].parts| && Called(devices, id, i, k) ==>
      FindDevAndPart(devices, id) == Some((i, k))
  {
    hide FindNamed, MtdIdParse, StrToUL, FindDevice, SameDevice, Denotes, IsDigit;
    FirstNamed(devices, id);
    if FindNamed(devices, id).Some? {
      var (i, k) := FindNamed(devices, id).value;
      assert Bears(devices, i, k, id);
    } else {
      if FindDevAndPart(devices, id).Some? {
        var (i, k) := FindDevAndPart(devices, id).value;
        FoundDenotes(devices, id, i, k);
      }
      forall i, k | 0 <= i < |devices| && 0 <= k < |devices[i].parts| && Called(devices, id, i, k)
        ensures FindDevAndPart(devices, id) == Some((i, k))
      {
        DenotedFound(devices, id, i, k);
      }
    }
  }

  lemma FoundDenotes(devices: seq<Device>, id: string, i: nat, k: nat)
    requires FindNamed(devices, id).None? && FindDevAndPart(devices, id) == Some((i, k))
    ensures i < |devices| && k < |devices[i].parts|
    ensures Denotes(id, devices[i].id.devType, devices[i].id.num, k)
    ensures forall j :: 0 <= j < i ==> !SameDevice(devices[j].id, devices[i].id)
  {
    hide FindNamed, MtdIdParse, StrToUL, FindDevice, Denotes, IsDigit;
    DenotesIff(id, devices[i].id.devType, devices[i].id.num, k);
  }

  lemma DenotedFound(devices: seq<Device>, id: string, i: nat, k: nat)
    requires FindNamed(devices, id).None? && i < |devices| && k < |devices[i].parts|
    requires Denotes(id, devices[i].id.devType, devices[i].id.num, k)
    requires forall j :: 0 <= j < i ==> !SameDevice(devices[j].id, devices[i].id)
    ensures FindDevAndPart(devices, id) == Some((i, k))
  {
    hide FindNamed, MtdIdParse, StrToUL, FindDevice, Denotes, IsDigit;
    DenotesIff(id, devices[i].id.devType, devices[i].id.num, k);
  }

  // --------------------------------------------------------------------
  // What the commands do to it
  // --------------------------------------------------------------------

  /** The list without the element at n. */
  function Without(parts: seq<Part>, n: nat): seq<Part>
    requires n < |parts|
  {
    parts[..n] + parts[n + 1..]
  }

  function All(devices: seq<Device>): seq<Part> {
    AllParts(devices, |devices|)
  }

  lemma {:induction false} AllSplit(a: seq<Device>, b: seq<Device>)
    ensures All(a + b) == All(a) + All(b)
    decreases |b|
  {
    if b == [] {
      assert a + b == a && All(b) == [];
    } else {
      var n := |b| - 1;
      assert (a + b)[..|a| + n] == a + b[..n];
      AllPrefix(a + b, |a| + n);
      AllPrefix(b, n);
      AllSplit(a, b[..n]);
    }
  }

  lemma {:induction false} AllPrefix(devices: seq<Device>, n: nat)
    requires n <= |devices|
    ensures AllParts(devices, n) == All(devices[..n])
  {
    AllSame(devices, devices[..n], n);
  }

  lemma {:induction false} AllSame(a: seq<Device>, b: seq<Device>, n: nat)
    requires n <= |a| && n <= |b| && a[..n] == b[..n]
    ensures AllParts(a, n) == AllParts(b, n)
  {
    if n > 0 {
      assert a[..n - 1] == a[..n][..n - 1] == b[..n - 1];
      assert a[n - 1] == a[..n][n - 1] == b[n - 1];
      AllSame(a, b, n - 1);
    }
  }

  lemma AllOne(d: Device)
    ensures All([d]) == d.parts
  {
    assert AllParts([d], 0) == [];
  }

  /** The concatenation around the device at position i. */
  lemma AllAround(devices: seq<Device>, i: nat)
    requires i < |devices|
    ensures All(devices) == All(devices[..i]) + devices[i].parts + All(devices[i + 1..])
    ensures |All(devices[..i])| == PartsBefore(devices, i)
  {
    hide AllParts, PartsBefore;
    var before, one, after := devices[..i], [devices[i]], devices[i + 1..];
    assert devices == before + (one + after);
    AllSplit(before, one + after);
    AllSplit(one, after);
    AllOne(devices[i]);
    assert All(before) + (devices[i].parts + All(after)) == All(before) + devices[i].parts + All(after);
    AllPrefix(devices, i);
    AllPartsLen(devices, i);
  }

  /** part_del takes exactly its partition out of the concatenation of all lists. */
  lemma PartDelTakes(s: Session, i: nat, k: nat)
    requires i < |s.devices| && k < |s.devices[i].parts|
    ensures PartsBefore(s.devices, i) + k < |All(s.devices)|
    ensures All(PartDel(s, i, k).devices) == Without(All(s.devices), PartsBefore(s.devices, i) + k)
  {
    hide PartDel, AllParts, PartsBefore;
    var d := s.devices[i];
    var before, after := s.devices[..i], s.devices[i + 1..];
    AllAround(s.devices, i);
    PartDelDevices(s, i, k);
    var left := d.parts[..k] + d.parts[k + 1..];
    if |d.parts| == 1 {
      AllSplit(before, after);
      assert left == [];
    } else {
      var t := s.devices[i := d.(parts := left)];
      AllAround(t, i);
      assert t[..i] == before && t[i + 1..] == after;
    }
    TakenOut(All(before), d.parts, All(after), k);
    assert All(before) + left + All(after) == All(before) + (left + All(after));
  }

  lemma TakenOut(a: seq<Part>, b: seq<Part>, c: seq<Part>, k: nat)
    requires k < |b|
    ensures |a| + k < |a + b + c|
    ensures Without(a + b + c, |a| + k) == a + (b[..k] + b[k + 1..]) + c
  {
  }

  /**
   `mtdparts del` takes exactly the partition that its argument calls out of the
   concatenation of all lists, and does nothing when it calls none.
   */
  lemma DelRemovesCalled(ids: seq<MtdId>, s: Session, id: string)
    requires Init(ids, s).1
    ensures var t, r := Init(ids, s).0, Step(ids, s, DelPart(id));
      match FindDevAndPart(t.devices, id)
      case None => r == t
      case Some((i, k)) =>
        && Called(t.devices, id, i, k) && PartsBefore(t.devices, i) + k < |All(t.devices)|
        && All(r.devices) == Without(All(t.devices), PartsBefore(t.devices, i) + k)
  {
    hide Init, FindDevAndPart, PartDel, GenerateSave, Called, AllParts, PartsBefore;
    var t := Init(ids, s).0;
    FindsCalled(t.devices, id);
    match FindDevAndPart(t.devices, id)
    case None =>
    case Some((i, k)) =>
      PartDelTakes(t, i, k);
      SavedDevices(PartDel(t, i, k));
  }

  /** `chpart` makes exactly the partition that its argument calls current; its number is a u8. */
  lemma ChpartChooses(ids: seq<MtdId>, s: Session, id: string)
    requires Inv(ids, s) && Init(ids, s).1
    ensures var t, r := Init(ids, s).0, Step(ids, s, Chpart(id));
      match FindDevAndPart(t.devices, id)
      case None => r == t
      case Some((i, k)) =>
        && Called(t.devices, id, i, k) && r.devices == t.devices
        && r.current == Some(t.devices[i].id)
        && FindDevice(r.devices, t.devices[i].id) == Some(i)
        && r.partnum == k % 256
        && (k < 256 ==> CurrentOk(r) && CurrentPart(r) == t.devices[i].parts[k])
  {
    hide Init, FindDevAndPart, Called, IndexPartitions, PartitionText, TableOk, HasChip, Tied;
    var t := Init(ids, s).0;
    InitInv(ids, s);
    FindsCalled(t.devices, id);
    match FindDevAndPart(t.devices, id)
    case None =>
    case Some((i, k)) => ChosenIs(ids, t, i, k);
  }

  lemma ChosenIs(ids: seq<MtdId>, t: Session, i: nat, k: nat)
    requires TableOk(ids, t.devices) && i < |t.devices| && k < |t.devices[i].parts|
    ensures var r := CurrentSave(t.(current := Some(t.devices[i].id), partnum := k % 256));
      && r.devices == t.devices && r.current == Some(t.devices[i].id) && r.partnum == k % 256
      && FindDevice(r.devices, t.devices[i].id) == Some(i)
      && (k < 256 ==> CurrentOk(r) && CurrentPart(r) == t.devices[i].parts[k])
  {
    hide IndexPartitions, CurrentSave, SameDevice, FindDevice, TableOk;
    SameSelf(t.devices[i].id);
    FindDeviceIs(ids, t.devices, i, t.devices[i].id);
    var u := t.(current := Some(t.devices[i].id), partnum := k % 256);
    SavesOnly(u);
    SavesPlace(u);
  }

  lemma SavesPlace(s: Session)
    ensures CurrentSave(s).current == s.current && CurrentSave(s).partnum == s.partnum
    ensures IndexPartitions(s).current == s.current && IndexPartitions(s).partnum == s.partnum
  {
    hide FindDevice, PartsBefore, PartitionText;
  }

  /**
   After a parse the partition variable, if it calls a partition and is not what
   was saved for the first one, makes that one current; otherwise the first
   partition of the first device is.
   */
  lemma InitChooses(ids: seq<MtdId>, s: Session)
    requires s.env.mtdparts.Some? && MustParse(s, s.env.mtdparts.value) && Init(ids, s).1
    ensures var r, t := Init(ids, s).0, ParseTable(ids, s.env.mtdparts.value);
      && t.Some? && t.value != [] && r.devices == t.value
      && var wanted := s.env.partition;
         var first := PartitionText(t.value[0].id, 0);
         if wanted.Some? && wanted.value != "" && wanted.value != first
            && FindDevAndPart(t.value, wanted.value).Some? then
           var (i, k) := FindDevAndPart(t.value, wanted.value).value;
           Called(t.value, wanted.value, i, k) && r.current == Some(t.value[i].id) && r.partnum == k % 256
         else r.current == Some(t.value[0].id) && r.partnum == 0
  {
    hide ParseTable, FindDevAndPart, IndexPartitions, PartitionText, MustParse, Called;
    var parts, known := s.env.mtdparts.value, s.(idsKnown := true);
    var t := ParseTable(ids, parts).value;
    var u := DevicesInit(known).(devices := t, lastParts := parts, current := Some(t[0].id), partnum := 0);
    var text := PartitionText(t[0].id, 0);
    IndexKeeps(u.(lastPartition := text, env := u.env.(partition := Some(text))));
    var r := Reparse(ids, known, parts).0;
    if s.env.partition.Some? {
      FindsCalled(t, s.env.partition.value);
      match FindDevAndPart(t, s.env.partition.value)
      case None =>
      case Some((i, k)) =>
        SavesPlace(r.(current := Some(t[i].id), partnum := k % 256));
        SavesOnly(r.(current := Some(t[i].id), partnum := k % 256));
    }
  }

  lemma IndexKeeps(s: Session)
    ensures var r := IndexPartitions(s);
      r == s.(env := s.env.(mtddevnum := r.env.mtddevnum, mtddevname := r.env.mtddevname))
  {
    hide FindDevice, PartsBefore;
  }

  // --------------------------------------------------------------------
  // What `add` makes of its arguments
  // --------------------------------------------------------------------

  /** The device with that type and number is the one at position i. */
  predicate IsKnown(devices: seq<Device>, id: MtdId, i: nat) {
    && i < |devices| && SameDevice(devices[i].id, id)
    && forall j :: 0 <= j < i ==> !SameDevice(devices[j].id, id)
  }

  /** Where a definition without offset starts: behind the last partition of its device, if the device is known. */
  ghost predicate StartsAt(devices: seq<Device>, id: MtdId, start: nat) {
    && ((forall i: nat :: !IsKnown(devices, id, i)) ==> start == 0)
    && forall i: nat | IsKnown(devices, id, i) ::
         devices[i].parts != [] &&
         var last := devices[i].parts[|devices[i].parts| - 1];
         start == (last.offset + last.size) % ULONG
  }

  lemma StartIs(devices: seq<Device>, id: MtdId, start: nat)
    requires StartsAt(devices, id, start)
    ensures StartOffset(devices, id) == start
  {
    hide SameDevice, FindDevice;
    var f := FindDevice(devices, id);
    assert f.Some? ==> IsKnown(devices, id, f.value);
  }

  /** The arguments of an `add` of n units at an offset or behind the last partition. */
  function AddArgsOf(id: MtdId, n: nat, suffix: char, d: Spec): AddArgs
    requires n < ULONG && d.name.Some?
  {
    var at := if d.offset.Some? then "@" + MemSizeFormat(d.offset.value) else "";
    AddArgs(TypeName(id.devType) + Format(id.num, 10), Format(n, 10) + ([suffix] + at), d.name.value,
            if d.ro then Some("ro") else None, false)
  }

  lemma AddTextIs(id: MtdId, n: nat, suffix: char, d: Spec)
    requires n < ULONG && d.name.Some?
    ensures AddText(id, AddArgsOf(id, n, suffix, d)) ==
      id.mtdId + (":" + (Format(n, 10) + ([suffix] + SpecTail(d, ""))))
  {
    hide Format, MemSizeFormat, SpecTail, TypeName;
    var at := if d.offset.Some? then "@" + MemSizeFormat(d.offset.value) else "";
    var flags := if d.ro then "ro" else "";
    var named := "(" + (d.name.value + (")" + flags));
    TailText(d, at, flags);
    Regrouped(Format(n, 10), [suffix], at, named);
  }

  lemma TailText(d: Spec, at: string, flags: string)
    requires d.name.Some? && flags == (if d.ro then "ro" else "")
    requires at == if d.offset.Some? then "@" + MemSizeFormat(d.offset.value) else ""
    ensures SpecTail(d, "") == at + ("(" + (d.name.value + (")" + flags)))
  {
    hide MemSizeFormat;
  }

  lemma Regrouped(a: string, b: string, c: string, d: string)
    ensures (a + (b + c)) + d == a + (b + (c + d))
  {
  }

  /** The length that is tested is that of the description, as far as a u8 holds it. */
  lemma AddLenIs(id: MtdId, a: AddArgs)
    requires a.ro.Some? ==> |a.ro.value| == 2
    ensures AddLen(id, a) == |AddText(id, a)| % 256
  {
  }

  /**
   `mtdparts add` makes one partition of the size, offset, name and flag that its
   arguments say, exactly when such a partition is valid on the device.
   */
  lemma AddResult(ids: seq<MtdId>, devices: seq<Device>, id: MtdId, n: nat, suffix: char, d: Spec, start: nat, p: Part)
    requires n < ULONG && IsSuffix(suffix) && SpecOk(d) && d.name.Some? && id.num < 256 && id.size < ULONG
    requires IdOf(ids, id.devType, id.num) == Some(id) && FindId(ids, id.mtdId) == Some(id) && ':' !in id.mtdId
    requires id.flash.Some? && StartsAt(devices, id, start)
    requires |AddText(id, AddArgsOf(id, n, suffix, d))| < PART_ADD_DESC_MAXLEN
    ensures var size := n * UnitOf(suffix) % ULONG;
      AddDevice(ids, devices, AddArgsOf(id, n, suffix, d)) == Some(Device(id, [p])) <==>
      size >= MIN_PART_SIZE && ResolvesTo(id, SpecPart(d, size), start, p)
  {
    hide Format, MtdIdParse, DeviceParse, StartsAt, SpecTail, SpecPart, ResolvesTo, MemSizeFormat, UnitOf, IdOf, FindId;
    var a := AddArgsOf(id, n, suffix, d);
    StartIs(devices, id, start);
    AddTextIs(id, n, suffix, d);
    AddLenIs(id, a);
    MtdIdParseText(id, "");
    assert TypeName(id.devType) + (Format(id.num, 10) + "") == a.dev;
    OneDefinition(ids, devices, id, n, suffix, d, start, p);
  }

  lemma OneDefinition(ids: seq<MtdId>, devices: seq<Device>, id: MtdId, n: nat, suffix: char, d: Spec,
      start: nat, p: Part)
    requires n < ULONG && IsSuffix(suffix) && SpecOk(d) && id.size < ULONG
    requires FindId(ids, id.mtdId) == Some(id) && ':' !in id.mtdId && StartOffset(devices, id) == start
    ensures var size := n * UnitOf(suffix) % ULONG;
      var r := DeviceParse(ids, devices, id.mtdId + (":" + (Format(n, 10) + ([suffix] + SpecTail(d, "")))));
      && (r == Some((Device(id, [p]), "")) <==>
          size >= MIN_PART_SIZE && ResolvesTo(id, SpecPart(d, size), start, p))
      && (r.Some? ==> r.value.0.id == id && |r.value.0.parts| == 1 && r.value.1 == "")
  {
    hide Format, SpecTail, PartParse, ResolvesTo, ParseParts, SortInsertAll, UnitOf, StartOffset, AutoName;
    var def := Format(n, 10) + ([suffix] + SpecTail(d, ""));
    var s := id.mtdId + (":" + def);
    FirstIndexOf(id.mtdId, ':', def);
    assert [':'] + def == ":" + def;
    assert s[..|id.mtdId|] == id.mtdId && s[|id.mtdId| + 1..] == def;
    SizedText(n, suffix, d, "");
    StartSmall(devices, id);
    OneRaw(def);
    ParsePartsIff(id, def, start, [p], "");
    Alone(p);
    if ParseParts(id, def, start).Some? {
      var (parts, left) := ParseParts(id, def, start).value;
      ParsePartsIff(id, def, start, parts, left);
      var raw := RawParts(def).value.0;
      ResolvedLen(id, raw, start, parts);
      assert parts == [parts[0]];
      Alone(parts[0]);
    }
  }

  lemma StartSmall(devices: seq<Device>, id: MtdId)
    ensures StartOffset(devices, id) < ULONG
  {
    hide FindDevice;
  }

  lemma OneRaw(def: string)
    requires def != "" && def[0] != ';'
    ensures PartParse(def).None? ==> RawParts(def).None?
    ensures PartParse(def).Some? && PartParse(def).value.1 == "" ==>
      RawParts(def) == Some(([PartParse(def).value.0], ""))
  {
    hide PartParse;
    assert RawParts("") == Some(([], ""));
    if PartParse(def).Some? {
      assert [PartParse(def).value.0] + [] == [PartParse(def).value.0];
    }
  }

  lemma Alone(p: Part)
    ensures SortInsertAll([p], []) == Some([p])
  {
    assert InsertPos([], p.offset) == 0;
    assert [] + [p] + [] == [p] && [p][1..] == [];
  }
}
