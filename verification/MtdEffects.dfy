/**
 What each command of cmd_mtdparts.c leaves behind as a whole: the partitions in
 the table, the text that is saved, the partition variable, and the state after
 the table was thrown away.
 */
module MtdEffects {
  import opened Option
  import opened Numerals
  import opened MtdTable
  import opened MtdSpread
  import opened MtdSession
  import opened MtdRoundTrip
  import opened MtdRuns
  import opened MtdTracking
  import opened MtdPlacement
  import opened MtdGrammar
  import opened MtdLookup

  // --------------------------------------------------------------------
  // The saved text
  // --------------------------------------------------------------------

  /** The text of the table is saved, or, when it does not fit, nothing is. */
  predicate Saved(s: Session) {
    var text := PrintTable(s.devices);
    if |text| < MTDPARTS_MAXLEN + |PREFIX| then
      s.lastParts == text && s.env.mtdparts == (if s.devices == [] then None else Some(text))
    else s.lastParts == "" && s.env.mtdparts == None
  }

  lemma SaveSaves(s: Session)
    ensures Saved(GenerateSave(s).0) && GenerateSave(s).0.devices == s.devices
    ensures GenerateSave(s).1 <==> |PrintTable(s.devices)| < MTDPARTS_MAXLEN + |PREFIX|
  {
    hide PrintDevices;
  }

  predicate Changes(c: Command) {
    c.AddPart? || c.DelPart? || c.SpreadTable?
  }

  /** Whenever add, del or spread changes the table, the text of the new one is saved. */
  lemma ChangeIsSaved(ids: seq<MtdId>, s: Session, c: Command)
    requires Inv(ids, s) && Changes(c)
    ensures var t, r := Init(ids, s).0, Step(ids, s, c);
      r.devices != t.devices ==> Saved(r)
  {
    hide Init, AddDevice, PartAdd, PartDel, DeviceAdd, FindDevAndPart, FindDevice, SpreadDevices, GenerateSave, Saved,
         TableWF, Tied, Add;
    var t := Init(ids, s).0;
    InitInv(ids, s);
    if c.AddPart? {
      AddIsSaved(ids, t, c.args);
    } else if c.DelPart? {
      if FindDevAndPart(t.devices, c.id).Some? {
        var (i, k) := FindDevAndPart(t.devices, c.id).value;
        SaveSaves(PartDel(t, i, k));
      }
    } else {
      SpreadKnown(ids, t.devices);
      SaveSaves(IndexPartitions(t.(devices := SpreadDevices(t.devices).0)));
    }
  }

  lemma AddIsSaved(ids: seq<MtdId>, s: Session, a: AddArgs)
    ensures var r := Add(ids, s, a).0; r.devices != s.devices ==> Saved(r)
  {
    hide AddDevice, PartAdd, DeviceAdd, FindDevice, GenerateSave, Saved;
    SavesOnly(s);
    if AddDevice(ids, s.devices, a).Some? {
      var d := AddDevice(ids, s.devices, a).value;
      var at := FindDevice(s.devices, d.id);
      if at.None? {
        SaveSaves(DeviceAdd(s, d));
      } else if d.parts != [] && PartAdd(s, at.value, d.parts[0]).Some? {
        SaveSaves(PartAdd(s, at.value, d.parts[0]).value);
      }
    }
  }

  lemma SpreadKnown(ids: seq<MtdId>, t: seq<Device>)
    requires TableWF(ids, t)
    ensures SpreadDevices(t).1
  {
    SpreadDevicesWF(ids, t);
  }

  /** Spreading goes through exactly when every device has a chip. */
  lemma {:induction false} SpreadDevicesIff(devices: seq<Device>)
    ensures SpreadDevices(devices).1 <==> forall i :: 0 <= i < |devices| ==> devices[i].id.flash.Some?
  {
    hide SpreadParts;
    if devices != [] {
      SpreadDevicesIff(devices[1..]);
      assert forall i :: 0 <= i < |devices[1..]| ==> devices[1..][i] == devices[i + 1];
    }
  }

  // --------------------------------------------------------------------
  // One partition more
  // --------------------------------------------------------------------

  /** The partitions of all devices, in no order. */
  function Bag(devices: seq<Device>): multiset<Part> {
    multiset(All(devices))
  }

  lemma BagOfDevice(devices: seq<Device>, i: nat, d: Device)
    requires i < |devices|
    ensures Bag(devices[i := d]) + multiset(devices[i].parts) == Bag(devices) + multiset(d.parts)
  {
    hide AllParts;
    var t := devices[i := d];
    AllAround(devices, i);
    AllAround(t, i);
    assert t[..i] == devices[..i] && t[i + 1..] == devices[i + 1..];
  }

  /** part_add adds exactly its partition, validated, to its device. */
  lemma PartAddAdds(s: Session, i: nat, p: Part)
    requires i < |s.devices| && PartAdd(s, i, p).Some?
    ensures Validate(s.devices[i].id, p).Some?
    ensures Bag(PartAdd(s, i, p).value.devices) == Bag(s.devices) + multiset{Validate(s.devices[i].id, p).value}
  {
    hide AllParts, SortInsert, Validate, Bag, PartAdd;
    PartAddDevices(s, i, p);
    var d, q := s.devices[i], Validate(s.devices[i].id, p).value;
    var e := d.(parts := SortInsert(d.parts, q).value);
    SortInsertSame(d.parts, q);
    BagOfDevice(s.devices, i, e);
    var t, were := s.devices[i := e], multiset(d.parts);
    assert PartAdd(s, i, p).value.devices == t;
    assert Bag(t) + were == Bag(s.devices) + (were + multiset{q});
    Cancel(Bag(t), Bag(s.devices), were, multiset{q});
  }

  lemma Cancel(a: multiset<Part>, b: multiset<Part>, c: multiset<Part>, d: multiset<Part>)
    requires a + c == b + (c + d)
    ensures a == b + d
  {
    forall x ensures a[x] == (b + d)[x] {
      assert (a + c)[x] == a[x] + c[x] && (b + (c + d))[x] == b[x] + c[x] + d[x];
    }
  }

  /** A validated partition finds its place unless it would be a second one at offset 0. */
  lemma PartAddIff(s: Session, i: nat, p: Part)
    requires i < |s.devices| && SortedByOffset(s.devices[i].parts)
    ensures PartAdd(s, i, p).Some? <==>
      && Validate(s.devices[i].id, p).Some?
      && !(p.offset == 0 && exists k :: 0 <= k < |s.devices[i].parts| && s.devices[i].parts[k].offset == 0)
  {
    hide Validate, CurrentSave, IndexPartitions, SortInsert, SortedByOffset, PartnumAfterInsert;
    if Validate(s.devices[i].id, p).Some? {
      SecondAtZero(s.devices[i].parts, Validate(s.devices[i].id, p).value);
    }
  }

  lemma SecondAtZero(parts: seq<Part>, p: Part)
    requires SortedByOffset(parts)
    ensures SortInsert(parts, p).None? <==> p.offset == 0 && exists k :: 0 <= k < |parts| && parts[k].offset == 0
  {
    if p.offset == 0 {
      assert InsertPos(parts, 0) == 0;
    }
  }

  /**
   `mtdparts add` adds exactly one partition: the one its arguments make, as a device
   of its own if the table does not have the device yet; and nothing when it is refused.
   */
  lemma AddAdds(ids: seq<MtdId>, s: Session, a: AddArgs, d: Device)
    requires AddDevice(ids, s.devices, a) == Some(d)
    ensures var (r, ok) := Add(ids, s, a);
      match FindDevice(s.devices, d.id)
      case None => r.devices == s.devices + [d] && (ok <==> |PrintTable(r.devices)| < MTDPARTS_MAXLEN + |PREFIX|)
      case Some(i) =>
        if d.parts != [] && PartAdd(s, i, d.parts[0]).Some? then
          var q := Validate(s.devices[i].id, d.parts[0]);
          && q.Some? && Bag(r.devices) == Bag(s.devices) + multiset{q.value}
          && (ok <==> |PrintTable(r.devices)| < MTDPARTS_MAXLEN + |PREFIX|)
        else r.devices == s.devices && !ok
  {
    hide AddDevice, PartAdd, DeviceAdd, FindDevice, GenerateSave, Bag, Validate;
    hide PrintTable;
    SavesOnly(s);
    match FindDevice(s.devices, d.id)
    case None =>
      DeviceAddKeeps(s, d);
      SaveSaves(DeviceAdd(s, d));
    case Some(i) =>
      if d.parts != [] && PartAdd(s, i, d.parts[0]).Some? {
        SaveSaves(PartAdd(s, i, d.parts[0]).value);
        PartAddAdds(s, i, d.parts[0]);
      }
  }

  // --------------------------------------------------------------------
  // Who the arguments of `add` mean
  // --------------------------------------------------------------------

  predicate IsId(ids: seq<MtdId>, t: DevType, num: nat, i: nat) {
    && i < |ids| && ids[i].devType == t && ids[i].num == num
    && forall j :: 0 <= j < i ==> !(ids[j].devType == t && ids[j].num == num)
  }

  /** id_find finds an id exactly when one has the type and number, and then the first one. */
  lemma {:induction false} IdOfIff(ids: seq<MtdId>, t: DevType, num: nat)
    ensures IdOf(ids, t, num).Some? ==>
      exists i: nat :: i < |ids| && IsId(ids, t, num, i) && ids[i] == IdOf(ids, t, num).value
    ensures forall i: nat :: i < |ids| && IsId(ids, t, num, i) ==> IdOf(ids, t, num) == Some(ids[i])
  {
    hide IsId;
    if ids != [] {
      IdOfIff(ids[1..], t, num);
      if IdOf(ids[1..], t, num).Some? {
        var i: nat :| i < |ids[1..]| && IsId(ids[1..], t, num, i) && ids[1..][i] == IdOf(ids[1..], t, num).value;
        IsIdNext(ids, t, num, i + 1);
      }
      IsIdNext(ids, t, num, 0);
      forall i: nat | i < |ids| && IsId(ids, t, num, i) ensures IdOf(ids, t, num) == Some(ids[i]) {
        IsIdNext(ids, t, num, i);
      }
    }
  }

  lemma IsIdNext(ids: seq<MtdId>, t: DevType, num: nat, i: nat)
    requires ids != []
    ensures i == 0 ==> (IsId(ids, t, num, i) <==> ids[0].devType == t && ids[0].num == num)
    ensures i > 0 ==>
      (IsId(ids, t, num, i) <==> IsId(ids[1..], t, num, i - 1) && !(ids[0].devType == t && ids[0].num == num))
    ensures i > 0 && i < |ids| ==> ids[1..][i - 1] == ids[i]
  {
    var more := ids[1..];
    assert forall j :: 0 <= j < |more| ==> more[j] == ids[j + 1];
    if i > 0 && IsId(more, t, num, i - 1) {
      assert forall j :: 1 <= j < i ==> ids[j] == more[j - 1];
    }
  }

  /** A description too long for the buffer is refused. */
  lemma LongRefused(ids: seq<MtdId>, devices: seq<Device>, a: AddArgs, id: MtdId)
    requires MtdIdParse(a.dev).Some? && (a.ro.Some? ==> |a.ro.value| == 2)
    requires IdOf(ids, MtdIdParse(a.dev).value.0, MtdIdParse(a.dev).value.1) == Some(id)
    requires |AddText(id, a)| % 256 >= 64
    ensures AddDevice(ids, devices, a).None?
  {
    hide MtdIdParse, IdOf, DeviceParse, AddText;
    AddLenIs(id, a);
  }

  /** `add.spread` spreads the partition that `add` makes. */
  lemma AddSpreads(ids: seq<MtdId>, devices: seq<Device>, a: AddArgs)
    requires a.spread
    ensures var plain, r := AddDevice(ids, devices, a.(spread := false)), AddDevice(ids, devices, a);
      if plain.None? then r.None?
      else
        var d := plain.value;
        && d.id.flash.Some? && d.parts != [] && r.Some? && r.value.parts != []
        && r.value == d.(parts := [r.value.parts[0]] + d.parts[1..])
        && (WholeBlocks(d.id.flash.value) && OnBlocks(d.id.flash.value, d.parts[0]) ==>
          WellSpread(d.id.flash.value, d.parts[0], r.value.parts[0], 0))
  {
    hide MtdIdParse, IdOf, DeviceParse, SpreadPart, WellSpread, WholeBlocks, OnBlocks;
    var plain := AddDevice(ids, devices, a.(spread := false));
    assert forall id :: AddText(id, a) == AddText(id, a.(spread := false));
    if plain.Some? {
      var d := plain.value;
      ZeroAligned(d.id.flash.value);
      if WholeBlocks(d.id.flash.value) && OnBlocks(d.id.flash.value, d.parts[0]) {
        SpreadPartOk(d.id.flash.value, d.parts[0], 0);
      }
    }
  }

  // --------------------------------------------------------------------
  // What is left when nothing is
  // --------------------------------------------------------------------

  /** No device, no current one, and no text or variable that says otherwise. */
  predicate Emptied(s: Session) {
    && s.devices == [] && s.current.None? && s.lastParts == "" && s.lastPartition == ""
    && s.env.partition.None? && s.env.mtddevnum.None? && s.env.mtddevname.None?
  }

  lemma InitEmpties(s: Session)
    ensures Emptied(DevicesInit(s)) && DevicesInit(s).env.mtdparts == s.env.mtdparts
  {
  }

  /** `delall` leaves nothing, whatever mtdparts_init made of the environment before. */
  lemma DelAllEmpties(ids: seq<MtdId>, s: Session)
    ensures var r := Step(ids, s, DelAll); Emptied(r) && r.env.mtdparts.None?
  {
    hide Init, DevicesInit, Emptied;
    var t := Init(ids, s).0;
    InitEmpties(t.(env := t.env.(mtdparts := None)));
  }

  /** A table whose text is no longer in the environment is thrown away; without one nothing is touched. */
  lemma UnsetEmpties(ids: seq<MtdId>, s: Session)
    requires s.env.mtdparts.None?
    ensures var (r, ok) := Init(ids, s);
      ok && r.env.mtdparts.None? && if s.lastParts != "" then Emptied(r) else r == s.(idsKnown := true)
  {
    hide DevicesInit, Emptied;
    InitEmpties(s.(idsKnown := true));
  }

  /** A text that is refused leaves no table at all. */
  lemma RefusedEmpties(ids: seq<MtdId>, s: Session)
    requires s.env.mtdparts.Some? && |s.env.mtdparts.value| < MTDPARTS_MAXLEN && MustParse(s, s.env.mtdparts.value)
    ensures var r, t := Init(ids, s), ParseTable(ids, s.env.mtdparts.value);
      t.None? || t.value == [] ==> Emptied(r.0) && !r.1
  {
    hide DevicesInit, Emptied, ParseTable, MustParse, FollowPartition;
    InitEmpties(s.(idsKnown := true));
  }

  // --------------------------------------------------------------------
  // The partition variable
  // --------------------------------------------------------------------

  /**
   A command that need not parse again still follows the partition variable: to the
   partition it calls, or, when it is not set, back to the current one.
   */
  lemma SkipFollows(ids: seq<MtdId>, s: Session)
    requires s.env.mtdparts.Some? && |s.env.mtdparts.value| < MTDPARTS_MAXLEN && !MustParse(s, s.env.mtdparts.value)
    ensures var (r, ok), wanted := Init(ids, s), s.env.partition;
      && ok && r.devices == s.devices
      && if wanted.Some? && wanted.value != "" && wanted.value != s.lastPartition
            && FindDevAndPart(s.devices, wanted.value).Some? then
           var (i, k) := FindDevAndPart(s.devices, wanted.value).value;
           && Called(s.devices, wanted.value, i, k) && r.current == Some(s.devices[i].id) && r.partnum == k % 256
           && r.env.partition == Some(PartitionText(s.devices[i].id, k % 256))
         else
           && r.current == s.current && r.partnum == s.partnum
           && r.env.partition ==
              if wanted.None? && s.current.Some? then Some(PartitionText(s.current.value, s.partnum)) else wanted
  {
    hide FindDevAndPart, IndexPartitions, PartitionText, MustParse, Called;
    var known := s.(idsKnown := true);
    TextSaved(known);
    SavesPlace(known);
    SavesOnly(known);
    if s.env.partition.Some? {
      FindsCalled(s.devices, s.env.partition.value);
      match FindDevAndPart(s.devices, s.env.partition.value)
      case None =>
      case Some((i, k)) =>
        var u := known.(current := Some(s.devices[i].id), partnum := k % 256);
        SavesPlace(u);
        SavesOnly(u);
        TextSaved(u);
    }
  }

  lemma TextSaved(s: Session)
    ensures CurrentSave(s).env.partition ==
      if s.current.Some? then Some(PartitionText(s.current.value, s.partnum)) else None
  {
    hide PartitionText, FindDevice, PartsBefore;
  }

  /** `setenv partition` and the next command: the partition it calls is current, with the table untouched. */
  lemma SetThenFollow(ids: seq<MtdId>, s: Session, text: string)
    requires s.env.mtdparts.Some? && |s.env.mtdparts.value| < MTDPARTS_MAXLEN && !MustParse(s, s.env.mtdparts.value)
    requires text != "" && text != s.lastPartition && FindDevAndPart(s.devices, text).Some?
    ensures var r := Step(ids, Step(ids, s, SetPartition(Some(text))), List);
      var (i, k) := FindDevAndPart(s.devices, text).value;
      && r.devices == s.devices && Called(s.devices, text, i, k)
      && r.current == Some(s.devices[i].id) && r.partnum == k % 256
  {
    hide FindDevAndPart, Init, Called, PartitionText, MustParse;
    var u := Step(ids, s, SetPartition(Some(text)));
    assert u == s.(env := s.env.(partition := Some(text)));
    assert MustParse(u, s.env.mtdparts.value) == MustParse(s, s.env.mtdparts.value) by { SameParse(s, u); }
    SkipFollows(ids, u);
  }

  lemma SameParse(s: Session, t: Session)
    requires s.lastParts == t.lastParts && s.idsKnown == t.idsKnown
    ensures forall parts :: MustParse(s, parts) == MustParse(t, parts)
  {
  }
}
