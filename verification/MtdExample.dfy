/**
 Concrete runs on one chip: a table is read from the environment and a partition
 is added behind it.
 */
module MtdExample {
  import opened Option
  import opened Numerals
  import opened MtdTable
  import opened MtdSession
  import opened MtdRoundTrip
  import opened MtdRuns
  import opened MtdTracking
  import opened MtdPlacement

  const CHIP := MtdId(Nand, 0, 0x1_0000, "a", Some(Flash(0x1_0000, 4096, [], None)))

  const ADD := AddArgs("nand0", "4k", "b", None, false)

  /** What `add` makes when the last partition ends at `end`. */
  function Added(end: nat): Part {
    Part("b", false, 4096, end, false)
  }

  function Table(parts: seq<Part>): seq<Device> {
    [Device(CHIP, parts)]
  }

  /** The last partition ends on a block inside the chip, and all begin before that. */
  predicate EndsAt(parts: seq<Part>, end: nat) {
    && parts != [] && PartEnd(parts[|parts| - 1]) == end
    && end % 4096 == 0 && 0 < end <= 0xF000
    && forall i :: 0 <= i < |parts| ==> parts[i].offset < end
  }

  lemma AddedOk(end: nat)
    requires end % 4096 == 0 && 0 < end <= 0xF000
    ensures Validate(CHIP, Added(end)) == Some(Added(end)) && WellNamed(Added(end))
  {
  }

  lemma FourK()
    ensures MemSizeFormat(4096) == "4k"
  {
    assert Units(4096) == (4, "k");
    assert Format(4, 10) == "4";
  }

  lemma PartText(prevEnd: nat, p: Part, tail: string)
    requires p.size == 4096 && p.offset == prevEnd && !p.autoName && !p.ro
    ensures PrintPart(prevEnd, p, tail) == "4k" + ("(" + (p.name + (")" + tail)))
  {
    FourK();
  }

  lemma AddedParses(parts: seq<Part>, end: nat)
    requires EndsAt(parts, end)
    ensures DeviceParse([CHIP], Table(parts), "a:4k(b)") == Some((Device(CHIP, [Added(end)]), ""))
  {
    hide ParseParts, PrintPart, SortInsertAll;
    var text, p := "a:4k(b)", Added(end);
    PartText(end, p, "");
    assert text[2..] == PrintPart(end, p, "");
    assert IndexOf(text, ':') == Some(1) by { FirstIndexOf("a", ':', "4k(b)"); assert "a" + ([':'] + "4k(b)") == text; }
    assert text[..1] == "a" && FindId([CHIP], "a") == Some(CHIP);
    assert StartOffset(Table(parts), CHIP) == end by { assert FindDevice(Table(parts), CHIP) == Some(0); }
    AddedOk(end);
    ParseLastPart(CHIP, end, p, "");
    AloneInserted(p);
  }

  lemma AloneInserted(p: Part)
    ensures SortInsertAll([p], []) == Some([p])
  {
    assert InsertPos([], p.offset) == 0;
    assert [] + [p] + [] == [p] && [p][1..] == [];
  }

  lemma AddMakes(parts: seq<Part>, end: nat)
    requires EndsAt(parts, end)
    ensures AddDevice([CHIP], Table(parts), ADD) == Some(Device(CHIP, [Added(end)]))
  {
    hide DeviceParse, MtdIdParse, Format, EndsAt;
    assert MtdIdParse("nand0") == Some((Nand, 0, "")) by {
      MtdIdParseText(CHIP, "");
      ZeroText();
      assert "nand" + ("0" + "") == "nand0";
    }
    assert IdOf([CHIP], Nand, 0) == Some(CHIP);
    assert AddText(CHIP, ADD) == "a:4k(b)";
    AddedParses(parts, end);
  }

  lemma ZeroText()
    ensures Format(0, 10) == "0"
  {
  }

  lemma {:induction false} InsertBehind(parts: seq<Part>, offset: nat)
    requires forall i :: 0 <= i < |parts| ==> parts[i].offset < offset
    ensures InsertPos(parts, offset) == |parts|
  {
    if parts != [] {
      InsertBehind(parts[1..], offset);
    }
  }

  lemma AddedFits(s: Session, parts: seq<Part>, end: nat)
    requires s.devices == Table(parts) && EndsAt(parts, end)
    ensures PartAdd(s, 0, Added(end)).Some? && PartAdd(s, 0, Added(end)).value.idsKnown == s.idsKnown
    ensures PartAdd(s, 0, Added(end)).value.devices == Table(parts + [Added(end)])
  {
    var p := Added(end);
    AddedOk(end);
    InsertBehind(parts, end);
    assert parts[..|parts|] + [p] + parts[|parts|..] == parts + [p];
    assert SortInsert(parts, p) == Some(parts + [p]);
    PartAddDevices(s, 0, p);
  }

  /** The longest text that is still saved. */
  predicate Saved(t: seq<Device>) {
    |PrintTable(t)| <= MTDPARTS_MAXLEN - 1 + |PREFIX|
  }

  lemma AddGives(s: Session, parts: seq<Part>, end: nat)
    requires s.devices == Table(parts) && EndsAt(parts, end) && Saved(Table(parts + [Added(end)]))
    ensures var (r, ok) := Add([CHIP], s, ADD);
      var t := Table(parts + [Added(end)]);
      && ok && r.devices == t && r.idsKnown == s.idsKnown
      && r.env.mtdparts == Some(PrintTable(t)) && r.lastParts == PrintTable(t) != ""
  {
    hide AddDevice, PartAdd, PrintDevices, EndsAt;
    AddMakes(parts, end);
    assert FindDevice(s.devices, CHIP) == Some(0);
    AddedFits(s, parts, end);
    assert Add([CHIP], s, ADD) == GenerateSave(PartAdd(s, 0, Added(end)).value);
  }

  lemma InitGives(text: string, parts: seq<Part>)
    requires ParseTable([CHIP], text) == Some(Table(parts)) && |text| <= MTDPARTS_MAXLEN - 1
    ensures var s := BOOT.(env := BOOT.env.(mtdparts := Some(text)));
      Init([CHIP], s).1 && Init([CHIP], s).0.devices == Table(parts) && Init([CHIP], s).0.idsKnown
  {
    hide ParseTable;
  }

  /** The run: set the variable, then `mtdparts add nand0 4k b`. */
  lemma AddRun(text: string, parts: seq<Part>, end: nat)
    requires ParseTable([CHIP], text) == Some(Table(parts)) && |text| <= MTDPARTS_MAXLEN - 1
    requires EndsAt(parts, end) && Saved(Table(parts + [Added(end)]))
    ensures var s := Run([CHIP], BOOT, [SetMtdparts(Some(text)), AddPart(ADD)]);
      var t := Table(parts + [Added(end)]);
      s.devices == t && s.idsKnown && s.env.mtdparts == Some(PrintTable(t)) && s.lastParts == PrintTable(t) != ""
  {
    hide PrintTable, Init, Add, EndsAt, Saved, ParseTable;
    var commands := [SetMtdparts(Some(text)), AddPart(ADD)];
    var s1 := BOOT.(env := BOOT.env.(mtdparts := Some(text)));
    InitGives(text, parts);
    AddGives(Init([CHIP], s1).0, parts, end);
    assert commands[1..] == [AddPart(ADD)] && commands[1..][1..] == [];
    assert Step([CHIP], BOOT, commands[0]) == s1;
    assert Run([CHIP], s1, [AddPart(ADD)]) == Step([CHIP], s1, AddPart(ADD)) by {
      assert Run([CHIP], Step([CHIP], s1, AddPart(ADD)), []) == Step([CHIP], s1, AddPart(ADD));
    }
  }

  // --------------------------------------------------------------------
  // Two partitions at one offset
  // --------------------------------------------------------------------

  function Shared(name: string): Part {
    Part(name, false, 4096, 8192, false)
  }

  lemma SharedOk()
    ensures TableOk([CHIP], Table([Shared("x"), Shared("y")])) && TableFitting(Table([Shared("x"), Shared("y")]))
  {
    hide Validate;
    SharedValid("x");
    SharedValid("y");
  }

  lemma SharedValid(name: string)
    ensures Validate(CHIP, Shared(name)) == Some(Shared(name))
  {
  }

  lemma SharedRebuilt()
    ensures Rebuilt([Shared("x"), Shared("y")]) == Some([Shared("y"), Shared("x")])
  {
    hide SortInsert, AutoName;
    var x, y := Shared("x"), Shared("y");
    assert [x, y][1..] == [y] && [y][1..] == [];
    assert RereadAll(PartEnd(x), [y]) == [y] && RereadAll(0, [x, y]) == [x, y];
    LinkedFirst([], x);
    LinkedFirst([x], y);
    assert [x] + [] == [x] && [y] + [x] == [y, x];
    assert SortInsertAll([], [y, x]) == Some([y, x]);
    assert SortInsertAll([y], [x]) == Some([y, x]);
  }

  /** A partition that does not start behind the first one goes in front of it. */
  lemma LinkedFirst(parts: seq<Part>, p: Part)
    requires p.offset > 0 && (parts != [] ==> p.offset <= parts[0].offset)
    ensures SortInsert(parts, p) == Some([p] + parts)
  {
    assert parts[..0] + [p] + parts[0..] == [p] + parts;
  }

  lemma SharedParses()
    ensures ParseTable([CHIP], PrintTable(Table([Shared("x"), Shared("y")]))) == Some(Table([Shared("y"), Shared("x")]))
  {
    hide PrintTable, Rebuilt;
    var t := Table([Shared("x"), Shared("y")]);
    SharedOk();
    SharedRebuilt();
    ParseTableText([CHIP], t);
    assert t[1..] == [] && [] + [Device(CHIP, [Shared("y"), Shared("x")])] == Table([Shared("y"), Shared("x")]);
  }

  lemma EightK()
    ensures MemSizeFormat(8192) == "8k" && MemSizeFormat(4096) == "4k"
  {
    FourK();
    assert Units(8192) == (8, "k");
    assert Format(8, 10) == "8";
  }

  lemma SharedShort()
    ensures |PrintTable(Table([Shared("x"), Shared("y")]))| <= 100
    ensures |PrintTable(Table([Shared("y"), Shared("x"), Added(0x3000)]))| <= 100
  {
    hide MemSizeFormat;
    EightK();
    var x, y, b := Shared("x"), Shared("y"), Added(0x3000);
    assert [x, y][1..] == [y] && [y, x, b][1..] == [x, b] && [x, b][1..] == [b];
    assert |PrintPart(0x3000, y, "")| <= 10 && |PrintPart(0x3000, b, "")| <= 10;
    assert PrintParts(0x3000, [y], "") == PrintPart(0x3000, y, "");
    assert PrintParts(0x3000, [b], "") == PrintPart(0x3000, b, "");
    assert |PrintParts(0x3000, [x, b], "")| <= 25;
    assert |PrintParts(0, [x, y], "")| <= 30 && |PrintParts(0, [y, x, b], "")| <= 40;
  }

  /**
   Two validated partitions at offset 8192 and a third one added: the run leaves
   a cached text that, parsed again, swaps the first two.
   */
  lemma SharedOffsetsSwap()
    ensures var text := PrintTable(Table([Shared("x"), Shared("y")]));
      var s := Run([CHIP], BOOT, [SetMtdparts(Some(text)), AddPart(ADD)]);
      && s.devices == Table([Shared("y"), Shared("x"), Added(0x3000)])
      && s.env.mtdparts.Some? && !MustParse(s, s.env.mtdparts.value)
      && !Reproduces([CHIP], s.lastParts, s.devices)
  {
    hide PrintTable, ParseTable, Run, Reproduces, TablePrintable;
    var text := PrintTable(Table([Shared("x"), Shared("y")]));
    var parts := [Shared("y"), Shared("x")];
    var commands := [SetMtdparts(Some(text)), AddPart(ADD)];
    SharedParses();
    SharedShort();
    assert parts + [Added(0x3000)] == [Shared("y"), Shared("x"), Added(0x3000)];
    AddRun(text, parts, 0x3000);
    NotPrintable();
    CacheAgreementIff([CHIP], commands);
  }

  lemma NotPrintable()
    ensures !TablePrintable(Table([Shared("y"), Shared("x"), Added(0x3000)]))
  {
    var parts := [Shared("y"), Shared("x"), Added(0x3000)];
    var t := Table(parts);
    assert t[0].parts == parts;
    if SortedByOffset(parts) {
      FirstPositions(parts);
      assert Opposite(parts, 0) == 1;
    }
  }

  lemma FirstPositions(parts: seq<Part>)
    requires parts == [Shared("y"), Shared("x"), Added(0x3000)]
    ensures InsertPos(parts, 8192) == 0 && InsertPos(parts, 8193) == 2
  {
    assert parts[1..] == [Shared("x"), Added(0x3000)] && parts[1..][1..] == [Added(0x3000)];
    assert InsertPos([Added(0x3000)], 8193) == 0;
  }
}
