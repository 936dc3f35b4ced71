/**
 The length limit of the mtdparts text: generate_mtdparts counts without the
 nine characters of the prefix, mtdparts_init counts with them.
 */
module MtdLimit {
  import opened Option
  import opened Numerals
  import opened MtdTable
  import opened MtdSession
  import opened MtdRoundTrip
  import opened MtdRuns
  import opened MtdExample

  /**
   A text that was saved is accepted by the next mtdparts_init, if and only if it keeps to
   the limit with its prefix.
   */
  lemma SavedAcceptedIff(ids: seq<MtdId>, s: Session)
    requires s.idsKnown && GenerateSave(s).1 && PrintTable(s.devices) != ""
    ensures Init(ids, GenerateSave(s).0).1 <==> |PrintTable(s.devices)| <= MTDPARTS_MAXLEN - 1
  {
    hide PrintTable, FollowPartition;
  }

  // --------------------------------------------------------------------
  // A run that saves a text which is then refused
  // --------------------------------------------------------------------

  function FirstPart(name: string): Part {
    Part(name, false, 4096, 0, false)
  }

  lemma PartsText(name: string)
    ensures |PrintTable(Table([FirstPart(name)]))| == |name| + 15
    ensures |PrintTable(Table([FirstPart(name)] + [Added(4096)]))| == |name| + 21
  {
    hide PrintPart;
    var p, b := FirstPart(name), Added(4096);
    PartText(0, p, "");
    PartText(4096, b, "");
    PartText(0, p, "," + PrintPart(4096, b, ""));
    assert [p] + [b] == [p, b] && [p, b][1..] == [b];
    assert PrintParts(4096, [b], "") == PrintPart(4096, b, "");
  }

  lemma TextParses(name: string)
    requires IsUserName(name)
    ensures ParseTable([CHIP], PrintTable(Table([FirstPart(name)]))) == Some(Table([FirstPart(name)]))
  {
    hide PrintTable, Rebuilt;
    var p := FirstPart(name);
    var t := Table([p]);
    FirstOk(name);
    ParseTableText([CHIP], t);
    assert t[1..] == [] && [] + [t[0]] == t;
  }

  lemma FirstOk(name: string)
    requires IsUserName(name)
    ensures TableOk([CHIP], Table([FirstPart(name)])) && TableFitting(Table([FirstPart(name)]))
    ensures Rebuilt([FirstPart(name)]) == Some([FirstPart(name)])
  {
    hide AutoName, SortInsertAll;
    var p := FirstPart(name);
    assert [p][1..] == [] && RereadAll(0, [p]) == [p];
    AloneInserted(p);
  }

  /**
   A table read from a text within the limit, and one more partition: the new
   text is saved to the environment and then refused.
   */
  lemma SavedThenRefused(name: string)
    requires IsUserName(name) && 1003 <= |name| <= 1008
    ensures var text := PrintTable(Table([FirstPart(name)]));
      var s := Run([CHIP], BOOT, [SetMtdparts(Some(text)), AddPart(ADD)]);
      && |text| <= MTDPARTS_MAXLEN - 1 && s.devices == Table([FirstPart(name)] + [Added(4096)])
      && MTDPARTS_MAXLEN <= |PrintTable(s.devices)| <= MTDPARTS_MAXLEN + 8
      && s.env.mtdparts == Some(PrintTable(s.devices)) && !Init([CHIP], s).1
  {
    hide PrintTable, Init, Run, ParseTable;
    PartsText(name);
    TextParses(name);
    var text := PrintTable(Table([FirstPart(name)]));
    AddRun(text, [FirstPart(name)], 4096);
    TooLong([CHIP], Run([CHIP], BOOT, [SetMtdparts(Some(text)), AddPart(ADD)]));
  }

  lemma TooLong(ids: seq<MtdId>, s: Session)
    requires s.env.mtdparts.Some? && |s.env.mtdparts.value| > MTDPARTS_MAXLEN - 1
    ensures Init(ids, s) == (s, false)
  {
  }
}
