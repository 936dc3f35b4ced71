/**
 The loops of common/cmd_flash.c over banks and sectors, filling the s_first
 and s_last arrays. FlashRange says what they compute and what that means.
 */
module FlashCommands {
  import opened Machine
  import opened Option
  import opened FlashRange
  import opened Sequences

  /** flash_sect_roundb. */
  method SectRoundB(banks: seq<Bank>, addr: nat) returns (r: Option<int>)
    ensures r == RoundB(banks, addr)
  {
    hide SectorEnd;
    var bank := 0;
    assert banks[bank..] == banks;
    while bank < |banks|
      invariant 0 <= bank <= |banks|
      invariant RoundB(banks[bank..], addr) == RoundB(banks, addr)
    {
      var b := banks[bank];
      assert banks[bank..][0] == b && banks[bank..][1..] == banks[bank + 1..];
      var i: nat := 0;
      while i < |b.start|
        invariant i <= |b.start|
        invariant SectorOf(b, i, addr) == SectorOf(b, 0, addr)
      {
        if InSector(b, i, addr) {
          return Some(SectorEnd(b, i));
        }
        i := i + 1;
      }
      bank := bank + 1;
    }
    r := None;
  }

  /** The sector loop: which sectors of a bank start and end the request; -1 for none. */
  method FindSectors(b: Bank, first: nat, last: nat) returns (sf: int, sl: int)
    requires BankOk(b) && first <= last
    ensures sf == (match StartAt(b, 0, first) case Some(i) => i case None => -1)
    ensures sl == (match EndAt(b, 0, last) case Some(i) => i case None => -1)
  {
    hide StartAt, EndAt;
    sf, sl := -1, -1;
    var sect: nat := 0;
    while sect < |b.start|
      invariant sect <= |b.start|
      invariant -1 <= sf < sect && -1 <= sl < sect
      invariant sf == -1 ==> forall j :: 0 <= j < sect ==> b.start[j] != first
      invariant sf >= 0 ==> b.start[sf] == first
      invariant sl == -1 ==> forall j :: 0 <= j < sect ==> SectorEnd(b, j) != last
      invariant sl >= 0 ==> SectorEnd(b, sl) == last
    {
      var end := SectorEnd(b, sect);
      SectorEndOrder(b, sect, sect);
      if first <= end && b.start[sect] <= last {
        if first == b.start[sect] {
          sf := sect;
        }
        if last == end {
          sl := sect;
        }
      }
      sect := sect + 1;
    }
    OneStart(b, first, sf);
    OneEnd(b, last, sl);
  }

  lemma OneStart(b: Bank, a: nat, i: int)
    requires BankOk(b) && -1 <= i < |b.start|
    requires if i == -1 then forall j :: 0 <= j < |b.start| ==> b.start[j] != a else b.start[i] == a
    ensures i == match StartAt(b, 0, a) case Some(k) => k case None => -1
  {
    hide StartAt;
  }

  lemma OneEnd(b: Bank, a: nat, i: int)
    requires BankOk(b) && -1 <= i < |b.start|
    requires if i == -1 then forall j :: 0 <= j < |b.start| ==> SectorEnd(b, j) != a else SectorEnd(b, i) == a
    ensures i == match EndAt(b, 0, a) case Some(k) => k case None => -1
  {
    hide EndAt;
    var r := EndAt(b, 0, a);
    if r.Some? && i >= 0 {
      if r.value < i {
        SectorEndOrder(b, r.value, i);
        SectorEndOrder(b, i, i);
      } else if i < r.value {
        SectorEndOrder(b, i, r.value);
        SectorEndOrder(b, r.value, r.value);
      }
    }
  }

  /** What one bank means for the request. */
  method Pick(b: Bank, first: nat, last: nat) returns (p: FlashRange.Pick)
    requires BankOk(b) && b.start != [] && first <= last
    ensures p == PickBank(b, first, last)
  {
    hide StartAt, EndAt;
    var sf, sl := FindSectors(b, first, last);
    if sf >= 0 {
      if sl < 0 {
        if last > BankEnd(b) {
          sl := |b.start| - 1;
        } else {
          return Stop;
        }
      }
      if sl < sf {
        return Stop;
      }
      return Take(sf, sl, (SectorEnd(b, sl) + 1) % ULONG);
    }
    if first >= b.start[0] && first < BankEnd(b) {
      return Stop;
    }
    if sl >= 0 {
      return Stop;
    }
    return Pass;
  }

  /** s_first and s_last of a bank. */
  predicate Encodes(sFirst: int, sLast: int, r: Range) {
    match r
    case Skip => sFirst == -1 && sLast == -1
    case Sectors(f, l) => sFirst == f && sLast == l
  }

  lemma JoinedAhead(done: seq<Range>, r: Range, rest: Option<seq<Range>>)
    ensures Joined(done, Ahead(r, rest)) == Joined(done + [r], rest)
  {
    match rest
    case None =>
    case Some(ranges) => assert done + ([r] + ranges) == (done + [r]) + ranges;
  }

  /** One bank of flash_fill_sect_ranges. */
  function BankStep(b: Bank, first: nat, last: nat): FlashRange.Pick
    requires BankOk(b)
  {
    if b.start == [] then Pass else PickBank(b, first, last)
  }

  function RangeOf(p: FlashRange.Pick): Range {
    if p.Take? then Sectors(p.first, p.last) else Skip
  }

  lemma SelectStep(banks: seq<Bank>, first: nat, last: nat)
    requires BanksOk(banks) && banks != [] && first <= last
    ensures BankOk(banks[0]) && BanksOk(banks[1..])
    ensures var p := BankStep(banks[0], first, last);
            Select(banks, first, last) ==
            if p.Stop? then None else Ahead(RangeOf(p), Select(banks[1..], if p.Take? then p.next else first, last))
  {
    hide PickBank, Disjoint;
    BanksRest(banks);
    assert BankOk(banks[0]);
  }

  method Step(b: Bank, first: nat, last: nat) returns (p: FlashRange.Pick)
    requires BankOk(b) && first <= last
    ensures p == BankStep(b, first, last)
    ensures RangeOk(b, RangeOf(p))
  {
    hide PickBank;
    p := Pass;
    if b.known {
      p := Pick(b, first, last);
    }
  }

  method Clear(sFirst: array<int>, sLast: array<int>)
    requires sFirst.Length == sLast.Length && sFirst != sLast
    modifies sFirst, sLast
    ensures forall i :: 0 <= i < sFirst.Length ==> sFirst[i] == -1 && sLast[i] == -1
  {
    var bank := 0;
    while bank < sFirst.Length
      invariant 0 <= bank <= sFirst.Length
      invariant forall i :: 0 <= i < bank ==> sFirst[i] == -1 && sLast[i] == -1
    {
      sFirst[bank] := -1;
      sLast[bank] := -1;
      bank := bank + 1;
    }
  }

  /** flash_fill_sect_ranges. */
  method FillSectRanges(banks: seq<Bank>, first0: nat, last: nat, sFirst: array<int>, sLast: array<int>)
    returns (rcode: int, count: nat)
    requires BanksOk(banks) && sFirst.Length == sLast.Length == |banks| && sFirst != sLast
    modifies sFirst, sLast
    ensures rcode == 0 <==> Select(banks, first0, last).Some?
    ensures rcode == 0 ==>
      forall i :: 0 <= i < |banks| ==> Encodes(sFirst[i], sLast[i], Select(banks, first0, last).value[i])
    ensures rcode == 0 ==> count == Count(Select(banks, first0, last).value)
  {
    hide BankStep, BankOk, Disjoint, Select, Joined, Count;
    Clear(sFirst, sLast);
    var bank := 0;
    count, rcode := 0, 0;
    var first: nat := first0;
    ghost var done: seq<Range> := [];
    ghost var target := Select(banks, first0, last);
    assert banks[0..] == banks;
    JoinedNothing(target);
    CountNothing();
    while bank < |banks| && first <= last
      invariant 0 <= bank <= |banks| && |done| == bank
      invariant BanksOk(banks[bank..])
      invariant forall i :: 0 <= i < bank ==> RangeOk(banks[i], done[i]) && Encodes(sFirst[i], sLast[i], done[i])
      invariant forall i :: bank <= i < |banks| ==> sFirst[i] == -1 && sLast[i] == -1
      invariant Joined(done, Select(banks[bank..], first, last)) == target
      invariant count == Count(done)
      decreases |banks| - bank
    {
      var b := banks[bank];
      assert banks[bank..][0] == b && banks[bank..][1..] == banks[bank + 1..];
      SelectStep(banks[bank..], first, last);
      var p := Step(b, first, last);
      if p.Stop? {
        assert target.None? by { JoinedNone(done); }
        return 1, count;
      }
      ghost var r := RangeOf(p);
      if p.Take? {
        sFirst[bank], sLast[bank] := p.first, p.last;
        count := count + (p.last - p.first + 1);
        first := p.next;
      }
      CountSnoc(done, r);
      JoinedAhead(done, r, Select(banks[bank + 1..], first, last));
      done := done + [r];
      bank := bank + 1;
    }
    ghost var left := banks[bank..];
    SelectRest(left, first, last);
    CountSkips(done, |left|);
    JoinedSome(done, Skips(|left|));
  }

  lemma CountNothing()
    ensures Count([]) == 0
  {
  }

  lemma JoinedNone(done: seq<Range>)
    ensures Joined(done, None) == None
  {
  }

  lemma JoinedSome(done: seq<Range>, rest: seq<Range>)
    ensures Joined(done, Some(rest)) == Some(done + rest)
  {
  }

  lemma SelectRest(banks: seq<Bank>, first: nat, last: nat)
    requires (forall i :: 0 <= i < |banks| ==> BankOk(banks[i])) && (banks == [] || first > last)
    ensures Select(banks, first, last) == Some(Skips(|banks|))
  {
    assert banks == [] ==> Skips(|banks|) == [];
  }

  lemma {:induction false} CountSnoc(ranges: seq<Range>, r: Range)
    requires forall i :: 0 <= i < |ranges| ==> ranges[i].Sectors? ==> ranges[i].first <= ranges[i].last
    requires r.Sectors? ==> r.first <= r.last
    ensures Count(ranges + [r]) == Count(ranges) + (if r.Sectors? then r.last - r.first + 1 else 0)
  {
    if ranges == [] {
      assert [r][1..] == [];
    } else {
      assert (ranges + [r])[1..] == ranges[1..] + [r];
      CountSnoc(ranges[1..], r);
    }
  }

  lemma {:induction false} CountSkips(ranges: seq<Range>, n: nat)
    requires forall i :: 0 <= i < |ranges| ==> ranges[i].Sectors? ==> ranges[i].first <= ranges[i].last
    ensures Count(ranges + Skips(n)) == Count(ranges)
    decreases n
  {
    if n == 0 {
      assert ranges + Skips(0) == ranges;
    } else {
      assert ranges + Skips(n) == (ranges + Skips(n - 1)) + [Skip];
      CountSkips(ranges, n - 1);
      CountSnoc(ranges + Skips(n - 1), Skip);
    }
  }

  /** flash_erase calls: bank, first and last sector. */
  datatype EraseCall = EraseCall(bank: nat, first: nat, last: nat)

  /** The calls flash_sect_erase makes from bank i on, until one fails. */
  function Calls(ranges: seq<Range>, results: seq<int>, i: nat): seq<EraseCall>
    requires i <= |ranges| == |results|
    decreases |ranges| - i
  {
    if i == |ranges| then []
    else if ranges[i].Skip? then Calls(ranges, results, i + 1)
    else
      [EraseCall(i, ranges[i].first, ranges[i].last)] + (if results[i] == 0 then Calls(ranges, results, i + 1) else [])
  }

  /** What the erase of these ranges returns: the first failure, 0 when there is none. */
  function FirstFailure(ranges: seq<Range>, results: seq<int>, i: nat): int
    requires i <= |ranges| == |results|
    decreases |ranges| - i
  {
    if i == |ranges| then 0
    else if ranges[i].Sectors? && results[i] != 0 then results[i]
    else FirstFailure(ranges, results, i + 1)
  }

  /** flash_sect_erase; `results` is what flash_erase returns for each bank. */
  method SectErase(banks: seq<Bank>, first: nat, last: nat, results: seq<int>)
    returns (rcode: int, calls: seq<EraseCall>)
    requires BanksOk(banks) && |results| == |banks|
    ensures Select(banks, first, last).None? ==> rcode != 0 && calls == []
    ensures Select(banks, first, last).Some? && Count(Select(banks, first, last).value) == 0 ==>
      rcode == 1 && calls == []
    ensures Select(banks, first, last).Some? && Count(Select(banks, first, last).value) > 0 ==>
            calls == Calls(Select(banks, first, last).value, results, 0)
            && rcode == FirstFailure(Select(banks, first, last).value, results, 0)
  {
    hide Select, Count, BankOk, Disjoint, Calls, FirstFailure;
    var sFirst, sLast := new int[|banks|], new int[|banks|];
    var planned;
    calls := [];
    rcode, planned := FillSectRanges(banks, first, last, sFirst, sLast);
    if rcode != 0 {
      return;
    }
    if planned == 0 {
      return 1, [];
    }
    rcode, calls := EraseBanks(Select(banks, first, last).value, sFirst, sLast, results);
  }

  /** The loop of flash_sect_erase. */
  method EraseBanks(ghost ranges: seq<Range>, sFirst: array<int>, sLast: array<int>, results: seq<int>)
    returns (rcode: int, calls: seq<EraseCall>)
    requires |ranges| == |results| == sFirst.Length == sLast.Length
    requires forall i :: 0 <= i < |ranges| ==> Encodes(sFirst[i], sLast[i], ranges[i])
    ensures calls == Calls(ranges, results, 0) && rcode == FirstFailure(ranges, results, 0)
  {
    hide SoFar;
    rcode, calls := 0, [];
    var bank := 0;
    NoneYet(ranges, results);
    while bank < |results| && rcode == 0
      invariant 0 <= bank <= |results| && SoFar(ranges, results, bank, rcode, calls)
      decreases |results| - bank
    {
      assert Encodes(sFirst[bank], sLast[bank], ranges[bank]);
      OneMore(ranges, results, bank, calls);
      if sFirst[bank] >= 0 {
        calls := calls + [EraseCall(bank, sFirst[bank], sLast[bank])];
        rcode := results[bank];
      }
      bank := bank + 1;
    }
    AllMade(ranges, results, bank, rcode, calls);
  }

  /** The calls made for the banks before i, and the failure that stopped them, 0 for none. */
  ghost predicate SoFar(ranges: seq<Range>, results: seq<int>, i: nat, rcode: int, calls: seq<EraseCall>)
    requires i <= |ranges| == |results|
  {
    && FirstFailure(ranges, results, 0) == (if rcode == 0 then FirstFailure(ranges, results, i) else rcode)
    && Calls(ranges, results, 0) == calls + if rcode == 0 then Calls(ranges, results, i) else []
  }

  lemma NoneYet(ranges: seq<Range>, results: seq<int>)
    requires |ranges| == |results|
    ensures SoFar(ranges, results, 0, 0, [])
  {
    hide Calls, FirstFailure;
    assert [] + Calls(ranges, results, 0) == Calls(ranges, results, 0);
  }

  lemma OneMore(ranges: seq<Range>, results: seq<int>, i: nat, calls: seq<EraseCall>)
    requires i < |ranges| == |results| && SoFar(ranges, results, i, 0, calls)
    ensures ranges[i].Skip? ==> SoFar(ranges, results, i + 1, 0, calls)
    ensures ranges[i].Sectors? ==>
      SoFar(ranges, results, i + 1, results[i], calls + [EraseCall(i, ranges[i].first, ranges[i].last)])
  {
    hide Calls, FirstFailure;
    CallsStep(ranges, results, i);
    if ranges[i].Sectors? {
      var call := EraseCall(i, ranges[i].first, ranges[i].last);
      var later := if results[i] == 0 then Calls(ranges, results, i + 1) else [];
      assert calls + ([call] + later) == (calls + [call]) + later;
    }
  }

  lemma AllMade(ranges: seq<Range>, results: seq<int>, i: nat, rcode: int, calls: seq<EraseCall>)
    requires i <= |ranges| == |results| && SoFar(ranges, results, i, rcode, calls) && (rcode != 0 || i == |ranges|)
    ensures calls == Calls(ranges, results, 0) && rcode == FirstFailure(ranges, results, 0)
  {
    hide Calls, FirstFailure;
    CallsEnd(ranges, results);
    assert calls + [] == calls;
  }

  lemma CallsStep(ranges: seq<Range>, results: seq<int>, i: nat)
    requires i < |ranges| == |results|
    ensures ranges[i].Skip? ==> Calls(ranges, results, i) == Calls(ranges, results, i + 1)
    ensures ranges[i].Skip? || results[i] == 0 ==>
      FirstFailure(ranges, results, i) == FirstFailure(ranges, results, i + 1)
    ensures ranges[i].Sectors? ==>
      var later := if results[i] == 0 then Calls(ranges, results, i + 1) else [];
      Calls(ranges, results, i) == [EraseCall(i, ranges[i].first, ranges[i].last)] + later
    ensures ranges[i].Sectors? && results[i] != 0 ==> FirstFailure(ranges, results, i) == results[i]
  {
  }

  lemma CallsEnd(ranges: seq<Range>, results: seq<int>)
    requires |ranges| == |results|
    ensures Calls(ranges, results, |results|) == [] && FirstFailure(ranges, results, |results|) == 0
  {
  }

  /** No selected bank from i up to k fails. */
  predicate AllErased(ranges: seq<Range>, results: seq<int>, i: nat, k: nat)
    requires k <= |ranges| == |results|
  {
    forall j :: i <= j < k && ranges[j].Sectors? ==> results[j] == 0
  }

  /**
   A selected bank is erased, with all its selected sectors, exactly when none before it
   fails; the first failure is reported.
   */
  lemma {:induction false} CallsIff(ranges: seq<Range>, results: seq<int>, i: nat)
    requires i <= |ranges| == |results|
    ensures forall c :: c in Calls(ranges, results, i) <==>
      i <= c.bank < |ranges| && ranges[c.bank] == Sectors(c.first, c.last) && AllErased(ranges, results, i, c.bank)
    ensures FirstFailure(ranges, results, i) == 0 <==> AllErased(ranges, results, i, |ranges|)
    ensures forall k ::
      i <= k < |ranges| && ranges[k].Sectors? && results[k] != 0 && AllErased(ranges, results, i, k) ==>
      FirstFailure(ranges, results, i) == results[k]
    decreases |ranges| - i
  {
    hide Calls, FirstFailure;
    if i == |ranges| {
      CallsEnd(ranges, results);
    } else {
      CallsStep(ranges, results, i);
      CallsIff(ranges, results, i + 1);
      var passes := ranges[i].Sectors? ==> results[i] == 0;
      assert forall k :: i < k <= |ranges| ==>
        (AllErased(ranges, results, i, k) <==> passes && AllErased(ranges, results, i + 1, k));
      assert AllErased(ranges, results, i, i);
    }
  }
}
