/**
 Which flash sectors `erase` and `protect` act on: the address arithmetic of
 common/cmd_flash.c over banks and sectors.
 */
module FlashRange {
  import opened Machine
  import opened Option

  /** flash_info_t: sector start addresses and the size of the bank; an unknown bank has no sectors. */
  datatype Bank = Bank(known: bool, start: seq<nat>, size: nat)

  function BankEnd(b: Bank): int
    requires b.start != []
  {
    b.start[0] + b.size - 1
  }

  /** The last address of sector i. */
  function SectorEnd(b: Bank, i: nat): int
    requires i < |b.start|
  {
    if i == |b.start| - 1 then BankEnd(b) else b.start[i + 1] as int - 1
  }

  predicate BankOk(b: Bank) {
    && (b.known <==> b.start != [])
    && (forall i, j :: 0 <= i < j < |b.start| ==> b.start[i] < b.start[j])
    && (b.start != [] ==> b.start[|b.start| - 1] <= BankEnd(b) < ULONG)
  }

  predicate Disjoint(a: Bank, b: Bank) {
    a.start == [] || b.start == [] || BankEnd(a) < b.start[0] || BankEnd(b) < a.start[0]
  }

  predicate BanksOk(banks: seq<Bank>) {
    && (forall i :: 0 <= i < |banks| ==> BankOk(banks[i]))
    && (forall i, j :: 0 <= i < j < |banks| ==> Disjoint(banks[i], banks[j]))
  }

  // --------------------------------------------------------------------
  // One bank
  // --------------------------------------------------------------------

  /** The sector from i on that starts at a. */
  function StartAt(b: Bank, i: nat, a: nat): (r: Option<nat>)
    requires i <= |b.start|
    ensures r.Some? ==> r.value < |b.start| && b.start[r.value] == a
    ensures r.None? ==> forall j :: i <= j < |b.start| ==> b.start[j] != a
    decreases |b.start| - i
  {
    if i == |b.start| then None else if b.start[i] == a then Some(i) else StartAt(b, i + 1, a)
  }

  /** The sector from i on that ends at a. */
  function EndAt(b: Bank, i: nat, a: nat): (r: Option<nat>)
    requires i <= |b.start|
    ensures r.Some? ==> r.value < |b.start| && SectorEnd(b, r.value) == a
    ensures r.None? ==> forall j :: i <= j < |b.start| ==> SectorEnd(b, j) != a
    decreases |b.start| - i
  {
    if i == |b.start| then None else if SectorEnd(b, i) == a then Some(i) else EndAt(b, i + 1, a)
  }

  /** What flash_fill_sect_ranges does with a bank: fail, pass it by, or take sectors and go on at `next`. */
  datatype Pick = Stop | Pass | Take(first: nat, last: nat, next: nat)

  function PickBank(b: Bank, first: nat, last: nat): (r: Pick)
    requires b.start != [] && BankOk(b)
    ensures r.Take? ==> r.first <= r.last < |b.start|
  {
    var f, l := StartAt(b, 0, first), EndAt(b, 0, last);
    match f
    case Some(sf) =>
      if l.None? && last <= BankEnd(b) then Stop
      else
        var sl := if l.Some? then l.value else |b.start| - 1;
        if sl < sf then Stop else Take(sf, sl, (SectorEnd(b, sl) + 1) % ULONG)
    case None =>
      if b.start[0] <= first && first < BankEnd(b) then Stop
      else if l.Some? then Stop
      else Pass
  }

  // --------------------------------------------------------------------
  // All banks
  // --------------------------------------------------------------------

  /** s_first/s_last of a bank. */
  datatype Range = Skip | Sectors(first: nat, last: nat)

  function Skips(n: nat): (r: seq<Range>)
    ensures |r| == n && forall i :: 0 <= i < n ==> r[i] == Skip
  {
    seq(n, _ => Skip)
  }

  /** flash_fill_sect_ranges: a range for every bank, or None when it reports an error. */
  function Select(banks: seq<Bank>, first: nat, last: nat): (r: Option<seq<Range>>)
    requires forall i :: 0 <= i < |banks| ==> BankOk(banks[i])
    ensures r.Some? ==> |r.value| == |banks| && forall i :: 0 <= i < |banks| ==> RangeOk(banks[i], r.value[i])
    decreases |banks|
  {
    if banks == [] then Some([])
    else if first > last then Some(Skips(|banks|))
    else
      var b, more := banks[0], banks[1..];
      assert BankOk(b);
      if !b.known then Ahead(Skip, Select(more, first, last))
      else
        match PickBank(b, first, last)
        case Stop => None
        case Pass => Ahead(Skip, Select(more, first, last))
        case Take(f, l, next) => Ahead(Sectors(f, l), Select(more, next, last))
  }

  function Ahead(r: Range, rest: Option<seq<Range>>): Option<seq<Range>> {
    match rest
    case None => None
    case Some(ranges) => Some([r] + ranges)
  }

  predicate RangeOk(b: Bank, r: Range) {
    r.Sectors? ==> b.known && r.first <= r.last < |b.start|
  }

  function Count(ranges: seq<Range>): nat
    requires forall i :: 0 <= i < |ranges| ==> ranges[i].Sectors? ==> ranges[i].first <= ranges[i].last
  {
    if ranges == [] then 0
    else (if ranges[0].Sectors? then ranges[0].last - ranges[0].first + 1 else 0) + Count(ranges[1..])
  }

  // --------------------------------------------------------------------
  // What is selected
  // --------------------------------------------------------------------

  predicate BankCovers(b: Bank, r: Range, x: int)
    requires RangeOk(b, r)
  {
    r.Sectors? && b.start[r.first] <= x <= SectorEnd(b, r.last)
  }

  predicate Covered(banks: seq<Bank>, ranges: seq<Range>, x: int)
    requires |banks| == |ranges| && forall i :: 0 <= i < |banks| ==> RangeOk(banks[i], ranges[i])
  {
    exists i :: 0 <= i < |banks| && BankCovers(banks[i], ranges[i], x)
  }

  /** The address behind the last selected sector, not wrapped; `first` if nothing is selected. */
  function Reached(banks: seq<Bank>, ranges: seq<Range>, first: int): int
    requires |banks| == |ranges| && forall i :: 0 <= i < |banks| ==> RangeOk(banks[i], ranges[i])
    decreases |banks|
  {
    if banks == [] then first
    else
      assert RangeOk(banks[0], ranges[0]);
      Reached(banks[1..], ranges[1..], if ranges[0].Sectors? then SectorEnd(banks[0], ranges[0].last) + 1 else first)
  }

  /** No bank that begins at address 0 comes after one that ends at the last address. */
  predicate NoWrap(banks: seq<Bank>) {
    forall i, j :: 0 <= i < j < |banks| && banks[i].start != [] && banks[j].start != [] ==>
      !(BankEnd(banks[i]) == ULONG - 1 && banks[j].start[0] == 0)
  }

  lemma CoveredSplit(banks: seq<Bank>, ranges: seq<Range>, x: int)
    requires |banks| == |ranges| > 0 && forall i :: 0 <= i < |banks| ==> RangeOk(banks[i], ranges[i])
    ensures forall i :: 0 <= i < |banks[1..]| ==> RangeOk(banks[1..][i], ranges[1..][i])
    ensures Covered(banks, ranges, x) <==> BankCovers(banks[0], ranges[0], x) || Covered(banks[1..], ranges[1..], x)
  {
    hide BankCovers, RangeOk;
    var more, rest := banks[1..], ranges[1..];
    assert forall i :: 0 <= i < |more| ==> more[i] == banks[i + 1] && rest[i] == ranges[i + 1];
    if Covered(banks, ranges, x) {
      var i :| 0 <= i < |banks| && BankCovers(banks[i], ranges[i], x);
      if i > 0 {
        assert BankCovers(more[i - 1], rest[i - 1], x);
      }
    }
    if Covered(more, rest, x) {
      var i :| 0 <= i < |more| && BankCovers(more[i], rest[i], x);
      assert BankCovers(banks[i + 1], ranges[i + 1], x);
    }
  }

  lemma {:induction false} SkipsCoverNothing(banks: seq<Bank>, first: int, x: int)
    ensures !Covered(banks, Skips(|banks|), x) && Reached(banks, Skips(|banks|), first) == first
    decreases |banks|
  {
    if banks != [] {
      assert Skips(|banks|)[1..] == Skips(|banks| - 1);
      SkipsCoverNothing(banks[1..], first, x);
    }
  }

  lemma SectorEndOrder(b: Bank, i: nat, j: nat)
    requires BankOk(b) && i <= j < |b.start|
    ensures b.start[i] <= SectorEnd(b, i) <= SectorEnd(b, j) <= BankEnd(b)
    ensures i < j ==> SectorEnd(b, i) < b.start[j]
  {
  }

  /** After the address wrapped to 0 nothing more is found. */
  lemma {:induction false} WrappedSelectsNothing(banks: seq<Bank>)
    requires BanksOk(banks)
    requires forall i :: 0 <= i < |banks| && banks[i].start != [] ==>
      banks[i].start[0] != 0 && BankEnd(banks[i]) < ULONG - 1
    ensures Select(banks, 0, ULONG - 1) == Some(Skips(|banks|))
    decreases |banks|
  {
    if banks != [] {
      var b, more := banks[0], banks[1..];
      WrappedSelectsNothing(more);
      assert [Skip] + Skips(|more|) == Skips(|banks|);
      if b.known {
        assert forall j :: 0 <= j < |b.start| ==> b.start[0] <= b.start[j];
        forall j | 0 <= j < |b.start| ensures SectorEnd(b, j) != ULONG - 1 {
          SectorEndOrder(b, j, |b.start| - 1);
        }
        assert PickBank(b, 0, ULONG - 1) == Pass;
      }
    }
  }

  lemma BanksRest(banks: seq<Bank>)
    requires BanksOk(banks) && banks != []
    ensures BanksOk(banks[1..])
    ensures NoWrap(banks) ==> NoWrap(banks[1..])
  {
    hide BankOk, Disjoint;
    var more := banks[1..];
    assert forall i :: 0 <= i < |more| ==> more[i] == banks[i + 1];
  }

  /**
   Only banks that touch neither end of the address space, or not both in the wrong order,
   are left behind a bank at the top.
   */
  lemma RestAfterTop(banks: seq<Bank>)
    requires BanksOk(banks) && NoWrap(banks) && banks != [] && banks[0].start != [] && BankEnd(banks[0]) == ULONG - 1
    ensures var more := banks[1..];
            forall i :: 0 <= i < |more| && more[i].start != [] ==> more[i].start[0] != 0 && BankEnd(more[i]) < ULONG - 1
  {
    var more := banks[1..];
    forall i | 0 <= i < |more| && more[i].start != []
      ensures more[i].start[0] != 0 && BankEnd(more[i]) < ULONG - 1 {
      assert more[i] == banks[i + 1];
      assert Disjoint(banks[0], banks[i + 1]);
      assert BankOk(banks[0]) && BankOk(banks[i + 1]);
      assert banks[0].start[0] <= banks[0].start[|banks[0].start| - 1];
      assert banks[i + 1].start[0] <= banks[i + 1].start[|banks[i + 1].start| - 1];
    }
  }

  /** The first bank of a successful selection. */
  lemma SelectHead(banks: seq<Bank>, first: nat, last: nat)
    requires BanksOk(banks) && banks != [] && first <= last < ULONG && Select(banks, first, last).Some?
    ensures var ranges := Select(banks, first, last).value;
            && ranges != []
            && (ranges[0].Skip? ==> Select(banks[1..], first, last) == Some(ranges[1..]))
            && (ranges[0].Sectors? ==>
                  && banks[0].start != [] && BankOk(banks[0]) && PickBank(banks[0], first, last).Take?
                  && ranges[0].first == PickBank(banks[0], first, last).first
                  && ranges[0].last == PickBank(banks[0], first, last).last
                  && Select(banks[1..], PickBank(banks[0], first, last).next, last) == Some(ranges[1..]))
  {
    hide PickBank, Disjoint;
    assert BankOk(banks[0]);
    assert forall r: Range, s: seq<Range> :: ([r] + s)[1..] == s;
  }

  /**
   A successful selection is one run of addresses from `first` on, inside the
   request: the sectors taken from the banks, one after another, without gaps.
   */
  lemma {:induction false} SelectIsRun(banks: seq<Bank>, first: nat, last: nat, x: int)
    requires BanksOk(banks) && NoWrap(banks) && first < ULONG && last < ULONG
    requires Select(banks, first, last).Some?
    ensures var ranges := Select(banks, first, last).value; var end := Reached(banks, ranges, first);
            && first <= end && (end > first ==> end <= last + 1)
            && (Covered(banks, ranges, x) <==> first <= x < end)
    decreases |banks|
  {
    hide Select, PickBank, NoWrap, BankOk, Disjoint, Covered, Skips;
    if banks == [] {
      assert !Covered(banks, [], x) by { SkipsCoverNothing(banks, first, x); }
    } else if first > last {
      assert Select(banks, first, last) == Some(Skips(|banks|)) by { SelectNothing(banks, first, last); }
      SkipsCoverNothing(banks, first, x);
    } else {
      var b, more := banks[0], banks[1..];
      var ranges := Select(banks, first, last).value;
      var rest := ranges[1..];
      BanksRest(banks);
      SelectHead(banks, first, last);
      CoveredSplit(banks, ranges, x);
      if ranges[0].Skip? {
        SelectIsRun(more, first, last, x);
      } else {
        var n := SectorEnd(b, ranges[0].last) + 1;
        SectorEndOrder(b, ranges[0].first, ranges[0].last);
        TakeEnds(b, first, last);
        if n < ULONG {
          SelectIsRun(more, n, last, x);
        } else {
          RestAfterTop(banks);
          WrappedSelectsNothing(more);
          SkipsCoverNothing(more, n, x);
        }
      }
    }
  }

  lemma SelectNothing(banks: seq<Bank>, first: nat, last: nat)
    requires BanksOk(banks) && first > last
    ensures Select(banks, first, last) == Some(Skips(|banks|))
  {
    assert banks == [] ==> Skips(|banks|) == [];
  }

  /**
   The sectors taken from a bank end at the requested address or at the end of the bank,
   and not behind the request.
   */
  lemma TakeEnds(b: Bank, first: nat, last: nat)
    requires b.start != [] && BankOk(b) && PickBank(b, first, last).Take? && last < ULONG
    ensures var p := PickBank(b, first, last);
            && b.start[p.first] == first
            && SectorEnd(b, p.last) <= last && SectorEnd(b, p.last) < ULONG
            && p.next == (SectorEnd(b, p.last) + 1) % ULONG
            && (SectorEnd(b, p.last) < last ==> p.last == |b.start| - 1)
            && (SectorEnd(b, p.last) == ULONG - 1 ==> last == ULONG - 1 && BankEnd(b) == ULONG - 1)
  {
    var p := PickBank(b, first, last);
    SectorEndOrder(b, p.last, |b.start| - 1);
  }

  lemma SelectTake(banks: seq<Bank>, first: nat, last: nat)
    requires BanksOk(banks) && banks != [] && banks[0].start != [] && BankOk(banks[0]) && first <= last
    requires PickBank(banks[0], first, last).Take?
    ensures BanksOk(banks[1..])
    ensures var p := PickBank(banks[0], first, last);
            match Select(banks[1..], p.next, last)
            case None => Select(banks, first, last).None?
            case Some(rest) =>
              && Select(banks, first, last) == Some([Sectors(p.first, p.last)] + rest)
              && Reached(banks, [Sectors(p.first, p.last)] + rest, first) ==
                 Reached(banks[1..], rest, SectorEnd(banks[0], p.last) + 1)
  {
    hide PickBank, Disjoint;
    BanksRest(banks);
    var p := PickBank(banks[0], first, last);
    match Select(banks[1..], p.next, last)
    case None =>
    case Some(rest) => assert ([Sectors(p.first, p.last)] + rest)[1..] == rest;
  }

  lemma SelectSkip(banks: seq<Bank>, first: nat, last: nat)
    requires BanksOk(banks) && banks != [] && first <= last
    requires banks[0].start != [] ==> BankOk(banks[0]) && PickBank(banks[0], first, last) == Pass
    ensures BanksOk(banks[1..])
    ensures match Select(banks[1..], first, last)
            case None => Select(banks, first, last).None?
            case Some(rest) =>
              && Select(banks, first, last) == Some([Skip] + rest)
              && Reached(banks, [Skip] + rest, first) == Reached(banks[1..], rest, first)
  {
    hide PickBank, Disjoint;
    BanksRest(banks);
    assert BankOk(banks[0]);
    match Select(banks[1..], first, last)
    case None =>
    case Some(rest) => assert ([Skip] + rest)[1..] == rest;
  }

  /** A request from the start of a bank to its end or beyond takes all its sectors. */
  lemma WholeBank(b: Bank, last: nat)
    requires BankOk(b) && b.start != [] && BankEnd(b) <= last < ULONG
    ensures PickBank(b, b.start[0], last) == Take(0, |b.start| - 1, (BankEnd(b) + 1) % ULONG)
  {
    assert SectorEnd(b, |b.start| - 1) == BankEnd(b);
    var e := EndAt(b, 0, last);
    if e.Some? {
      SectorEndOrder(b, e.value, |b.start| - 1);
    }
  }

  // --------------------------------------------------------------------
  // The wrap at the top of the address space
  // --------------------------------------------------------------------

  /** No bank reaches the last address, and none holds `first` behind its own start. */
  predicate ClearOf(banks: seq<Bank>, first: nat) {
    forall i :: 0 <= i < |banks| && banks[i].start != [] ==>
      BankEnd(banks[i]) < ULONG - 1 && (first <= banks[i].start[0] || BankEnd(banks[i]) < first)
  }

  /** A bank that ends before the request, or begins behind its first address, is passed by when it does not end it. */
  lemma Passed(b: Bank, first: nat)
    requires BankOk(b) && b.start != [] && BankEnd(b) < ULONG - 1
    requires first < b.start[0] || BankEnd(b) < first
    ensures PickBank(b, first, ULONG - 1) == Pass
  {
    forall j | 0 <= j < |b.start| ensures b.start[j] != first && SectorEnd(b, j) != ULONG - 1 {
      SectorEndOrder(b, j, |b.start| - 1);
      assert b.start[0] <= b.start[j];
    }
  }

  lemma ClearRest(banks: seq<Bank>, first: nat)
    requires BanksOk(banks) && ClearOf(banks, first) && banks != []
    ensures ClearOf(banks[1..], first)
    ensures banks[0].start != [] && first == banks[0].start[0] ==> ClearOf(banks[1..], BankEnd(banks[0]) + 1)
  {
    var b, more := banks[0], banks[1..];
    assert forall i :: 0 <= i < |more| ==> more[i] == banks[i + 1];
    if b.start != [] && first == b.start[0] {
      forall i | 0 <= i < |more| && more[i].start != []
        ensures BankEnd(b) + 1 <= more[i].start[0] || BankEnd(more[i]) < BankEnd(b) + 1
      {
        assert Disjoint(banks[0], banks[i + 1]);
        assert BankOk(banks[0]);
      }
    }
  }

  /**
   With nothing in the way a request to the last address never fails, and it takes the bank
   that begins at its start.
   */
  lemma {:induction false} ClearSelects(banks: seq<Bank>, first: nat, i: nat)
    requires BanksOk(banks) && ClearOf(banks, first) && first < ULONG
    ensures Select(banks, first, ULONG - 1).Some?
    ensures i < |banks| && banks[i].start != [] && banks[i].start[0] == first ==>
      Covered(banks, Select(banks, first, ULONG - 1).value, first)
    decreases |banks|
  {
    hide Select, PickBank, Covered, Disjoint, BankOk, Skips;
    if banks == [] {
      SelectEmpty(first, ULONG - 1);
    } else {
      var b, more := banks[0], banks[1..];
      assert BankOk(b);
      BanksRest(banks);
      ClearRest(banks, first);
      if b.start != [] && first == b.start[0] {
        WholeBank(b, ULONG - 1);
        assert (BankEnd(b) + 1) % ULONG == BankEnd(b) + 1 by { assert ClearOf(banks, first); BankInside(banks); }
        ClearSelects(more, BankEnd(b) + 1, 0);
        SelectTake(banks, first, ULONG - 1);
        CoveredHead(banks, Select(banks, first, ULONG - 1).value, first);
      } else {
        if b.start != [] {
          Passed(b, first);
        }
        ClearSelects(more, first, if i > 0 then i - 1 else |more|);
        SelectSkip(banks, first, ULONG - 1);
        CoveredRest(banks, Select(banks, first, ULONG - 1).value, first);
      }
    }
  }

  lemma SelectEmpty(first: nat, last: nat)
    ensures Select([], first, last) == Some([])
  {
  }

  lemma BankInside(banks: seq<Bank>)
    requires banks != [] && banks[0].start != [] && ClearOf(banks, banks[0].start[0]) && BankOk(banks[0])
    ensures 0 <= BankEnd(banks[0]) < ULONG - 1
  {
  }

  lemma CoveredHead(banks: seq<Bank>, ranges: seq<Range>, x: int)
    requires |banks| == |ranges| > 0 && forall i :: 0 <= i < |banks| ==> RangeOk(banks[i], ranges[i])
    requires BankOk(banks[0]) && banks[0].start != [] && banks[0].start[0] == x
    requires ranges[0].Sectors? && ranges[0].first == 0
    ensures Covered(banks, ranges, x)
  {
    SectorEndOrder(banks[0], 0, ranges[0].last);
    assert BankCovers(banks[0], ranges[0], x);
  }

  lemma CoveredRest(banks: seq<Bank>, ranges: seq<Range>, x: int)
    requires |banks| == |ranges| > 0 && forall i :: 0 <= i < |banks| ==> RangeOk(banks[i], ranges[i])
    ensures forall i :: 0 <= i < |banks[1..]| ==> RangeOk(banks[1..][i], ranges[1..][i])
    ensures Covered(banks[1..], ranges[1..], x) ==> Covered(banks, ranges, x)
  {
    CoveredSplit(banks, ranges, x);
  }

  /** A bank at the top, followed somewhere in the table by one at address 0. */
  predicate WrapsAt(banks: seq<Bank>, i: nat, j: nat) {
    && i < j < |banks| && banks[i].start != [] && banks[j].start != []
    && BankEnd(banks[i]) == ULONG - 1 && banks[j].start[0] == 0
  }

  lemma {:induction false} WrapTakesBankAtZero(banks: seq<Bank>, i: nat, j: nat)
    requires BanksOk(banks) && WrapsAt(banks, i, j)
    ensures Select(banks, banks[i].start[0], ULONG - 1).Some?
    ensures Covered(banks, Select(banks, banks[i].start[0], ULONG - 1).value, 0)
    decreases |banks|
  {
    hide Select, PickBank, Covered, Disjoint, BankOk, Skips;
    var b, more, first := banks[0], banks[1..], banks[i].start[0];
    assert BankOk(b) && BankOk(banks[i]);
    BanksRest(banks);
    TopIsLast(banks, i);
    if i == 0 {
      WholeBank(b, ULONG - 1);
      ClearSelects(more, 0, j - 1);
      SelectTake(banks, first, ULONG - 1);
    } else {
      if b.start != [] {
        Passed(b, first);
      }
      WrapTakesBankAtZero(more, i - 1, j - 1);
      SelectSkip(banks, first, ULONG - 1);
    }
    CoveredRest(banks, Select(banks, first, ULONG - 1).value, 0);
  }

  /** All other banks lie below the one that reaches the last address. */
  lemma TopIsLast(banks: seq<Bank>, i: nat)
    requires BanksOk(banks) && i < |banks| && banks[i].start != [] && BankEnd(banks[i]) == ULONG - 1
    ensures banks[i].start[0] < ULONG
    ensures forall k :: 0 <= k < |banks| && k != i && banks[k].start != [] ==> BankEnd(banks[k]) < banks[i].start[0]
    ensures i == 0 ==> ClearOf(banks[1..], 0)
  {
    var t := banks[i];
    assert BankOk(t);
    SectorEndOrder(t, 0, |t.start| - 1);
    forall k | 0 <= k < |banks| && k != i && banks[k].start != [] ensures BankEnd(banks[k]) < t.start[0] {
      var b := banks[k];
      assert BankOk(b);
      SectorEndOrder(b, 0, |b.start| - 1);
      assert if k < i then Disjoint(b, t) else Disjoint(t, b);
    }
    assert forall k :: 0 <= k < |banks[1..]| ==> banks[1..][k] == banks[k + 1];
  }

  /** The selected addresses are those from `first` up to `end`. */
  ghost predicate RunTo(banks: seq<Bank>, ranges: seq<Range>, first: int, end: int)
    requires |banks| == |ranges| && forall i :: 0 <= i < |banks| ==> RangeOk(banks[i], ranges[i])
  {
    forall x :: Covered(banks, ranges, x) <==> first <= x < end
  }

  ghost predicate IsRun(banks: seq<Bank>, ranges: seq<Range>, first: int)
    requires |banks| == |ranges| && forall i :: 0 <= i < |banks| ==> RangeOk(banks[i], ranges[i])
  {
    exists end :: RunTo(banks, ranges, first, end)
  }

  /** Every successful selection is a run from its first address, if and only if the table does not wrap. */
  lemma RunsIffNoWrap(banks: seq<Bank>)
    requires BanksOk(banks)
    ensures (forall first: nat, last: nat :: first < ULONG && last < ULONG && Select(banks, first, last).Some? ==>
        IsRun(banks, Select(banks, first, last).value, first)) <==> NoWrap(banks)
  {
    hide Select, Covered, Disjoint, BankOk, Reached;
    if NoWrap(banks) {
      forall first: nat, last: nat | first < ULONG && last < ULONG && Select(banks, first, last).Some?
        ensures IsRun(banks, Select(banks, first, last).value, first)
      {
        var ranges := Select(banks, first, last).value;
        var end := Reached(banks, ranges, first);
        forall x ensures Covered(banks, ranges, x) <==> first <= x < end {
          SelectIsRun(banks, first, last, x);
        }
        assert RunTo(banks, ranges, first, end);
      }
    } else {
      var i, j :| 0 <= i < j < |banks| && banks[i].start != [] && banks[j].start != []
        && BankEnd(banks[i]) == ULONG - 1 && banks[j].start[0] == 0;
      WrapTakesBankAtZero(banks, i, j);
      TopIsLast(banks, i);
      assert BankEnd(banks[j]) >= 0 by { assert BankOk(banks[j]); BankNotNegative(banks[j]); }
      assert !IsRun(banks, Select(banks, banks[i].start[0], ULONG - 1).value, banks[i].start[0]);
    }
  }

  lemma BankNotNegative(b: Bank)
    requires BankOk(b) && b.start != []
    ensures BankEnd(b) >= 0
  {
  }

  // --------------------------------------------------------------------
  // The `start +len` form
  // --------------------------------------------------------------------

  predicate InSector(b: Bank, i: nat, x: int)
    requires i < |b.start|
  {
    b.start[i] <= x <= SectorEnd(b, i)
  }

  /** The sector from i on that contains a. */
  function SectorOf(b: Bank, i: nat, a: nat): (r: Option<nat>)
    requires i <= |b.start|
    ensures r.Some? ==> r.value < |b.start| && InSector(b, r.value, a)
    ensures r.None? ==> forall j :: i <= j < |b.start| ==> !InSector(b, j, a)
    decreases |b.start| - i
  {
    if i == |b.start| then None else if InSector(b, i, a) then Some(i) else SectorOf(b, i + 1, a)
  }

  /** flash_sect_roundb: the end of the sector that contains the address. */
  function RoundB(banks: seq<Bank>, a: nat): (r: Option<int>)
    decreases |banks|
  {
    if banks == [] then None
    else
      match SectorOf(banks[0], 0, a)
      case Some(i) => Some(SectorEnd(banks[0], i))
      case None => RoundB(banks[1..], a)
  }

  /** addr_spec with a length: the last address to erase. */
  function LastOf(banks: seq<Bank>, start: nat, len: nat): Option<int> {
    RoundB(banks, (start + len - 1) % ULONG)
  }

  /** From `first`, a sector start, to `last`, a sector end, through banks that follow one another in the table. */
  predicate Leads(banks: seq<Bank>, first: nat, last: nat)
    decreases |banks|
  {
    && banks != []
    && first <= last
    && var b := banks[0];
       if b.start != [] && StartAt(b, 0, first).Some? then
         || EndAt(b, 0, last).Some?
         || (0 <= BankEnd(b) < last && Leads(banks[1..], BankEnd(b) + 1, last))
       else Leads(banks[1..], first, last)
  }

  lemma {:induction false} LeadsFinds(banks: seq<Bank>, first: nat, last: nat)
    requires Leads(banks, first, last)
    ensures exists i :: 0 <= i < |banks| && banks[i].start != [] && StartAt(banks[i], 0, first).Some?
    ensures exists i :: 0 <= i < |banks| && banks[i].start != [] && EndAt(banks[i], 0, last).Some?
    decreases |banks|
  {
    hide StartAt, EndAt;
    var b, more := banks[0], banks[1..];
    assert forall i :: 0 <= i < |more| ==> more[i] == banks[i + 1];
    if b.start != [] && StartAt(b, 0, first).Some? {
      if EndAt(b, 0, last).None? {
        LeadsFinds(more, BankEnd(b) + 1, last);
        var i :| 0 <= i < |more| && more[i].start != [] && EndAt(more[i], 0, last).Some?;
        assert banks[i + 1].start != [] && EndAt(banks[i + 1], 0, last).Some?;
      }
    } else {
      LeadsFinds(more, first, last);
      var i :| 0 <= i < |more| && more[i].start != [] && StartAt(more[i], 0, first).Some?;
      assert banks[i + 1].start != [] && StartAt(banks[i + 1], 0, first).Some?;
      var j :| 0 <= j < |more| && more[j].start != [] && EndAt(more[j], 0, last).Some?;
      assert banks[j + 1].start != [] && EndAt(banks[j + 1], 0, last).Some?;
    }
  }

  lemma StartInBank(b: Bank, a: nat)
    requires BankOk(b) && b.start != [] && StartAt(b, 0, a).Some?
    ensures b.start[0] <= a <= BankEnd(b)
  {
    var i := StartAt(b, 0, a).value;
    assert i > 0 ==> b.start[0] < b.start[i];
    SectorEndOrder(b, i, |b.start| - 1);
  }

  lemma EndInBank(b: Bank, a: nat)
    requires BankOk(b) && b.start != [] && EndAt(b, 0, a).Some?
    ensures b.start[0] <= a <= BankEnd(b)
  {
    var i := EndAt(b, 0, a).value;
    assert i > 0 ==> b.start[0] < b.start[i];
    SectorEndOrder(b, i, |b.start| - 1);
  }

  /** A bank in front of the banks that hold the request is passed by. */
  lemma PassedBy(banks: seq<Bank>, first: nat, last: nat)
    requires BanksOk(banks) && banks != [] && banks[0].start != [] && Leads(banks[1..], first, last)
    ensures BankOk(banks[0]) && PickBank(banks[0], first, last) == Pass
  {
    hide StartAt, EndAt, BankOk;
    var b, more := banks[0], banks[1..];
    assert BankOk(b);
    LeadsFinds(more, first, last);
    var i :| 0 <= i < |more| && more[i].start != [] && StartAt(more[i], 0, first).Some?;
    var j :| 0 <= j < |more| && more[j].start != [] && EndAt(more[j], 0, last).Some?;
    assert more[i] == banks[i + 1] && more[j] == banks[j + 1];
    assert Disjoint(b, banks[i + 1]) && Disjoint(b, banks[j + 1]);
    StartInBank(more[i], first);
    EndInBank(more[j], last);
    if StartAt(b, 0, first).Some? { StartInBank(b, first); }
    if EndAt(b, 0, last).Some? { EndInBank(b, last); }
  }

  lemma TakenWhole(b: Bank, first: nat, last: nat)
    requires BankOk(b) && b.start != [] && first <= last < ULONG && StartAt(b, 0, first).Some?
    requires EndAt(b, 0, last).Some? || BankEnd(b) < last
    ensures PickBank(b, first, last).Take?
    ensures EndAt(b, 0, last).Some? ==> SectorEnd(b, PickBank(b, first, last).last) == last
    ensures EndAt(b, 0, last).None? ==> PickBank(b, first, last).last == |b.start| - 1
  {
    var f := StartAt(b, 0, first).value;
    var l := if EndAt(b, 0, last).Some? then EndAt(b, 0, last).value else |b.start| - 1;
    if l < f {
      SectorEndOrder(b, l, f);
    }
  }

  /** A request that runs along the banks is selected completely. */
  lemma {:induction false} LeadsSelects(banks: seq<Bank>, first: nat, last: nat)
    requires BanksOk(banks) && NoWrap(banks) && Leads(banks, first, last) && last < ULONG
    ensures Select(banks, first, last).Some?
    ensures Reached(banks, Select(banks, first, last).value, first) == last + 1
    decreases |banks|
  {
    hide PickBank, StartAt, EndAt, Disjoint, Select, Reached, NoWrap;
    var b, more := banks[0], banks[1..];
    assert BankOk(b);
    BanksRest(banks);
    if b.start != [] && StartAt(b, 0, first).Some? {
      TakenWhole(b, first, last);
      TakeEnds(b, first, last);
      SelectTake(banks, first, last);
      if EndAt(b, 0, last).Some? {
        NothingLeft(banks, first, last);
      } else {
        LeadsSelects(more, BankEnd(b) + 1, last);
      }
    } else {
      if b.start != [] { PassedBy(banks, first, last); }
      SelectSkip(banks, first, last);
      LeadsSelects(more, first, last);
    }
  }

  /** When a bank holds the end of the request, nothing is taken from later banks. */
  lemma NothingLeft(banks: seq<Bank>, first: nat, last: nat)
    requires BanksOk(banks) && NoWrap(banks) && banks != [] && first <= last < ULONG
    requires banks[0].start != [] && BankOk(banks[0])
    requires PickBank(banks[0], first, last).Take? && SectorEnd(banks[0], PickBank(banks[0], first, last).last) == last
    ensures Select(banks, first, last).Some?
    ensures Reached(banks, Select(banks, first, last).value, first) == last + 1
  {
    hide PickBank, Disjoint, Select, Reached, NoWrap;
    var more := banks[1..];
    BanksRest(banks);
    TakeEnds(banks[0], first, last);
    SelectTake(banks, first, last);
    SkipsCoverNothing(more, last + 1, 0);
    if last < ULONG - 1 {
      SelectNothing(more, last + 1, last);
    } else {
      RestAfterTop(banks);
      WrappedSelectsNothing(more);
    }
  }

  // --------------------------------------------------------------------
  // The minimal cover
  // --------------------------------------------------------------------

  predicate Selected(ranges: seq<Range>, i: nat, j: nat)
    requires i < |ranges|
  {
    ranges[i].Sectors? && ranges[i].first <= j <= ranges[i].last
  }

  /** Sector j of bank i has an address in [start, start + len). */
  predicate Meets(b: Bank, j: nat, start: nat, len: nat)
    requires j < |b.start|
  {
    b.start[j] < start + len && start <= SectorEnd(b, j)
  }

  lemma {:induction false} RoundBIs(banks: seq<Bank>, a: nat)
    requires RoundB(banks, a).Some?
    ensures exists i, j ::
      && 0 <= i < |banks| && 0 <= j < |banks[i].start|
      && InSector(banks[i], j, a) && RoundB(banks, a) == Some(SectorEnd(banks[i], j))
    decreases |banks|
  {
    hide SectorOf, InSector, SectorEnd;
    match SectorOf(banks[0], 0, a)
    case Some(j) =>
      assert InSector(banks[0], j, a) && RoundB(banks, a) == Some(SectorEnd(banks[0], j));
    case None =>
      RoundBIs(banks[1..], a);
      var i, j :| 0 <= i < |banks[1..]| && 0 <= j < |banks[1..][i].start| && InSector(banks[1..][i], j, a)
        && RoundB(banks[1..], a) == Some(SectorEnd(banks[1..][i], j));
      assert banks[1..][i] == banks[i + 1];
      assert InSector(banks[i + 1], j, a) && RoundB(banks, a) == Some(SectorEnd(banks[i + 1], j));
  }

  /** Some sector of some bank contains the address. */
  predicate InFlash(banks: seq<Bank>, a: int) {
    exists i, j | 0 <= i < |banks| && 0 <= j < |banks[i].start| :: InSector(banks[i], j, a)
  }

  /** Rounding succeeds exactly for addresses in the flash. */
  lemma {:induction false} RoundBIff(banks: seq<Bank>, a: nat)
    ensures RoundB(banks, a).Some? <==> InFlash(banks, a)
    decreases |banks|
  {
    hide SectorOf, InSector, SectorEnd;
    if banks != [] {
      var more := banks[1..];
      RoundBIff(more, a);
      match SectorOf(banks[0], 0, a)
      case Some(j) => assert InSector(banks[0], j, a);
      case None =>
        if InFlash(banks, a) {
          var i, j :| 0 <= i < |banks| && 0 <= j < |banks[i].start| && InSector(banks[i], j, a);
          assert more[i - 1] == banks[i];
        }
        if InFlash(more, a) {
          var i, j :| 0 <= i < |more| && 0 <= j < |more[i].start| && InSector(more[i], j, a);
          assert banks[i + 1] == more[i];
        }
    }
  }

  /** The end of the one sector that contains the address. */
  lemma RoundBEnds(banks: seq<Bank>, a: nat, i: nat, j: nat)
    requires BanksOk(banks) && i < |banks| && j < |banks[i].start| && InSector(banks[i], j, a)
    ensures RoundB(banks, a) == Some(SectorEnd(banks[i], j))
  {
    hide RoundB, BanksOk, InSector, SectorEnd;
    RoundBIff(banks, a);
    RoundBIs(banks, a);
    var m, n :| 0 <= m < |banks| && 0 <= n < |banks[m].start| && InSector(banks[m], n, a)
      && RoundB(banks, a) == Some(SectorEnd(banks[m], n));
    OneSector(banks, i, j, m, n, a);
  }

  /** Sectors of different banks, or different sectors of one, share no address. */
  lemma OneSector(banks: seq<Bank>, i: nat, j: nat, m: nat, n: nat, x: int)
    requires BanksOk(banks) && i < |banks| && m < |banks| && j < |banks[i].start| && n < |banks[m].start|
    requires InSector(banks[i], j, x) && InSector(banks[m], n, x)
    ensures i == m && j == n
  {
    var a, b := banks[i], banks[m];
    assert BankOk(a) && BankOk(b);
    SectorEndOrder(a, j, |a.start| - 1);
    SectorEndOrder(b, n, |b.start| - 1);
    assert a.start[0] <= a.start[j] && b.start[0] <= b.start[n];
    assert i < m ==> Disjoint(a, b);
    assert m < i ==> Disjoint(b, a);
    if i == m {
      if j < n { SectorEndOrder(a, j, n); }
      if n < j { SectorEndOrder(a, n, j); }
    }
  }

  /** The sectors of a range are the ones whose start, equivalently whose every address, it covers. */
  lemma SelectedIsCovered(banks: seq<Bank>, ranges: seq<Range>, i: nat, j: nat, x: int)
    requires BanksOk(banks) && |ranges| == |banks| && forall k :: 0 <= k < |banks| ==> RangeOk(banks[k], ranges[k])
    requires i < |banks| && j < |banks[i].start| && InSector(banks[i], j, x)
    ensures Selected(ranges, i, j) <==> Covered(banks, ranges, x)
  {
    hide Disjoint;
    var b := banks[i];
    assert BankOk(b);
    if Selected(ranges, i, j) {
      var r := ranges[i];
      assert RangeOk(b, r);
      SectorEndOrder(b, j, r.last);
      assert b.start[r.first] <= b.start[j];
      assert BankCovers(banks[i], ranges[i], x);
    }
    if Covered(banks, ranges, x) {
      var m :| 0 <= m < |banks| && BankCovers(banks[m], ranges[m], x);
      SectorInRange(banks, ranges, m, x);
      var n :| 0 <= n < |banks[m].start| && Selected(ranges, m, n) && InSector(banks[m], n, x);
      OneSector(banks, i, j, m, n, x);
    }
  }

  lemma SectorInRange(banks: seq<Bank>, ranges: seq<Range>, m: nat, x: int)
    requires BanksOk(banks) && |ranges| == |banks| && m < |banks| && RangeOk(banks[m], ranges[m])
    requires BankCovers(banks[m], ranges[m], x)
    ensures exists n :: 0 <= n < |banks[m].start| && Selected(ranges, m, n) && InSector(banks[m], n, x)
  {
    var b, r := banks[m], ranges[m];
    assert BankOk(b);
    var n := r.last;
    while x < b.start[n]
      invariant r.first <= n <= r.last && x <= SectorEnd(b, n)
    {
      n := n - 1;
    }
    assert Selected(ranges, m, n) && InSector(b, n, x);
  }

  lemma SectorsOf(banks: seq<Bank>, i: nat, j: nat)
    requires BanksOk(banks) && i < |banks| && j < |banks[i].start|
    ensures banks[i].start[j] <= SectorEnd(banks[i], j) < ULONG
  {
    hide Disjoint, SectorEnd;
    assert BankOk(banks[i]);
    SectorEndOrder(banks[i], j, |banks[i].start| - 1);
  }

  /**
   `erase start +len`: when start is a sector start and the range runs along the
   banks in table order, the sectors passed to flash_erase are exactly those with
   an address in [start, start + len).
   */
  lemma EraseCover(banks: seq<Bank>, start: nat, len: nat, i: nat, j: nat)
    requires BanksOk(banks) && NoWrap(banks) && len > 0 && start + len <= ULONG
    requires LastOf(banks, start, len).Some? && LastOf(banks, start, len).value >= 0
    requires Leads(banks, start, LastOf(banks, start, len).value)
    requires i < |banks| && j < |banks[i].start|
    ensures Select(banks, start, LastOf(banks, start, len).value).Some?
    ensures Selected(Select(banks, start, LastOf(banks, start, len).value).value, i, j) <==>
      Meets(banks[i], j, start, len)
  {
    hide RoundB, Leads, Select, Reached, Covered, BankOk, Disjoint, NoWrap, Selected, SectorEnd;
    var tail := start + len - 1;
    assert tail % ULONG == tail;
    RoundBIs(banks, tail);
    var m, n :| 0 <= m < |banks| && 0 <= n < |banks[m].start| && InSector(banks[m], n, tail)
      && RoundB(banks, tail) == Some(SectorEnd(banks[m], n));
    var last := SectorEnd(banks[m], n);
    SectorsOf(banks, m, n);
    SectorsOf(banks, i, j);
    LeadsSelects(banks, start, last);
    var b, ranges := banks[i], Select(banks, start, last).value;
    var x := b.start[j];
    SelectIsRun(banks, start, last, x);
    SelectedIsCovered(banks, ranges, i, j, x);
    if x < start <= SectorEnd(b, j) {
      SelectIsRun(banks, start, last, start);
      SelectedIsCovered(banks, ranges, i, j, start);
    }
    if start <= x <= last && x > tail {
      assert InSector(banks[m], n, x);
      OneSector(banks, i, j, m, n, x);
    }
  }

  /** A selection that ends with a sector of some bank runs along the banks in table order. */
  lemma {:induction false} SelectsOnlyLeads(banks: seq<Bank>, first: nat, last: nat, i: nat)
    requires BanksOk(banks) && first <= last < ULONG && Select(banks, first, last).Some?
    requires i < |banks| && banks[i].start != [] && EndAt(banks[i], 0, last).Some?
    ensures Leads(banks, first, last)
    decreases |banks|
  {
    hide PickBank, StartAt, EndAt, Disjoint, Select, Reached, SectorEnd, BankOk, BankEnd;
    var b, more := banks[0], banks[1..];
    assert BankOk(b);
    assert i > 0 ==> more[i - 1] == banks[i];
    BanksRest(banks);
    HeadPick(banks, first, last);
    if b.start != [] && StartAt(b, 0, first).Some? {
      if EndAt(b, 0, last).None? {
        PickWhole(b, first, last);
        SelectTake(banks, first, last);
        SelectsOnlyLeads(more, BankEnd(b) + 1, last, i - 1);
      }
    } else {
      if b.start != [] {
        PickNone(b, first, last);
      }
      SelectSkip(banks, first, last);
      SelectsOnlyLeads(more, first, last, i - 1);
    }
  }

  lemma HeadPick(banks: seq<Bank>, first: nat, last: nat)
    requires BanksOk(banks) && banks != [] && first <= last && Select(banks, first, last).Some?
    ensures banks[0].start != [] ==> BankOk(banks[0]) && !PickBank(banks[0], first, last).Stop?
  {
    hide PickBank, Disjoint;
    assert BankOk(banks[0]);
  }

  lemma PickWhole(b: Bank, first: nat, last: nat)
    requires BankOk(b) && b.start != [] && first <= last < ULONG && StartAt(b, 0, first).Some?
    requires EndAt(b, 0, last).None? && !PickBank(b, first, last).Stop?
    ensures PickBank(b, first, last).Take? && PickBank(b, first, last).next == BankEnd(b) + 1
    ensures 0 <= BankEnd(b) < last
  {
  }

  lemma PickNone(b: Bank, first: nat, last: nat)
    requires BankOk(b) && b.start != [] && StartAt(b, 0, first).None? && !PickBank(b, first, last).Stop?
    ensures PickBank(b, first, last) == Pass && EndAt(b, 0, last).None?
  {
  }

  /** `erase start +len` goes through: the end is rounded and the sectors are selected. */
  predicate Accepted(banks: seq<Bank>, start: nat, len: nat)
    requires BanksOk(banks)
  {
    var last := LastOf(banks, start, len);
    last.Some? && last.value >= 0 && Select(banks, start, last.value).Some?
  }

  /**
   `erase start +len` is accepted if and only if its last address lies in the
   flash and it runs from a sector start along the banks in table order to the
   end of the sector there; then it erases exactly the sectors that meet
   [start, start + len).
   */
  lemma EraseIff(banks: seq<Bank>, start: nat, len: nat)
    requires BanksOk(banks) && NoWrap(banks) && len > 0 && start + len <= ULONG
    ensures Accepted(banks, start, len) <==>
      exists m, n | 0 <= m < |banks| && 0 <= n < |banks[m].start| ::
        InSector(banks[m], n, start + len - 1) && SectorEnd(banks[m], n) >= 0
        && Leads(banks, start, SectorEnd(banks[m], n))
    ensures Accepted(banks, start, len) ==> forall i: nat, j: nat :: i < |banks| && j < |banks[i].start| ==>
      (Selected(Select(banks, start, LastOf(banks, start, len).value).value, i, j) <==> Meets(banks[i], j, start, len))
  {
    hide RoundB, Leads, Select, Disjoint, NoWrap, Selected, Meets, BankOk, SectorEnd, InSector;
    var tail := start + len - 1;
    assert tail % ULONG == tail;
    RoundBIff(banks, tail);
    if InFlash(banks, tail) {
      var m, n :| 0 <= m < |banks| && 0 <= n < |banks[m].start| && InSector(banks[m], n, tail);
      RoundBEnds(banks, tail, m, n);
      SectorsOf(banks, m, n);
      EraseAt(banks, start, len, m, n);
      forall i, j | 0 <= i < |banks| && 0 <= j < |banks[i].start| && InSector(banks[i], j, tail)
        ensures i == m && j == n
      {
        OneSector(banks, i, j, m, n, tail);
      }
    }
  }

  lemma EraseAt(banks: seq<Bank>, start: nat, len: nat, m: nat, n: nat)
    requires BanksOk(banks) && NoWrap(banks) && len > 0 && start + len <= ULONG
    requires m < |banks| && n < |banks[m].start| && InSector(banks[m], n, start + len - 1)
    requires LastOf(banks, start, len) == Some(SectorEnd(banks[m], n)) && SectorEnd(banks[m], n) >= 0
    ensures var last := SectorEnd(banks[m], n);
      && (Select(banks, start, last).Some? <==> Leads(banks, start, last))
      && (Select(banks, start, last).Some? ==> forall i: nat, j: nat :: i < |banks| && j < |banks[i].start| ==>
            (Selected(Select(banks, start, last).value, i, j) <==> Meets(banks[i], j, start, len)))
  {
    hide RoundB, Leads, Select, Disjoint, NoWrap, Selected, Meets, BankOk, SectorEnd, LastOf;
    var last := SectorEnd(banks[m], n);
    SectorsOf(banks, m, n);
    if Select(banks, start, last).Some? {
      assert EndAt(banks[m], 0, last).Some?;
      SelectsOnlyLeads(banks, start, last, m);
    }
    if Leads(banks, start, last) {
      LeadsSelects(banks, start, last);
      forall i: nat, j: nat | i < |banks| && j < |banks[i].start|
        ensures Selected(Select(banks, start, last).value, i, j) <==> Meets(banks[i], j, start, len)
      {
        EraseCover(banks, start, len, i, j);
      }
    }
  }

  // --------------------------------------------------------------------
  // Which requests are refused
  // --------------------------------------------------------------------

  predicate SectorStarts(b: Bank, a: int) {
    exists j :: 0 <= j < |b.start| && b.start[j] == a
  }

  predicate SectorEnds(b: Bank, a: int) {
    exists j :: 0 <= j < |b.start| && SectorEnd(b, j) == a
  }

  /**
   A bank stops the walk at address a: a sector starts there but the request ends inside one
   of the bank; or none starts there, although a lies in the bank and is not its last
   address, or the request ends with one of its sectors.
   */
  predicate BadAt(b: Bank, a: nat, last: nat) {
    && b.start != []
    && if SectorStarts(b, a) then last <= BankEnd(b) && !SectorEnds(b, last)
       else b.start[0] <= a < BankEnd(b) || SectorEnds(b, last)
  }

  lemma PickIff(b: Bank, a: nat, last: nat)
    requires b.start != [] && BankOk(b) && a <= last < ULONG
    ensures PickBank(b, a, last).Stop? <==> BadAt(b, a, last)
    ensures PickBank(b, a, last).Pass? <==> !BadAt(b, a, last) && !SectorStarts(b, a)
    ensures PickBank(b, a, last).Take? ==>
      var p := PickBank(b, a, last);
      && b.start[p.first] == a && p.next == (SectorEnd(b, p.last) + 1) % ULONG
      && if SectorEnds(b, last) then SectorEnd(b, p.last) == last
         else p.last == |b.start| - 1 && BankEnd(b) < last
  {
    hide SectorEnd, BankEnd;
    var f, l := StartAt(b, 0, a), EndAt(b, 0, last);
    assert f.Some? <==> SectorStarts(b, a);
    assert l.Some? <==> SectorEnds(b, last);
    if f.Some? && l.Some? && l.value < f.value {
      SectorEndOrder(b, l.value, f.value);
      assert false;
    }
  }

  /** The address at which the walk arrives at bank i, if it gets there. */
  ghost predicate StopsAt(banks: seq<Bank>, first: nat, last: nat, i: nat)
    requires BanksOk(banks) && i < |banks|
  {
    var head := Select(banks[..i], first, last);
    head.Some? && var a := Reached(banks[..i], head.value, first) % ULONG; a <= last && BadAt(banks[i], a, last)
  }

  /** A request is refused exactly when a bank stops the walk that the banks before it let through. */
  lemma {:induction false} RefusedIff(banks: seq<Bank>, first: nat, last: nat)
    requires BanksOk(banks) && first < ULONG && last < ULONG
    ensures Select(banks, first, last).None? <==> exists i :: 0 <= i < |banks| && StopsAt(banks, first, last, i)
    decreases |banks|
  {
    hide Select, BadAt, StopsAt, PickBank, BankOk, Disjoint;
    if banks == [] {
      SelectEmpty(first, last);
    } else if first > last {
      SelectNothing(banks, first, last);
      forall i | 0 <= i < |banks| ensures !StopsAt(banks, first, last, i) {
        BehindRequest(banks, first, last, i);
      }
    } else {
      var b, more := banks[0], banks[1..];
      BanksRest(banks);
      BankAt(banks);
      StopsFirst(banks, first, last);
      if b.start == [] || PickBank(b, first, last).Pass? {
        SelectSkip(banks, first, last);
        RefusedIff(more, first, last);
        forall i | 0 < i < |banks| ensures StopsAt(banks, first, last, i) <==> StopsAt(more, first, last, i - 1) {
          StopsSkip(banks, first, last, i);
        }
        if Select(more, first, last).None? {
          var i :| 0 <= i < |more| && StopsAt(more, first, last, i);
          assert StopsAt(banks, first, last, i + 1);
        }
      } else if PickBank(b, first, last).Take? {
        var next := PickBank(b, first, last).next;
        NextSmall(b, first, last);
        SelectTake(banks, first, last);
        RefusedIff(more, next, last);
        forall i | 0 < i < |banks| ensures StopsAt(banks, first, last, i) <==> StopsAt(more, next, last, i - 1) {
          StopsTake(banks, first, last, i);
        }
        if Select(more, next, last).None? {
          var i :| 0 <= i < |more| && StopsAt(more, next, last, i);
          assert StopsAt(banks, first, last, i + 1);
        }
      } else {
        SelectStop(banks, first, last);
      }
    }
  }

  lemma BankAt(banks: seq<Bank>)
    requires BanksOk(banks) && banks != []
    ensures BankOk(banks[0]) && (banks[0].known <==> banks[0].start != [])
  {
    hide Disjoint;
  }

  lemma NextSmall(b: Bank, first: nat, last: nat)
    requires b.start != [] && BankOk(b) && first <= last < ULONG && PickBank(b, first, last).Take?
    ensures PickBank(b, first, last).next < ULONG
  {
    hide SectorEnd, BankEnd;
  }

  lemma SelectStop(banks: seq<Bank>, first: nat, last: nat)
    requires BanksOk(banks) && banks != [] && banks[0].start != [] && BankOk(banks[0]) && first <= last
    requires PickBank(banks[0], first, last).Stop?
    ensures Select(banks, first, last).None?
  {
    hide PickBank, Disjoint;
  }

  lemma StopsFirst(banks: seq<Bank>, first: nat, last: nat)
    requires BanksOk(banks) && banks != [] && BankOk(banks[0]) && first <= last < ULONG
    ensures StopsAt(banks, first, last, 0) <==> banks[0].start != [] && PickBank(banks[0], first, last).Stop?
  {
    hide PickBank, BadAt, BankOk, Disjoint;
    assert banks[..0] == [];
    SelectEmpty(first, last);
    assert Reached([], [], first) == first;
    if banks[0].start != [] {
      PickIff(banks[0], first, last);
    } else {
      assert !BadAt(banks[0], first, last) by { NoBank(banks[0], first, last); }
    }
  }

  lemma NoBank(b: Bank, a: nat, last: nat)
    requires b.start == []
    ensures !BadAt(b, a, last)
  {
  }

  /** The first i banks, seen from the second one on. */
  lemma HeadBanks(banks: seq<Bank>, i: nat)
    requires BanksOk(banks) && 0 < i <= |banks|
    ensures BanksOk(banks[..i]) && banks[..i][0] == banks[0] && banks[..i][1..] == banks[1..][..i - 1]
  {
    hide BankOk, Disjoint;
    assert forall j :: 0 <= j < i ==> banks[..i][j] == banks[j];
  }

  lemma BehindRequest(banks: seq<Bank>, first: nat, last: nat, i: nat)
    requires BanksOk(banks) && last < first < ULONG && i < |banks|
    ensures !StopsAt(banks, first, last, i)
  {
    hide Select, BadAt, BankOk, Disjoint;
    if i == 0 {
      assert banks[..0] == [];
      SelectEmpty(first, last);
    } else {
      HeadBanks(banks, i);
      SelectNothing(banks[..i], first, last);
      SkipsCoverNothing(banks[..i], first, 0);
    }
  }

  lemma StopsSkip(banks: seq<Bank>, first: nat, last: nat, i: nat)
    requires BanksOk(banks) && 0 < i < |banks| && BanksOk(banks[1..]) && first <= last < ULONG
    requires banks[0].start != [] ==> BankOk(banks[0]) && PickBank(banks[0], first, last).Pass?
    ensures StopsAt(banks, first, last, i) <==> StopsAt(banks[1..], first, last, i - 1)
  {
    hide Select, BadAt, BankOk, Disjoint, PickBank;
    HeadBanks(banks, i);
    SelectSkip(banks[..i], first, last);
  }

  lemma StopsTake(banks: seq<Bank>, first: nat, last: nat, i: nat)
    requires BanksOk(banks) && 0 < i < |banks| && BanksOk(banks[1..]) && first <= last < ULONG
    requires banks[0].start != [] && BankOk(banks[0]) && PickBank(banks[0], first, last).Take?
    ensures StopsAt(banks, first, last, i) <==> StopsAt(banks[1..], PickBank(banks[0], first, last).next, last, i - 1)
  {
    hide Select, BadAt, BankOk, Disjoint, PickBank;
    HeadBanks(banks, i);
    SelectTake(banks[..i], first, last);
    var p, head := PickBank(banks[0], first, last), banks[1..][..i - 1];
    assert p.next == (SectorEnd(banks[0], p.last) + 1) % ULONG by { PickIff(banks[0], first, last); }
    if Select(head, p.next, last).Some? {
      EndNotNegative(banks[0], p.last);
      ReachedWraps(head, Select(head, p.next, last).value, SectorEnd(banks[0], p.last) + 1, p.next);
    }
  }

  lemma EndNotNegative(b: Bank, i: nat)
    requires BankOk(b) && i < |b.start|
    ensures SectorEnd(b, i) >= 0
  {
    SectorEndOrder(b, i, i);
  }

  lemma {:induction false} ReachedWraps(banks: seq<Bank>, ranges: seq<Range>, x: int, y: int)
    requires |banks| == |ranges| && forall i :: 0 <= i < |banks| ==> RangeOk(banks[i], ranges[i])
    requires x % ULONG == y % ULONG
    ensures Reached(banks, ranges, x) % ULONG == Reached(banks, ranges, y) % ULONG
    decreases |banks|
  {
    hide SectorEnd;
    if banks != [] {
      assert RangeOk(banks[0], ranges[0]);
      var more, rest := banks[1..], ranges[1..];
      assert forall i :: 0 <= i < |more| ==> more[i] == banks[i + 1] && rest[i] == ranges[i + 1];
      if ranges[0].Skip? {
        ReachedWraps(more, rest, x, y);
      }
    }
  }

  // --------------------------------------------------------------------
  // How many sectors
  // --------------------------------------------------------------------

  function Between(i: nat, first: nat, n: nat): (r: set<(nat, nat)>)
    ensures |r| == n && forall x: nat, y: nat :: (x, y) in r <==> x == i && first <= y < first + n
  {
    if n == 0 then {}
    else
      assert (i, first + n - 1) !in Between(i, first, n - 1);
      Between(i, first, n - 1) + {(i, first + n - 1)}
  }

  /** The sectors of the ranges from the k-th one on, as pairs of bank and sector. */
  function SectorSet(ranges: seq<Range>, k: nat): (r: set<(nat, nat)>)
    requires k <= |ranges|
    ensures forall x: nat, y: nat :: (x, y) in r <==> k <= x < |ranges| && Selected(ranges, x, y)
    decreases |ranges| - k
  {
    if k == |ranges| then {}
    else
      (if ranges[k].Sectors? && ranges[k].first <= ranges[k].last
       then Between(k, ranges[k].first, ranges[k].last - ranges[k].first + 1) else {})
      + SectorSet(ranges, k + 1)
  }

  /** The reported number is that of the selected sectors. */
  lemma {:induction false} CountIs(ranges: seq<Range>, k: nat)
    requires k <= |ranges|
    requires forall i :: 0 <= i < |ranges| ==> ranges[i].Sectors? ==> ranges[i].first <= ranges[i].last
    ensures Count(ranges[k..]) == |SectorSet(ranges, k)|
    decreases |ranges| - k
  {
    if k < |ranges| {
      CountIs(ranges, k + 1);
      assert ranges[k..][1..] == ranges[k + 1..] && ranges[k..][0] == ranges[k];
      if ranges[k].Sectors? {
        var here, more := Between(k, ranges[k].first, ranges[k].last - ranges[k].first + 1), SectorSet(ranges, k + 1);
        forall p | p in here ensures p !in more {
          assert p == (p.0, p.1);
        }
        assert |here + more| == |here| + |more|;
      }
    }
  }
}
