/**
 Multi-track floppy read with two levels of retries, common/cmd_fdc.c. The
 drive is a sequence of outcomes, one for every READ, seek and recalibration
 that the driver asks for.
 */
module Floppy {
  import opened Machine
  import opened Arith
  import opened Bits

  const RW_RETRIES := 3
  const CAL_RETRIES := 3

  /** Sectors per track side, heads, and bytes in a sector. */
  datatype Geometry = Geometry(sect: Positive, heads: Positive, size: Positive)

  /** Byte i of a sector, by track, head and sector number. */
  type Disk = (int, int, int, int) -> Byte

  datatype Address = Address(track: int, head: int, sector: int)
  datatype Read = Read(at: Address, count: nat)

  /** A READ delivers the sectors, stops with an error after some junk, or is not taken at all. */
  datatype Outcome = Good | Faulty(junk: seq<Byte>) | Refused

  datatype Drive = Drive(attempts: nat -> Outcome, seeks: nat -> bool, recals: nat -> bool)

  datatype Status = Done | SeekFailed | CommandRefused | TooManyErrors

  // --------------------------------------------------------------------
  // Block numbers and sector addresses
  // --------------------------------------------------------------------

  /** The arithmetic of fdc_issue_cmd. */
  function AddressOf(g: Geometry, block: nat): Address {
    var rest := block % (g.sect * g.heads);
    Address(block / (g.sect * g.heads), rest / g.sect, rest % g.sect + 1)
  }

  predicate AddressOk(g: Geometry, a: Address) {
    0 <= a.track && 0 <= a.head < g.heads && 1 <= a.sector <= g.sect
  }

  function BlockOf(g: Geometry, a: Address): int {
    (a.track * g.heads + a.head) * g.sect + a.sector - 1
  }

  /** The command bytes hold eight bits each. */
  function CommandOf(a: Address): Address {
    Address(a.track % 256, a.head % 256, a.sector % 256)
  }

  /** Blocks whose address fits the command bytes. */
  predicate Addressable(g: Geometry, block: nat) {
    CommandOf(AddressOf(g, block)) == AddressOf(g, block)
  }

  lemma SideAndSector(g: Geometry, block: nat)
    ensures var side := block / g.sect;
      AddressOf(g, block) == Address(side / g.heads, side % g.heads, block % g.sect + 1)
  {
    var side, sector := block / g.sect, block % g.sect;
    var t, h := side / g.heads, side % g.heads;
    var rest := h * g.sect + sector;
    Regroup(g.sect, g.heads, t, h, sector, side, block);
    QuotientUnique(block, g.sect * g.heads, t, rest);
    QuotientUnique(rest, g.sect, h, sector);
  }

  lemma Regroup(sect: Positive, heads: Positive, t: int, h: nat, sector: nat, side: int, block: int)
    requires h < heads && sector < sect && side == t * heads + h && block == side * sect + sector
    ensures block == t * (sect * heads) + (h * sect + sector)
    ensures 0 <= h * sect + sector < sect * heads
  {
    assert (t * heads + h) * sect == t * (sect * heads) + h * sect;
    AtLeastOnce(heads - h, sect);
    assert (heads - h) * sect == sect * heads - h * sect;
    assert h * sect >= 0;
  }

  /** The map from blocks to addresses is a bijection onto the addresses of the geometry. */
  lemma AddressInverts(g: Geometry, block: nat, a: Address)
    ensures AddressOk(g, AddressOf(g, block)) && BlockOf(g, AddressOf(g, block)) == block
    ensures AddressOk(g, a) ==> BlockOf(g, a) >= 0 && AddressOf(g, BlockOf(g, a)) == a
  {
    hide AddressOf, BlockOf;
    BlockBack(g, block);
    if AddressOk(g, a) {
      AddressBack(g, a);
    }
  }

  lemma BlockBack(g: Geometry, block: nat)
    ensures AddressOk(g, AddressOf(g, block)) && BlockOf(g, AddressOf(g, block)) == block
  {
    hide AddressOf;
    SideAndSector(g, block);
    var side := block / g.sect;
    assert side / g.heads * g.heads + side % g.heads == side;
    assert block == side * g.sect + block % g.sect;
  }

  lemma AddressBack(g: Geometry, a: Address)
    requires AddressOk(g, a)
    ensures BlockOf(g, a) >= 0 && AddressOf(g, BlockOf(g, a)) == a
  {
    hide AddressOf;
    var side := a.track * g.heads + a.head;
    assert side >= 0 && side * g.sect >= 0;
    SideAndSector(g, BlockOf(g, a));
    QuotientUnique(BlockOf(g, a), g.sect, side, a.sector - 1);
    QuotientUnique(side, g.heads, a.track, a.head);
  }

  /** Blocks that follow on the same track side. */
  lemma SameSide(g: Geometry, block: nat, k: nat)
    requires block % g.sect + k < g.sect
    ensures var a := AddressOf(g, block);
      AddressOf(g, block + k) == Address(a.track, a.head, a.sector + k)
  {
    hide AddressOf;
    SideAndSector(g, block);
    SideAndSector(g, block + k);
    assert block == block / g.sect * g.sect + block % g.sect;
    QuotientUnique(block + k, g.sect, block / g.sect, block % g.sect + k);
  }

  // --------------------------------------------------------------------
  // What a request holds, and what a READ delivers
  // --------------------------------------------------------------------

  /** The length of n blocks. */
  function Bytes(g: Geometry, n: nat): nat {
    n * g.size
  }

  /** Byte j of the blocks from the given one on. */
  function Content(disk: Disk, g: Geometry, block: nat, j: nat): Byte {
    var a := AddressOf(g, block + j / g.size);
    disk(a.track, a.head, a.sector, j % g.size)
  }

  /** Byte i that a READ command at an address delivers. */
  function Delivered(disk: Disk, g: Geometry, at: Address, i: nat): Byte {
    disk(at.track, at.head, at.sector + i / g.size, i % g.size)
  }

  lemma DeliveredIsContent(disk: Disk, g: Geometry, first: nat, done: nat, count: nat, i: nat)
    requires Addressable(g, first + done)
    requires (first + done) % g.sect + count <= g.sect && i < count * g.size
    ensures Delivered(disk, g, CommandOf(AddressOf(g, first + done)), i) == Content(disk, g, first, done * g.size + i)
  {
    hide AddressOf;
    var k := i / g.size;
    assert i == k * g.size + i % g.size;
    Below(k, count, g.size, i % g.size);
    SameSide(g, first + done, k);
    assert done * g.size + i == (done + k) * g.size + i % g.size;
    QuotientUnique(done * g.size + i, g.size, done + k, i % g.size);
  }

  // --------------------------------------------------------------------
  // Pieces and errors
  // --------------------------------------------------------------------

  /** Track sides that n blocks from the given one touch. */
  function Sides(g: Geometry, block: nat, n: nat): int {
    if n == 0 then 0 else (block + n - 1) / g.sect - block / g.sect + 1
  }

  /** Blocks from the given one to the end of its track side, at most n. */
  function PieceLen(g: Geometry, block: nat, n: nat): (r: nat)
    ensures r <= n && (n > 0 ==> r > 0)
  {
    Min(g.sect - block % g.sect, n)
  }

  lemma SidesStep(g: Geometry, block: nat, n: nat)
    requires n > 0
    ensures var r := PieceLen(g, block, n);
      && Sides(g, block, n) == 1 + Sides(g, block + r, n - r)
      && (r < n ==> Min(g.sect, n - r) == PieceLen(g, block + r, n - r))
  {
    var q, m := block / g.sect, block % g.sect;
    var r := Min(g.sect - m, n);
    SideEnds(g.sect, block, q, m, r, n);
  }

  lemma SideEnds(sect: Positive, block: nat, q: int, m: nat, r: nat, n: nat)
    requires block == q * sect + m && m + r <= sect && 0 < r <= n && (r < n ==> m + r == sect)
    ensures r == n ==> (block + n - 1) / sect == q
    ensures r < n ==> (block + r) / sect == q + 1 && (block + r) % sect == 0
  {
    if r == n {
      QuotientUnique(block + n - 1, sect, q, m + n - 1);
    } else {
      assert block + r == (q + 1) * sect;
      QuotientUnique(block + r, sect, q + 1, 0);
    }
  }

  /** Transfer errors among the first k READs. */
  function Faults(attempts: nat -> Outcome, k: nat): (r: nat)
    ensures r <= k
  {
    if k == 0 then 0 else Faults(attempts, k - 1) + (if attempts(k - 1).Faulty? then 1 else 0)
  }

  lemma {:induction false} FaultsMonotone(attempts: nat -> Outcome, i: nat, k: nat)
    requires i <= k
    ensures Faults(attempts, i) <= Faults(attempts, k) <= Faults(attempts, i) + k - i
  {
    if i < k {
      FaultsMonotone(attempts, i, k - 1);
    }
  }

  /** Enough good READs come before the twenty-fifth transfer error. */
  ghost predicate Survives(attempts: nat -> Outcome, pieces: int) {
    exists k: nat :: k - Faults(attempts, k) == pieces && Faults(attempts, k) <= 24
  }

  lemma TwentyFifth(attempts: nat -> Outcome, k: nat, pieces: int)
    requires Faults(attempts, k) == 25 && k - 25 < pieces
    ensures !Survives(attempts, pieces)
  {
    forall i: nat | Faults(attempts, i) <= 24 ensures i - Faults(attempts, i) < pieces {
      if i <= k {
        FaultsMonotone(attempts, i, k);
      } else {
        FaultsMonotone(attempts, k, i);
      }
    }
  }

  // --------------------------------------------------------------------
  // The driver
  // --------------------------------------------------------------------

  /** The byte loop of one READ: a transfer error stops it and leaves junk behind. */
  method Transfer(disk: Disk, g: Geometry, at: Address, outcome: Outcome, buffer: array<Byte>, offset: nat, len: nat)
    returns (error: bool)
    requires offset + len <= buffer.Length
    modifies buffer
    ensures error == (outcome.Faulty? && len > 0)
    ensures forall j :: 0 <= j < offset || offset + len <= j < buffer.Length ==> buffer[j] == old(buffer[j])
    ensures !error ==> forall j :: offset <= j < offset + len ==> buffer[j] == Delivered(disk, g, at, j - offset)
  {
    hide Delivered;
    for i := 0 to len
      invariant forall j :: 0 <= j < offset || offset + len <= j < buffer.Length ==> buffer[j] == old(buffer[j])
      invariant !outcome.Faulty? ==>
        forall j :: offset <= j < offset + i ==> buffer[j] == Delivered(disk, g, at, j - offset)
      invariant outcome.Faulty? ==> i <= |outcome.junk| && (i < len || len == 0)
    {
      if outcome.Faulty? {
        if i == |outcome.junk| || i == len - 1 {
          return true;
        }
        buffer[offset + i] := outcome.junk[i];
      } else {
        buffer[offset + i] := Delivered(disk, g, at, i);
      }
    }
    return false;
  }

  /** Nothing but transfer errors goes wrong. */
  ghost predicate OnlyTransferErrors(drive: Drive) {
    forall k: nat :: drive.seeks(k) && drive.recals(k) && !drive.attempts(k).Refused?
  }

  /** Of that many READs none was refused, and that many recalibrations and seeks went well. */
  ghost predicate Passed(drive: Drive, good: nat, recals: nat, seeks: int) {
    && (forall i: nat :: i < good ==> !drive.attempts(i).Refused?)
    && (forall i: nat :: i < recals ==> drive.recals(i))
    && (forall i: nat :: i < seeks ==> drive.seeks(i))
  }

  /**
   All that a transfer of k READs needs: a recalibration after every fifth error, and a
   seek for every side and then.
   */
  ghost predicate Served(drive: Drive, k: nat, sides: int) {
    var recals := Faults(drive.attempts, k) / 5;
    Passed(drive, k, recals, sides + recals)
  }

  ghost predicate SomeSeekFails(drive: Drive) {
    exists k: nat :: !drive.seeks(k)
  }

  ghost predicate SomeRecalFails(drive: Drive) {
    exists k: nat :: !drive.recals(k)
  }

  lemma PassedMore(drive: Drive, good: nat, recals: nat, seeks: nat)
    requires Passed(drive, good, recals, seeks)
    ensures !drive.attempts(good).Refused? ==> Passed(drive, good + 1, recals, seeks)
    ensures if drive.recals(recals) then Passed(drive, good, recals + 1, seeks) else SomeRecalFails(drive)
    ensures if drive.seeks(seeks) then Passed(drive, good, recals, seeks + 1) else SomeSeekFails(drive)
  {
  }

  lemma PassedNothing(drive: Drive)
    ensures Passed(drive, 0, 0, 0)
  {
  }

  predicate AllAddressable(g: Geometry, block: nat, n: nat) {
    forall b: nat :: block <= b < block + n ==> Addressable(g, b)
  }

  /** A READ that stays on its track side. */
  predicate OnOneSide(g: Geometry, r: Read) {
    AddressOk(g, r.at) && r.at.sector - 1 + r.count <= g.sect
  }

  ghost predicate Holds(disk: Disk, g: Geometry, block: nat, bytes: seq<Byte>) {
    forall j :: 0 <= j < |bytes| ==> bytes[j] == Content(disk, g, block, j)
  }

  lemma PieceFits(g: Geometry, done: nat, count: nat, n: nat)
    requires done + count <= n
    ensures Bytes(g, done) + Bytes(g, count) == Bytes(g, done + count) <= Bytes(g, n)
    ensures Bytes(g, 0) == 0
    ensures count > 0 ==> Bytes(g, count) > 0
  {
    assert (n - done - count) * g.size >= 0;
    AtLeastOnce(count, g.size);
  }

  /** One more piece, read where its first block lies. */
  lemma HoldsMore(disk: Disk, g: Geometry, first: nat, done: nat, count: nat, n: nat, bytes: seq<Byte>)
    requires done <= n && count == PieceLen(g, first + done, n - done)
    requires AllAddressable(g, first, n)
    requires |bytes| == Bytes(g, done + count) && Bytes(g, done) <= |bytes|
    requires Holds(disk, g, first, bytes[..Bytes(g, done)])
    requires forall j :: Bytes(g, done) <= j < |bytes| ==>
      bytes[j] == Delivered(disk, g, CommandOf(AddressOf(g, first + done)), j - Bytes(g, done))
    ensures Holds(disk, g, first, bytes)
  {
    hide Delivered, Content, AddressOf, Addressable, CommandOf;
    PieceFits(g, done, count, n);
    var offset := Bytes(g, done);
    forall j | 0 <= j < |bytes| ensures bytes[j] == Content(disk, g, first, j) {
      if j < offset {
        assert bytes[j] == bytes[..offset][j];
      } else {
        var i := j - offset;
        PieceStarts(g, done, count, n, i);
        DeliveredIsContent(disk, g, first, done, count, i);
      }
    }
  }

  lemma PieceStarts(g: Geometry, done: nat, count: nat, n: nat, i: nat)
    requires done + count <= n && i < Bytes(g, count)
    ensures done < n
  {
    Below(0, count, g.size, i);
  }

  lemma ReadOnOneSide(g: Geometry, block: nat, n: nat)
    ensures OnOneSide(g, Read(AddressOf(g, block), PieceLen(g, block, n)))
  {
    hide AddressOf;
    AddressInverts(g, block, Address(0, 0, 1));
    SideAndSector(g, block);
  }

  lemma FaultsNext(attempts: nat -> Outcome, k: nat)
    ensures Faults(attempts, k + 1) == Faults(attempts, k) + (if attempts(k).Faulty? then 1 else 0)
  {
  }

  /** One READ: it adds a piece to the blocks held so far, or leaves them as they are. */
  method ReadPiece(disk: Disk, g: Geometry, outcome: Outcome, buffer: array<Byte>, first: nat, done: nat, n: nat)
    returns (error: bool)
    requires done <= n && Bytes(g, done) <= Bytes(g, n) <= buffer.Length
    modifies buffer
    ensures error == (outcome.Faulty? && done < n)
    ensures forall j :: Bytes(g, n) <= j < buffer.Length ==> buffer[j] == old(buffer[j])
    ensures Bytes(g, done + PieceLen(g, first + done, n - done)) <= Bytes(g, n)
    ensures AllAddressable(g, first, n) && Holds(disk, g, first, old(buffer[..Bytes(g, done)])) ==>
      Holds(disk, g, first, buffer[..Bytes(g, if error then done else done + PieceLen(g, first + done, n - done))])
  {
    hide Bytes, AddressOf, CommandOf, AllAddressable, Holds, Delivered, PieceLen;
    var count := PieceLen(g, first + done, n - done);
    ghost var before := buffer[..Bytes(g, done)];
    PieceFits(g, done, count, n);
    error := Transfer(disk, g, CommandOf(AddressOf(g, first + done)), outcome, buffer, Bytes(g, done), Bytes(g, count));
    assert buffer[..Bytes(g, done)] == before;
    if !error && AllAddressable(g, first, n) && Holds(disk, g, first, before) {
      ghost var bytes := buffer[..Bytes(g, done + count)];
      assert bytes[..Bytes(g, done)] == before;
      HoldsMore(disk, g, first, done, count, n, bytes);
    }
  }

  /**
   fdc_read_data. On success the buffer holds the requested blocks; no READ
   leaves its track side; and when only transfers go wrong the call succeeds
   exactly if enough of them go right before the twenty-fifth error.
   */
  method ReadData(disk: Disk, g: Geometry, drive: Drive, buffer: array<Byte>, first: nat, n: nat)
    returns (status: Status, blnr: nat, cmds: seq<Read>)
    requires Bytes(g, n) <= buffer.Length
    modifies buffer
    ensures forall j :: Bytes(g, n) <= j < buffer.Length ==> buffer[j] == old(buffer[j])
    ensures status.Done? ==> blnr == first + n
    ensures status.Done? && AllAddressable(g, first, n) ==> Holds(disk, g, first, buffer[..Bytes(g, n)])
    ensures forall r :: r in cmds ==> OnOneSide(g, r)
    ensures n > 0 && status.Done? ==> |cmds| == Sides(g, first, n) + Faults(drive.attempts, |cmds|)
    ensures n > 0 && status.Done? ==> Served(drive, |cmds|, Sides(g, first, n))
    ensures status.SeekFailed? ==> SomeSeekFails(drive)
    ensures status.CommandRefused? ==> drive.attempts(|cmds|).Refused? || SomeRecalFails(drive)
    ensures n > 0 && status.TooManyErrors? ==> Faults(drive.attempts, |cmds|) == 25
    ensures n > 0 && OnlyTransferErrors(drive) ==> (status.Done? <==> Survives(drive.attempts, Sides(g, first, n)))
  {
    hide Bytes, AddressOf, AddressOk, CommandOf, Addressable, AllAddressable, Holds, Faults, Sides, Survives,
         OnlyTransferErrors, OnOneSide, Content, Delivered, PieceLen, Min, Passed,
         Served, SomeSeekFails, SomeRecalFails;
    blnr, cmds := first, [];
    var done: nat, seeks: nat, recals: nat := 0, 0, 0;
    var rw, cal := 0, 0;
    ghost var clean := OnlyTransferErrors(drive);
    ghost var sides := Sides(g, first, n);
    WrongOnly(drive);
    PassedNothing(drive);
    PassedMore(drive, 0, 0, 0);
    if !drive.seeks(seeks) {
      return SeekFailed, blnr, cmds;
    }
    seeks := 1;
    var count := PieceLen(g, blnr, n);
    var seek := false;
    Start(disk, g, drive.attempts, first);
    while true
      invariant 0 <= done <= n && blnr == first + done && (n > 0 ==> done < n)
      invariant count == PieceLen(g, blnr, n - done)
      invariant 0 <= rw <= RW_RETRIES + 1 && 0 <= cal <= CAL_RETRIES + 1
      invariant n > 0 ==> Faults(drive.attempts, |cmds|) == 5 * cal + rw
      invariant |cmds| + Sides(g, blnr, n - done) == sides + 5 * cal + rw
      invariant n > 0 ==> seeks + (if seek then 1 else 0) == 1 + sides - Sides(g, blnr, n - done) + cal
      invariant recals == cal && Passed(drive, |cmds|, recals, seeks)
      invariant n == 0 ==> cmds == [] && rw == cal == 0
      invariant forall j :: Bytes(g, n) <= j < buffer.Length ==> buffer[j] == old(buffer[j])
      invariant Bytes(g, done) <= Bytes(g, n)
      invariant AllAddressable(g, first, n) ==> Holds(disk, g, first, buffer[..Bytes(g, done)])
      invariant forall r :: r in cmds ==> OnOneSide(g, r)
      decreases n - done, 24 - (5 * cal + rw)
    {
      if seek {
        PassedMore(drive, |cmds|, recals, seeks);
        if !drive.seeks(seeks) {
          return SeekFailed, blnr, cmds;
        }
        seeks := seeks + 1;
      }
      var outcome := drive.attempts(|cmds|);
      if outcome.Refused? {
        return CommandRefused, blnr, cmds;
      }
      var at := AddressOf(g, blnr);
      ghost var k := |cmds|;
      ReadOnOneSide(g, blnr, n - done);
      FaultsNext(drive.attempts, k);
      PassedMore(drive, k, recals, seeks);
      var error := ReadPiece(disk, g, outcome, buffer, first, done, n);
      cmds := cmds + [Read(at, count)];
      if error {
        SidesPositive(g, blnr, n - done);
        rw := rw + 1;
        if rw > RW_RETRIES + 1 {
          cal := cal + 1;
          if cal > CAL_RETRIES + 1 {
            TwentyFifth(drive.attempts, |cmds|, sides);
            return TooManyErrors, blnr, cmds;
          }
          PassedMore(drive, |cmds|, recals, seeks);
          if !drive.recals(recals) {
            return CommandRefused, blnr, cmds;
          }
          recals := recals + 1;
          rw := 0;
          seek := true;
        } else {
          seek := false;
        }
      } else {
        if n > 0 {
          SidesStep(g, blnr, n - done);
        }
        done := done + count;
        blnr := blnr + count;
        if done == n {
          Finished(g, drive, blnr, |cmds|, sides, n, rw, cal, seeks);
          return Done, blnr, cmds;
        }
        count := Min(g.sect, n - done);
        seek := true;
      }
    }
  }

  lemma WrongOnly(drive: Drive)
    ensures OnlyTransferErrors(drive) ==>
      forall k: nat :: drive.seeks(k) && drive.recals(k) && !drive.attempts(k).Refused?
  {
  }

  lemma Start(disk: Disk, g: Geometry, attempts: nat -> Outcome, first: nat)
    ensures Holds(disk, g, first, []) && Faults(attempts, 0) == 0 && Bytes(g, 0) == 0
  {
  }

  lemma SidesPositive(g: Geometry, block: nat, n: nat)
    requires n > 0
    ensures Sides(g, block, n) > 0
  {
    var x := block + n - 1;
    assert x == x / g.sect * g.sect + x % g.sect && block == block / g.sect * g.sect + block % g.sect;
    AtLeastOnce(block / g.sect - x / g.sect, g.sect);
  }

  lemma Finished(g: Geometry, drive: Drive, blnr: nat, k: nat, sides: int, n: nat, rw: nat, cal: nat, seeks: nat)
    requires n > 0 ==>
      && Faults(drive.attempts, k) == 5 * cal + rw <= 24 && rw <= 4 && k + Sides(g, blnr, 0) == sides + 5 * cal + rw
      && Passed(drive, k, cal, seeks) && seeks + Sides(g, blnr, 0) == sides + cal
    ensures n > 0 ==>
      k == sides + Faults(drive.attempts, k) && Survives(drive.attempts, sides) && Served(drive, k, sides)
  {
    hide Passed;
  }
}
