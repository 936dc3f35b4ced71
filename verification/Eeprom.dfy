/**
 Paged EEPROM transfers of common/cmd_eeprom.c on I2C: the device's address
 counter wraps inside a write page, and the driver cuts every transfer so that
 this never shows. Offsets are flat device addresses.
 */
module Eeprom {
  import opened Machine
  import opened Arith

  /** Write page size and I2C_RXTX_LEN. */
  datatype Config = Config(page: Positive, limit: Positive)

  /** Bytes of the next write: up to the end of the page as the driver computes it from the low address byte. */
  function WriteLen(c: Config, offset: nat, left: nat): int {
    Min(left, Min(c.page - offset % 256 % c.page, c.limit))
  }

  /** Bytes of the next read: up to the end of the 256-byte block. */
  function ReadLen(c: Config, offset: nat, left: nat): int {
    Min(left, Min(256 - offset % 256, c.limit))
  }

  // --------------------------------------------------------------------
  // The device
  // --------------------------------------------------------------------

  /** Where byte i of a transfer at address a goes when the counter wraps inside a page. */
  function Slot(page: Positive, a: nat, i: nat): nat {
    a - a % page + (a % page + i) % page
  }

  /** A transfer as the device stores it, from byte i on; writes beyond the device are ignored. */
  function DeviceWrite(mem: seq<Byte>, page: Positive, a: nat, data: seq<Byte>, i: nat): (r: seq<Byte>)
    requires i <= |data|
    ensures |r| == |mem|
    decreases |data| - i
  {
    if i == |data| then mem
    else
      var k := Slot(page, a, i);
      DeviceWrite(if k < |mem| then mem[k := data[i]] else mem, page, a, data, i + 1)
  }

  function FlatWrite(mem: seq<Byte>, a: nat, data: seq<Byte>): (r: seq<Byte>)
    requires a + |data| <= |mem|
    ensures |r| == |mem|
  {
    mem[..a] + data + mem[a + |data|..]
  }

  lemma SlotInPage(page: Positive, a: nat, i: nat)
    requires a % page + i < page
    ensures Slot(page, a, i) == a + i
  {
    assert (a % page + i) % page == a % page + i by { SmallMod(a % page + i, page); }
  }

  lemma SmallMod(x: nat, m: Positive)
    requires x < m
    ensures x % m == x
  {
  }

  /** A write that stays inside its page is a flat update. */
  lemma {:induction false} InPageIsFlat(mem: seq<Byte>, page: Positive, a: nat, data: seq<Byte>, i: nat)
    requires i <= |data| && a % page + |data| <= page && a + |data| <= |mem|
    ensures DeviceWrite(FlatWrite(mem, a, data[..i]), page, a, data, i) == FlatWrite(mem, a, data)
    decreases |data| - i
  {
    hide Slot;
    if i == |data| {
      assert data[..i] == data;
    } else {
      SlotInPage(page, a, i);
      var now := FlatWrite(mem, a, data[..i]);
      assert now[a + i := data[i]] == FlatWrite(mem, a, data[..i + 1]);
      InPageIsFlat(mem, page, a, data, i + 1);
    }
  }

  // --------------------------------------------------------------------
  // The cut
  // --------------------------------------------------------------------

  /** Page sizes that divide the 256 bytes the driver looks at. */
  predicate PageFits(page: Positive) {
    256 % page == 0
  }

  /** Every write the driver makes stays inside its page and within the transfer limit. */
  predicate CutOk(c: Config, offset: nat, left: nat) {
    offset % c.page + WriteLen(c, offset, left) <= c.page && 0 < WriteLen(c, offset, left) <= c.limit
  }

  lemma LowByteDecides(page: Positive, offset: nat)
    requires PageFits(page)
    ensures offset % 256 % page == offset % page
  {
    var q, r := offset / 256, offset % 256;
    var d := 256 / page;
    assert 256 == d * page by { assert 256 == 256 / page * page + 256 % page; }
    assert offset == q * d * page + r by { assert q * 256 == q * (d * page) == q * d * page; }
    AddMultiple(r, q * d, page);
  }

  lemma AddMultiple(r: nat, k: nat, page: Positive)
    ensures (k * page + r) % page == r % page
  {
    var a, b := r / page, r % page;
    assert k * page + r == (k + a) * page + b by { assert r == a * page + b; }
    QuotientUnique(k * page + r, page, k + a, b);
  }

  /** Pages of a power of two: the cut keeps inside the page exactly up to 256 bytes, or when bytes go singly. */
  lemma CutOkIff(c: Config)
    requires PageFits(c.page) || c.page % 512 == 0
    ensures (forall offset: nat, left: nat :: left > 0 ==> CutOk(c, offset, left)) <==> PageFits(c.page) || c.limit == 1
  {
    if PageFits(c.page) || c.limit == 1 {
      forall offset: nat, left: nat | left > 0 ensures CutOk(c, offset, left) {
        if PageFits(c.page) {
          LowByteDecides(c.page, offset);
        } else {
          assert c.page >= 512;
          assert offset % 256 % c.page == offset % 256 by { SmallMod(offset % 256, c.page); }
        }
      }
    } else {
      var offset := c.page - 1;
      assert offset % 256 == 255 by { BelowMultiple(c.page); }
      SmallMod(255, c.page);
      SmallMod(offset, c.page);
      assert !CutOk(c, offset, 2);
    }
  }

  lemma BelowMultiple(page: Positive)
    requires page % 512 == 0
    ensures page >= 512 && (page - 1) % 256 == 255
  {
    var q := page / 512;
    assert page == 512 * q;
  }

  // --------------------------------------------------------------------
  // A whole write
  // --------------------------------------------------------------------

  lemma CutMoves(c: Config, offset: nat, left: nat)
    requires left > 0
    ensures 0 < WriteLen(c, offset, left) <= c.limit && WriteLen(c, offset, left) <= left
  {
  }

  /** What eeprom_write leaves on the device: one transfer after the other. */
  function Written(c: Config, mem: seq<Byte>, offset: nat, data: seq<Byte>): (r: seq<Byte>)
    ensures |r| == |mem|
    decreases |data|
  {
    if data == [] then mem
    else
      CutMoves(c, offset, |data|);
      var len := WriteLen(c, offset, |data|);
      Written(c, DeviceWrite(mem, c.page, offset, data[..len], 0), offset + len, data[len..])
  }

  lemma CutHolds(c: Config, offset: nat, left: nat)
    requires (PageFits(c.page) || c.limit == 1) && left > 0
    ensures offset % c.page + WriteLen(c, offset, left) <= c.page
  {
    if PageFits(c.page) {
      LowByteDecides(c.page, offset);
    }
  }

  lemma {:induction false} WrittenIsFlat(c: Config, mem: seq<Byte>, a: nat, data: seq<Byte>)
    requires PageFits(c.page) || c.limit == 1
    requires a + |data| <= |mem|
    ensures Written(c, mem, a, data) == FlatWrite(mem, a, data)
    decreases |data|
  {
    hide DeviceWrite, WriteLen, PageFits;
    if data == [] {
      FlatNothing(mem, a, data);
      assert data[..0] == data;
    } else {
      CutMoves(c, a, |data|);
      CutHolds(c, a, |data|);
      var len := WriteLen(c, a, |data|);
      var x, y := data[..len], data[len..];
      FlatNothing(mem, a, x);
      InPageIsFlat(mem, c.page, a, x, 0);
      WrittenIsFlat(c, FlatWrite(mem, a, x), a + len, y);
      FlatTwice(mem, a, data, len, |y|);
      assert data[..len + |y|] == data;
    }
  }

  /** The write that crosses: two bytes at the end of a page of 512 bytes or more. */
  lemma CrossingWrite(c: Config, mem: seq<Byte>)
    requires c.page % 512 == 0 && c.limit > 1 && |mem| > c.page && mem[c.page] == 0
    ensures Written(c, mem, c.page - 1, [1, 1])[c.page] == 0
  {
    hide DeviceWrite;
    var a := c.page - 1;
    BelowMultiple(c.page);
    SmallMod(255, c.page);
    assert WriteLen(c, a, 2) == 2;
    assert [1, 1][..2] == [1, 1] && [1, 1][2..] == [];
    TwoBytesWrap(mem, c.page);
  }

  lemma TwoBytesWrap(mem: seq<Byte>, page: Positive)
    requires page > 1 && |mem| > page
    ensures DeviceWrite(mem, page, page - 1, [1, 1], 0)[page] == mem[page]
  {
    SmallMod(page - 1, page);
    assert Slot(page, page - 1, 0) == page - 1;
    assert page % page == 0 by { QuotientUnique(page, page, 1, 0); }
    assert Slot(page, page - 1, 1) == 0;
    var one := mem[page - 1 := 1];
    assert DeviceWrite(mem, page, page - 1, [1, 1], 0) == DeviceWrite(one, page, page - 1, [1, 1], 1);
    assert DeviceWrite(one, page, page - 1, [1, 1], 1) == DeviceWrite(one[0 := 1], page, page - 1, [1, 1], 2);
  }

  function Zeros(n: nat): (r: seq<Byte>)
    ensures |r| == n && forall i :: 0 <= i < n ==> r[i] == 0
  {
    seq(n, i => 0)
  }

  /**
   On devices longer than a page, eeprom_write is a flat update for all contents,
   offsets and data, if and only if the page is at most 256 bytes or bytes go singly.
   */
  lemma FlatIff(c: Config)
    requires PageFits(c.page) || c.page % 512 == 0
    ensures (forall mem: seq<Byte>, a: nat, data: seq<Byte> :: |mem| > c.page && a + |data| <= |mem| ==>
        Written(c, mem, a, data) == FlatWrite(mem, a, data)) <==> PageFits(c.page) || c.limit == 1
  {
    hide Written, FlatWrite;
    if PageFits(c.page) || c.limit == 1 {
      forall mem: seq<Byte>, a: nat, data: seq<Byte> | |mem| > c.page && a + |data| <= |mem|
        ensures Written(c, mem, a, data) == FlatWrite(mem, a, data)
      {
        WrittenIsFlat(c, mem, a, data);
      }
    } else {
      var mem := Zeros(c.page + 1);
      CrossingWrite(c, mem);
      FlatCrosses(mem, c.page);
      assert Written(c, mem, c.page - 1, [1, 1]) != FlatWrite(mem, c.page - 1, [1, 1]);
    }
  }

  lemma FlatCrosses(mem: seq<Byte>, page: Positive)
    requires |mem| > page
    ensures FlatWrite(mem, page - 1, [1, 1])[page] == 1
  {
  }

  // --------------------------------------------------------------------
  // The driver
  // --------------------------------------------------------------------

  class Device {
    const config: Config
    var mem: seq<Byte>

    constructor (config: Config, mem: seq<Byte>)
      ensures this.config == config && this.mem == mem
    {
      this.config, this.mem := config, mem;
    }

    /** i2c_write: the bus driver takes at most I2C_RXTX_LEN bytes. */
    method I2cWrite(a: nat, data: seq<Byte>)
      requires |data| <= config.limit
      modifies this
      ensures mem == DeviceWrite(old(mem), config.page, a, data, 0)
    {
      hide Slot;
      var i := 0;
      while i < |data|
        invariant 0 <= i <= |data|
        invariant DeviceWrite(mem, config.page, a, data, i) == DeviceWrite(old(mem), config.page, a, data, 0)
      {
        var k := Slot(config.page, a, i);
        if k < |mem| {
          mem := mem[k := data[i]];
        }
        i := i + 1;
      }
    }

    /** i2c_read: the counter wraps in 256-byte blocks. */
    method I2cRead(a: nat, n: nat) returns (data: seq<Byte>)
      requires n <= config.limit && a % 256 + n <= 256 && a + n <= |mem|
      ensures data == mem[a..a + n]
    {
      data := [];
      var i := 0;
      while i < n
        invariant 0 <= i <= n && data == mem[a..a + i]
      {
        SlotInPage(256, a, i);
        data := data + [mem[Slot(256, a, i)]];
        i := i + 1;
      }
    }

    /** eeprom_write: a flat update when the pieces stay in their pages. */
    method Write(offset0: nat, buffer: seq<Byte>)
      requires offset0 + |buffer| <= |mem| < ULONG
      modifies this
      ensures mem == Written(config, old(mem), offset0, buffer)
      ensures PageFits(config.page) || config.limit == 1 ==> mem == FlatWrite(old(mem), offset0, buffer)
    {
      hide *;
      var end := (offset0 + |buffer|) % ULONG;
      assert end == offset0 + |buffer| by { SmallMod(offset0 + |buffer|, ULONG); }
      var offset, p := offset0, 0;
      assert buffer[0..] == buffer;
      while offset < end
        invariant offset == offset0 + p && 0 <= p <= |buffer|
        invariant Written(config, mem, offset, buffer[p..]) == Written(config, old(mem), offset0, buffer)
        decreases end - offset
      {
        var len := WriteLen(config, offset, end - offset);
        CutMoves(config, offset, end - offset);
        WrittenStep(config, mem, offset, buffer, p, len);
        I2cWrite(offset, buffer[p..p + len]);
        p := p + len;
        offset := offset + len;
      }
      assert buffer[p..] == [];
      WrittenNothing(config, mem, offset);
      if PageFits(config.page) || config.limit == 1 {
        WrittenIsFlat(config, old(mem), offset0, buffer);
      }
    }

    /** eeprom_read: a flat slice. */
    method Read(offset0: nat, cnt: nat) returns (buffer: seq<Byte>)
      requires offset0 + cnt <= |mem| < ULONG
      ensures buffer == mem[offset0..offset0 + cnt]
    {
      var end := (offset0 + cnt) % ULONG;
      var offset := offset0;
      buffer := [];
      while offset < end
        invariant offset0 <= offset <= offset0 + cnt
        invariant buffer == mem[offset0..offset]
        decreases end - offset
      {
        var len := ReadLen(config, offset, end - offset);
        var piece := I2cRead(offset, len);
        assert mem[offset0..offset] + mem[offset..offset + len] == mem[offset0..offset + len];
        buffer := buffer + piece;
        offset := offset + len;
      }
    }
  }

  lemma WrittenStep(c: Config, mem: seq<Byte>, offset: nat, buffer: seq<Byte>, p: nat, len: nat)
    requires p < |buffer| && len == WriteLen(c, offset, |buffer| - p) && 0 < len <= |buffer| - p
    ensures Written(c, mem, offset, buffer[p..])
      == Written(c, DeviceWrite(mem, c.page, offset, buffer[p..p + len], 0), offset + len, buffer[p + len..])
  {
    hide DeviceWrite, WriteLen;
    assert buffer[p..][..len] == buffer[p..p + len] && buffer[p..][len..] == buffer[p + len..];
  }

  lemma WrittenNothing(c: Config, mem: seq<Byte>, offset: nat)
    ensures Written(c, mem, offset, []) == mem
  {
  }

  lemma FlatNothing(mem: seq<Byte>, a: nat, data: seq<Byte>)
    requires a <= |mem|
    ensures FlatWrite(mem, a, data[..0]) == mem
  {
  }

  lemma FlatTwice(mem: seq<Byte>, a: nat, buffer: seq<Byte>, p: nat, len: nat)
    requires p + len <= |buffer| && a + |buffer| <= |mem|
    ensures FlatWrite(FlatWrite(mem, a, buffer[..p]), a + p, buffer[p..p + len]) == FlatWrite(mem, a, buffer[..p + len])
  {
  }
}
