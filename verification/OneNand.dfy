/**
 Block-wise reading and writing in common/cmd_onenand.c: both pass over bad
 blocks and over blocks where the operation itself fails, and the static
 next_ofs and skip_ofs let a write continue where the previous one ended
 although it was shifted.
 */
module OneNand {
  import opened Option
  import opened Arith
  import opened Sequences

  /** One erase block of data. */
  type Block = seq<int>

  /** What does not change: block size, bad blocks, and the blocks where mtd->write or mtd->read_oob fails. */
  datatype Chip = Chip(blocksize: Positive, bad: set<nat>, refuses: set<nat>, unreadable: set<nat>) {
    /** What onenand_block_write passes over. */
    function NoWrite(): set<nat> {
      bad + refuses
    }

    /** What onenand_block_read passes over. */
    function NoRead(): set<nat> {
      bad + unreadable
    }
  }

  /** The chip contents and the two static offsets. */
  datatype Flash = Flash(blocks: seq<Block>, nextOfs: nat, skipOfs: nat)

  /** The length of n blocks. */
  function Bytes(c: Chip, n: nat): nat {
    n * c.blocksize
  }

  /** The block an offset lies in. */
  function BlockOf(c: Chip, offset: nat): nat {
    offset / c.blocksize
  }

  /** The first k usable blocks from block b on; None when the chip ends before. */
  function Usable(skip: set<nat>, total: nat, b: nat, k: nat): (r: Option<seq<nat>>)
    ensures r.Some? ==> |r.value| == k
    ensures r.Some? ==> forall i :: 0 <= i < k ==> b <= r.value[i] < total && r.value[i] !in skip
    decreases if b < total then total - b else 0
  {
    if k == 0 then Some([])
    else if b >= total then None
    else if b in skip then Usable(skip, total, b + 1, k)
    else
      match Usable(skip, total, b + 1, k - 1)
      case None => None
      case Some(r) => Some([b] + r)
  }

  lemma {:induction false} UsableSorted(skip: set<nat>, total: nat, b: nat, k: nat)
    requires Usable(skip, total, b, k).Some?
    ensures forall i, j :: 0 <= i < j < k ==> Usable(skip, total, b, k).value[i] < Usable(skip, total, b, k).value[j]
    decreases if b < total then total - b else 0
  {
    if k > 0 {
      UsableSorted(skip, total, b + 1, if b in skip then k else k - 1);
    }
  }

  /** The block behind the k-th usable one from b on. */
  function Behind(skip: set<nat>, total: nat, b: nat, k: nat): (e: nat)
    ensures Usable(skip, total, b, k).Some? ==> e >= b + k
    decreases if b < total then total - b else 0
  {
    if k == 0 || b >= total then b
    else Behind(skip, total, b + 1, if b in skip then k else k - 1)
  }

  /** The blocks with data[i] stored at at[i]. */
  function Store(blocks: seq<Block>, at: seq<nat>, data: seq<Block>): (r: seq<Block>)
    requires |at| == |data| && forall i :: 0 <= i < |at| ==> at[i] < |blocks|
    ensures |r| == |blocks|
    decreases |at|
  {
    if at == [] then blocks else Store(blocks[at[0] := data[0]], at[1..], data[1..])
  }

  function Load(blocks: seq<Block>, at: seq<nat>): (r: seq<Block>)
    requires forall i :: 0 <= i < |at| ==> at[i] < |blocks|
    ensures |r| == |at| && forall i :: 0 <= i < |at| ==> r[i] == blocks[at[i]]
  {
    seq(|at|, i requires 0 <= i < |at| => blocks[at[i]])
  }

  /** Where a write to offset `to` really starts. */
  function StartOf(f: Flash, to: nat): nat {
    if to == f.nextOfs then to + f.skipOfs else to
  }

  /** onenand_block_write of whole blocks; None when the chip has not enough usable blocks left. */
  function Write(c: Chip, f: Flash, to: nat, data: seq<Block>): (r: Option<Flash>)
    ensures r.Some? ==> |r.value.blocks| == |f.blocks|
  {
    var b := BlockOf(c, StartOf(f, to));
    match Usable(c.NoWrite(), |f.blocks|, b, |data|)
    case None => None
    case Some(at) =>
      var skipped := Behind(c.NoWrite(), |f.blocks|, b, |data|) - b - |data|;
      Some(Flash(Store(f.blocks, at, data), to + Bytes(c, |data|),
                 (if to == f.nextOfs then f.skipOfs else 0) + Bytes(c, skipped)))
  }

  /** onenand_block_read of k blocks. */
  function Read(c: Chip, f: Flash, from: nat, k: nat): Option<seq<Block>> {
    match Usable(c.NoRead(), |f.blocks|, BlockOf(c, from), k)
    case None => None
    case Some(at) => Some(Load(f.blocks, at))
  }

  // --------------------------------------------------------------------
  // The loops
  // --------------------------------------------------------------------

  class Driver {
    const chip: Chip
    var blocks: seq<Block>
    var nextOfs: nat
    var skipOfs: nat

    ghost function Value(): Flash
      reads this
    {
      Flash(blocks, nextOfs, skipOfs)
    }

    constructor (chip: Chip, blocks: seq<Block>)
      ensures this.chip == chip && Value() == Flash(blocks, 0, 0)
    {
      this.chip, this.blocks := chip, blocks;
      nextOfs, skipOfs := 0, 0;
    }

    /** The loop of onenand_block_write from block b0 on: how many blocks it passed over. */
    method WriteBlocks(b0: nat, data: seq<Block>) returns (skipped: nat)
      requires Usable(chip.NoWrite(), |blocks|, b0, |data|).Some?
      modifies this`blocks
      ensures blocks == Store(old(blocks), Usable(chip.NoWrite(), |old(blocks)|, b0, |data|).value, data)
      ensures b0 + |data| + skipped == Behind(chip.NoWrite(), |old(blocks)|, b0, |data|)
    {
      hide Behind, Usable;
      ghost var total := |blocks|;
      ghost var at := Usable(chip.NoWrite(), total, b0, |data|).value;
      var block, i: nat := b0, 0;
      skipped := 0;
      assert at[0..] == at && data[0..] == data;
      while i < |data|
        invariant 0 <= i <= |data| && |blocks| == total
        invariant Usable(chip.NoWrite(), total, block, |data| - i) == Some(at[i..])
        invariant Behind(chip.NoWrite(), total, b0, |data|) == Behind(chip.NoWrite(), total, block, |data| - i)
        invariant block == b0 + i + skipped
        invariant Store(blocks, at[i..], data[i..]) == Store(old(blocks), at, data)
        decreases if block < total then total - block else 0
      {
        UsableStep(chip.NoWrite(), total, block, |data| - i);
        if block in chip.bad || block in chip.refuses {
          skipped := skipped + 1;
        } else {
          assert at[i..][0] == at[i] && at[i..][1..] == at[i + 1..];
          assert data[i..][0] == data[i] && data[i..][1..] == data[i + 1..];
          blocks := blocks[block := data[i]];
          i := i + 1;
        }
        block := block + 1;
      }
      assert at[i..] == [] && data[i..] == [];
      BehindNothing(chip.NoWrite(), total, block);
    }

    /**
     onenand_block_write. The source loops for ever when the chip has too few usable
     blocks; callers must see to it.
     */
    method BlockWrite(to0: nat, data: seq<Block>)
      requires Write(chip, Value(), to0, data).Some?
      modifies this
      ensures Some(Value()) == Write(chip, old(Value()), to0, data)
    {
      hide Behind, Usable, Store, Bytes, BlockOf;
      var to := to0;
      if to == nextOfs {
        nextOfs := to + Bytes(chip, |data|);
        to := to + skipOfs;
      } else {
        nextOfs := to + Bytes(chip, |data|);
        skipOfs := 0;
      }
      var skipped := WriteBlocks(BlockOf(chip, to), data);
      skipOfs := skipOfs + Bytes(chip, skipped);
    }

    method BlockRead(from: nat, k: nat) returns (data: seq<Block>)
      requires Read(chip, Value(), from, k).Some?
      ensures Some(data) == Read(chip, Value(), from, k)
    {
      hide Usable;
      var total, block := |blocks|, BlockOf(chip, from);
      ghost var at := Usable(chip.NoRead(), total, block, k).value;
      var left := k;
      data := [];
      assert at[0..] == at;
      while left > 0
        invariant 0 <= left <= k && |data| == k - left
        invariant Usable(chip.NoRead(), total, block, left) == Some(at[k - left..])
        invariant forall i :: 0 <= i < |data| ==> data[i] == blocks[at[i]]
        decreases if block < total then total - block else 0
      {
        UsableStep(chip.NoRead(), total, block, left);
        if block !in chip.bad && block !in chip.unreadable {
          assert at[k - left..][0] == at[k - left] && at[k - left..][1..] == at[k - left + 1..];
          data := data + [blocks[block]];
          left := left - 1;
        }
        block := block + 1;
      }
      assert data == Load(blocks, at);
    }
  }

  lemma UsableStep(skip: set<nat>, total: nat, b: nat, k: nat)
    requires k > 0 && Usable(skip, total, b, k).Some?
    ensures b < total
    ensures b in skip ==>
            && Usable(skip, total, b + 1, k) == Usable(skip, total, b, k)
            && Behind(skip, total, b + 1, k) == Behind(skip, total, b, k)
    ensures b !in skip ==>
            && Usable(skip, total, b, k).value[0] == b
            && Usable(skip, total, b + 1, k - 1) == Some(Usable(skip, total, b, k).value[1..])
            && Behind(skip, total, b + 1, k - 1) == Behind(skip, total, b, k)
  {
    if b !in skip {
      var r := Usable(skip, total, b + 1, k - 1).value;
      assert ([b] + r)[1..] == r;
    }
  }

  lemma BehindNothing(skip: set<nat>, total: nat, b: nat)
    ensures Behind(skip, total, b, 0) == b
  {
  }

  // --------------------------------------------------------------------
  // Writing in pieces
  // --------------------------------------------------------------------

  lemma {:induction false} UsableSplit(skip: set<nat>, total: nat, b: nat, j: nat, k: nat)
    ensures Usable(skip, total, b, j + k).Some? <==>
            Usable(skip, total, b, j).Some? && Usable(skip, total, Behind(skip, total, b, j), k).Some?
    ensures Usable(skip, total, b, j + k).Some? ==>
            Usable(skip, total, b, j + k).value ==
              Usable(skip, total, b, j).value + Usable(skip, total, Behind(skip, total, b, j), k).value
    ensures Usable(skip, total, b, j + k).Some? ==>
      Behind(skip, total, b, j + k) == Behind(skip, total, Behind(skip, total, b, j), k)
    decreases if b < total then total - b else 0
  {
    hide Usable, Behind;
    UsableUnfold(skip, total, b, j);
    UsableUnfold(skip, total, b, j + k);
    if j == 0 {
      if Usable(skip, total, b, k).Some? {
        assert [] + Usable(skip, total, b, k).value == Usable(skip, total, b, k).value;
      }
    } else if b < total {
      var i := if b in skip then j else j - 1;
      UsableSplit(skip, total, b + 1, i, k);
      if b !in skip && Usable(skip, total, b, j + k).Some? {
        var x, y := Usable(skip, total, b + 1, i).value, Usable(skip, total, Behind(skip, total, b, j), k).value;
        assert [b] + (x + y) == ([b] + x) + y;
      }
    }
  }

  lemma UsableUnfold(skip: set<nat>, total: nat, b: nat, k: nat)
    ensures k == 0 ==> Usable(skip, total, b, k) == Some([]) && Behind(skip, total, b, k) == b
    ensures k > 0 && b >= total ==> Usable(skip, total, b, k).None? && Behind(skip, total, b, k) == b
    ensures k > 0 && b < total && b in skip ==>
            && Usable(skip, total, b, k) == Usable(skip, total, b + 1, k)
            && Behind(skip, total, b, k) == Behind(skip, total, b + 1, k)
    ensures k > 0 && b < total && b !in skip ==>
            && Behind(skip, total, b, k) == Behind(skip, total, b + 1, k - 1)
            && (Usable(skip, total, b, k).Some? <==> Usable(skip, total, b + 1, k - 1).Some?)
            && (Usable(skip, total, b, k).Some? ==>
              Usable(skip, total, b, k).value == [b] + Usable(skip, total, b + 1, k - 1).value)
  {
  }

  lemma {:induction false} StoreSplit(blocks: seq<Block>, a: seq<nat>, b: seq<nat>, x: seq<Block>, y: seq<Block>)
    requires |a| == |x| && forall i :: 0 <= i < |a| ==> a[i] < |blocks|
    requires |b| == |y| && forall i :: 0 <= i < |b| ==> b[i] < |blocks|
    ensures Store(blocks, a + b, x + y) == Store(Store(blocks, a, x), b, y)
    decreases |a|
  {
    if a == [] {
      assert a + b == b && x + y == y;
    } else {
      assert (a + b)[1..] == a[1..] + b && (x + y)[1..] == x[1..] + y;
      StoreSplit(blocks[a[0] := x[0]], a[1..], b, x[1..], y);
    }
  }

  lemma StartAfter(c: Chip, start: nat, n: nat, skipped: nat)
    requires start % c.blocksize == 0
    ensures BlockOf(c, start + Bytes(c, n) + Bytes(c, skipped)) == BlockOf(c, start) + n + skipped
    ensures (start + Bytes(c, n) + Bytes(c, skipped)) % c.blocksize == 0
  {
    var bs, b := c.blocksize, start / c.blocksize;
    assert start == b * bs;
    assert start + n * bs + skipped * bs == (b + n + skipped) * bs;
    MultipleDivides(b + n + skipped, bs);
  }

  /** A write followed by one to where it said it ended does what a single write of both would have done. */
  lemma WriteTwice(c: Chip, f: Flash, to: nat, x: seq<Block>, y: seq<Block>)
    requires StartOf(f, to) % c.blocksize == 0
    ensures match Write(c, f, to, x)
            case None => Write(c, f, to, x + y).None?
            case Some(g) =>
              && StartOf(g, to + Bytes(c, |x|)) % c.blocksize == 0
              && Write(c, g, to + Bytes(c, |x|), y) == Write(c, f, to, x + y)
  {
    hide Usable, Behind, Store, Bytes, BlockOf;
    var total, start := |f.blocks|, StartOf(f, to);
    var b := BlockOf(c, start);
    UsableSplit(c.NoWrite(), total, b, |x|, |y|);
    if Write(c, f, to, x).Some? {
      var g := Write(c, f, to, x).value;
      var b2 := Behind(c.NoWrite(), total, b, |x|);
      var skipped := b2 - b - |x|;
      StartAfter(c, start, |x|, skipped);
      assert StartOf(g, to + Bytes(c, |x|)) == start + Bytes(c, |x|) + Bytes(c, skipped);
      if Usable(c.NoWrite(), total, b, |x| + |y|).Some? {
        var a1, a2 := Usable(c.NoWrite(), total, b, |x|).value, Usable(c.NoWrite(), total, b2, |y|).value;
        StoreSplit(f.blocks, a1, a2, x, y);
        BytesSum(c, |x|, |y|);
        BytesSum(c, skipped, Behind(c.NoWrite(), total, b2, |y|) - b2 - |y|);
        assert |x + y| == |x| + |y|;
      }
    }
  }

  lemma BytesSum(c: Chip, a: nat, b: nat)
    ensures Bytes(c, a) + Bytes(c, b) == Bytes(c, a + b)
  {
  }

  /** Consecutive writes, each to where the previous one ended in the caller's counting. */
  function WriteAll(c: Chip, f: Flash, to: nat, chunks: seq<seq<Block>>): Option<Flash>
    decreases |chunks|
  {
    if chunks == [] then Some(f)
    else
      match Write(c, f, to, chunks[0])
      case None => None
      case Some(g) => WriteAll(c, g, to + Bytes(c, |chunks[0]|), chunks[1..])
  }

  /**
   Writing in pieces: for every set of unusable blocks, consecutive writes leave
   the chip and the static offsets as one combined write would, and fail exactly
   when it would.
   */
  lemma {:induction false} ChunkedWrites(c: Chip, f: Flash, to: nat, chunks: seq<seq<Block>>)
    requires chunks != [] && StartOf(f, to) % c.blocksize == 0
    ensures WriteAll(c, f, to, chunks) == Write(c, f, to, Concat(chunks))
    decreases |chunks|
  {
    hide Write, StartOf;
    var x, more := chunks[0], chunks[1..];
    if more == [] {
      assert Concat(more) == [] && x + [] == x;
      match Write(c, f, to, x)
      case None =>
      case Some(g) => assert WriteAll(c, g, to + Bytes(c, |x|), more) == Some(g);
    } else {
      WriteTwice(c, f, to, x, Concat(more));
      if Write(c, f, to, x).Some? {
        ChunkedWrites(c, Write(c, f, to, x).value, to + Bytes(c, |x|), more);
      }
    }
  }

  lemma {:induction false} StoreElsewhere(blocks: seq<Block>, at: seq<nat>, data: seq<Block>, i: nat)
    requires |at| == |data| && (forall j :: 0 <= j < |at| ==> at[j] < |blocks|)
    requires i < |blocks| && i !in at
    ensures Store(blocks, at, data)[i] == blocks[i]
    decreases |at|
  {
    if at != [] {
      assert at[0] in at;
      StoreElsewhere(blocks[at[0] := data[0]], at[1..], data[1..], i);
    }
  }

  lemma {:induction false} StoreThere(blocks: seq<Block>, at: seq<nat>, data: seq<Block>, i: nat)
    requires |at| == |data| && i < |at| && (forall j :: 0 <= j < |at| ==> at[j] < |blocks|)
    requires forall j, k :: 0 <= j < k < |at| ==> at[j] < at[k]
    ensures Store(blocks, at, data)[at[i]] == data[i]
    decreases |at|
  {
    var next := blocks[at[0] := data[0]];
    if i == 0 {
      StoreElsewhere(next, at[1..], data[1..], at[0]);
    } else {
      StoreThere(next, at[1..], data[1..], i - 1);
    }
  }

  /** The blocks a write stores to. */
  function Targets(c: Chip, f: Flash, to: nat, k: nat): Option<seq<nat>> {
    Usable(c.NoWrite(), |f.blocks|, BlockOf(c, StartOf(f, to)), k)
  }

  lemma WriteStores(c: Chip, f: Flash, to: nat, data: seq<Block>)
    ensures Write(c, f, to, data).Some? <==> Targets(c, f, to, |data|).Some?
    ensures Write(c, f, to, data).Some? ==>
      Write(c, f, to, data).value.blocks == Store(f.blocks, Targets(c, f, to, |data|).value, data)
  {
    hide Usable, Behind, Store;
  }

  /** A write changes its targets only. */
  lemma WriteKeepsOthers(c: Chip, f: Flash, to: nat, data: seq<Block>)
    requires Write(c, f, to, data).Some?
    ensures Targets(c, f, to, |data|).Some?
    ensures forall i :: 0 <= i < |f.blocks| && i !in Targets(c, f, to, |data|).value ==>
      Write(c, f, to, data).value.blocks[i] == f.blocks[i]
    ensures forall i :: 0 <= i < |data| ==>
      Write(c, f, to, data).value.blocks[Targets(c, f, to, |data|).value[i]] == data[i]
  {
    hide Write, Usable, Store;
    WriteStores(c, f, to, data);
    UsableSorted(c.NoWrite(), |f.blocks|, BlockOf(c, StartOf(f, to)), |data|);
    var at := Targets(c, f, to, |data|).value;
    forall i | 0 <= i < |f.blocks| && i !in at ensures Store(f.blocks, at, data)[i] == f.blocks[i] {
      StoreElsewhere(f.blocks, at, data, i);
    }
    forall i | 0 <= i < |at| ensures Store(f.blocks, at, data)[at[i]] == data[i] {
      StoreThere(f.blocks, at, data, i);
    }
  }

  // --------------------------------------------------------------------
  // Reading back
  // --------------------------------------------------------------------

  /** From block b up to block e, reading passes over exactly what writing passes over. */
  predicate SameSkips(c: Chip, b: nat, e: nat) {
    forall x: nat :: b <= x < e ==> (x in c.NoWrite() <==> x in c.NoRead())
  }

  /** The blocks of a write of k blocks to `to`, from its start to behind its last target, are skipped alike. */
  predicate SkipsAgree(c: Chip, f: Flash, to: nat, k: nat) {
    var b := BlockOf(c, StartOf(f, to));
    SameSkips(c, b, Behind(c.NoWrite(), |f.blocks|, b, k))
  }

  /** Two sets give the same usable blocks exactly when they agree up to the last of them. */
  lemma {:induction false} SameUsable(v: set<nat>, w: set<nat>, total: nat, b: nat, k: nat)
    requires Usable(v, total, b, k).Some?
    ensures Usable(w, total, b, k) == Usable(v, total, b, k) <==>
      forall x: nat :: b <= x < Behind(v, total, b, k) ==> (x in v <==> x in w)
    decreases if b < total then total - b else 0
  {
    hide Usable, Behind;
    UsableUnfold(v, total, b, k);
    UsableUnfold(w, total, b, k);
    if k > 0 {
      var j := if b in v then k else k - 1;
      var e := Behind(v, total, b, k);
      BehindFar(v, total, b, k);
      UsableStarts(v, total, b, k);
      if (b in v) != (b in w) {
        if Usable(w, total, b, k).Some? {
          UsableStarts(w, total, b, k);
        }
      } else {
        SameUsable(v, w, total, b + 1, j);
        if b !in v && Usable(w, total, b, k).Some? {
          assert Usable(w, total, b, k).value[1..] == Usable(w, total, b + 1, j).value;
          assert Usable(v, total, b, k).value[1..] == Usable(v, total, b + 1, j).value;
        }
        assert (forall x: nat :: b <= x < e ==> (x in v <==> x in w))
          <==> (forall x: nat :: b + 1 <= x < e ==> (x in v <==> x in w));
      }
    }
  }

  lemma BehindFar(skip: set<nat>, total: nat, b: nat, k: nat)
    requires k > 0 && Usable(skip, total, b, k).Some?
    ensures Behind(skip, total, b, k) > b
  {
  }

  lemma UsableStarts(skip: set<nat>, total: nat, b: nat, k: nat)
    requires k > 0 && Usable(skip, total, b, k).Some?
    ensures Usable(skip, total, b, k).value[0] == b <==> b !in skip
  {
  }

  /** Reading from an offset gives what was written to `to`. */
  predicate ComesBackFrom(c: Chip, f: Flash, to: nat, from: nat, data: seq<Block>) {
    match Write(c, f, to, data)
    case None => false
    case Some(g) => Read(c, g, from, |data|) == Some(data)
  }

  /** Reading from where a write started gives the written data. */
  predicate ComesBack(c: Chip, f: Flash, to: nat, data: seq<Block>) {
    ComesBackFrom(c, f, to, StartOf(f, to), data)
  }

  /** A read of k blocks from an offset visits exactly the targets of a write of k blocks. */
  predicate Visits(c: Chip, f: Flash, to: nat, from: nat, k: nat) {
    Usable(c.NoRead(), |f.blocks|, BlockOf(c, from), k) == Targets(c, f, to, k)
  }

  lemma VisitsIsSkips(c: Chip, f: Flash, to: nat, k: nat)
    requires Targets(c, f, to, k).Some?
    ensures Visits(c, f, to, StartOf(f, to), k) <==> SkipsAgree(c, f, to, k)
  {
    hide Usable, Behind;
    SameUsable(c.NoWrite(), c.NoRead(), |f.blocks|, BlockOf(c, StartOf(f, to)), k);
  }

  lemma VisitedComesBack(c: Chip, f: Flash, to: nat, from: nat, data: seq<Block>)
    requires Write(c, f, to, data).Some? && Visits(c, f, to, from, |data|)
    ensures ComesBackFrom(c, f, to, from, data)
  {
    hide Write, Usable;
    WriteKeepsOthers(c, f, to, data);
    assert Load(Write(c, f, to, data).value.blocks, Targets(c, f, to, |data|).value) == data;
  }

  lemma ReadBack(c: Chip, f: Flash, to: nat, data: seq<Block>)
    requires Write(c, f, to, data).Some? && SkipsAgree(c, f, to, |data|)
    ensures ComesBack(c, f, to, data)
  {
    hide Write, ComesBackFrom, Visits, Targets;
    WriteStores(c, f, to, data);
    VisitsIsSkips(c, f, to, |data|);
    VisitedComesBack(c, f, to, StartOf(f, to), data);
  }

  /** Data and previous contents that tell every block from every other. */
  function Marked(k: nat): (r: seq<Block>)
    ensures |r| == k && forall i :: 0 <= i < k ==> r[i] == [i]
  {
    seq(k, i => [i])
  }

  function Blank(n: nat): (r: seq<Block>)
    ensures |r| == n && forall i :: 0 <= i < n ==> r[i] == []
  {
    seq(n, i => [])
  }

  /** Marked data on a blank chip comes back only from the very blocks it was written to. */
  lemma MarksTell(c: Chip, f: Flash, to: nat, from: nat, k: nat)
    requires f.blocks == Blank(|f.blocks|) && ComesBackFrom(c, f, to, from, Marked(k))
    ensures Visits(c, f, to, from, k)
  {
    hide Write, Usable;
    var data := Marked(k);
    WriteKeepsOthers(c, f, to, data);
    var g := Write(c, f, to, data).value;
    var at, source := Targets(c, f, to, k).value, Usable(c.NoRead(), |f.blocks|, BlockOf(c, from), k).value;
    forall i | 0 <= i < k ensures source[i] == at[i] {
      assert g.blocks[source[i]] == Load(g.blocks, source)[i] == [i];
      if source[i] in at {
        var j :| 0 <= j < |at| && at[j] == source[i];
        assert g.blocks[at[j]] == [j];
      }
    }
    assert source == at;
  }

  /**
   What is written comes back, whatever the data and whatever was on the chip,
   if and only if reading and writing skip the same blocks from the start of the
   write to behind its last target.
   */
  lemma ReadBackIff(c: Chip, f: Flash, to: nat, k: nat)
    requires Targets(c, f, to, k).Some?
    ensures (forall blocks: seq<Block>, data: seq<Block> :: |blocks| == |f.blocks| && |data| == k ==>
        ComesBack(c, f.(blocks := blocks), to, data)) <==> SkipsAgree(c, f, to, k)
  {
    hide Write, Usable, Behind, ComesBackFrom;
    var blank := f.(blocks := Blank(|f.blocks|));
    VisitsIsSkips(c, f, to, k);
    if SkipsAgree(c, f, to, k) {
      forall blocks: seq<Block>, data: seq<Block> | |blocks| == |f.blocks| && |data| == k
        ensures ComesBack(c, f.(blocks := blocks), to, data)
      {
        WriteStores(c, f.(blocks := blocks), to, data);
        ReadBack(c, f.(blocks := blocks), to, data);
      }
    } else if ComesBack(c, blank, to, Marked(k)) {
      MarksTell(c, blank, to, StartOf(f, to), k);
    }
  }

  // --------------------------------------------------------------------
  // Files
  // --------------------------------------------------------------------

  /** Every block from b up to e is passed over by reading. */
  predicate AllSkipped(skip: set<nat>, b: nat, e: nat) {
    forall x: nat :: b <= x < e ==> x in skip
  }

  /** Usable blocks counted from an earlier block are the same exactly when everything in between is skipped. */
  lemma {:induction false} ShiftedUsable(v: set<nat>, w: set<nat>, total: nat, b0: nat, b1: nat, k: nat)
    requires b0 <= b1 && k > 0 && Usable(v, total, b1, k).Some?
    ensures Usable(w, total, b0, k) == Usable(v, total, b1, k) <==>
      AllSkipped(w, b0, b1) && forall x: nat :: b1 <= x < Behind(v, total, b1, k) ==> (x in v <==> x in w)
    decreases b1 - b0
  {
    hide Usable, Behind;
    if b0 == b1 {
      SameUsable(v, w, total, b1, k);
    } else {
      UsableUnfold(w, total, b0, k);
      UsableUnfold(v, total, b1, k);
      if b0 in w {
        ShiftedUsable(v, w, total, b0 + 1, b1, k);
        assert AllSkipped(w, b0, b1) <==> AllSkipped(w, b0 + 1, b1);
      } else if Usable(w, total, b0, k).Some? {
        UsableStarts(w, total, b0, k);
        assert Usable(v, total, b1, k).value[0] >= b1;
      }
    }
  }

  /** A file written in pieces is read back from its offset. */
  predicate FileComesBack(c: Chip, f: Flash, to: nat, chunks: seq<seq<Block>>) {
    match WriteAll(c, f, to, chunks)
    case None => false
    case Some(g) => Read(c, g, to, |Concat(chunks)|) == Some(Concat(chunks))
  }

  lemma FileIsOneWrite(c: Chip, f: Flash, to: nat, chunks: seq<seq<Block>>)
    requires chunks != [] && StartOf(f, to) % c.blocksize == 0
    ensures FileComesBack(c, f, to, chunks) <==> ComesBackFrom(c, f, to, to, Concat(chunks))
  {
    hide Write, Read, Concat;
    ChunkedWrites(c, f, to, chunks);
  }

  /**
   A file written in pieces is read back from its offset, whatever it holds and
   whatever was on the chip, if and only if reading skips everything that the
   static offset has shifted it by and reading and writing skip the same blocks
   from there to behind the last target.
   */
  lemma ChunkedReadBackIff(c: Chip, f: Flash, to: nat, k: nat)
    requires to % c.blocksize == 0 && f.skipOfs % c.blocksize == 0 && k > 0 && Targets(c, f, to, k).Some?
    ensures (forall blocks: seq<Block>, chunks: seq<seq<Block>> ::
        |blocks| == |f.blocks| && chunks != [] && |Concat(chunks)| == k ==>
        FileComesBack(c, f.(blocks := blocks), to, chunks))
      <==> AllSkipped(c.NoRead(), BlockOf(c, to), BlockOf(c, StartOf(f, to))) && SkipsAgree(c, f, to, k)
  {
    hide Write, Usable, Behind, ComesBackFrom, Concat, FileComesBack, Visits, AllSkipped, SkipsAgree, BlockOf;
    var blank := f.(blocks := Blank(|f.blocks|));
    StartAligned(c, f, to);
    FileVisits(c, f, to, k);
    if Visits(c, f, to, to, k) {
      forall blocks: seq<Block>, chunks: seq<seq<Block>>
        | |blocks| == |f.blocks| && chunks != [] && |Concat(chunks)| == k
        ensures FileComesBack(c, f.(blocks := blocks), to, chunks)
      {
        var g := f.(blocks := blocks);
        WriteStores(c, g, to, Concat(chunks));
        SameVisits(c, f, g, to, to, k);
        VisitedComesBack(c, g, to, to, Concat(chunks));
        FileIsOneWrite(c, g, to, chunks);
      }
    } else {
      OneChunk(Marked(k));
      if FileComesBack(c, blank, to, [Marked(k)]) {
        FileIsOneWrite(c, blank, to, [Marked(k)]);
        MarksTell(c, blank, to, to, k);
        SameVisits(c, f, blank, to, to, k);
      }
    }
  }

  /** Which blocks are visited does not depend on what they hold. */
  lemma SameVisits(c: Chip, f: Flash, g: Flash, to: nat, from: nat, k: nat)
    requires |f.blocks| == |g.blocks| && f.nextOfs == g.nextOfs && f.skipOfs == g.skipOfs
    ensures Visits(c, f, to, from, k) <==> Visits(c, g, to, from, k)
  {
    hide Usable;
  }

  lemma StartAligned(c: Chip, f: Flash, to: nat)
    requires to % c.blocksize == 0 && f.skipOfs % c.blocksize == 0
    ensures StartOf(f, to) % c.blocksize == 0 && BlockOf(c, to) <= BlockOf(c, StartOf(f, to))
  {
    var bs: Positive, p, q := c.blocksize, to / c.blocksize, f.skipOfs / c.blocksize;
    SumOfMultiples(to, f.skipOfs, bs);
    assert to + f.skipOfs == (p + q) * bs;
    MultipleDivides(p + q, bs);
  }

  lemma FileVisits(c: Chip, f: Flash, to: nat, k: nat)
    requires k > 0 && Targets(c, f, to, k).Some? && BlockOf(c, to) <= BlockOf(c, StartOf(f, to))
    ensures Visits(c, f, to, to, k) <==>
      AllSkipped(c.NoRead(), BlockOf(c, to), BlockOf(c, StartOf(f, to))) && SkipsAgree(c, f, to, k)
  {
    hide Usable, Behind, AllSkipped, BlockOf;
    ShiftedUsable(c.NoWrite(), c.NoRead(), |f.blocks|, BlockOf(c, to), BlockOf(c, StartOf(f, to)), k);
  }

  /** The static offsets stay whole blocks, from power-up on. */
  lemma OffsetsStayAligned(c: Chip, f: Flash, to: nat, data: seq<Block>)
    requires f.skipOfs % c.blocksize == 0 && Write(c, f, to, data).Some?
    ensures Write(c, f, to, data).value.skipOfs % c.blocksize == 0
  {
    hide Usable, Behind, Store;
    var b := BlockOf(c, StartOf(f, to));
    var skipped := Behind(c.NoWrite(), |f.blocks|, b, |data|) - b - |data|;
    MultipleDivides(skipped, c.blocksize);
    SumOfMultiples(if to == f.nextOfs then f.skipOfs else 0, Bytes(c, skipped), c.blocksize);
  }

  /**
   Two files one behind the other on a chip whose first block is bad: the second
   one is written one block further on, and reading from its offset gives the first.
   */
  lemma SecondFileShifted(x: Block, y: Block, z: Block, d1: Block, d2: Block)
    ensures var c, f := Chip(1, {0}, {}, {}), Flash([x, y, z], 0, 0);
      var g := Write(c, f, 0, [d1]);
      && g.Some? && var h := Write(c, g.value, 1, [d2]);
      h.Some? && h.value.blocks == [x, d1, d2] && Read(c, h.value, 1, 1) == Some([d1])
  {
    var c, f := Chip(1, {0}, {}, {}), Flash([x, y, z], 0, 0);
    assert c.NoWrite() == {0} && c.NoRead() == {0};
    forall b: nat | b < 3 ensures b != 0 ==> Usable({0}, 3, b, 1) == Some([b]) && Behind({0}, 3, b, 1) == b + 1 {
      UsableUnfold({0}, 3, b, 1);
      UsableUnfold({0}, 3, b + 1, 0);
      assert [b] + [] == [b];
    }
    UsableUnfold({0}, 3, 0, 1);
    assert [1][1..] == [] && [2][1..] == [] && [d1][1..] == [] && [d2][1..] == [];
    assert Store([x, y, z], [1], [d1]) == [x, d1, z];
    assert Write(c, f, 0, [d1]) == Some(Flash([x, d1, z], 1, 1));
    assert Store([x, d1, z], [2], [d2]) == [x, d1, d2];
    assert Load([x, d1, d2], [1]) == [d1];
  }

  lemma OneChunk(data: seq<Block>)
    ensures Concat([data]) == data
  {
    assert [data][1..] == [];
  }

  /** A block that refused a write but is not marked bad is read as if it held data. */
  lemma RefusedBlockIsRead(x: Block, y: Block, d: Block)
    ensures var c, f := Chip(1, {}, {0}, {}), Flash([x, y], 8, 0);
      && Write(c, f, 0, [d]).Some? && Write(c, f, 0, [d]).value.blocks == [x, d]
      && Read(c, Write(c, f, 0, [d]).value, 0, 1) == Some([x])
  {
    var c, f := Chip(1, {}, {0}, {}), Flash([x, y], 8, 0);
    assert c.NoWrite() == {0} && c.NoRead() == {};
    assert [1] + [] == [1] && [0] + [] == [0];
    UsableUnfold(c.NoWrite(), 2, 0, 1);
    UsableUnfold(c.NoWrite(), 2, 1, 1);
    UsableUnfold(c.NoRead(), 2, 0, 1);
    assert [1][1..] == [] && [d][1..] == [];
    assert Store([x, y], [1], [d]) == [x, d];
    assert Load([x, d], [0]) == [x];
  }

  // --------------------------------------------------------------------
  // Which blocks are used
  // --------------------------------------------------------------------

  /** The first k blocks from b on that are not in skip: in order, and none between them left out. */
  predicate FirstUsable(skip: set<nat>, total: nat, b: nat, k: nat, at: seq<nat>) {
    && |at| == k
    && (forall i :: 0 <= i < k ==> b <= at[i] < total && at[i] !in skip)
    && (forall i, j :: 0 <= i < j < k ==> at[i] < at[j])
    && forall i :: 0 <= i < k ==> NoneMissed(skip, b, at, at[i])
  }

  predicate NoneMissed(skip: set<nat>, b: nat, at: seq<nat>, end: nat) {
    forall x :: b <= x < end ==> x in at || x in skip
  }

  lemma {:induction false} UsableIff(skip: set<nat>, total: nat, b: nat, k: nat, at: seq<nat>)
    ensures Usable(skip, total, b, k) == Some(at) <==> FirstUsable(skip, total, b, k, at)
    decreases if b < total then total - b else 0
  {
    hide Usable, FirstUsable;
    UsableUnfold(skip, total, b, k);
    if k == 0 {
      NoBlocks(skip, total, b, at);
    } else if b >= total {
      BehindChip(skip, total, b, k, at);
    } else if b in skip {
      UsableIff(skip, total, b + 1, k, at);
      FirstSkipped(skip, total, b, k, at);
    } else {
      if at != [] {
        UsableIff(skip, total, b + 1, k - 1, at[1..]);
        assert at == [at[0]] + at[1..];
      }
      FirstTaken(skip, total, b, k, at);
      if Usable(skip, total, b + 1, k - 1).Some? {
        var more := Usable(skip, total, b + 1, k - 1).value;
        assert ([b] + more)[1..] == more;
      }
    }
  }

  lemma NoBlocks(skip: set<nat>, total: nat, b: nat, at: seq<nat>)
    ensures FirstUsable(skip, total, b, 0, at) <==> at == []
  {
  }

  lemma BehindChip(skip: set<nat>, total: nat, b: nat, k: nat, at: seq<nat>)
    requires k > 0 && b >= total
    ensures !FirstUsable(skip, total, b, k, at)
  {
    assert at != [] ==> !(b <= at[0] < total);
  }

  lemma FirstSkipped(skip: set<nat>, total: nat, b: nat, k: nat, at: seq<nat>)
    requires k > 0 && b in skip
    ensures FirstUsable(skip, total, b, k, at) <==> FirstUsable(skip, total, b + 1, k, at)
  {
  }

  lemma FirstTaken(skip: set<nat>, total: nat, b: nat, k: nat, at: seq<nat>)
    requires k > 0 && b < total && b !in skip
    ensures FirstUsable(skip, total, b, k, at) <==>
      at != [] && at[0] == b && FirstUsable(skip, total, b + 1, k - 1, at[1..])
  {
    if FirstUsable(skip, total, b, k, at) {
      TakenFirst(skip, total, b, k, at);
      forall i | 0 <= i < k - 1 ensures NoneMissed(skip, b + 1, at[1..], at[1..][i]) {
        assert NoneMissed(skip, b, at, at[i + 1]);
        forall x | b + 1 <= x < at[i + 1] ensures x in at[1..] || x in skip {
          assert x in at ==> x in at[1..] by { assert at == [b] + at[1..]; }
        }
      }
    } else if at != [] && at[0] == b && FirstUsable(skip, total, b + 1, k - 1, at[1..]) {
      TakenRest(skip, total, b, k, at);
    }
  }

  lemma TakenFirst(skip: set<nat>, total: nat, b: nat, k: nat, at: seq<nat>)
    requires k > 0 && b !in skip && FirstUsable(skip, total, b, k, at)
    ensures at[0] == b
  {
    assert NoneMissed(skip, b, at, at[0]);
  }

  lemma TakenRest(skip: set<nat>, total: nat, b: nat, k: nat, at: seq<nat>)
    requires k > 0 && b < total && b !in skip
    requires at != [] && at[0] == b && FirstUsable(skip, total, b + 1, k - 1, at[1..])
    ensures FirstUsable(skip, total, b, k, at)
  {
    var more := at[1..];
    assert forall i :: 0 < i < |at| ==> at[i] == more[i - 1];
    forall i | 0 <= i < k ensures NoneMissed(skip, b, at, at[i]) {
      if i > 0 {
        assert NoneMissed(skip, b + 1, more, more[i - 1]);
        forall x | b <= x < at[i] ensures x in at || x in skip {
          assert x in more ==> x in at;
        }
      }
    }
  }

  /** Reading gives the contents of the first k blocks from the given one on that are neither bad nor unreadable. */
  lemma ReadIff(c: Chip, f: Flash, from: nat, k: nat, at: seq<nat>)
    requires FirstUsable(c.bad + c.unreadable, |f.blocks|, from / c.blocksize, k, at)
    ensures Read(c, f, from, k).Some? && |Read(c, f, from, k).value| == k
    ensures forall i :: 0 <= i < k ==> Read(c, f, from, k).value[i] == f.blocks[at[i]]
  {
    hide FirstUsable, Usable;
    UsableIff(c.bad + c.unreadable, |f.blocks|, from / c.blocksize, k, at);
  }

  /** Writing stores into the first blocks from its start on that are neither bad nor refuse. */
  lemma WriteIff(c: Chip, f: Flash, to: nat, data: seq<Block>, at: seq<nat>)
    requires var start := if to == f.nextOfs then to + f.skipOfs else to;
      FirstUsable(c.bad + c.refuses, |f.blocks|, start / c.blocksize, |data|, at)
    ensures Write(c, f, to, data).Some? && |Write(c, f, to, data).value.blocks| == |f.blocks|
    ensures forall i :: 0 <= i < |data| ==> at[i] < |f.blocks| && Write(c, f, to, data).value.blocks[at[i]] == data[i]
    ensures forall i :: 0 <= i < |f.blocks| && i !in at ==> Write(c, f, to, data).value.blocks[i] == f.blocks[i]
  {
    hide FirstUsable, Usable, Behind, Store, Write;
    var start := if to == f.nextOfs then to + f.skipOfs else to;
    UsableIff(c.bad + c.refuses, |f.blocks|, start / c.blocksize, |data|, at);
    WriteGoes(c, f, to, data);
    WriteKeepsOthers(c, f, to, data);
  }

  lemma WriteGoes(c: Chip, f: Flash, to: nat, data: seq<Block>)
    requires Usable(c.NoWrite(), |f.blocks|, BlockOf(c, StartOf(f, to)), |data|).Some?
    ensures Write(c, f, to, data).Some?
  {
    hide Usable, Behind, Store;
  }
}
