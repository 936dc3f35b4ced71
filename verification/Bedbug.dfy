/**
 Operands of the PowerPC assembler and disassembler of common/bedbug.c, for any
 opcode table. Words are 32 bits and the host is big-endian, so htonl is the
 identity. An operand is the number its text denotes, taken modulo the word.
 */
module Bedbug {
  import opened Machine
  import opened Arith
  import opened Bits
  import opened Option

  type Word = x: int | 0 <= x < ULONG

  /** How an operand is written, in the order in which the hints are tried. */
  datatype Kind = Silent | Addr | Reg | Spr | Tbr | Literal | Plain

  datatype Operand = Operand(kind: Kind, bits: nat, shift: nat)

  datatype Opcode = Opcode(opcode: Word, fields: seq<Operand>, relative: bool)

  datatype Error = NumOperands | BadRegister | BadSpr | BadTbr
  datatype Result = Ok(word: nat) | Err(error: Error)

  /** What every row of the operand table satisfies. */
  predicate OperandOk(o: Operand) {
    && o.bits <= 31 && o.shift + o.bits <= 32
    && (o.kind == Addr ==> 1 <= o.bits <= 30)
    && (o.kind == Reg ==> o.bits <= 5)
    && (o.kind == Spr || o.kind == Tbr ==> o.bits == 10)
    && (o.kind == Plain ==> o.bits <= 16)
    && (o.kind == Literal ==> o.bits == 0)
  }

  // --------------------------------------------------------------------
  // One operand
  // --------------------------------------------------------------------

  /** A word read as a signed long. */
  function Signed(x: int): (r: int)
    ensures -0x8000_0000 <= r < 0x8000_0000 && r % ULONG == x % ULONG
  {
    var w := x % ULONG;
    if w < 0x8000_0000 then w else w - ULONG
  }

  /** The two five-bit halves of an SPR number, exchanged. */
  function SwapHalves(x: nat): (r: nat)
    ensures r < 1024
  {
    x / 32 % 32 + x % 32 * 32
  }

  function Base(memaddr: Word, relative: bool): Word {
    if relative then memaddr else 0
  }

  /** A signed distance as a branch field holds it: its low bits, with the sign on top. */
  function EncodeOffset(bits: Positive, d: int): (r: nat)
  {
    var half := Pow2(bits - 1);
    d / 4 % half + (if d < 0 then half else 0)
  }

  function DecodeOffset(bits: Positive, field: nat): (r: int) {
    var signed := if field / Pow2(bits - 1) % 2 == 1 then field - Pow2(bits) else field;
    4 * signed
  }

  /** The value parse_operand puts into the field, before the shift. */
  function EncodeField(base: Word, o: Operand, arg: Word): (r: Result)
    requires OperandOk(o)
    ensures r.Ok? ==> r.word < Pow2(o.bits)
  {
    FieldBound(o.bits);
    match o.kind
    case Addr =>
      var v := EncodeOffset(o.bits, Signed(arg - base));
      OffsetBound(o.bits, Signed(arg - base));
      Ok(v)
    case Reg => if Signed(arg) > 31 then Err(BadRegister) else Ok(arg % Pow2(o.bits))
    case Spr => if SwapHalves(arg) == 0 then Err(BadSpr) else Ok(SwapHalves(arg))
    case Tbr => if arg != 268 && arg != 269 then Err(BadTbr) else Ok(SwapHalves(arg))
    case _ => Ok(arg % Pow2(o.bits))
  }

  /**
   The number that the text of print_operands for a field denotes. SPR and TBR
   names stand for their numbers; a literal is the text "cr2", which reads as 0.
   */
  function ShowField(base: Word, o: Operand, field: nat): Word
    requires OperandOk(o)
  {
    match o.kind
    case Addr => (DecodeOffset(o.bits, field) + base) % ULONG
    case Reg => field % ULONG
    case Spr => SwapHalves(field)
    case Tbr => SwapHalves(field)
    case Literal => 0
    case _ => field % 0x1_0000
  }

  /** Operands that the assembler takes. */
  predicate Accepted(o: Operand, arg: Word) {
    match o.kind
    case Reg => Signed(arg) <= 31
    case Spr => arg % 1024 != 0
    case Tbr => arg == 268 || arg == 269
    case _ => true
  }

  /** Operands that fit their field, so that nothing is cut off. */
  predicate Representable(base: Word, o: Operand, arg: Word)
    requires OperandOk(o)
  {
    match o.kind
    case Addr =>
      var d := Signed(arg - base);
      d % 4 == 0 && -4 * Pow2(o.bits - 1) <= d < 4 * Pow2(o.bits - 1)
    case Spr => arg < 1024
    case Tbr => true
    case _ => arg < Pow2(o.bits)
  }

  // --------------------------------------------------------------------
  // Branch offsets
  // --------------------------------------------------------------------

  lemma {:induction false} Pow2Monotone(m: nat, n: nat)
    requires m <= n
    ensures Pow2(m) <= Pow2(n)
  {
    if m < n {
      Pow2Monotone(m, n - 1);
    }
  }

  lemma Pow2Values()
    ensures Pow2(5) == 32 && Pow2(10) == 1024 && Pow2(16) == 0x1_0000
    ensures Pow2(29) == 0x2000_0000 && Pow2(31) == 0x8000_0000 && Pow2(32) == ULONG
  {
    assert Pow2(8) == 256;
    assert Pow2(16) == 256 * Pow2(8);
    assert Pow2(24) == 256 * Pow2(16);
  }

  lemma FieldBound(bits: nat)
    requires bits <= 31
    ensures Pow2(bits) <= 0x8000_0000 && Pow2(10) == 1024
  {
    Pow2Values();
    Pow2Monotone(bits, 31);
  }

  lemma OffsetBound(bits: Positive, d: int)
    ensures EncodeOffset(bits, d) < Pow2(bits)
  {
  }

  /** What comes back from a branch field: the distance cut to the field, with its sign. */
  lemma OffsetDecoded(bits: Positive, d: int)
    ensures DecodeOffset(bits, EncodeOffset(bits, d))
      == 4 * (d / 4 % Pow2(bits - 1) - (if d < 0 then Pow2(bits - 1) else 0))
  {
    var half := Pow2(bits - 1);
    var low := d / 4 % half;
    var sign := if d < 0 then 1 else 0;
    QuotientUnique(low + sign * half, half, sign, low);
    assert EncodeOffset(bits, d) == low + sign * half;
  }

  lemma CutIff(q: int, half: Positive)
    ensures q % half - (if q < 0 then half else 0) == q <==> 0 <= q + half && q < half
  {
    if 0 <= q < half {
      QuotientUnique(q, half, 0, q);
    } else if 0 <= q + half && q < 0 {
      QuotientUnique(q, half, -1, q + half);
    }
  }

  /** A distance survives the field exactly when it is a multiple of four within reach. */
  lemma OffsetIff(bits: Positive, d: int)
    ensures DecodeOffset(bits, EncodeOffset(bits, d)) == d
      <==> d % 4 == 0 && -4 * Pow2(bits - 1) <= d < 4 * Pow2(bits - 1)
  {
    hide *;
    OffsetDecoded(bits, d);
    CutIff(d / 4, Pow2(bits - 1));
  }

  /** Every branch field is the encoding of the distance it decodes to. */
  lemma OffsetBack(bits: Positive, field: nat)
    requires field < Pow2(bits)
    ensures EncodeOffset(bits, DecodeOffset(bits, field)) == field
    ensures -4 * Pow2(bits - 1) <= DecodeOffset(bits, field) < 4 * Pow2(bits - 1)
  {
    var half := Pow2(bits - 1);
    var sign: int := if field < half then 0 else 1;
    QuotientUnique(field, half, sign, field - sign * half);
    QuotientUnique(field - sign * 2 * half, half, 0 - sign, field - sign * half);
  }

  lemma SignedUnique(x: int, d: int)
    requires -0x8000_0000 <= d < 0x8000_0000
    ensures Signed(x) == d <==> x % ULONG == d % ULONG
  {
  }

  /** Addresses: the decoded target is the assembled one exactly when the distance survives. */
  lemma TargetIff(bits: Positive, base: Word, arg: Word)
    requires bits <= 30
    ensures var d := Signed(arg - base);
      (DecodeOffset(bits, EncodeOffset(bits, d)) + base) % ULONG == arg
      <==> d % 4 == 0 && -4 * Pow2(bits - 1) <= d < 4 * Pow2(bits - 1)
  {
    hide *;
    var d := Signed(arg - base);
    var back := DecodeOffset(bits, EncodeOffset(bits, d));
    Reach(bits);
    OffsetBound(bits, d);
    OffsetBack(bits, EncodeOffset(bits, d));
    OffsetIff(bits, d);
    SignedUnique(arg - base, back);
    SameTarget(back, base, arg);
  }

  lemma Reach(bits: Positive)
    requires bits <= 30
    ensures 4 * Pow2(bits - 1) <= 0x8000_0000
  {
    Pow2Values();
    Pow2Monotone(bits - 1, 29);
  }

  lemma SameTarget(back: int, base: Word, arg: Word)
    ensures (back + base) % ULONG == arg <==> back % ULONG == (arg - base) % ULONG
  {
  }

  lemma TargetBack(bits: Positive, base: Word, field: nat)
    requires bits <= 30 && field < Pow2(bits)
    ensures EncodeOffset(bits, Signed((DecodeOffset(bits, field) + base) % ULONG - base)) == field
  {
    hide *;
    var d := DecodeOffset(bits, field);
    Reach(bits);
    OffsetBack(bits, field);
    SignedUnique((d + base) % ULONG - base, d);
    SameTarget(d, base, (d + base) % ULONG);
  }

  // --------------------------------------------------------------------
  // One operand, both ways
  // --------------------------------------------------------------------

  lemma SwapTwice(x: nat)
    ensures SwapHalves(SwapHalves(x)) == x % 1024
    ensures SwapHalves(x) == 0 <==> x % 1024 == 0
  {
    hide SwapHalves;
    var a, b := x / 32 % 32, x % 32;
    SwapParts(x, a, b);
    SwapParts(a + b * 32, b, a);
    ModDigits(x);
  }

  lemma SwapParts(x: nat, a: nat, b: nat)
    requires a == x / 32 % 32 && b == x % 32
    ensures SwapHalves(x) == a + b * 32
  {
  }

  lemma ModDigits(x: nat)
    ensures x % 1024 == x / 32 % 32 * 32 + x % 32
  {
    var y := x / 32;
    QuotientUnique(x, 1024, y / 32, y % 32 * 32 + x % 32);
  }

  lemma AddrIff(base: Word, o: Operand, arg: Word)
    requires OperandOk(o) && o.kind.Addr?
    ensures EncodeField(base, o, arg).Ok?
    ensures ShowField(base, o, EncodeField(base, o, arg).word) == arg <==> Representable(base, o, arg)
  {
    hide EncodeOffset, DecodeOffset, Signed, Pow2;
    TargetIff(o.bits, base, arg);
  }

  lemma SwappedIff(base: Word, o: Operand, arg: Word)
    requires OperandOk(o) && (o.kind.Spr? || o.kind.Tbr?)
    ensures EncodeField(base, o, arg).Ok? <==> Accepted(o, arg)
    ensures Accepted(o, arg) ==>
      (ShowField(base, o, EncodeField(base, o, arg).word) == arg <==> Representable(base, o, arg))
  {
    hide SwapHalves, Pow2;
    SwapTwice(arg);
  }

  lemma PlainFieldIff(base: Word, o: Operand, arg: Word)
    requires OperandOk(o) && !o.kind.Spr? && !o.kind.Tbr? && !o.kind.Addr? && !o.kind.Silent?
    ensures EncodeField(base, o, arg).Ok? <==> Accepted(o, arg)
    ensures Accepted(o, arg) ==>
      (ShowField(base, o, EncodeField(base, o, arg).word) == arg <==> Representable(base, o, arg))
  {
    hide Signed, Pow2;
    PlainIff(o.bits, arg);
    assert o.bits <= 16;
    var v := arg % Pow2(o.bits);
    assert v % 0x1_0000 == v && v % ULONG == v;
  }

  /**
   Assembling an operand succeeds exactly when it is accepted, and showing it again is
   faithful exactly when it fits.
   */
  lemma FieldIff(base: Word, o: Operand, arg: Word)
    requires OperandOk(o) && !o.kind.Silent?
    ensures EncodeField(base, o, arg).Ok? <==> Accepted(o, arg)
    ensures Accepted(o, arg) ==>
      (ShowField(base, o, EncodeField(base, o, arg).word) == arg <==> Representable(base, o, arg))
  {
    hide Pow2;
    if o.kind.Addr? {
      hide EncodeField, ShowField, Representable;
      AddrIff(base, o, arg);
    } else if o.kind.Spr? || o.kind.Tbr? {
      hide EncodeField, ShowField, Representable, Accepted;
      SwappedIff(base, o, arg);
    } else {
      hide EncodeField, ShowField, Representable, Accepted;
      PlainFieldIff(base, o, arg);
    }
  }

  lemma PlainIff(bits: nat, arg: nat)
    ensures arg % Pow2(bits) == arg <==> arg < Pow2(bits)
    ensures bits <= 16 ==> arg % Pow2(bits) < 0x1_0000
    ensures Pow2(0) == 1
  {
    if arg < Pow2(bits) {
      QuotientUnique(arg, Pow2(bits), 0, arg);
    }
    if bits <= 16 {
      Pow2Values();
      Pow2Monotone(bits, 16);
    }
  }

  /** Field contents that the assembler can produce. */
  predicate Producible(o: Operand, field: nat) {
    match o.kind
    case Spr => field != 0
    case Tbr => SwapHalves(field) == 268 || SwapHalves(field) == 269
    case _ => true
  }

  lemma AddrBack(base: Word, o: Operand, field: nat)
    requires OperandOk(o) && o.kind.Addr? && field < Pow2(o.bits)
    ensures EncodeField(base, o, ShowField(base, o, field)) == Ok(field)
  {
    hide EncodeOffset, DecodeOffset, Signed, Pow2;
    TargetBack(o.bits, base, field);
  }

  lemma SwappedBack(base: Word, o: Operand, field: nat)
    requires OperandOk(o) && (o.kind.Spr? || o.kind.Tbr?) && field < Pow2(o.bits)
    ensures EncodeField(base, o, ShowField(base, o, field))
      == if Producible(o, field) then Ok(field) else Err(if o.kind.Spr? then BadSpr else BadTbr)
  {
    hide SwapHalves, Pow2;
    FieldBound(10);
    SwapTwice(field);
    SwapTwice(SwapHalves(field));
  }

  lemma RegBack(base: Word, o: Operand, field: nat)
    requires OperandOk(o) && o.kind.Reg? && field < Pow2(o.bits)
    ensures EncodeField(base, o, ShowField(base, o, field)) == Ok(field)
  {
    hide Pow2;
    PlainIff(o.bits, field);
    Pow2Values();
    Pow2Monotone(o.bits, 5);
    assert field % ULONG == field;
  }

  lemma PlainBack(base: Word, o: Operand, field: nat)
    requires OperandOk(o) && (o.kind.Plain? || o.kind.Literal?) && field < Pow2(o.bits)
    ensures EncodeField(base, o, ShowField(base, o, field)) == Ok(field)
  {
    hide Pow2, Signed;
    PlainIff(o.bits, field);
    assert field % 0x1_0000 == field;
  }

  /** Assembling what was shown of a field gives the field back, exactly when it is producible. */
  lemma FieldBack(base: Word, o: Operand, field: nat)
    requires OperandOk(o) && !o.kind.Silent? && field < Pow2(o.bits)
    ensures EncodeField(base, o, ShowField(base, o, field)) == Ok(field) <==> Producible(o, field)
    ensures !Producible(o, field) ==> EncodeField(base, o, ShowField(base, o, field)).Err?
  {
    hide EncodeField, ShowField;
    match o.kind
    case Addr => AddrBack(base, o, field);
    case Spr => SwappedBack(base, o, field);
    case Tbr => SwappedBack(base, o, field);
    case Reg => RegBack(base, o, field);
    case _ => PlainBack(base, o, field);
  }

  // --------------------------------------------------------------------
  // A whole instruction
  // --------------------------------------------------------------------

  /** The operands that are written; the bits of the silent ones are part of the opcode. */
  function Spoken(fields: seq<Operand>): (r: seq<Operand>)
    ensures forall o :: o in r <==> o in fields && !o.kind.Silent?
  {
    if fields == [] then []
    else (if fields[0].kind.Silent? then [] else [fields[0]]) + Spoken(fields[1..])
  }

  predicate Apart(s: nat, n: nat, o: Operand) {
    s + n <= o.shift || o.shift + o.bits <= s
  }

  function Get(w: nat, o: Operand): nat {
    FieldOf(w, o.shift, o.bits)
  }

  predicate FieldsOk(fields: seq<Operand>) {
    && (forall o :: o in fields ==> OperandOk(o) && !o.kind.Silent?)
    && forall i, j :: 0 <= i < j < |fields| ==> Apart(fields[i].shift, fields[i].bits, fields[j])
  }

  /** Table entries whose operand fields overlap neither each other nor the fixed bits. */
  predicate EntryOk(op: Opcode) {
    && FieldsOk(Spoken(op.fields))
    && forall o :: o in Spoken(op.fields) ==> Get(op.opcode, o) == 0
  }

  /** The words are parsed from left to right and or-ed into the instruction; words left over are not read. */
  function Combine(base: Word, fields: seq<Operand>, args: seq<Word>, instr: nat): Result
    requires forall o :: o in fields ==> OperandOk(o)
  {
    if fields == [] then Ok(instr)
    else if args == [] then Err(NumOperands)
    else
      var v := EncodeField(base, fields[0], args[0]);
      if v.Err? then v
      else Combine(base, fields[1..], args[1..], Or(instr, Shl(v.word, fields[0].shift)))
  }

  function Assemble(memaddr: Word, op: Opcode, args: seq<Word>): Result
    requires EntryOk(op)
  {
    Combine(Base(memaddr, op.relative), Spoken(op.fields), args, op.opcode)
  }

  function ShowAll(base: Word, fields: seq<Operand>, w: nat): (r: seq<Word>)
    requires forall o :: o in fields ==> OperandOk(o)
    ensures |r| == |fields|
    ensures forall i :: 0 <= i < |fields| ==> r[i] == ShowField(base, fields[i], Get(w, fields[i]))
  {
    if fields == [] then [] else [ShowField(base, fields[0], Get(w, fields[0]))] + ShowAll(base, fields[1..], w)
  }

  /** What print_operands writes for an operand: a number, a register, an address, a name, or the literal. */
  datatype Item = Number(value: Word) | Cr2

  function ItemOf(base: Word, o: Operand, field: nat): Item
    requires OperandOk(o)
  {
    if o.kind.Literal? then Cr2 else Number(ShowField(base, o, field))
  }

  /** The number a written operand denotes when it is read again. */
  function Denotes(item: Item): Word {
    match item
    case Number(v) => v
    case Cr2 => 0
  }

  function Items(base: Word, fields: seq<Operand>, w: nat): (r: seq<Item>)
    requires forall o :: o in fields ==> OperandOk(o)
    ensures |r| == |fields|
  {
    if fields == [] then [] else [ItemOf(base, fields[0], Get(w, fields[0]))] + Items(base, fields[1..], w)
  }

  /** Reading what was written gives the numbers of the disassembly. */
  lemma {:induction false} ItemsDenote(base: Word, fields: seq<Operand>, w: nat)
    requires forall o :: o in fields ==> OperandOk(o)
    ensures forall i :: 0 <= i < |fields| ==> Denotes(Items(base, fields, w)[i]) == ShowAll(base, fields, w)[i]
    decreases |fields|
  {
    hide Get, OperandOk, ShowField;
    if fields != [] {
      LiteralIsZero(base, fields[0], Get(w, fields[0]));
      ItemsDenote(base, fields[1..], w);
      assert Items(base, fields, w)[1..] == Items(base, fields[1..], w);
      assert ShowAll(base, fields, w)[1..] == ShowAll(base, fields[1..], w);
    }
  }

  lemma LiteralIsZero(base: Word, o: Operand, field: nat)
    requires OperandOk(o)
    ensures Denotes(ItemOf(base, o, field)) == ShowField(base, o, field)
  {
  }

  function Disassemble(memaddr: Word, op: Opcode, w: nat): seq<Word>
    requires EntryOk(op)
  {
    ShowAll(Base(memaddr, op.relative), Spoken(op.fields), w)
  }

  /** Putting a value into one field: what it holds, and that nothing beside it changes. */
  lemma Deposit(instr: nat, o: Operand, v: nat, s: nat, n: nat)
    requires v < Pow2(o.bits)
    ensures Get(instr, o) == 0 ==> Get(Or(instr, Shl(v, o.shift)), o) == v
    ensures Apart(s, n, o) ==> FieldOf(Or(instr, Shl(v, o.shift)), s, n) == FieldOf(instr, s, n)
  {
    hide Or, Shl, FieldOf, Pow2;
    var p := Shl(v, o.shift);
    FieldOfOr(instr, p, o.shift, o.bits);
    ShiftedBack(v, o.shift, o.bits);
    OrZero(v);
    if Apart(s, n, o) {
      FieldOfOr(instr, p, s, n);
      ShiftedElsewhere(v, o.shift, o.bits, s, n);
      OrZero(FieldOf(instr, s, n));
    }
  }

  /** Bits apart from every operand field are those of the opcode. */
  lemma {:induction false} FixedBits(base: Word, fields: seq<Operand>, args: seq<Word>, instr: nat, s: nat, n: nat)
    requires forall o :: o in fields ==> OperandOk(o) && Apart(s, n, o)
    requires Combine(base, fields, args, instr).Ok?
    ensures FieldOf(Combine(base, fields, args, instr).word, s, n) == FieldOf(instr, s, n)
  {
    hide EncodeField, FieldOf, Pow2, Or, Shl, OperandOk, Apart;
    if fields != [] {
      var o, v := fields[0], EncodeField(base, fields[0], args[0]);
      Deposit(instr, o, v.word, s, n);
      FixedBits(base, fields[1..], args[1..], Or(instr, Shl(v.word, o.shift)), s, n);
    }
  }

  lemma {:induction false} Fits(base: Word, fields: seq<Operand>, args: seq<Word>, instr: nat)
    requires forall o :: o in fields ==> OperandOk(o)
    requires Combine(base, fields, args, instr).Ok? && instr < Pow2(32)
    ensures Combine(base, fields, args, instr).word < Pow2(32)
  {
    hide EncodeField, Pow2, Or, Shl;
    if fields != [] {
      var o, v := fields[0], EncodeField(base, fields[0], args[0]);
      ShiftedFits(v.word, o.shift, o.bits, 32);
      OrBound(instr, Shl(v.word, o.shift), 32);
      Fits(base, fields[1..], args[1..], Or(instr, Shl(v.word, o.shift)));
    }
  }

  /** Every operand field of the assembled word holds what its operand was encoded to. */
  lemma {:induction false} FieldsHold(base: Word, fields: seq<Operand>, args: seq<Word>, instr: nat, i: nat)
    requires FieldsOk(fields) && i < |fields|
    requires forall o :: o in fields ==> Get(instr, o) == 0
    requires Combine(base, fields, args, instr).Ok?
    ensures |args| >= |fields|
    ensures EncodeField(base, fields[i], args[i]) == Ok(Get(Combine(base, fields, args, instr).word, fields[i]))
  {
    hide EncodeField, FieldOf, Pow2, Or, Shl, OperandOk, Apart;
    var o, v := fields[0], EncodeField(base, fields[0], args[0]);
    var next := Or(instr, Shl(v.word, o.shift));
    var rest := fields[1..];
    StillFree(fields, instr, v.word);
    Deposit(instr, o, v.word, 0, 0);
    if i == 0 {
      FixedBits(base, rest, args[1..], next, o.shift, o.bits);
      Enough(base, rest, args[1..], next);
    } else {
      FieldsHold(base, rest, args[1..], next, i - 1);
    }
  }

  /** Filling the first field leaves the later ones empty. */
  lemma StillFree(fields: seq<Operand>, instr: nat, v: nat)
    requires FieldsOk(fields) && fields != [] && v < Pow2(fields[0].bits)
    requires forall o :: o in fields ==> Get(instr, o) == 0
    ensures FieldsOk(fields[1..])
    ensures forall g :: g in fields[1..] ==>
      && Get(Or(instr, Shl(v, fields[0].shift)), g) == 0
      && Apart(fields[0].shift, fields[0].bits, g)
  {
    hide FieldOf, Pow2, Or, Shl, OperandOk, Apart;
    var o, rest := fields[0], fields[1..];
    forall j | 0 <= j < |rest|
      ensures Get(Or(instr, Shl(v, o.shift)), rest[j]) == 0 && Apart(o.shift, o.bits, rest[j])
    {
      assert fields[j + 1] == rest[j];
      assert Get(instr, rest[j]) == 0;
      ApartBoth(o, rest[j]);
      Deposit(instr, o, v, rest[j].shift, rest[j].bits);
    }
  }

  lemma ApartBoth(f: Operand, g: Operand)
    ensures Apart(f.shift, f.bits, g) <==> Apart(g.shift, g.bits, f)
  {
  }

  lemma {:induction false} Enough(base: Word, fields: seq<Operand>, args: seq<Word>, instr: nat)
    requires forall o :: o in fields ==> OperandOk(o) && !o.kind.Silent?
    ensures Combine(base, fields, args, instr).Ok?
      <==> |args| >= |fields| && forall i :: 0 <= i < |fields| ==> Accepted(fields[i], args[i])
  {
    hide EncodeField, ShowField, Pow2, Or, Shl, OperandOk, Accepted, Representable;
    if fields != [] && args != [] {
      var v := EncodeField(base, fields[0], args[0]);
      FieldIff(base, fields[0], args[0]);
      if v.Ok? {
        Enough(base, fields[1..], args[1..], Or(instr, Shl(v.word, fields[0].shift)));
        assert forall i :: 1 <= i < |fields| && i < |args| ==>
          fields[i] == fields[1..][i - 1] && args[i] == args[1..][i - 1];
      }
    }
  }

  /**
   Assembling fails exactly for too few words or a refused operand; the disassembly repeats
   exactly the operands that fit.
   */
  lemma AssembleThenShow(memaddr: Word, op: Opcode, args: seq<Word>)
    requires EntryOk(op)
    ensures var fields := Spoken(op.fields);
      var r := Assemble(memaddr, op, args);
      && (r.Ok? <==> |args| >= |fields| && forall i :: 0 <= i < |fields| ==> Accepted(fields[i], args[i]))
      && (r.Ok? ==> r.word < ULONG && forall i :: 0 <= i < |fields| ==>
          (Disassemble(memaddr, op, r.word)[i] == args[i]
           <==> Representable(Base(memaddr, op.relative), fields[i], args[i])))
  {
    hide EncodeField, ShowField, Pow2, Or, Shl, FieldOf, OperandOk, Accepted, Representable, Combine, Spoken;
    var base, fields := Base(memaddr, op.relative), Spoken(op.fields);
    var r := Assemble(memaddr, op, args);
    Enough(base, fields, args, op.opcode);
    Pow2Values();
    if r.Ok? {
      Fits(base, fields, args, op.opcode);
      forall i | 0 <= i < |fields|
        ensures Disassemble(memaddr, op, r.word)[i] == args[i] <==> Representable(base, fields[i], args[i])
      {
        FieldsHold(base, fields, args, op.opcode, i);
        FieldIff(base, fields[i], args[i]);
      }
    }
  }

  predicate Covered(fields: seq<Operand>, i: nat) {
    exists o :: o in fields && o.shift <= i < o.shift + o.bits
  }

  /** Words with the opcode's fixed bits. */
  predicate Matches(op: Opcode, w: nat) {
    forall i: nat :: i < 32 && !Covered(Spoken(op.fields), i) ==> Bit(w, i) == Bit(op.opcode, i)
  }

  /**
   Assembling a disassembled word gives that word, exactly when its fixed bits are the
   opcode's and its fields producible.
   */
  lemma ShowThenAssemble(memaddr: Word, op: Opcode, w: Word)
    requires EntryOk(op)
    ensures Assemble(memaddr, op, Disassemble(memaddr, op, w)) == Ok(w)
      <==> Matches(op, w) && forall o :: o in Spoken(op.fields) ==> Producible(o, Get(w, o))
  {
    hide EncodeField, ShowField, Pow2, Or, Shl, FieldOf, OperandOk, Accepted, Representable, Combine, Spoken,
         Producible;
    var base, fields := Base(memaddr, op.relative), Spoken(op.fields);
    var args := Disassemble(memaddr, op, w);
    var r := Assemble(memaddr, op, args);
    AssembleThenShow(memaddr, op, args);
    forall i | 0 <= i < |fields|
      ensures Accepted(fields[i], args[i]) <==> Producible(fields[i], Get(w, fields[i]))
      ensures Producible(fields[i], Get(w, fields[i])) ==>
        EncodeField(base, fields[i], args[i]) == Ok(Get(w, fields[i]))
    {
      FieldBack(base, fields[i], Get(w, fields[i]));
      FieldIff(base, fields[i], args[i]);
    }
    if r.Ok? {
      Uncovered(memaddr, op, args);
      forall o | o in fields ensures Get(r.word, o) == Get(w, o) {
        var i :| 0 <= i < |fields| && fields[i] == o;
        FieldsHold(base, fields, args, op.opcode, i);
      }
      if Matches(op, w) {
        Pow2Values();
        MatchingWords(op, w, r.word);
      }
    }
  }

  lemma Uncovered(memaddr: Word, op: Opcode, args: seq<Word>)
    requires EntryOk(op) && Assemble(memaddr, op, args).Ok?
    ensures Matches(op, Assemble(memaddr, op, args).word)
  {
    hide EncodeField, Pow2, Or, Shl, FieldOf, OperandOk, Combine, Spoken;
    var base, fields := Base(memaddr, op.relative), Spoken(op.fields);
    forall i: nat | i < 32 && !Covered(fields, i)
      ensures Bit(Assemble(memaddr, op, args).word, i) == Bit(op.opcode, i)
    {
      forall o | o in fields ensures Apart(i, 1, o) {
      }
      FixedBits(base, fields, args, op.opcode, i, 1);
    }
  }

  lemma MatchingWords(op: Opcode, v: nat, w: nat)
    requires Matches(op, v) && Matches(op, w) && v < Pow2(32) && w < Pow2(32)
    requires forall o :: o in Spoken(op.fields) ==> Get(v, o) == Get(w, o)
    ensures v == w
  {
    hide Pow2, Spoken, FieldOf;
    forall i: nat | i < 32 ensures Bit(v, i) == Bit(w, i) {
      if Covered(Spoken(op.fields), i) {
        var o :| o in Spoken(op.fields) && o.shift <= i < o.shift + o.bits;
        BitOfField(v, o.shift, o.bits, i);
        BitOfField(w, o.shift, o.bits, i);
      }
    }
    SameBits(v, w, 32);
  }

  // --------------------------------------------------------------------
  // What the fields mean
  // --------------------------------------------------------------------

  /** A field read as a signed number. */
  function SignedField(bits: Positive, field: nat): int {
    if field < Pow2(bits - 1) then field else field - Pow2(bits)
  }

  /**
   The address a distance in words leads to: from the instruction for a relative branch,
   from 0 for an absolute one.
   */
  function TargetOf(memaddr: Word, relative: bool, words: int): Word {
    if relative then (memaddr + 4 * words) % ULONG else 4 * words % ULONG
  }

  lemma DecodeIsSigned(bits: Positive, field: nat)
    requires field < Pow2(bits)
    ensures DecodeOffset(bits, field) == 4 * SignedField(bits, field)
  {
    var half := Pow2(bits - 1);
    var sign: int := if field < half then 0 else 1;
    QuotientUnique(field, half, sign, field - sign * half);
  }

  /** The assembled field of a branch is the distance in words to its target, and no other target fits. */
  lemma BranchField(memaddr: Word, op: Opcode, args: seq<Word>, i: nat, words: int)
    requires EntryOk(op) && Assemble(memaddr, op, args).Ok?
    requires i < |Spoken(op.fields)| && i < |args| && Spoken(op.fields)[i].kind.Addr?
    requires var bits := Spoken(op.fields)[i].bits; bits > 0 ==> -1 * Pow2(bits - 1) <= words < Pow2(bits - 1)
    requires args[i] == TargetOf(memaddr, op.relative, words)
    ensures var o := Spoken(op.fields)[i];
      o.bits > 0 && SignedField(o.bits, Get(Assemble(memaddr, op, args).word, o)) == words
  {
    hide Assemble, Spoken, Get, Pow2, DecodeOffset, EncodeOffset, Signed, Representable;
    var o := Spoken(op.fields)[i];
    var base := Base(memaddr, op.relative);
    BranchDistance(memaddr, op.relative, o.bits, words, args[i]);
    var r := Assemble(memaddr, op, args);
    HoldsOffset(memaddr, op, args, i);
    OffsetIff(o.bits, 4 * words);
    OffsetBound(o.bits, 4 * words);
    DecodeIsSigned(o.bits, Get(r.word, o));
  }

  lemma HoldsOffset(memaddr: Word, op: Opcode, args: seq<Word>, i: nat)
    requires EntryOk(op) && Assemble(memaddr, op, args).Ok?
    requires i < |Spoken(op.fields)| && i < |args| && Spoken(op.fields)[i].kind.Addr?
    ensures var o := Spoken(op.fields)[i];
      o.bits > 0 &&
      Get(Assemble(memaddr, op, args).word, o) == EncodeOffset(o.bits, Signed(args[i] - Base(memaddr, op.relative)))
  {
    hide Spoken, Combine, Pow2, EncodeOffset, Signed, FieldOf;
    FieldsHold(Base(memaddr, op.relative), Spoken(op.fields), args, op.opcode, i);
  }

  lemma BranchDistance(memaddr: Word, relative: bool, bits: nat, words: int, arg: Word)
    requires 1 <= bits <= 30 && -1 * Pow2(bits - 1) <= words < Pow2(bits - 1) && arg ==
      TargetOf(memaddr, relative, words)
    ensures Signed(arg - Base(memaddr, relative)) == 4 * words
    ensures -4 * Pow2(bits - 1) <= 4 * words < 4 * Pow2(bits - 1)
  {
    hide Pow2, Signed;
    Reach(bits);
    SignedUnique(arg - Base(memaddr, relative), 4 * words);
  }

  /** The disassembly of a branch shows where its field leads. */
  lemma BranchShown(memaddr: Word, op: Opcode, w: nat, i: nat)
    requires EntryOk(op) && i < |Spoken(op.fields)| && Spoken(op.fields)[i].kind.Addr?
    ensures var o := Spoken(op.fields)[i];
      o.bits > 0 && Disassemble(memaddr, op, w)[i] == TargetOf(memaddr, op.relative, SignedField(o.bits, Get(w, o)))
  {
    hide Spoken, Pow2, DecodeOffset, SignedField, FieldOf;
    var o := Spoken(op.fields)[i];
    DecodeIsSigned(o.bits, Get(w, o));
  }

  /** Numbers and registers stand in their fields as they are, SPR and TBR numbers with their halves exchanged. */
  lemma OtherFields(memaddr: Word, op: Opcode, args: seq<Word>, i: nat)
    requires EntryOk(op) && Assemble(memaddr, op, args).Ok?
    requires i < |Spoken(op.fields)| && i < |args|
    ensures var o, f := Spoken(op.fields)[i], Get(Assemble(memaddr, op, args).word, Spoken(op.fields)[i]);
      && (o.kind.Reg? || o.kind.Plain? ==> f < Pow2(o.bits) && f % Pow2(o.bits) == args[i] % Pow2(o.bits))
      && (o.kind.Spr? || o.kind.Tbr? ==> f % 32 == args[i] / 32 % 32 && f / 32 == args[i] % 32)
  {
    hide Spoken, Combine, Pow2, FieldOf;
    FieldsHold(Base(memaddr, op.relative), Spoken(op.fields), args, op.opcode, i);
    var o, f := Spoken(op.fields)[i], Get(Assemble(memaddr, op, args).word, Spoken(op.fields)[i]);
    if o.kind.Reg? || o.kind.Plain? {
      QuotientUnique(f, Pow2(o.bits), 0, f);
    } else if o.kind.Spr? || o.kind.Tbr? {
      SwappedParts(args[i]);
    }
  }

  lemma SwappedParts(x: nat)
    ensures SwapHalves(x) % 32 == x / 32 % 32 && SwapHalves(x) / 32 == x % 32
  {
    QuotientUnique(SwapHalves(x), 32, x % 32, x / 32 % 32);
  }

  function RefusalOf(o: Operand): Error {
    match o.kind
    case Spr => BadSpr
    case Tbr => BadTbr
    case _ => BadRegister
  }

  /** The error is that of the first operand that is missing or refused. */
  lemma {:induction false} FirstError(base: Word, fields: seq<Operand>, args: seq<Word>, instr: nat, i: nat)
    requires forall o :: o in fields ==> OperandOk(o) && !o.kind.Silent?
    requires i < |fields| && i <= |args| && forall j :: 0 <= j < i ==> Accepted(fields[j], args[j])
    requires i == |args| || !Accepted(fields[i], args[i])
    ensures Combine(base, fields, args, instr) == Err(if i == |args| then NumOperands else RefusalOf(fields[i]))
    decreases i
  {
    hide EncodeField, Pow2, Or, Shl, OperandOk, Accepted, RefusalOf;
    if args != [] {
      FieldIff(base, fields[0], args[0]);
      if i == 0 {
        RefusedField(base, fields[0], args[0]);
      } else {
        var v := EncodeField(base, fields[0], args[0]);
        FirstError(base, fields[1..], args[1..], Or(instr, Shl(v.word, fields[0].shift)), i - 1);
      }
    }
  }

  lemma RefusedField(base: Word, o: Operand, arg: Word)
    requires OperandOk(o) && !Accepted(o, arg) && EncodeField(base, o, arg).Err?
    ensures EncodeField(base, o, arg) == Err(RefusalOf(o))
  {
    hide Pow2, EncodeOffset, SwapHalves;
  }

  // --------------------------------------------------------------------
  // The loops
  // --------------------------------------------------------------------

  lemma SpokenNext(fields: seq<Operand>, k: nat)
    requires k < |fields|
    ensures fields[k].kind.Silent? ==> Spoken(fields[k..]) == Spoken(fields[k + 1..])
    ensures !fields[k].kind.Silent? ==> Spoken(fields[k..]) == [fields[k]] + Spoken(fields[k + 1..])
    ensures !fields[k].kind.Silent? ==> Spoken(fields[k..])[1..] == Spoken(fields[k + 1..])
  {
    assert fields[k..][1..] == fields[k + 1..];
  }

  lemma CombineNext(base: Word, fields: seq<Operand>, k: nat, args: seq<Word>, p: nat, instr: nat)
    requires k < |fields| && p <= |args| && forall o :: o in fields ==> OperandOk(o)
    ensures Combine(base, Spoken(fields[k..]), args[p..], instr)
      == if fields[k].kind.Silent? then Combine(base, Spoken(fields[k + 1..]), args[p..], instr)
         else if p == |args| then Err(NumOperands)
         else
           var v := EncodeField(base, fields[k], args[p]);
           if v.Err? then v
           else Combine(base, Spoken(fields[k + 1..]), args[p + 1..], Or(instr, Shl(v.word, fields[k].shift)))
  {
    hide EncodeField, Or, Shl, Pow2, OperandOk, Spoken;
    SpokenNext(fields, k);
    if p < |args| {
      assert args[p..][1..] == args[p + 1..];
    }
  }

  /** asmppc, after the opcode is found. */
  method Asmppc(memaddr: Word, op: Opcode, args: seq<Word>) returns (r: Result)
    requires forall o :: o in op.fields ==> OperandOk(o)
    ensures r == Combine(Base(memaddr, op.relative), Spoken(op.fields), args, op.opcode)
  {
    hide *;
    var base := Base(memaddr, op.relative);
    var instr: nat, k, p := op.opcode, 0, 0;
    assert op.fields[0..] == op.fields && args[0..] == args;
    while k < |op.fields|
      invariant 0 <= k <= |op.fields| && 0 <= p <= |args|
      invariant Combine(base, Spoken(op.fields[k..]), args[p..], instr)
        == Combine(base, Spoken(op.fields), args, op.opcode)
    {
      CombineNext(base, op.fields, k, args, p, instr);
      var o := op.fields[k];
      if o.kind.Silent? {
        k := k + 1;
        continue;
      }
      if p == |args| {
        return Err(NumOperands);
      }
      var param := EncodeField(base, o, args[p]);
      if param.Err? {
        return param;
      }
      instr := Or(instr, Shl(param.word, o.shift));
      k, p := k + 1, p + 1;
    }
    CombineNothing(base, args[p..], instr);
    return Ok(instr);
  }

  lemma CombineNothing(base: Word, args: seq<Word>, instr: nat)
    ensures Combine(base, Spoken([]), args, instr) == Ok(instr)
  {
  }

  lemma ItemsNext(base: Word, fields: seq<Operand>, k: nat, w: nat)
    requires k < |fields| && forall o :: o in fields ==> OperandOk(o)
    ensures Items(base, Spoken(fields[k..]), w)
      == (if fields[k].kind.Silent? then [] else [ItemOf(base, fields[k], Get(w, fields[k]))])
         + Items(base, Spoken(fields[k + 1..]), w)
  {
    hide ItemOf, FieldOf, Pow2, OperandOk, Spoken, Get;
    SpokenNext(fields, k);
  }

  lemma ItemsNothing(base: Word, w: nat)
    ensures Items(base, Spoken([]), w) == []
  {
  }

  /** print_operands: what it writes for each operand. */
  method PrintOperands(memaddr: Word, op: Opcode, instr: Word) returns (shown: seq<Item>)
    requires forall o :: o in op.fields ==> OperandOk(o)
    ensures shown == Items(Base(memaddr, op.relative), Spoken(op.fields), instr)
  {
    hide *;
    var base := Base(memaddr, op.relative);
    shown := [];
    assert op.fields[0..] == op.fields;
    for k := 0 to |op.fields|
      invariant shown + Items(base, Spoken(op.fields[k..]), instr) == Items(base, Spoken(op.fields), instr)
    {
      ItemsNext(base, op.fields, k, instr);
      var o := op.fields[k];
      if !o.kind.Silent? {
        shown := shown + [ItemOf(base, o, Get(instr, o))];
      }
    }
    ItemsNothing(base, instr);
  }

  /** get_operand_value. */
  method GetOperandValue(op: Opcode, instr: Word, o: Operand) returns (value: Option<nat>)
    ensures value == if o in op.fields then Some(Get(instr, o)) else None
  {
    for i := 0 to |op.fields|
      invariant o !in op.fields[..i]
    {
      if op.fields[i] != o {
        continue;
      }
      return Some(FieldOf(instr, op.fields[i].shift, op.fields[i].bits));
    }
    return None;
  }
}
