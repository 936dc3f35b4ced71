/**
 The kermit receiver of common/cmd_load.c: packet framing, the checkpoint that
 is taken or restored on the sequence number, control-character unquoting and
 the memory it writes to. Bytes are numbers; the source's masks are written as
 the arithmetic they do on unsigned bytes.
 */
module Kermit {
  import opened Machine
  import opened Option

  const START_CHAR: Byte := 0x01
  const ETX_CHAR: Byte := 0x03
  const END_CHAR: Byte := 0x0D
  const SPACE: Byte := 0x20
  const K_ESCAPE: Byte := 0x23
  const SEND_TYPE: Byte := 83
  const DATA_TYPE: Byte := 68
  const ACK_TYPE: Byte := 89
  const NACK_TYPE: Byte := 78
  const BREAK_TYPE: Byte := 66

  function ToChar(x: int): Byte {
    (x + SPACE) % 256
  }

  function UnToChar(c: Byte): Byte {
    (c - SPACE) % 256
  }

  /** The one-character block check over a byte sum. */
  function Check(sum: nat): Byte {
    ToChar((sum + (sum / 64) % 4) % 64)
  }

  function Sum(s: seq<Byte>): nat {
    if s == [] then 0 else s[0] + Sum(s[1..])
  }

  // --------------------------------------------------------------------
  // Reading packets off the line
  // --------------------------------------------------------------------

  /** How reading a packet ended: input ran out, an error was noticed, or all was well. */
  datatype Outcome = Cut | Damaged | Intact

  datatype Event =
    | Silence                                  // no packet begins
    | Cancel                                   // ^C while waiting for one
    | NoHeader(cut: bool)                      // nothing usable up to the sequence number
    | Frame(n: nat, typ: Option<Byte>, data: seq<Byte>, outcome: Outcome)

  /** A byte below SPACE inside a packet is an error. */
  predicate Legal(c: Byte) {
    c >= SPACE
  }

  function ReadTrailer(n: nat, typ: Byte, sum: nat, s: seq<Byte>, data: seq<Byte>): (r: (Event, seq<Byte>))
    ensures |r.1| <= |s|
  {
    if s == [] then (Frame(n, Some(typ), data, Cut), [])
    else if !Legal(s[0]) || s[0] != Check(sum) then (Frame(n, Some(typ), data, Damaged), s[1..])
    else if |s| == 1 then (Frame(n, Some(typ), data, Cut), [])
    else if s[1] != END_CHAR then (Frame(n, Some(typ), data, Damaged), s[2..])
    else (Frame(n, Some(typ), data, Intact), s[2..])
  }

  /** `while (length > 1)`: the data characters, then check and end of line. */
  function ReadData(n: nat, typ: Byte, length: int, sum: nat, s: seq<Byte>, data: seq<Byte>): (r: (Event, seq<Byte>))
    ensures |r.1| <= |s|
    decreases length
  {
    if length <= 1 then ReadTrailer(n, typ, sum, s, data)
    else if s == [] then (Frame(n, Some(typ), data, Cut), [])
    else if !Legal(s[0]) then (Frame(n, Some(typ), data, Damaged), s[1..])
    else ReadData(n, typ, length - 1, sum + s[0], s[1..], data + [s[0]])
  }

  /** The extended header: two length digits and a check of their own. */
  function ReadExtended(n: nat, typ: Byte, sum: nat, s: seq<Byte>): (r: (Event, seq<Byte>))
    ensures |r.1| <= |s|
  {
    if s == [] then (Frame(n, Some(typ), [], Cut), [])
    else if !Legal(s[0]) then (Frame(n, Some(typ), [], Damaged), s[1..])
    else if |s| == 1 then (Frame(n, Some(typ), [], Cut), [])
    else if !Legal(s[1]) then (Frame(n, Some(typ), [], Damaged), s[2..])
    else if |s| == 2 then (Frame(n, Some(typ), [], Cut), [])
    else
      var sum2 := sum + s[0] + s[1];
      if !Legal(s[2]) || s[2] != Check(sum2) then (Frame(n, Some(typ), [], Damaged), s[3..])
      else ReadData(n, typ, UnToChar(s[0]) * 95 + UnToChar(s[1]), sum2 + s[2], s[3..], [])
  }

  function ReadType(n: nat, length: int, sum: nat, s: seq<Byte>): (r: (Event, seq<Byte>))
    ensures |r.1| <= |s|
  {
    if s == [] then (Frame(n, None, [], Cut), [])
    else if !Legal(s[0]) then (Frame(n, None, [], Damaged), s[1..])
    else if length - 1 == -2 then ReadExtended(n, s[0], sum + s[0], s[1..])
    else ReadData(n, s[0], length - 1, sum + s[0], s[1..], [])
  }

  /** A packet after its start character. */
  function ReadFrame(s: seq<Byte>): (r: (Event, seq<Byte>))
    ensures |r.1| <= |s|
  {
    if s == [] then (NoHeader(true), [])
    else if !Legal(s[0]) then (NoHeader(false), s[1..])
    else if |s| == 1 then (NoHeader(true), [])
    else if !Legal(s[1]) then (NoHeader(false), s[2..])
    else
      var sum: nat := s[0];
      ReadType(UnToChar(s[1]), UnToChar(s[0]) - 1, sum + s[1], s[2..])
  }

  /** Wait for a packet and read it. */
  function ReadEvent(s: seq<Byte>): (r: (Event, seq<Byte>))
    ensures if s == [] then r == (Silence, []) else |r.1| < |s|
  {
    if s == [] then (Silence, [])
    else if s[0] == START_CHAR then ReadFrame(s[1..])
    else if s[0] == ETX_CHAR then (Cancel, s[1..])
    else ReadEvent(s[1..])
  }

  // --------------------------------------------------------------------
  // The download
  // --------------------------------------------------------------------

  datatype Reply = Ack(n: nat) | Nack(n: nat) | Parms(n: nat)

  /**
   `mem` is the memory from the load address up to the highest byte ever
   written, `addr` the write position in it; the saved fields are the checkpoint.
   */
  datatype Download = Download(mem: seq<Byte>, addr: nat, escape: bool, addrSaved: nat, escapeSaved: bool,
                               state: Byte, stateSaved: Byte, n: nat, lastN: int, quote: Byte, replies: seq<Reply>)
  {
    predicate Valid() {
      addrSaved <= addr <= |mem|
    }
  }

  const FRESH := Download([], 0, false, 0, false, 0, 0, 0, -1, K_ESCAPE, [])

  /** ktrans. */
  function KTrans(c: Byte): Byte {
    if (c / 32) % 4 == 2 then c - 64
    else if c % 128 == 63 then c + 64
    else c
  }

  /** *os_data_addr++ = c. */
  function StoreByte(d: Download, c: Byte): Download
    requires d.addr <= |d.mem|
  {
    d.(mem := if d.addr < |d.mem| then d.mem[d.addr := c] else d.mem + [c], addr := d.addr + 1)
  }

  /** k_data_char. */
  function DataChar(d: Download, c: Byte): (r: Download)
    requires d.Valid()
    ensures r.Valid() && r.addrSaved == d.addrSaved && r.escapeSaved == d.escapeSaved
    ensures r == d.(mem := r.mem, addr := r.addr, escape := r.escape)
  {
    if d.escape then StoreByte(d, KTrans(c)).(escape := false)
    else if c == d.quote then d.(escape := true)
    else StoreByte(d, c)
  }

  function Feed(d: Download, data: seq<Byte>): (r: Download)
    requires d.Valid()
    ensures r.Valid() && r.addrSaved == d.addrSaved && r.escapeSaved == d.escapeSaved
    ensures r == d.(mem := r.mem, addr := r.addr, escape := r.escape)
    decreases |data|
  {
    if data == [] then d else Feed(DataChar(d, data[0]), data[1..])
  }

  function Restore(d: Download): (r: Download)
    requires d.Valid()
    ensures r.Valid()
  {
    d.(state := d.stateSaved, addr := d.addrSaved, escape := d.escapeSaved)
  }

  /** Sequence number n arrived: a new one takes a checkpoint, the last one again goes back to it. */
  function Begin(d: Download, n: nat): (r: Download)
    requires d.Valid()
    ensures r.Valid()
  {
    if n == d.lastN then Restore(d).(n := n)
    else d.(n := n, lastN := n, stateSaved := d.state, addrSaved := d.addr, escapeSaved := d.escape)
  }

  /** The quote character that handle_send_packet takes from an S packet. */
  function QuoteOf(parms: seq<Byte>): Byte {
    if |parms| > 5 then parms[5] else K_ESCAPE
  }

  /** Type and data of a packet take effect while they come in. */
  function Take(d: Download, typ: Option<Byte>, data: seq<Byte>): (r: Download)
    requires d.Valid()
    ensures r.Valid()
  {
    match typ
    case None => d
    case Some(t) => if t == DATA_TYPE then Feed(d.(state := t), data) else d.(state := t)
  }

  function Fail(d: Download): (r: Download)
    requires d.Valid()
    ensures r.Valid()
  {
    Restore(d).(replies := d.replies + [Nack(d.n)])
  }

  function Accept(d: Download, parms: seq<Byte>): (r: Download)
    requires d.Valid()
    ensures r.Valid()
  {
    if d.state == SEND_TYPE then d.(quote := QuoteOf(parms), replies := d.replies + [Parms(d.n)])
    else d.(replies := d.replies + [Ack(d.n)])
  }

  /** What one packet does to the download. */
  function Apply(d: Download, e: Event): (r: Download)
    requires d.Valid()
    ensures r.Valid()
  {
    match e
    case Silence => d
    case Cancel => d
    case NoHeader(cut) => if cut then d else Fail(d)
    case Frame(n, typ, data, outcome) =>
      var taken := Take(Begin(d, n), typ, data);
      match outcome
      case Cut => taken
      case Damaged => Fail(taken)
      case Intact => Accept(taken, data)
  }

  /** The value k_recv returns after an event, if it returns. */
  function Result(d: Download, e: Event): Option<nat>
    requires d.Valid()
  {
    match e
    case Cancel => Some(0)
    case Frame(_, Some(t), _, Intact) => if t == BREAK_TYPE then Some(Apply(d, e).addr) else None
    case _ => None
  }

  lemma SilenceIsNothing(d: Download)
    requires d.Valid()
    ensures Apply(d, Silence) == d && Result(d, Silence).None?
  {
  }

  predicate Ends(e: Event) {
    e.Silence? || (e.NoHeader? && e.cut) || (e.Frame? && e.outcome.Cut?)
  }

  /** k_recv on a whole input; None while it still waits for more. */
  function Receive(d: Download, s: seq<Byte>): (r: (Download, Option<nat>))
    requires d.Valid()
    ensures r.0.Valid()
    decreases |s|
  {
    var (e, rest) := ReadEvent(s);
    var next := Apply(d, e);
    if Result(d, e).Some? then (next, Result(d, e))
    else if Ends(e) then (next, None)
    else Receive(next, rest)
  }

  // --------------------------------------------------------------------
  // Unquoting
  // --------------------------------------------------------------------

  /** What k_data_char stores for a stretch of data, and whether it ends inside a quoted pair. */
  function Unquote(q: Byte, escape: bool, data: seq<Byte>): (seq<Byte>, bool)
    decreases |data|
  {
    if data == [] then ([], escape)
    else if escape then
      var (out, e) := Unquote(q, false, data[1..]);
      ([KTrans(data[0])] + out, e)
    else if data[0] == q then Unquote(q, true, data[1..])
    else
      var (out, e) := Unquote(q, false, data[1..]);
      ([data[0]] + out, e)
  }

  /** Characters that the protocol quotes: controls, with or without the high bit, and the quote itself. */
  predicate IsControl(c: Byte) {
    c % 128 < 32 || c % 128 == 127
  }

  /** c ^ 0x40. */
  function Ctl(c: Byte): Byte {
    if (c / 64) % 2 == 1 then c - 64 else c + 64
  }

  function QuoteByte(q: Byte, c: Byte): seq<Byte> {
    if IsControl(c) then [q, Ctl(c)] else if c == q then [q, q] else [c]
  }

  /** The sender's side: a byte string quoted with q. */
  function Quote(q: Byte, x: seq<Byte>): seq<Byte> {
    if x == [] then [] else QuoteByte(q, x[0]) + Quote(q, x[1..])
  }

  /** Unquoting goes on across any cut, in particular across packets and through a split pair. */
  lemma {:induction false} UnquoteSplit(q: Byte, escape: bool, a: seq<Byte>, b: seq<Byte>)
    ensures var (out, e) := Unquote(q, escape, a);
            Unquote(q, escape, a + b) == (out + Unquote(q, e, b).0, Unquote(q, e, b).1)
    decreases |a|
  {
    if a == [] {
      assert a + b == b;
      assert [] + Unquote(q, escape, b).0 == Unquote(q, escape, b).0;
    } else {
      assert (a + b)[0] == a[0] && (a + b)[1..] == a[1..] + b;
      var next := if escape then false else a[0] == q;
      UnquoteSplit(q, next, a[1..], b);
      var (out, e) := Unquote(q, next, a[1..]);
      var more := Unquote(q, e, b).0;
      assert forall v: seq<Byte> :: v + (out + more) == (v + out) + more;
    }
  }

  lemma CtlBack(c: Byte)
    requires IsControl(c)
    ensures KTrans(Ctl(c)) == c
  {
  }

  lemma UnquoteByte(q: Byte, c: Byte)
    requires KTrans(q) == q && !IsControl(q)
    ensures Unquote(q, false, QuoteByte(q, c)) == ([c], false)
  {
    var d := QuoteByte(q, c);
    if IsControl(c) { CtlBack(c); }
    hide KTrans, Ctl, IsControl;
    assert Unquote(q, false, []) == ([], false);
    if |d| == 1 {
      assert d[1..] == [] && [c] + [] == [c];
    } else {
      assert d[0] == q && d[1..] == [d[1]] && [d[1]][1..] == [];
      assert KTrans(d[1]) == c;
      assert Unquote(q, true, [d[1]]) == ([c] + [], false);
      assert [c] + [] == [c];
      assert Unquote(q, false, d) == Unquote(q, true, d[1..]);
    }
  }

  lemma {:induction false} UnquoteInverts(q: Byte, x: seq<Byte>)
    requires KTrans(q) == q && !IsControl(q)
    ensures Unquote(q, false, Quote(q, x)) == (x, false)
  {
    if x != [] {
      UnquoteByte(q, x[0]);
      UnquoteInverts(q, x[1..]);
      UnquoteSplit(q, false, QuoteByte(q, x[0]), Quote(q, x[1..]));
      assert [x[0]] + x[1..] == x;
    }
  }

  /**
   For a printable quote character, unquoting undoes quoting for every byte string
   exactly when the character is one the protocol allows: 33..62 or 96..126.
   */
  lemma UnquoteInvertsIff(q: Byte)
    requires 33 <= q <= 126
    ensures (forall x :: Unquote(q, false, Quote(q, x)) == (x, false)) <==> (q <= 62 || q >= 96)
  {
    if q <= 62 || q >= 96 {
      forall x ensures Unquote(q, false, Quote(q, x)) == (x, false) {
        UnquoteInverts(q, x);
      }
    } else {
      var x := [q];
      assert x[1..] == [] && Quote(q, []) == [];
      assert Quote(q, x) == [q, q];
      assert [q, q][1..] == [q] && [q][1..] == [];
      assert Unquote(q, true, [q]).0 == [KTrans(q)] + Unquote(q, false, []).0;
      assert Unquote(q, false, Quote(q, x)).0[0] == KTrans(q) != q;
      assert Unquote(q, false, Quote(q, x)) != (x, false);
    }
  }

  /** Quoted data never contains a byte that would be taken for a line error. */
  lemma {:induction false} QuoteLegal(q: Byte, x: seq<Byte>)
    requires q >= SPACE
    ensures forall i :: 0 <= i < |Quote(q, x)| ==> Legal(Quote(q, x)[i])
  {
    if x != [] {
      QuoteLegal(q, x[1..]);
    }
  }
}
