/**
 When the receiver notices damage. The laws speak of the bytes that arrive, not
 of how they are read: a packet is taken as intact exactly when its bytes are
 printable, its checks fit the byte sums, and it ends with a carriage return.
 */
module KermitDamage {
  import opened Machine
  import opened Option
  import opened Kermit
  import opened KermitDelivery
  import opened KermitLine

  /** The six bits that a check character stands for. */
  function Code(sum: int): nat {
    (sum + sum / 64 % 4) % 64
  }

  lemma CheckIs(sum: nat)
    ensures Check(sum) == SPACE + Code(sum) && Legal(Check(sum))
  {
  }

  /** The data of a packet and its trailer. */
  lemma {:induction false} ReadDataIff(n: nat, typ: Byte, sum: nat, data: seq<Byte>, chk: Byte, end: Byte,
      rest: seq<Byte>, done: seq<Byte>)
    ensures var (e, left) := ReadData(n, typ, |data| + 1, sum, data + ([chk, end] + rest), done);
      && e.Frame? && e.n == n && e.typ == Some(typ) && e.outcome != Cut
      && (e.outcome == Intact <==> AllLegal(data) && chk == SPACE + Code(sum + Sum(data)) && end == END_CHAR)
      && (e.outcome == Intact ==> e.data == done + data && left == rest)
    decreases |data|
  {
    hide Check, Code;
    var tail := [chk, end] + rest;
    var s := data + tail;
    if data == [] {
      CheckIs(sum);
      assert s == tail && tail[2..] == rest && done + data == done;
    } else {
      var more := data[1..];
      assert s[0] == data[0] && s[1..] == more + tail;
      assert AllLegal(data) <==> Legal(data[0]) && AllLegal(more) by {
        assert forall i :: 0 <= i < |more| ==> more[i] == data[i + 1];
        if Legal(data[0]) && AllLegal(more) {
          forall i | 0 <= i < |data| ensures Legal(data[i]) {
            if i > 0 { assert data[i] == more[i - 1]; }
          }
        }
      }
      if Legal(data[0]) {
        ReadDataIff(n, typ, sum + data[0], more, chk, end, rest, done + [data[0]]);
        assert done + [data[0]] + more == done + data;
      }
    }
  }

  /** A short packet as it arrives, behind its start character. */
  lemma ShortIff(len: Byte, num: Byte, typ: Byte, data: seq<Byte>, chk: Byte, end: Byte, rest: seq<Byte>)
    requires Legal(len) && Legal(num) && UnToChar(len) == |data| + 3
    ensures var (e, left) := ReadFrame([len, num, typ] + (data + ([chk, end] + rest)));
      var sum: nat := len as nat + num as nat + typ as nat + Sum(data);
      && e.Frame? && e.n == UnToChar(num) && e.outcome != Cut
      && (e.outcome == Intact <==>
          Legal(typ) && AllLegal(data) && chk == SPACE + Code(sum) && end == END_CHAR)
      && (e.outcome == Intact ==> e == Frame(UnToChar(num), Some(typ), data, Intact) && left == rest)
  {
    hide ReadFrame, ReadData, UnToChar, Code, Sum, AllLegal;
    var body := data + ([chk, end] + rest);
    FrameShort(len, num, typ, body);
    ReadDataIff(UnToChar(num), typ, len as nat + num as nat + typ as nat, data, chk, end, rest, []);
    assert [] + data == data;
  }

  lemma FrameShort(len: Byte, num: Byte, typ: Byte, body: seq<Byte>)
    requires Legal(len) && Legal(num) && UnToChar(len) >= 3
    ensures ReadFrame([len, num, typ] + body) ==
      if !Legal(typ) then (Frame(UnToChar(num), None, [], Damaged), body)
      else ReadData(UnToChar(num), typ, UnToChar(len) - 2, len as nat + num as nat + typ as nat, body, [])
  {
    hide ReadData, UnToChar;
    var s := [len, num, typ] + body;
    assert s[2..] == [typ] + body && ([typ] + body)[1..] == body;
  }

  /** The byte sum under the check of an extended header. */
  function LongSum(h: seq<Byte>): nat
    requires |h| == 6
  {
    h[0] as nat + h[1] as nat + h[2] as nat + h[3] as nat + h[4] as nat
  }

  predicate HeaderOk(h: seq<Byte>)
    requires |h| == 6
  {
    Legal(h[2]) && Legal(h[3]) && Legal(h[4]) && h[5] == SPACE + Code(LongSum(h))
  }

  /** An extended header as it arrives: it is refused unless its check fits. */
  lemma LongHeadIff(h: seq<Byte>, body: seq<Byte>)
    requires |h| == 6 && Legal(h[0]) && Legal(h[1]) && UnToChar(h[0]) == 0
    ensures var e := ReadFrame(h + body);
      && e.0.Frame? && e.0.n == UnToChar(h[1])
      && (!HeaderOk(h) ==> e.0.outcome == Damaged)
      && (HeaderOk(h) ==> e == ReadData(UnToChar(h[1]), h[2], UnToChar(h[3]) * 95 + UnToChar(h[4]),
                                        LongSum(h) + h[5] as nat, body, []))
  {
    hide ReadFrame, ReadData, UnToChar, Code, Check;
    assert h == [h[0], h[1], h[2], h[3], h[4], h[5]];
    FrameLong(h[0], h[1], h[2], h[3], h[4], h[5], body);
    CheckIs(LongSum(h));
    ReadDataFrame(UnToChar(h[1]), h[2], UnToChar(h[3]) * 95 + UnToChar(h[4]), LongSum(h) + h[5] as nat, body, []);
  }

  /** An extended packet as it arrives, behind its start character. */
  lemma LongIff(h: seq<Byte>, data: seq<Byte>, chk: Byte, end: Byte, rest: seq<Byte>)
    requires |h| == 6 && Legal(h[0]) && Legal(h[1]) && UnToChar(h[0]) == 0
    requires HeaderOk(h) && UnToChar(h[3]) * 95 + UnToChar(h[4]) == |data| + 1
    ensures var (e, left) := ReadFrame(h + (data + ([chk, end] + rest)));
      && e.Frame? && e.n == UnToChar(h[1]) && e.outcome != Cut
      && (e.outcome == Intact <==>
          AllLegal(data) && chk == SPACE + Code(LongSum(h) + h[5] as nat + Sum(data)) && end == END_CHAR)
      && (e.outcome == Intact ==> e == Frame(UnToChar(h[1]), Some(h[2]), data, Intact) && left == rest)
  {
    hide ReadFrame, ReadData, UnToChar, Code, Sum, AllLegal, HeaderOk, LongSum;
    LongHeadIff(h, data + ([chk, end] + rest));
    ReadDataIff(UnToChar(h[1]), h[2], LongSum(h) + h[5] as nat, data, chk, end, rest, []);
    assert [] + data == data;
  }

  lemma FrameLong(len: Byte, num: Byte, typ: Byte, hi: Byte, lo: Byte, hchk: Byte, body: seq<Byte>)
    requires Legal(len) && Legal(num) && UnToChar(len) == 0
    ensures var e := ReadFrame([len, num, typ, hi, lo, hchk] + body);
      var h: nat := len as nat + num as nat + typ as nat + hi as nat + lo as nat;
      if Legal(typ) && Legal(hi) && Legal(lo) && Legal(hchk) && hchk == Check(h)
      then e == ReadData(UnToChar(num), typ, UnToChar(hi) * 95 + UnToChar(lo), h + hchk as nat, body, [])
      else e.0.Frame? && e.0.n == UnToChar(num) && e.0.outcome == Damaged
  {
    hide ReadData, UnToChar, Check;
    var s := [len, num, typ, hi, lo, hchk] + body;
    var s2 := s[2..];
    var s3 := s2[1..];
    assert s2[0] == typ && s3[0] == hi && s3[1] == lo && s3[2] == hchk && s3[3..] == body;
  }

  lemma {:induction false} ReadDataFrame(n: nat, typ: Byte, length: int, sum: nat, s: seq<Byte>, data: seq<Byte>)
    ensures var e := ReadData(n, typ, length, sum, s, data).0; e.Frame? && e.n == n
    decreases length
  {
    if length > 1 && s != [] && Legal(s[0]) {
      ReadDataFrame(n, typ, length - 1, sum + s[0], s[1..], data + [s[0]]);
    }
  }

  // --------------------------------------------------------------------
  // One damaged byte
  // --------------------------------------------------------------------

  function Reception(sent: seq<Byte>, i: nat, c: Byte, rest: seq<Byte>): Event
    requires i < |sent|
  {
    ReadEvent(sent[i := c] + rest).0
  }

  function Taken(good: bool): Outcome {
    if good then Intact else Damaged
  }

  lemma SumChanged(s: seq<Byte>, i: nat, c: Byte)
    requires i < |s|
    ensures Sum(s[i := c]) == Sum(s) - s[i] as int + c as int
  {
    hide Sum;
    var a, b := s[..i], s[i + 1..];
    assert s == a + ([s[i]] + b) && s[i := c] == a + ([c] + b);
    SumSplit(a, [s[i]] + b);
    SumSplit([s[i]], b);
    SumSplit(a, [c] + b);
    SumSplit([c], b);
    SumOne(s[i]);
    SumOne(c);
  }

  lemma StartsFrame(s: seq<Byte>)
    ensures ReadEvent([START_CHAR] + s) == ReadFrame(s)
  {
    assert ([START_CHAR] + s)[1..] == s;
  }

  lemma LegalChanged(s: seq<Byte>, i: nat, c: Byte)
    requires i < |s| && AllLegal(s)
    ensures AllLegal(s[i := c]) <==> Legal(c)
  {
    if AllLegal(s[i := c]) {
      assert s[i := c][i] == c;
    }
  }

  /**
   A short packet with one byte changed behind its sequence number is taken as
   intact exactly if the byte is the type or data, is printable, and leaves the
   check the same; in every other case it is refused under the same number.
   */
  lemma ShortDamage(p: Packet, i: nat, c: Byte, rest: seq<Byte>)
    requires Sendable(p) && |p.data| + 3 <= 94
    requires 3 <= i < |Encode(p)| && c != Encode(p)[i]
    ensures var e, sum := Reception(Encode(p), i, c, rest), Sum(Header(p) + p.data);
      && e.Frame? && e.n == p.n
      && e.outcome == Taken(
           i < |Encode(p)| - 2 && Legal(c) && Code(sum - Encode(p)[i] as int + c as int) == Code(sum))
  {
    hide ReadFrame, ReadEvent, Check, Code, Sum, ToChar, UnToChar;
    var len, num := ToChar(|p.data| + 3), ToChar(p.n);
    var body := Header(p) + p.data;
    var chk := Check(Sum(body));
    ToCharBack(|p.data| + 3);
    ToCharBack(p.n);
    CheckIs(Sum(body));
    HeaderSum(p, p.typ, p.data);
    var got := Encode(p)[i := c] + rest;
    if i == 3 {
      assert got == [START_CHAR] + ([len, num, c] + (p.data + ([chk, END_CHAR] + rest)));
      StartsFrame([len, num, c] + (p.data + ([chk, END_CHAR] + rest)));
      ShortIff(len, num, c, p.data, chk, END_CHAR, rest);
    } else if i < |Encode(p)| - 2 {
      var data := p.data[i - 4 := c];
      assert got == [START_CHAR] + ([len, num, p.typ] + (data + ([chk, END_CHAR] + rest)));
      StartsFrame([len, num, p.typ] + (data + ([chk, END_CHAR] + rest)));
      ShortIff(len, num, p.typ, data, chk, END_CHAR, rest);
      SumChanged(p.data, i - 4, c);
      LegalChanged(p.data, i - 4, c);
    } else {
      var x, y := if i == |Encode(p)| - 2 then c else chk, if i == |Encode(p)| - 1 then c else END_CHAR;
      assert got == [START_CHAR] + ([len, num, p.typ] + (p.data + ([x, y] + rest)));
      StartsFrame([len, num, p.typ] + (p.data + ([x, y] + rest)));
      ShortIff(len, num, p.typ, p.data, x, y, rest);
    }
  }

  lemma HeaderSum(p: Packet, typ: Byte, data: seq<Byte>)
    requires |p.data| + 3 <= 94
    ensures Sum(Header(p) + p.data) == ToChar(|p.data| + 3) as int + ToChar(p.n) as int + p.typ as int + Sum(p.data)
  {
    hide Sum, ToChar;
    SumSplit(Header(p), p.data);
    SumOf(Header(p));
  }

  /** The sum that the header check of an extended packet covers. */
  function HeaderCode(p: Packet): nat
    requires |p.data| + 3 > 94
  {
    Sum(Header(p)[..5])
  }

  lemma LongSums(p: Packet)
    requires |p.data| + 3 > 94
    ensures var h := Header(p);
      && |h| == 6 && h[5] == SPACE + Code(HeaderCode(p)) && HeaderCode(p) == LongSum(h)
      && Sum(h + p.data) == HeaderCode(p) + h[5] as int + Sum(p.data)
  {
    hide Sum, ToChar, Check, Code;
    var h := Header(p);
    SumOf(h[..5]);
    CheckIs(Sum(h[..5]));
    assert h == h[..5] + [h[5]];
    SumSplit(h[..5], [h[5]]);
    SumOne(h[5]);
    SumSplit(h, p.data);
  }

  /**
   An extended packet with one byte changed behind its sequence number. A changed
   type passes if it fits both checks, changed data if it fits the last one; a
   changed length digit is refused unless it fits the header check; a changed
   check or end of line is always refused.
   */
  lemma LongDamage(p: Packet, i: nat, c: Byte, rest: seq<Byte>)
    requires Sendable(p) && |p.data| + 3 > 94
    requires 3 <= i < |Encode(p)| && c != Encode(p)[i]
    ensures var e, sum, h := Reception(Encode(p), i, c, rest), Sum(Header(p) + p.data), HeaderCode(p);
      var delta := c as int - Encode(p)[i] as int;
      && e.Frame? && e.n == p.n
      && (i == 3 ==>
            e.outcome == Taken(Legal(c) && Code(h + delta) == Code(h) && Code(sum + delta) == Code(sum)))
      && (4 <= i <= 5 && !(Legal(c) && Code(h + delta) == Code(h)) ==> e.outcome == Damaged)
      && (7 <= i < |Encode(p)| - 2 ==> e.outcome == Taken(Legal(c) && Code(sum + delta) == Code(sum)))
      && (i == 6 || i >= |Encode(p)| - 2 ==> e.outcome == Damaged)
  {
    hide ReadFrame, ReadEvent, Check, Code, Sum, ToChar, UnToChar, Header, Encode;
    var h, body := Header(p), Header(p) + p.data;
    var chk := Check(Sum(body));
    LongSums(p);
    LongHeader(p);
    CheckIs(Sum(body));
    LongBytes(p, i, c, rest);
    if i <= 6 {
      var g := h[i - 1 := c];
      StartsFrame(g + (p.data + ([chk, END_CHAR] + rest)));
      LongHeadIff(g, p.data + ([chk, END_CHAR] + rest));
      if HeaderOk(g) && i == 3 {
        LongIff(g, p.data, chk, END_CHAR, rest);
      }
    } else if i < |Encode(p)| - 2 {
      var data := p.data[i - 7 := c];
      StartsFrame(h + (data + ([chk, END_CHAR] + rest)));
      LongIff(h, data, chk, END_CHAR, rest);
      SumChanged(p.data, i - 7, c);
      LegalChanged(p.data, i - 7, c);
    } else {
      var x, y := if i == |Encode(p)| - 2 then c else chk, if i == |Encode(p)| - 1 then c else END_CHAR;
      StartsFrame(h + (p.data + ([x, y] + rest)));
      LongIff(h, p.data, x, y, rest);
    }
  }

  lemma LongHeader(p: Packet)
    requires Sendable(p) && |p.data| + 3 > 94
    ensures var h := Header(p);
      && |h| == 6 && h[2] == p.typ && Legal(h[0]) && Legal(h[1]) && Legal(h[3]) && Legal(h[4])
      && UnToChar(h[0]) == 0 && UnToChar(h[1]) == p.n
      && UnToChar(h[3]) * 95 + UnToChar(h[4]) == |p.data| + 1
  {
    hide Check, Sum, ToChar, UnToChar;
    var len := |p.data| + 1;
    ToCharBack(0);
    ToCharBack(p.n);
    ToCharBack(len / 95);
    ToCharBack(len % 95);
    assert len / 95 * 95 + len % 95 == len;
  }

  /** The bytes that arrive, cut into header, data and trailer. */
  lemma LongBytes(p: Packet, i: nat, c: Byte, rest: seq<Byte>)
    requires |p.data| + 3 > 94 && 3 <= i < |Encode(p)|
    ensures |Header(p)| == 6 && |Encode(p)| == |p.data| + 9
    ensures var h := if i <= 6 then Header(p)[i - 1 := c] else Header(p);
      var data := if 7 <= i < |Encode(p)| - 2 then p.data[i - 7 := c] else p.data;
      var x := if i == |Encode(p)| - 2 then c else Check(Sum(Header(p) + p.data));
      var y := if i == |Encode(p)| - 1 then c else END_CHAR;
      Encode(p)[i := c] + rest == [START_CHAR] + (h + (data + ([x, y] + rest)))
    ensures Encode(p)[i] == (if i <= 6 then Header(p)[i - 1] else if i < |Encode(p)| - 2 then p.data[i - 7]
                             else if i == |Encode(p)| - 2 then Check(Sum(Header(p) + p.data)) else END_CHAR)
  {
    hide Check, Sum, ToChar;
    var h, chk := Header(p), Check(Sum(Header(p) + p.data));
    assert Encode(p) == [START_CHAR] + h + p.data + [chk, END_CHAR];
  }

  // --------------------------------------------------------------------
  // Before the data
  // --------------------------------------------------------------------

  /** Bytes among which no packet begins and no ^C is found. */
  predicate Idle(s: seq<Byte>) {
    forall i :: 0 <= i < |s| ==> s[i] != START_CHAR && s[i] != ETX_CHAR
  }

  /** Waiting for a packet passes over everything else. */
  lemma {:induction false} WaitSkips(junk: seq<Byte>, rest: seq<Byte>)
    requires Idle(junk)
    ensures ReadEvent(junk) == (Silence, [])
    ensures ReadEvent(junk + ([START_CHAR] + rest)) == ReadFrame(rest)
    ensures ReadEvent(junk + ([ETX_CHAR] + rest)) == (Cancel, rest)
    decreases |junk|
  {
    hide ReadFrame;
    var s, t := [START_CHAR] + rest, [ETX_CHAR] + rest;
    if junk == [] {
      assert junk + s == s && junk + t == t && s[1..] == rest && t[1..] == rest;
    } else {
      WaitSkips(junk[1..], rest);
      assert (junk + s)[1..] == junk[1..] + s && (junk + t)[1..] == junk[1..] + t;
    }
  }

  /** ^C between packets ends the transfer with 0 bytes and changes nothing. */
  lemma CancelEnds(d: Download, junk: seq<Byte>, rest: seq<Byte>)
    requires d.Valid() && Idle(junk)
    ensures Receive(d, junk + ([ETX_CHAR] + rest)) == (d, Some(0))
  {
    hide ReadEvent;
    WaitSkips(junk, rest);
  }

  /** A packet is known by its number as soon as length and number are both legal. */
  lemma HeaderIff(s: seq<Byte>)
    ensures ReadFrame(s).0.NoHeader? <==> |s| < 2 || s[0] < SPACE || s[1] < SPACE
    ensures ReadFrame(s).0.NoHeader? ==>
      (ReadFrame(s).0.cut <==> s == [] || (|s| == 1 && s[0] >= SPACE))
    ensures !ReadFrame(s).0.NoHeader? ==> ReadFrame(s).0.Frame? && ReadFrame(s).0.n == s[1] as int - SPACE as int
    ensures |s| >= 3 && s[0] >= SPACE && s[1] >= SPACE && s[2] < SPACE ==>
      ReadFrame(s) == (Frame(s[1] as int - SPACE as int, None, [], Damaged), s[3..])
  {
    hide ReadType;
    if |s| >= 2 && Legal(s[0]) && Legal(s[1]) {
      TypeIsFrame(UnToChar(s[1]), UnToChar(s[0]) - 1, s[0] as int + s[1] as int, s[2..]);
    }
  }

  lemma TypeIsFrame(n: nat, length: int, sum: nat, s: seq<Byte>)
    ensures ReadType(n, length, sum, s).0.Frame? && ReadType(n, length, sum, s).0.n == n
    ensures s != [] && s[0] < SPACE ==> ReadType(n, length, sum, s) == (Frame(n, None, [], Damaged), s[1..])
  {
    hide ReadData;
    if s != [] && Legal(s[0]) {
      var more := s[1..];
      ReadDataFrame(n, s[0], length - 1, sum + s[0], more, []);
      if |more| >= 3 {
        var sum2 := sum + s[0] + more[0] + more[1];
        ReadDataFrame(n, s[0], UnToChar(more[0]) * 95 + UnToChar(more[1]), sum2 + more[2], more[3..], []);
      }
    }
  }

  // --------------------------------------------------------------------
  // What is taken back, and what an S packet says
  // --------------------------------------------------------------------

  /** After an error the receiver is in the state it was in before the first copy of the packet. */
  lemma StateTakenBack(d: Download, e: Event)
    requires d.Valid()
    ensures e == NoHeader(false) ==> Apply(d, e).state == d.stateSaved
    ensures e.Frame? && e.outcome == Damaged ==>
      Apply(d, e).state == Apply(d, e).stateSaved == (if e.n == d.lastN then d.stateSaved else d.state)
  {
    hide Feed;
  }

  /** The sixth parameter of an S packet is the quote character; `#` when there are fewer. */
  lemma QuoteIsSixth(quote: Byte, n: nat, five: seq<Byte>, q: Byte, more: seq<Byte>)
    requires |five| == 5
    ensures QuoteAfter(quote, Packet(n, SEND_TYPE, five + ([q] + more))) == q
    ensures forall k :: 0 <= k <= 5 ==> QuoteAfter(quote, Packet(n, SEND_TYPE, five[..k])) == 0x23
    ensures forall typ: Byte :: typ != SEND_TYPE ==> QuoteAfter(quote, Packet(n, typ, five)) == quote
  {
    assert (five + ([q] + more))[5] == q;
  }

  /**
   A line that ends inside a packet: what came of its data is loaded, nothing is
   answered, and the receiver goes on waiting.
   */
  lemma CutOff(d: Download, s: seq<Byte>, image: seq<Byte>, escape: bool)
    requires d.Valid() && ReadEvent(s).0.Frame? && ReadEvent(s).0.outcome == Cut
    requires var n := ReadEvent(s).0.n; if d.lastN == n then Checkpointed(d, n, image, escape) else At(d, image, escape)
    ensures var e, (r, result) := ReadEvent(s).0, Receive(d, s);
      && result.None? && r.replies == d.replies && r.quote == d.quote && Checkpointed(r, e.n, image, escape)
      && (e.typ.Some? ==> var u := Payload(d.quote, escape, Packet(e.n, e.typ.value, e.data)); At(r, image + u.0, u.1))
      && (e.typ.None? ==> At(r, image, escape))
  {
    hide ReadEvent, Take, Begin, Unquote;
    var e := ReadEvent(s).0;
    BeginAt(d, e.n, image, escape);
    TakeKeeps(Begin(d, e.n), e.typ, e.data, e.n, image, escape);
    if e.typ.None? {
      TakeNothing(Begin(d, e.n), e.data);
    }
  }

  lemma TakeNothing(d: Download, data: seq<Byte>)
    requires d.Valid()
    ensures Take(d, None, data) == d
  {
  }
}
