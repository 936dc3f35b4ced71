/**
 From bytes on the line to packets: a packet in the sender's encoding is read
 back as it was sent, reading a packet never looks beyond it, and therefore the
 delivery theorems hold of the bytes k_recv actually reads.
 */
module KermitLine {
  import opened Machine
  import opened Option
  import opened Kermit
  import opened KermitDelivery
  import opened Sequences

  // --------------------------------------------------------------------
  // The sender's encoding
  // --------------------------------------------------------------------

  predicate AllLegal(s: seq<Byte>) {
    forall i :: 0 <= i < |s| ==> Legal(s[i])
  }

  /** Packets that fit the protocol: short ones up to 94 characters, extended ones up to 95 * 94 + 94. */
  predicate Sendable(p: Packet) {
    p.n < 64 && Legal(p.typ) && AllLegal(p.data) && |p.data| + 1 < 95 * 95
  }

  /** Length, number, type and, for long data, the extended header. */
  function Header(p: Packet): seq<Byte> {
    if |p.data| + 3 <= 94 then [ToChar(|p.data| + 3), ToChar(p.n), p.typ]
    else
      var h := [ToChar(0), ToChar(p.n), p.typ, ToChar((|p.data| + 1) / 95), ToChar((|p.data| + 1) % 95)];
      h + [Check(Sum(h))]
  }

  function Encode(p: Packet): seq<Byte> {
    var body := Header(p) + p.data;
    [START_CHAR] + (body + [Check(Sum(body)), END_CHAR])
  }

  lemma {:induction false} SumSplit(a: seq<Byte>, b: seq<Byte>)
    ensures Sum(a + b) == Sum(a) + Sum(b)
  {
    if a == [] {
      assert a + b == b;
    } else {
      assert (a + b)[1..] == a[1..] + b;
      SumSplit(a[1..], b);
    }
  }

  lemma {:induction false} ReadDataEncoded(n: nat, typ: Byte, sum: nat, data: seq<Byte>,
      done: seq<Byte>, rest: seq<Byte>)
    requires AllLegal(data)
    ensures ReadData(n, typ, |data| + 1, sum, data + ([Check(sum + Sum(data)), END_CHAR] + rest), done)
         == (Frame(n, Some(typ), done + data, Intact), rest)
    decreases |data|
  {
    hide Check;
    var tail := [Check(sum + Sum(data)), END_CHAR] + rest;
    var s := data + tail;
    if data == [] {
      assert s == tail && tail[2..] == rest && done + data == done;
      assert Legal(Check(sum)) by { CheckLegal(sum); }
    } else {
      var more := data[1..];
      assert s[0] == data[0] && s[1..] == more + tail;
      ReadDataEncoded(n, typ, sum + data[0], more, done + [data[0]], rest);
      assert done + [data[0]] + more == done + data;
    }
  }

  lemma CheckLegal(sum: nat)
    ensures Legal(Check(sum))
  {
  }

  lemma ToCharBack(x: int)
    requires 0 <= x < 224
    ensures UnToChar(ToChar(x)) == x && Legal(ToChar(x))
  {
  }

  lemma SumOf(s: seq<Byte>)
    ensures |s| == 3 ==> Sum(s) == s[0] as int + s[1] as int + s[2] as int
    ensures |s| == 5 ==> Sum(s) == s[0] as int + s[1] as int + s[2] as int + s[3] as int + s[4] as int
  {
    if |s| == 3 {
      assert s == [s[0]] + ([s[1]] + [s[2]]);
      SumSplit([s[0]], [s[1]] + [s[2]]);
      SumSplit([s[1]], [s[2]]);
      SumOne(s[0]); SumOne(s[1]); SumOne(s[2]);
    }
    if |s| == 5 {
      assert s == [s[0]] + ([s[1]] + ([s[2]] + ([s[3]] + [s[4]])));
      SumSplit([s[0]], [s[1]] + ([s[2]] + ([s[3]] + [s[4]])));
      SumSplit([s[1]], [s[2]] + ([s[3]] + [s[4]]));
      SumSplit([s[2]], [s[3]] + [s[4]]);
      SumSplit([s[3]], [s[4]]);
      SumOne(s[0]); SumOne(s[1]); SumOne(s[2]); SumOne(s[3]); SumOne(s[4]);
    }
  }

  lemma SumOne(c: Byte)
    ensures Sum([c]) == c
  {
    assert [c][1..] == [];
  }

  lemma ReadShort(p: Packet, rest: seq<Byte>)
    requires Sendable(p) && |p.data| + 3 <= 94
    ensures ReadFrame(Header(p) + (p.data + ([Check(Sum(Header(p)) + Sum(p.data)), END_CHAR] + rest)))
         == (Frame(p.n, Some(p.typ), p.data, Intact), rest)
  {
    hide Check, ReadData, ToChar, UnToChar, Sum;
    var h := Header(p);
    var body := p.data + ([Check(Sum(h) + Sum(p.data)), END_CHAR] + rest);
    var s := h + body;
    ToCharBack(|p.data| + 3);
    ToCharBack(p.n);
    SumOf(h);
    assert s[0] == h[0] && s[1] == h[1] && s[2..] == [p.typ] + body;
    assert ([p.typ] + body)[1..] == body;
    ReadDataEncoded(p.n, p.typ, Sum(h), p.data, [], rest);
    assert [] + p.data == p.data;
  }

  lemma ReadLong(p: Packet, rest: seq<Byte>)
    requires Sendable(p) && |p.data| + 3 > 94
    ensures ReadFrame(Header(p) + (p.data + ([Check(Sum(Header(p)) + Sum(p.data)), END_CHAR] + rest)))
         == (Frame(p.n, Some(p.typ), p.data, Intact), rest)
  {
    hide Check, ReadData, ToChar, UnToChar, Sum;
    var h, len := Header(p), |p.data| + 1;
    var body := p.data + ([Check(Sum(h) + Sum(p.data)), END_CHAR] + rest);
    var s := h + body;
    var h5 := h[..5];
    ToCharBack(0);
    ToCharBack(p.n);
    ToCharBack(len / 95);
    ToCharBack(len % 95);
    assert h == h5 + [Check(Sum(h5))];
    SumOf(h5);
    SumSplit(h5, [Check(Sum(h5))]);
    SumOne(Check(Sum(h5)));
    CheckLegal(Sum(h5));
    assert s[0] == h5[0] && s[1] == h5[1];
    var s2 := s[2..];
    assert s2[0] == p.typ;
    var s3 := s2[1..];
    assert s3[0] == h5[3] && s3[1] == h5[4] && s3[2] == Check(Sum(h5)) && s3[3..] == body;
    ReadDataEncoded(p.n, p.typ, Sum(h), p.data, [], rest);
    assert [] + p.data == p.data;
    assert len / 95 * 95 + len % 95 == len;
  }

  /** A packet as the sender encodes it is read back whole, and nothing behind it is touched. */
  lemma ReadEncoded(p: Packet, rest: seq<Byte>)
    requires Sendable(p)
    ensures ReadEvent(Encode(p) + rest) == (Frame(p.n, Some(p.typ), p.data, Intact), rest)
  {
    hide Check, Header, ReadFrame, Sum;
    var h := Header(p);
    SumSplit(h, p.data);
    var s := Encode(p) + rest;
    var tail := [Check(Sum(h) + Sum(p.data)), END_CHAR];
    assert s[0] == START_CHAR;
    assert s[1..] == h + (p.data + (tail + rest));
    if |p.data| + 3 <= 94 { ReadShort(p, rest); } else { ReadLong(p, rest); }
  }

  // --------------------------------------------------------------------
  // Reading looks at one packet at a time
  // --------------------------------------------------------------------

  lemma ReadTrailerLocal(n: nat, typ: Byte, sum: nat, s: seq<Byte>, data: seq<Byte>, rest: seq<Byte>)
    requires !Ends(ReadTrailer(n, typ, sum, s, data).0)
    ensures ReadTrailer(n, typ, sum, s + rest, data) ==
            (ReadTrailer(n, typ, sum, s, data).0, ReadTrailer(n, typ, sum, s, data).1 + rest)
  {
    hide Check;
    assert (s + rest)[1..] == s[1..] + rest;
    assert |s| > 1 ==> (s + rest)[2..] == s[2..] + rest;
  }

  lemma {:induction false} ReadDataLocal(n: nat, typ: Byte, length: int, sum: nat, s: seq<Byte>,
      data: seq<Byte>, rest: seq<Byte>)
    requires !Ends(ReadData(n, typ, length, sum, s, data).0)
    ensures ReadData(n, typ, length, sum, s + rest, data) ==
            (ReadData(n, typ, length, sum, s, data).0, ReadData(n, typ, length, sum, s, data).1 + rest)
    decreases length
  {
    hide ReadTrailer;
    if length <= 1 {
      ReadTrailerLocal(n, typ, sum, s, data, rest);
    } else {
      assert (s + rest)[1..] == s[1..] + rest;
      if Legal(s[0]) {
        ReadDataLocal(n, typ, length - 1, sum + s[0], s[1..], data + [s[0]], rest);
      }
    }
  }

  lemma ReadExtendedLocal(n: nat, typ: Byte, sum: nat, s: seq<Byte>, rest: seq<Byte>)
    requires !Ends(ReadExtended(n, typ, sum, s).0)
    ensures ReadExtended(n, typ, sum, s + rest) ==
      (ReadExtended(n, typ, sum, s).0, ReadExtended(n, typ, sum, s).1 + rest)
  {
    hide ReadData, Check, UnToChar;
    assert (s + rest)[1..] == s[1..] + rest;
    if |s| > 1 {
      assert (s + rest)[2..] == s[2..] + rest;
    }
    if |s| > 2 {
      assert (s + rest)[3..] == s[3..] + rest;
      var sum2 := sum + s[0] + s[1];
      var length := UnToChar(s[0]) * 95 + UnToChar(s[1]);
      if Legal(s[0]) && Legal(s[1]) && Legal(s[2]) && s[2] == Check(sum2) {
        ReadDataLocal(n, typ, length, sum2 + s[2], s[3..], [], rest);
      }
    }
  }

  lemma ReadFrameLocal(s: seq<Byte>, rest: seq<Byte>)
    requires !Ends(ReadFrame(s).0)
    ensures ReadFrame(s + rest) == (ReadFrame(s).0, ReadFrame(s).1 + rest)
  {
    hide ReadData, ReadExtended, UnToChar;
    assert (s + rest)[1..] == s[1..] + rest;
    if |s| > 1 && Legal(s[0]) && Legal(s[1]) {
      var t := s[2..];
      assert (s + rest)[2..] == t + rest;
      assert t != [];
      assert (t + rest)[1..] == t[1..] + rest;
      var n, length := UnToChar(s[1]), UnToChar(s[0]) - 1;
      var sum: nat := s[0];
      if Legal(t[0]) {
        if length - 1 == -2 {
          ReadExtendedLocal(n, t[0], sum + s[1] + t[0], t[1..], rest);
        } else {
          ReadDataLocal(n, t[0], length - 1, sum + s[1] + t[0], t[1..], [], rest);
        }
      }
    } else if |s| > 1 {
      assert (s + rest)[2..] == s[2..] + rest;
    }
  }

  lemma {:induction false} ReadEventLocal(s: seq<Byte>, rest: seq<Byte>)
    requires !Ends(ReadEvent(s).0)
    ensures ReadEvent(s + rest) == (ReadEvent(s).0, ReadEvent(s).1 + rest)
  {
    hide ReadFrame;
    assert (s + rest)[1..] == s[1..] + rest;
    if s[0] == START_CHAR {
      ReadFrameLocal(s[1..], rest);
    } else if s[0] != ETX_CHAR {
      ReadEventLocal(s[1..], rest);
    }
  }

  // --------------------------------------------------------------------
  // The transfer on the line
  // --------------------------------------------------------------------

  /** No packet begins here and nobody presses ^C. */
  predicate Quiet(s: seq<Byte>) {
    forall i :: 0 <= i < |s| ==> s[i] != START_CHAR && s[i] != ETX_CHAR
  }

  lemma {:induction false} QuietSkips(s: seq<Byte>, rest: seq<Byte>)
    requires Quiet(s)
    ensures ReadEvent(s + rest) == ReadEvent(rest)
  {
    if s == [] {
      assert s + rest == rest;
    } else {
      assert (s + rest)[1..] == s[1..] + rest;
      QuietSkips(s[1..], rest);
    }
  }

  /** The receiver reads these bytes as this event; what it leaves over is noise without a new start. */
  predicate Carries(bytes: seq<Byte>, e: Event) {
    ReadEvent(bytes).0 == e && !Ends(e) && Quiet(ReadEvent(bytes).1)
  }

  lemma EncodedCarries(p: Packet)
    requires Sendable(p)
    ensures Carries(Encode(p), Frame(p.n, Some(p.typ), p.data, Intact))
  {
    hide Encode;
    ReadEncoded(p, []);
    assert Encode(p) + [] == Encode(p);
  }

  lemma ReceiveOne(d: Download, bytes: seq<Byte>, e: Event, rest: seq<Byte>)
    requires d.Valid() && Carries(bytes, e)
    ensures Receive(d, bytes + rest) ==
            if Result(d, e).Some? then (Apply(d, e), Result(d, e)) else Receive(Apply(d, e), rest)
  {
    hide ReadEvent, Apply, Result;
    ReadEventLocal(bytes, rest);
    var left := ReadEvent(bytes).1;
    QuietSkips(left, rest);
    assert ReadEvent(bytes + rest) == (e, left + rest);
    var next := Apply(d, e);
    assert Receive(next, left + rest) == Receive(next, rest);
  }

  lemma {:induction false} ReceiveChunks(d: Download, chunks: seq<seq<Byte>>, events: seq<Event>)
    requires d.Valid() && |chunks| == |events|
    requires forall i :: 0 <= i < |chunks| ==> Carries(chunks[i], events[i])
    ensures Receive(d, Concat(chunks)) == RunEvents(d, events)
    decreases |chunks|
  {
    hide Apply, Result, Carries;
    if chunks == [] {
      assert ReadEvent([]) == (Silence, []);
      assert Apply(d, Silence) == d && Result(d, Silence).None? by { SilenceIsNothing(d); }
    } else {
      ReceiveOne(d, chunks[0], events[0], Concat(chunks[1..]));
      ReceiveChunks(Apply(d, events[0]), chunks[1..], events[1..]);
    }
  }

  /**
   k_recv on the line: whatever bytes carry the events of a transfer, encoded
   packets and garbage, the memory loaded is the file and its length is returned
   when every packet is settled.
   */
  lemma LineDelivers(chunks: seq<seq<Byte>>, rounds: seq<Round>, q: Byte, file: seq<Byte>)
    requires GoodRounds(rounds) && |rounds| > 1 && AllSettled(K_ESCAPE, false, rounds)
    requires |chunks| == |Events(rounds)| && forall i :: 0 <= i < |chunks| ==> Carries(chunks[i], Events(rounds)[i])
    requires rounds[0].p.typ == SEND_TYPE && QuoteOf(rounds[0].p.data) == q
    requires forall i :: 1 <= i < |rounds| ==> rounds[i].p.typ != SEND_TYPE
    requires 33 <= q <= 62 || 96 <= q <= 126
    requires SentData(rounds) == Quote(q, file)
    ensures var (r, result) := Receive(FRESH, Concat(chunks));
            Image(r) == file && result == Some(|file|)
  {
    hide Receive, RunEvents, GoodRounds, Quote, SentData, Events, Carries;
    ReceiveChunks(FRESH, chunks, Events(rounds));
    FileArrives(rounds, q, file);
  }

  /** Every packet sent once and received as it was sent. */
  function CleanRounds(packets: seq<Packet>): (r: seq<Round>)
    ensures |r| == |packets|
    ensures forall i :: 0 <= i < |r| ==>
      r[i] == Round(packets[i], [Frame(packets[i].n, Some(packets[i].typ), packets[i].data, Intact)])
  {
    seq(|packets|, i requires 0 <= i < |packets| =>
      Round(packets[i], [Frame(packets[i].n, Some(packets[i].typ), packets[i].data, Intact)]))
  }

  function EncodeAll(packets: seq<Packet>): (r: seq<seq<Byte>>)
    ensures |r| == |packets| && forall i :: 0 <= i < |r| ==> r[i] == Encode(packets[i])
  {
    seq(|packets|, i requires 0 <= i < |packets| => Encode(packets[i]))
  }

  lemma {:induction false} CleanEvents(rounds: seq<Round>)
    requires forall i :: 0 <= i < |rounds| ==> |rounds[i].events| == 1
    ensures |Events(rounds)| == |rounds| && forall i :: 0 <= i < |rounds| ==> Events(rounds)[i] == rounds[i].events[0]
  {
    if rounds != [] {
      CleanEvents(rounds[1..]);
    }
  }

  /** Neighbouring numbers differ, S comes first and only there, B last and only there. */
  predicate Session(packets: seq<Packet>) {
    && |packets| > 1 && packets[0].typ == SEND_TYPE
    && (forall i :: 0 <= i < |packets| ==> Sendable(packets[i]))
    && (forall i :: 1 <= i < |packets| ==> packets[i].typ != SEND_TYPE)
    && (forall i :: 0 <= i < |packets| - 1 ==> packets[i].n != packets[i + 1].n)
    && (forall i :: 0 <= i < |packets| ==> (packets[i].typ == BREAK_TYPE <==> i == |packets| - 1))
  }

  lemma CleanRoundsGood(packets: seq<Packet>)
    requires Session(packets)
    ensures GoodRounds(CleanRounds(packets)) && AllSettled(K_ESCAPE, false, CleanRounds(packets))
  {
    hide Sendable, AllSettled;
    var rounds := CleanRounds(packets);
    forall i | 0 <= i < |rounds| ensures GoodRound(rounds[i]) && EndsIntact(rounds[i].events) {
      assert IsIntact(rounds[i].events[0]);
    }
    IntactSettled(K_ESCAPE, false, rounds);
  }

  /** The line without errors: the encoded packets of a transfer, one after the other, load the file. */
  lemma CleanLineDelivers(packets: seq<Packet>, q: Byte, file: seq<Byte>)
    requires Session(packets) && QuoteOf(packets[0].data) == q && (33 <= q <= 62 || 96 <= q <= 126)
    requires SentData(CleanRounds(packets)) == Quote(q, file)
    ensures var (r, result) := Receive(FRESH, Concat(EncodeAll(packets)));
      Image(r) == file && result == Some(|file|)
  {
    hide Receive, Carries, GoodRounds, AllSettled, Encode, Quote, SentData, Concat, Sendable;
    var rounds, chunks := CleanRounds(packets), EncodeAll(packets);
    CleanRoundsGood(packets);
    CleanEvents(rounds);
    forall i | 0 <= i < |chunks| ensures Carries(chunks[i], Events(rounds)[i]) {
      EncodedCarries(packets[i]);
    }
    LineDelivers(chunks, rounds, q, file);
  }

  // --------------------------------------------------------------------
  // Replies
  // --------------------------------------------------------------------

  /** chk1 over a NUL-terminated buffer. */
  function Chk1(s: seq<Byte>): nat {
    var total := Sum(s);
    (total + (total / 64) % 4) % 64
  }

  /** send_ack and send_nack: the reply packet, ended by the sender's end-of-line character. */
  function ReplyBytes(typ: Byte, n: nat, eol: Byte): seq<Byte> {
    var body := [ToChar(3), ToChar(n), typ];
    [START_CHAR] + (body + [ToChar(Chk1(body)), eol])
  }

  /** A reply ended by carriage return is a well-formed packet: the receiver's own reader accepts it. */
  lemma ReplyWellFormed(typ: Byte, n: nat, rest: seq<Byte>)
    requires n < 64 && (typ == ACK_TYPE || typ == NACK_TYPE)
    ensures ReadEvent(ReplyBytes(typ, n, END_CHAR) + rest) == (Frame(n, Some(typ), [], Intact), rest)
  {
    var p := Packet(n, typ, []);
    var body := [ToChar(3), ToChar(n), typ];
    assert Header(p) + p.data == body;
    assert ToChar(Chk1(body)) == Check(Sum(body));
    assert Encode(p) == ReplyBytes(typ, n, END_CHAR);
    ReadEncoded(p, rest);
  }
}
