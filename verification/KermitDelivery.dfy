/**
 Delivery by the kermit receiver. However often the sender repeats a packet,
 however the copies are damaged, and wherever errors come before a sequence
 number, the loaded memory is known: the unquoted data, once each and in order,
 of the packets whose last event was an intact copy.
 */
module KermitDelivery {
  import opened Machine
  import opened Option
  import opened Kermit

  function Image(d: Download): seq<Byte>
    requires d.Valid()
  {
    d.mem[..d.addr]
  }

  function SavedImage(d: Download): seq<Byte>
    requires d.Valid()
  {
    d.mem[..d.addrSaved]
  }

  lemma DataCharStores(d: Download, c: Byte)
    requires d.Valid()
    ensures var u := Unquote(d.quote, d.escape, [c]);
            && Image(DataChar(d, c)) == Image(d) + u.0
            && DataChar(d, c).escape == u.1
            && SavedImage(DataChar(d, c)) == SavedImage(d)
  {
    assert [c][1..] == [];
    assert Unquote(d.quote, false, []) == ([], false) && Unquote(d.quote, true, []) == ([], true);
    var r := DataChar(d, c);
    assert r.mem[..d.addr] == d.mem[..d.addr];
    assert r.addr == d.addr + 1 ==> r.mem[..r.addr] == r.mem[..d.addr] + [r.mem[d.addr]];
  }

  /** Data of a packet is written behind the image, unquoted; what the checkpoint points at stays. */
  lemma {:induction false} FeedStores(d: Download, data: seq<Byte>)
    requires d.Valid()
    ensures var u := Unquote(d.quote, d.escape, data);
            && Image(Feed(d, data)) == Image(d) + u.0
            && Feed(d, data).escape == u.1
            && SavedImage(Feed(d, data)) == SavedImage(d)
    decreases |data|
  {
    hide KTrans, DataChar, Unquote;
    if data == [] {
      UnquoteNothing(d.quote, d.escape);
      assert Image(d) + [] == Image(d);
    } else {
      var c, more := data[0], data[1..];
      DataCharStores(d, c);
      var next := DataChar(d, c);
      FeedStores(next, more);
      UnquoteSplit(d.quote, d.escape, [c], more);
      assert [c] + more == data;
      var a, b := Unquote(d.quote, d.escape, [c]).0, Unquote(next.quote, next.escape, more).0;
      assert (Image(d) + a) + b == Image(d) + (a + b);
    }
  }

  // --------------------------------------------------------------------
  // One packet, many copies
  // --------------------------------------------------------------------

  datatype Packet = Packet(n: nat, typ: Byte, data: seq<Byte>)

  predicate IsIntact(e: Event) {
    e.Frame? && e.outcome == Intact
  }

  /** A copy that arrives intact says what was sent; a damaged one may say anything behind the sequence number. */
  predicate CopyOf(e: Event, p: Packet) {
    && e.Frame? && e.n == p.n && e.outcome != Cut
    && (e.outcome == Intact ==> e.typ == Some(p.typ) && e.data == p.data)
  }

  /** What a packet adds to the image, and the escape state it leaves. */
  function Payload(quote: Byte, escape: bool, p: Packet): (seq<Byte>, bool) {
    if p.typ == DATA_TYPE then Unquote(quote, escape, p.data) else ([], escape)
  }

  function QuoteAfter(quote: Byte, p: Packet): Byte {
    if p.typ == SEND_TYPE then QuoteOf(p.data) else quote
  }

  /** The receiver stands at the checkpoint (image, escape) for sequence number n. */
  predicate Checkpointed(d: Download, n: nat, image: seq<Byte>, escape: bool) {
    d.Valid() && d.lastN == n && SavedImage(d) == image && d.escapeSaved == escape
  }

  predicate At(d: Download, image: seq<Byte>, escape: bool) {
    d.Valid() && Image(d) == image && d.escape == escape
  }

  lemma BeginAt(d: Download, n: nat, image: seq<Byte>, escape: bool)
    requires if d.lastN == n then Checkpointed(d, n, image, escape) else At(d, image, escape)
    requires d.Valid()
    ensures At(Begin(d, n), image, escape) && Checkpointed(Begin(d, n), n, image, escape)
    ensures Begin(d, n).quote == d.quote && Begin(d, n).n == n && Begin(d, n).replies == d.replies
  {
  }

  lemma TakeKeeps(d: Download, typ: Option<Byte>, data: seq<Byte>, n: nat, image: seq<Byte>, escape: bool)
    requires At(d, image, escape) && Checkpointed(d, n, image, escape)
    ensures var r := Take(d, typ, data);
            && Checkpointed(r, n, image, escape) && r.quote == d.quote && r.n == d.n && r.replies == d.replies
            && (typ.Some? ==> r.state == typ.value)
            && (typ.Some? ==> var u := Payload(d.quote, escape, Packet(n, typ.value, data)); At(r, image + u.0, u.1))
  {
    hide Feed, Unquote;
    if typ.Some? && typ.value == DATA_TYPE {
      FeedStores(d.(state := typ.value), data);
    } else {
      assert image + [] == image;
    }
  }

  /**
   One copy: an intact one leaves the packet applied once, a damaged one leaves the
   checkpoint; it is answered accordingly.
   */
  lemma CopyApplies(d: Download, p: Packet, e: Event, image: seq<Byte>, escape: bool)
    requires d.Valid() && CopyOf(e, p)
    requires if d.lastN == p.n then Checkpointed(d, p.n, image, escape) else At(d, image, escape)
    ensures var r, u := Apply(d, e), Payload(d.quote, escape, p);
            && Checkpointed(r, p.n, image, escape)
            && (e.outcome == Intact ==> At(r, image + u.0, u.1) && r.quote == QuoteAfter(d.quote, p))
            && (e.outcome == Damaged ==> At(r, image, escape) && r.quote == d.quote)
            && r.replies == d.replies + [if e.outcome == Damaged then Nack(p.n)
                                         else if p.typ == SEND_TYPE then Parms(p.n) else Ack(p.n)]
  {
    hide Take, Begin, Unquote, QuoteOf;
    BeginAt(d, p.n, image, escape);
    TakeKeeps(Begin(d, p.n), e.typ, e.data, p.n, image, escape);
  }

  /** An error before the sequence number: the receiver falls back to its checkpoint. */
  predicate IsEarly(e: Event) {
    e == NoHeader(false)
  }

  lemma EarlyRestores(d: Download, n: nat, image: seq<Byte>, escape: bool)
    requires Checkpointed(d, n, image, escape)
    ensures var r := Apply(d, NoHeader(false));
      && Checkpointed(r, n, image, escape) && At(r, image, escape) && r.quote == d.quote
      && r.replies == d.replies + [Nack(d.n)]
  {
  }

  /**
   An early error right behind a copy of a packet changes nothing, if and only if
   the copy was damaged or the packet has nothing to add.
   */
  lemma EarlyErrorIff(d: Download, p: Packet, e: Event, image: seq<Byte>, escape: bool)
    requires d.Valid() && CopyOf(e, p)
    requires if d.lastN == p.n then Checkpointed(d, p.n, image, escape) else At(d, image, escape)
    ensures var r := Apply(d, e);
      var after := Apply(r, NoHeader(false));
      && At(after, image, escape)
      && (Image(after) == Image(r) && after.escape == r.escape <==>
          e.outcome == Damaged || Payload(d.quote, escape, p) == ([], escape))
  {
    hide Apply, Payload;
    CopyApplies(d, p, e, image, escape);
    CopyOutcome(e, p);
    EarlyRestores(Apply(d, e), p.n, image, escape);
    var u := Payload(d.quote, escape, p);
    assert image + u.0 == image <==> u.0 == [] by { assert |image + u.0| == |image| + |u.0|; }
  }

  /** Events in the order they arrive. */
  function ApplyAll(d: Download, events: seq<Event>): (r: Download)
    requires d.Valid()
    ensures r.Valid()
    decreases |events|
  {
    if events == [] then d else ApplyAll(Apply(d, events[0]), events[1..])
  }

  /** Copies of one packet, with early errors among them. */
  predicate RoundEvents(p: Packet, events: seq<Event>) {
    forall i :: 0 <= i < |events| ==> CopyOf(events[i], p) || IsEarly(events[i])
  }

  predicate HasIntact(events: seq<Event>) {
    exists i :: 0 <= i < |events| && IsIntact(events[i])
  }

  predicate EndsIntact(events: seq<Event>) {
    events != [] && IsIntact(events[|events| - 1])
  }

  /** What is left of a packet after its events: all of it if the last one is an intact copy, nothing otherwise. */
  function KeptPayload(quote: Byte, escape: bool, p: Packet, events: seq<Event>): (seq<Byte>, bool) {
    if EndsIntact(events) then Payload(quote, escape, p) else ([], escape)
  }

  lemma {:induction false} RoundLeaves(d: Download, quote: Byte, p: Packet, events: seq<Event>,
      image: seq<Byte>, escape: bool)
    requires d.Valid() && events != [] && RoundEvents(p, events)
    requires if d.lastN == p.n then Checkpointed(d, p.n, image, escape)
             else At(d, image, escape) && CopyOf(events[0], p)
    requires d.quote == quote || (p.typ == SEND_TYPE && d.quote == QuoteAfter(quote, p))
    ensures var r, u := ApplyAll(d, events), KeptPayload(quote, escape, p, events);
      && Checkpointed(r, p.n, image, escape) && At(r, image + u.0, u.1)
      && (r.quote == quote || (p.typ == SEND_TYPE && r.quote == QuoteAfter(quote, p)))
      && (HasIntact(events) || d.quote == QuoteAfter(quote, p) ==> r.quote == QuoteAfter(quote, p))
    decreases |events|
  {
    hide At, Apply, Unquote, QuoteOf, Checkpointed;
    var e, rest := events[0], events[1..];
    EventLeaves(d, quote, p, e, image, escape);
    var next := Apply(d, e);
    assert next.lastN == p.n && next.Valid() by { CheckpointedHas(next, p.n, image, escape); }
    assert HasIntact(events) <==> IsIntact(e) || HasIntact(rest) by { IntactSplit(events); }
    if rest == [] {
      assert ApplyAll(d, events) == next;
    } else {
      assert rest[|rest| - 1] == events[|events| - 1];
      assert RoundEvents(p, rest);
      RoundLeaves(next, quote, p, rest, image, escape);
      assert KeptPayload(quote, escape, p, rest) == KeptPayload(quote, escape, p, events);
    }
  }

  lemma IntactSplit(events: seq<Event>)
    requires events != []
    ensures HasIntact(events) <==> IsIntact(events[0]) || HasIntact(events[1..])
  {
    if HasIntact(events) && !IsIntact(events[0]) {
      var i :| 0 <= i < |events| && IsIntact(events[i]);
      assert events[1..][i - 1] == events[i];
    } else if HasIntact(events[1..]) {
      var i :| 0 <= i < |events[1..]| && IsIntact(events[1..][i]);
      assert events[i + 1] == events[1..][i];
    }
  }

  lemma EventLeaves(d: Download, quote: Byte, p: Packet, e: Event, image: seq<Byte>, escape: bool)
    requires d.Valid() && (CopyOf(e, p) || IsEarly(e))
    requires if d.lastN == p.n then Checkpointed(d, p.n, image, escape) else At(d, image, escape) && CopyOf(e, p)
    requires d.quote == quote || (p.typ == SEND_TYPE && d.quote == QuoteAfter(quote, p))
    ensures var r, u := Apply(d, e), KeptPayload(quote, escape, p, [e]);
      && Checkpointed(r, p.n, image, escape) && At(r, image + u.0, u.1)
      && (r.quote == quote || (p.typ == SEND_TYPE && r.quote == QuoteAfter(quote, p)))
      && (IsIntact(e) || d.quote == QuoteAfter(quote, p) ==> r.quote == QuoteAfter(quote, p))
  {
    hide At, Apply, Unquote, QuoteOf, Checkpointed;
    assert image + [] == image;
    if CopyOf(e, p) {
      CopyApplies(d, p, e, image, escape);
      assert Payload(quote, escape, p) == Payload(d.quote, escape, p);
    } else {
      EarlyRestores(d, p.n, image, escape);
    }
  }

  /** The packet is in memory once when the next one comes: its last event is intact, or it had nothing to add. */
  predicate Settled(quote: Byte, escape: bool, p: Packet, events: seq<Event>) {
    EndsIntact(events) || Payload(quote, escape, p) == ([], escape)
  }

  /** The events of a round leave its packet applied once, if and only if it is settled. */
  lemma RoundIff(d: Download, p: Packet, events: seq<Event>, image: seq<Byte>, escape: bool)
    requires d.Valid() && events != [] && RoundEvents(p, events)
    requires if d.lastN == p.n then Checkpointed(d, p.n, image, escape)
             else At(d, image, escape) && CopyOf(events[0], p)
    ensures var r, u := ApplyAll(d, events), Payload(d.quote, escape, p);
      Image(r) == image + u.0 && r.escape == u.1 <==> Settled(d.quote, escape, p, events)
  {
    hide Checkpointed, ApplyAll, Payload, RoundEvents, EndsIntact;
    RoundLeaves(d, d.quote, p, events, image, escape);
    var u := Payload(d.quote, escape, p);
    assert image + [] == image;
    assert image + u.0 == image <==> u.0 == [] by { assert |image + u.0| == |image| + |u.0|; }
  }

  lemma CopyOutcome(e: Event, p: Packet)
    requires CopyOf(e, p)
    ensures e.Frame? && (e.outcome == Intact || e.outcome == Damaged)
  {
  }

  lemma CheckpointedHas(d: Download, n: nat, image: seq<Byte>, escape: bool)
    requires Checkpointed(d, n, image, escape)
    ensures d.Valid() && d.lastN == n
  {
  }

  // --------------------------------------------------------------------
  // A whole transfer
  // --------------------------------------------------------------------

  /** A packet and what arrives from its first copy on until a copy of the next packet. */
  datatype Round = Round(p: Packet, events: seq<Event>)

  /** The sender goes on after an intact copy; the receiver itself stops at the first intact B. */
  predicate GoodRound(r: Round) {
    && r.events != [] && RoundEvents(r.p, r.events)
    && CopyOf(r.events[0], r.p)
    && (if r.p.typ == BREAK_TYPE
        then EndsIntact(r.events) && !HasIntact(r.events[..|r.events| - 1])
        else HasIntact(r.events))
  }

  /** Neighbouring packets have different numbers and only the last one is a B. */
  predicate GoodRounds(rounds: seq<Round>) {
    && rounds != []
    && (forall i :: 0 <= i < |rounds| ==> GoodRound(rounds[i]))
    && (forall i :: 0 <= i < |rounds| - 1 ==> rounds[i].p.n != rounds[i + 1].p.n)
    && (forall i :: 0 <= i < |rounds| ==> (rounds[i].p.typ == BREAK_TYPE <==> i == |rounds| - 1))
  }

  function Events(rounds: seq<Round>): seq<Event> {
    if rounds == [] then [] else rounds[0].events + Events(rounds[1..])
  }

  /** k_recv over a sequence of events, until it returns. */
  function RunEvents(d: Download, events: seq<Event>): (r: (Download, Option<nat>))
    requires d.Valid()
    ensures r.0.Valid()
    decreases |events|
  {
    if events == [] then (d, None)
    else if Result(d, events[0]).Some? then (Apply(d, events[0]), Result(d, events[0]))
    else RunEvents(Apply(d, events[0]), events[1..])
  }

  /** The reference: every packet taken once, in order. */
  function Deliver(quote: Byte, escape: bool, rounds: seq<Round>): seq<Byte>
    decreases |rounds|
  {
    if rounds == [] then []
    else
      var p := rounds[0].p;
      var (out, e) := Payload(quote, escape, p);
      out + Deliver(QuoteAfter(quote, p), e, rounds[1..])
  }

  /** What really arrives: every packet as its last event left it. */
  function Kept(quote: Byte, escape: bool, rounds: seq<Round>): seq<Byte>
    decreases |rounds|
  {
    if rounds == [] then []
    else
      var p := rounds[0].p;
      var (out, e) := KeptPayload(quote, escape, p, rounds[0].events);
      out + Kept(QuoteAfter(quote, p), e, rounds[1..])
  }

  /** The events of a packet that is not a B are all handled. */
  lemma {:induction false} RunRound(d: Download, p: Packet, events: seq<Event>, more: seq<Event>)
    requires d.Valid() && p.typ != BREAK_TYPE && RoundEvents(p, events)
    ensures RunEvents(d, events + more) == RunEvents(ApplyAll(d, events), more)
    decreases |events|
  {
    hide Apply;
    if events == [] {
      assert events + more == more;
    } else {
      var e, rest := events[0], events[1..];
      assert (events + more)[0] == e && (events + more)[1..] == rest + more;
      assert Result(d, e).None?;
      assert RoundEvents(p, rest);
      RunRound(Apply(d, e), p, rest, more);
    }
  }

  /** The events of the final B: all but the intact copy are refused, and that one ends the transfer. */
  lemma {:induction false} RunBreak(d: Download, p: Packet, events: seq<Event>, image: seq<Byte>, escape: bool)
    requires d.Valid() && p.typ == BREAK_TYPE && RoundEvents(p, events)
    requires EndsIntact(events) && !HasIntact(events[..|events| - 1])
    requires if d.lastN == p.n then Checkpointed(d, p.n, image, escape)
             else At(d, image, escape) && CopyOf(events[0], p)
    ensures var (r, result) := RunEvents(d, events);
      At(r, image, escape) && result == Some(|image|)
    decreases |events|
  {
    hide Apply, Checkpointed, Unquote, At, HasIntact;
    var e, rest := events[0], events[1..];
    EventLeaves(d, d.quote, p, e, image, escape);
    var next := Apply(d, e);
    assert next.lastN == p.n && next.Valid() by { CheckpointedHas(next, p.n, image, escape); }
    assert image + [] == image;
    BreakAddsNothing(d.quote, escape, p);
    if rest == [] {
      AtImage(next, image, escape);
      assert Result(d, e) == Some(next.addr);
    } else {
      var early := events[..|events| - 1];
      assert early[0] == e && early[1..] == rest[..|rest| - 1];
      IntactSplit(early);
      assert rest[|rest| - 1] == events[|events| - 1];
      assert Result(d, e).None?;
      assert RoundEvents(p, rest);
      RunBreak(next, p, rest, image, escape);
    }
  }

  lemma {:induction false} RunRounds(d: Download, rounds: seq<Round>, image: seq<Byte>)
    requires At(d, image, d.escape) && GoodRounds(rounds) && d.lastN != rounds[0].p.n
    ensures var (r, result) := RunEvents(d, Events(rounds));
      && Image(r) == image + Kept(d.quote, d.escape, rounds)
      && result == Some(|image + Kept(d.quote, d.escape, rounds)|)
    decreases |rounds|
  {
    hide Apply, ApplyAll, Payload, QuoteAfter, RunEvents, CopyOf, GoodRounds, HasIntact, EndsIntact, RoundEvents, At;
    FirstRound(rounds);
    AtImage(d, image, d.escape);
    var p, events, more := rounds[0].p, rounds[0].events, rounds[1..];
    var u := KeptPayload(d.quote, d.escape, p, events);
    assert Events(rounds) == events + Events(more);
    if |rounds| == 1 {
      assert more == [] && events + [] == events;
      RunBreak(d, p, events, image, d.escape);
      AtImage(RunEvents(d, events).0, image, d.escape);
      BreakAddsNothing(d.quote, d.escape, p);
      assert Kept(d.quote, d.escape, rounds) == [] && image + [] == image;
    } else {
      RoundLeaves(d, d.quote, p, events, image, d.escape);
      RunRound(d, p, events, Events(more));
      var r := ApplyAll(d, events);
      CheckpointedHas(r, p.n, image, d.escape);
      AtImage(r, image + u.0, u.1);
      MoreRounds(rounds);
      RunRounds(r, more, image + u.0);
      var later := Kept(r.quote, r.escape, more);
      assert (image + u.0) + later == image + (u.0 + later);
    }
  }

  lemma AtImage(d: Download, image: seq<Byte>, escape: bool)
    requires At(d, image, escape)
    ensures d.Valid() && Image(d) == image && d.escape == escape
  {
  }

  lemma FirstRound(rounds: seq<Round>)
    requires GoodRounds(rounds)
    ensures rounds != [] && GoodRound(rounds[0])
    ensures rounds[0].p.typ == BREAK_TYPE <==> |rounds| == 1
    ensures |rounds| > 1 ==> rounds[0].p.n != rounds[1].p.n
  {
    hide GoodRound;
  }

  lemma MoreRounds(rounds: seq<Round>)
    requires GoodRounds(rounds) && |rounds| > 1
    ensures GoodRounds(rounds[1..])
  {
    hide GoodRound;
    var more := rounds[1..];
    assert forall i :: 0 <= i < |more| ==> more[i] == rounds[i + 1];
  }

  lemma BreakAddsNothing(quote: Byte, escape: bool, p: Packet)
    requires p.typ == BREAK_TYPE
    ensures Payload(quote, escape, p) == ([], escape)
  {
  }

  /** Every packet is settled when the next one comes. */
  predicate AllSettled(quote: Byte, escape: bool, rounds: seq<Round>)
    decreases |rounds|
  {
    rounds == [] ||
    var p := rounds[0].p;
    Settled(quote, escape, p, rounds[0].events) &&
    AllSettled(QuoteAfter(quote, p), Payload(quote, escape, p).1, rounds[1..])
  }

  /** No packet ends inside a quoted pair. */
  predicate WholePairs(quote: Byte, rounds: seq<Round>)
    decreases |rounds|
  {
    rounds == [] ||
    (!Payload(quote, false, rounds[0].p).1 && WholePairs(QuoteAfter(quote, rounds[0].p), rounds[1..]))
  }

  lemma {:induction false} SettledDelivers(quote: Byte, escape: bool, rounds: seq<Round>)
    requires AllSettled(quote, escape, rounds)
    ensures Kept(quote, escape, rounds) == Deliver(quote, escape, rounds)
    decreases |rounds|
  {
    hide Payload, EndsIntact, QuoteAfter;
    if rounds != [] {
      var p := rounds[0].p;
      SettledDelivers(QuoteAfter(quote, p), Payload(quote, escape, p).1, rounds[1..]);
    }
  }

  /** A packet that is not settled is missing: what is kept is shorter. */
  lemma {:induction false} UnsettledLoses(quote: Byte, rounds: seq<Round>)
    requires WholePairs(quote, rounds)
    ensures |Kept(quote, false, rounds)| <= |Deliver(quote, false, rounds)|
    ensures |Kept(quote, false, rounds)| == |Deliver(quote, false, rounds)| ==> AllSettled(quote, false, rounds)
    decreases |rounds|
  {
    hide Payload, EndsIntact, QuoteAfter;
    if rounds != [] {
      UnsettledLoses(QuoteAfter(quote, rounds[0].p), rounds[1..]);
    }
  }

  predicate AllEarly(events: seq<Event>) {
    forall i :: 0 <= i < |events| ==> IsEarly(events[i])
  }

  /** Errors before the first packet do nothing. */
  lemma {:induction false} LeadingErrors(d: Download, lead: seq<Event>, more: seq<Event>)
    requires d.Valid() && AllEarly(lead)
    requires d.addr == d.addrSaved && d.escape == d.escapeSaved && d.state == d.stateSaved
    ensures ApplyAll(d, lead) == d.(replies := ApplyAll(d, lead).replies)
    ensures RunEvents(d, lead + more) == RunEvents(ApplyAll(d, lead), more)
    decreases |lead|
  {
    if lead == [] {
      assert lead + more == more;
    } else {
      assert (lead + more)[0] == lead[0] && (lead + more)[1..] == lead[1..] + more;
      LeadingErrors(Apply(d, lead[0]), lead[1..], more);
    }
  }

  lemma FreshAfter(lead: seq<Event>)
    requires ApplyAll(FRESH, lead) == FRESH.(replies := ApplyAll(FRESH, lead).replies)
    ensures var d := ApplyAll(FRESH, lead); At(d, [], false) && d.quote == K_ESCAPE && d.lastN == -1
  {
    hide ApplyAll;
    assert ApplyAll(FRESH, lead).mem[..0] == [];
  }

  /**
   Every run: whatever copies arrive and wherever errors fall before a sequence
   number, memory holds the data of exactly the packets whose last event was
   intact, in order, and k_recv returns its length.
   */
  lemma EveryRun(lead: seq<Event>, rounds: seq<Round>)
    requires AllEarly(lead) && GoodRounds(rounds)
    ensures var (r, result) := RunEvents(FRESH, lead + Events(rounds));
      && Image(r) == Kept(K_ESCAPE, false, rounds)
      && result == Some(|Image(r)|)
  {
    hide RunEvents, GoodRounds, Kept, AllEarly, ApplyAll, At, Events;
    LeadingErrors(FRESH, lead, Events(rounds));
    FreshAfter(lead);
    var d := ApplyAll(FRESH, lead);
    AtImage(d, [], false);
    FirstRound(rounds);
    var out := Kept(K_ESCAPE, false, rounds);
    assert [] + out == out;
    RunRounds(d, rounds, []);
  }

  /**
   Exactly-once delivery: when every packet is settled, the loaded image is the
   reference delivery and k_recv returns its length.
   */
  lemma ExactlyOnce(lead: seq<Event>, rounds: seq<Round>)
    requires AllEarly(lead) && GoodRounds(rounds) && AllSettled(K_ESCAPE, false, rounds)
    ensures var (r, result) := RunEvents(FRESH, lead + Events(rounds));
      && Image(r) == Deliver(K_ESCAPE, false, rounds)
      && result == Some(|Image(r)|)
  {
    hide RunEvents, GoodRounds, Kept, Deliver, AllSettled, AllEarly;
    EveryRun(lead, rounds);
    SettledDelivers(K_ESCAPE, false, rounds);
  }

  /** And only then, for packets that do not end inside a quoted pair. */
  lemma ExactlyOnceIff(lead: seq<Event>, rounds: seq<Round>)
    requires AllEarly(lead) && GoodRounds(rounds) && WholePairs(K_ESCAPE, rounds)
    ensures Image(RunEvents(FRESH, lead + Events(rounds)).0) == Deliver(K_ESCAPE, false, rounds)
      <==> AllSettled(K_ESCAPE, false, rounds)
  {
    hide RunEvents, GoodRounds, Kept, Deliver, AllSettled, AllEarly, WholePairs;
    EveryRun(lead, rounds);
    UnsettledLoses(K_ESCAPE, rounds);
    if AllSettled(K_ESCAPE, false, rounds) {
      SettledDelivers(K_ESCAPE, false, rounds);
    }
  }

  /**
   The restriction to whole pairs is needed: a lone quote character that is taken
   back before a blank goes unnoticed, because a quoted blank is a blank.
   */
  lemma LostQuoteUnnoticed()
    ensures var p, r := Packet(0, DATA_TYPE, [K_ESCAPE]), Packet(1, DATA_TYPE, [SPACE]);
      var rounds := [Round(p, [Frame(0, Some(DATA_TYPE), [K_ESCAPE], Intact), NoHeader(false)]),
                     Round(r, [Frame(1, Some(DATA_TYPE), [SPACE], Intact)])];
      && !AllSettled(K_ESCAPE, false, rounds)
      && Kept(K_ESCAPE, false, rounds) == Deliver(K_ESCAPE, false, rounds) == [SPACE]
  {
    var p, r := Packet(0, DATA_TYPE, [K_ESCAPE]), Packet(1, DATA_TYPE, [SPACE]);
    var second := Round(r, [Frame(1, Some(DATA_TYPE), [SPACE], Intact)]);
    assert [K_ESCAPE][1..] == [] && [SPACE][1..] == [];
    UnquoteNothing(K_ESCAPE, true);
    UnquoteNothing(K_ESCAPE, false);
    assert Payload(K_ESCAPE, false, p) == ([], true);
    assert KTrans(SPACE) == SPACE && [SPACE] + [] == [SPACE];
    assert Payload(K_ESCAPE, true, r) == ([SPACE], false) && Payload(K_ESCAPE, false, r) == ([SPACE], false);
    assert [second][1..] == [];
    assert Kept(K_ESCAPE, false, [second]) == [SPACE] + [] == Deliver(K_ESCAPE, true, [second]);
    assert [] + [SPACE] == [SPACE] + [] == [SPACE];
  }

  /** Without early errors behind its last intact copy every packet is settled. */
  lemma {:induction false} IntactSettled(quote: Byte, escape: bool, rounds: seq<Round>)
    requires forall i :: 0 <= i < |rounds| ==> EndsIntact(rounds[i].events)
    ensures AllSettled(quote, escape, rounds)
    decreases |rounds|
  {
    hide EndsIntact, Payload, QuoteAfter;
    if rounds != [] {
      var p := rounds[0].p;
      IntactSettled(QuoteAfter(quote, p), Payload(quote, escape, p).1, rounds[1..]);
    }
  }

  /** All data characters that were sent, in order. */
  function SentData(rounds: seq<Round>): seq<Byte> {
    if rounds == [] then []
    else (if rounds[0].p.typ == DATA_TYPE then rounds[0].p.data else []) + SentData(rounds[1..])
  }

  /**
   Without further S packets the delivery is the unquoting of all data in one go: pairs may
   be split across packets.
   */
  lemma {:induction false} DeliverIsUnquote(quote: Byte, escape: bool, rounds: seq<Round>)
    requires forall i :: 0 <= i < |rounds| ==> rounds[i].p.typ != SEND_TYPE
    ensures Deliver(quote, escape, rounds) == Unquote(quote, escape, SentData(rounds)).0
    decreases |rounds|
  {
    hide Unquote;
    if rounds == [] {
      assert Unquote(quote, escape, []).0 == [] by { UnquoteNothing(quote, escape); }
    } else {
      var p, more := rounds[0].p, rounds[1..];
      var (out, e) := Payload(quote, escape, p);
      DeliverIsUnquote(quote, e, more);
      if p.typ == DATA_TYPE {
        UnquoteSplit(quote, escape, p.data, SentData(more));
      } else {
        assert [] + SentData(more) == SentData(more);
        assert [] + Deliver(quote, e, more) == Deliver(quote, e, more);
      }
    }
  }

  lemma UnquoteNothing(quote: Byte, escape: bool)
    ensures Unquote(quote, escape, []) == ([], escape)
  {
  }

  /**
   The file arrives: a transfer that begins with an S packet naming an allowed
   quote character and carries the quoted file, cut into packets anywhere, loads
   exactly that file.
   */
  lemma FileArrives(rounds: seq<Round>, q: Byte, file: seq<Byte>)
    requires GoodRounds(rounds) && |rounds| > 1 && AllSettled(K_ESCAPE, false, rounds)
    requires rounds[0].p.typ == SEND_TYPE && QuoteOf(rounds[0].p.data) == q
    requires forall i :: 1 <= i < |rounds| ==> rounds[i].p.typ != SEND_TYPE
    requires 33 <= q <= 62 || 96 <= q <= 126
    requires SentData(rounds) == Quote(q, file)
    ensures var (r, result) := RunEvents(FRESH, Events(rounds));
            Image(r) == file && result == Some(|file|)
  {
    hide RunEvents, GoodRounds, Events, Deliver, SentData, Quote, AllSettled, Image;
    assert [] + Events(rounds) == Events(rounds);
    ExactlyOnce([], rounds);
    DeliverFile(rounds, q, file);
  }

  lemma AllowedQuote(q: Byte)
    requires 33 <= q <= 62 || 96 <= q <= 126
    ensures KTrans(q) == q && !IsControl(q)
  {
  }

  /** The reference delivery of a quoted file is the file. */
  lemma DeliverFile(rounds: seq<Round>, q: Byte, file: seq<Byte>)
    requires |rounds| > 1
    requires rounds[0].p.typ == SEND_TYPE && QuoteOf(rounds[0].p.data) == q
    requires forall i :: 1 <= i < |rounds| ==> rounds[i].p.typ != SEND_TYPE
    requires 33 <= q <= 62 || 96 <= q <= 126
    requires SentData(rounds) == Quote(q, file)
    ensures Deliver(K_ESCAPE, false, rounds) == file
  {
    hide Unquote, Quote, KTrans, IsControl, QuoteOf;
    var more := rounds[1..];
    AllowedQuote(q);
    DeliverIsUnquote(q, false, more);
    assert SentData(rounds) == [] + SentData(more) == SentData(more);
    assert Deliver(K_ESCAPE, false, rounds) == [] + Deliver(q, false, more) == Deliver(q, false, more);
    UnquoteInverts(q, file);
  }
}
