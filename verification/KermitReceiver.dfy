/**
 k_recv of common/cmd_load.c as it runs: data characters go to memory while
 the packet is still coming in, a checkpoint is kept in fields, and an error
 goes back to it. `input` is the serial line and `pos` the next character.
 */
module KermitReceiver {
  import opened Machine
  import opened Option
  import opened Kermit

  const SEND_DATA_SIZE := 20

  lemma {:induction false} FeedSnoc(d: Download, data: seq<Byte>, c: Byte)
    requires d.Valid()
    ensures Feed(d, data + [c]) == DataChar(Feed(d, data), c)
    decreases |data|
  {
    hide DataChar;
    if data == [] {
      assert data + [c] == [c] && [c][1..] == [];
      assert Feed(DataChar(d, c), []) == DataChar(d, c);
    } else {
      assert (data + [c])[0] == data[0] && (data + [c])[1..] == data[1..] + [c];
      FeedSnoc(DataChar(d, data[0]), data[1..], c);
    }
  }

  class Receiver {
    const input: seq<Byte>
    var pos: nat

    var mem: seq<Byte>
    var addr: nat
    var escape: bool
    var addrSaved: nat
    var escapeSaved: bool
    var state: Byte
    var stateSaved: Byte
    var n: nat
    var lastN: int
    var quote: Byte
    var replies: seq<Reply>
    var sendParms: seq<Byte>
    var sendPtr: nat

    ghost function Value(): Download
      reads this
    {
      Download(mem, addr, escape, addrSaved, escapeSaved, state, stateSaved, n, lastN, quote, replies)
    }

    ghost predicate Valid()
      reads this
    {
      Value().Valid() && pos <= |input| && |sendParms| == SEND_DATA_SIZE
    }

    constructor (input: seq<Byte>)
      ensures Valid() && Value() == FRESH && pos == 0 && this.input == input
    {
      this.input := input;
      pos, mem, addr, escape, addrSaved, escapeSaved := 0, [], 0, false, 0, false;
      state, stateSaved, n, lastN, quote, replies := 0, 0, 0, -1, K_ESCAPE, [];
      sendParms, sendPtr := seq(SEND_DATA_SIZE, _ => 0), 0;
    }

    /** bin_data_char. */
    method StoreByte(c: Byte)
      requires addr <= |mem|
      modifies this`mem, this`addr
      ensures Value() == Kermit.StoreByte(old(Value()), c)
    {
      if addr < |mem| {
        mem := mem[addr := c];
      } else {
        mem := mem + [c];
      }
      addr := addr + 1;
    }

    /** k_data_char. */
    method DataChar(c: Byte)
      requires Valid()
      modifies this`mem, this`addr, this`escape
      ensures Valid() && Value() == Kermit.DataChar(old(Value()), c)
    {
      if escape {
        StoreByte(KTrans(c));
        escape := false;
      } else if c == quote {
        escape := true;
      } else {
        StoreByte(c);
      }
    }

    /** k_data_save and k_data_restore, on the sequence number. */
    method Begin(number: nat)
      requires Valid()
      modifies this`n, this`lastN, this`state, this`stateSaved, this`addr, this`addrSaved, this`escape, this`escapeSaved
      ensures Valid() && Value() == Kermit.Begin(old(Value()), number)
    {
      n := number;
      if number == lastN {
        state, addr, escape := stateSaved, addrSaved, escapeSaved;
      } else {
        lastN := number;
        stateSaved, addrSaved, escapeSaved := state, addr, escape;
      }
    }

    /** packet_error. */
    method Fail()
      requires Valid()
      modifies this`state, this`addr, this`escape, this`replies
      ensures Valid() && Value() == Kermit.Fail(old(Value()))
    {
      state, addr, escape := stateSaved, addrSaved, escapeSaved;
      replies := replies + [Nack(n)];
    }

    /** The parameters saved so far: the first 19 as they came, the last slot holds the latest of the others. */
    ghost predicate Saved(data: seq<Byte>)
      reads this
    {
      && |sendParms| == SEND_DATA_SIZE
      && sendPtr == (if |data| < SEND_DATA_SIZE then |data| else SEND_DATA_SIZE - 1)
      && forall i :: 0 <= i < sendPtr && i < SEND_DATA_SIZE - 1 ==> sendParms[i] == data[i]
    }

    /** *send_ptr++ = c, backing off at the end of the buffer. */
    method SaveParm(c: Byte, ghost data: seq<Byte>)
      requires Saved(data)
      modifies this`sendParms, this`sendPtr
      ensures Saved(data + [c])
    {
      sendParms := sendParms[sendPtr := c];
      sendPtr := sendPtr + 1;
      if sendPtr >= SEND_DATA_SIZE {
        sendPtr := sendPtr - 1;
      }
    }

    /** handle_send_packet, as far as the quote character goes, or send_ack. */
    method Accept(ghost data: seq<Byte>)
      requires Valid() && (state == SEND_TYPE ==> Saved(data))
      modifies this`quote, this`replies, this`sendPtr
      ensures Valid() && Value() == Kermit.Accept(old(Value()), data)
    {
      if state == SEND_TYPE {
        quote := K_ESCAPE;
        if sendPtr == SEND_DATA_SIZE - 1 {
          sendPtr := sendPtr - 1;
        }
        if sendPtr > 5 {
          quote := sendParms[5];
        }
        replies := replies + [Parms(n)];
      } else {
        replies := replies + [Ack(n)];
      }
    }

    /** The data characters and the trailer of a packet whose length, type and sum are known. */
    method ReceiveData(length0: int, sum0: nat) returns (ghost data: seq<Byte>, outcome: Outcome)
      requires Valid() && sendPtr == 0
      modifies this`pos, this`mem, this`addr, this`escape, this`sendParms, this`sendPtr
      ensures Valid()
      ensures ReadData(n, state, length0, sum0, input[old(pos)..], []) ==
        (Frame(n, Some(state), data, outcome), input[pos..])
      ensures Value() == if state == DATA_TYPE then Feed(old(Value()), data) else old(Value())
      ensures state == SEND_TYPE ==> Saved(data)
    {
      hide Kermit.DataChar, Feed, Check;
      var length, sum := length0, sum0;
      data := [];
      ghost var start := old(Value());
      assert Feed(start, []) == start by { FeedNothing(start); }
      while length > 1
        invariant Valid() && sum >= 0
        invariant n == old(n) && state == old(state)
        invariant ReadData(n, state, length, sum, input[pos..], data) ==
          ReadData(n, state, length0, sum0, input[old(pos)..], [])
        invariant Value() == if state == DATA_TYPE then Feed(start, data) else start
        invariant if state == SEND_TYPE then Saved(data) else sendPtr == 0
      {
        if pos == |input| {
          outcome := Cut;
          return;
        }
        var c := input[pos];
        assert input[pos..][0] == c && input[pos..][1..] == input[pos + 1..];
        pos := pos + 1;
        if c < SPACE {
          outcome := Damaged;
          return;
        }
        sum := sum + c;
        length := length - 1;
        FeedSnoc(start, data, c);
        if state == DATA_TYPE {
          DataChar(c);
        } else if state == SEND_TYPE {
          SaveParm(c, data);
        }
        data := data + [c];
      }
      outcome := Trailer(sum, data);
    }

    /** Check character and end of line. */
    method Trailer(sum: nat, ghost data: seq<Byte>) returns (outcome: Outcome)
      requires pos <= |input|
      modifies this`pos
      ensures old(pos) <= pos <= |input|
      ensures ReadTrailer(n, state, sum, input[old(pos)..], data) ==
        (Frame(n, Some(state), data, outcome), input[pos..])
    {
      ghost var s := input[pos..];
      if pos == |input| {
        return Cut;
      }
      var c := input[pos];
      pos := pos + 1;
      assert s[1..] == input[pos..];
      if c < SPACE || c != Check(sum) {
        return Damaged;
      }
      if pos == |input| {
        return Cut;
      }
      c := input[pos];
      pos := pos + 1;
      assert s[2..] == input[pos..];
      return if c != END_CHAR then Damaged else Intact;
    }

    /** The extended header and what follows it. */
    method ReceiveExtended(sum0: nat) returns (ghost data: seq<Byte>, outcome: Outcome)
      requires Valid() && sendPtr == 0
      modifies this`pos, this`mem, this`addr, this`escape, this`sendParms, this`sendPtr
      ensures Valid()
      ensures ReadExtended(n, state, sum0, input[old(pos)..]) == (Frame(n, Some(state), data, outcome), input[pos..])
      ensures Value() == if state == DATA_TYPE then Feed(old(Value()), data) else old(Value())
      ensures state == SEND_TYPE && outcome == Intact ==> Saved(data)
    {
      hide ReadData, Feed, Check;
      FeedNothing(Value());
      data := [];
      ghost var s := input[pos..];
      var sum := sum0;
      if pos == |input| { return [], Cut; }
      var hi := input[pos];
      pos := pos + 1;
      assert s[1..] == input[pos..];
      if hi < SPACE { return [], Damaged; }
      sum := sum + hi;
      if pos == |input| { return [], Cut; }
      var lo := input[pos];
      pos := pos + 1;
      assert s[2..] == input[pos..];
      if lo < SPACE { return [], Damaged; }
      sum := sum + lo;
      if pos == |input| { return [], Cut; }
      var c := input[pos];
      pos := pos + 1;
      assert s[3..] == input[pos..];
      if c < SPACE || c != Check(sum) { return [], Damaged; }
      sum := sum + c;
      data, outcome := ReceiveData(UnToChar(hi) * 95 + UnToChar(lo), sum);
    }
  
    /** Type and everything behind it; the sequence number is in n. */
    method ReceiveType(length: int, sum: nat) returns (ghost typ: Option<Byte>, ghost data: seq<Byte>, outcome: Outcome)
      requires Valid() && sendPtr == 0
      modifies this`pos, this`state, this`mem, this`addr, this`escape, this`sendParms, this`sendPtr
      ensures Valid()
      ensures ReadType(n, length, sum, input[old(pos)..]) == (Frame(n, typ, data, outcome), input[pos..])
      ensures Value() == Take(old(Value()), typ, data)
      ensures outcome == Intact ==> typ == Some(state) && (state == SEND_TYPE ==> Saved(data))
    {
      hide ReadData, ReadExtended, Feed;
      typ, data := None, [];
      ghost var s := input[pos..];
      if pos == |input| { return None, [], Cut; }
      var c := input[pos];
      pos := pos + 1;
      assert s[1..] == input[pos..];
      if c < SPACE { return None, [], Damaged; }
      state := c;
      typ := Some(c);
      if length - 1 == -2 {
        data, outcome := ReceiveExtended(sum + c);
      } else {
        data, outcome := ReceiveData(length - 1, sum + c);
      }
    }

    /** One packet after its start character, with the reply to it. */
    method ReceiveFrame() returns (ghost e: Event, done: bool, more: bool)
      requires Valid() && sendPtr == 0
      modifies this
      ensures Valid() && old(pos) <= pos
      ensures ReadFrame(input[old(pos)..]) == (e, input[pos..])
      ensures Value() == Apply(old(Value()), e)
      ensures more <==> !Ends(e)
      ensures Result(old(Value()), e) == if done then Some(addr) else None
    {
      hide ReadType, Take, Kermit.Begin, Kermit.Accept, Kermit.Fail;
      ghost var s := input[pos..];
      done, more := false, true;
      if pos == |input| { return NoHeader(true), false, false; }
      var len := input[pos];
      pos := pos + 1;
      assert s[1..] == input[pos..];
      if len < SPACE {
        Fail();
        return NoHeader(false), false, true;
      }
      if pos == |input| { return NoHeader(true), false, false; }
      var number := input[pos];
      pos := pos + 1;
      assert s[2..] == input[pos..];
      if number < SPACE {
        Fail();
        return NoHeader(false), false, true;
      }
      ghost var at := pos;
      e, done, more := ReceiveBody(len, number);
      assert ReadFrame(s) == ReadType(UnToChar(number), UnToChar(len) - 1, len as int + number as int, input[at..]);
    }

    /** The packet behind its length and sequence number. */
    method ReceiveBody(len: Byte, number: Byte) returns (ghost e: Event, done: bool, more: bool)
      requires Valid() && sendPtr == 0
      modifies this
      ensures Valid() && old(pos) <= pos && e.Frame?
      ensures ReadType(UnToChar(number), UnToChar(len) - 1, len as int + number as int, input[old(pos)..]) ==
        (e, input[pos..])
      ensures Value() == Apply(old(Value()), e)
      ensures more <==> !Ends(e)
      ensures Result(old(Value()), e) == if done then Some(addr) else None
    {
      hide ReadType, Take, Kermit.Begin, Kermit.Accept, Kermit.Fail;
      var sum: nat := len;
      done, more := false, true;
      Begin(UnToChar(number));
      ghost var typ, data;
      var outcome;
      BeginNumber(old(Value()), UnToChar(number));
      typ, data, outcome := ReceiveType(UnToChar(len) - 1, sum + number);
      e := Frame(n, typ, data, outcome);
      match outcome
      case Cut =>
        more := false;
      case Damaged =>
        Fail();
      case Intact =>
        done := state == BREAK_TYPE;
        Accept(data);
    }

    /** Wait for a start character or ^C, then take the packet. */
    method ReceivePacket() returns (r: Option<nat>, more: bool)
      requires Valid()
      modifies this
      ensures Valid() && old(pos) <= pos
      ensures var (e, rest) := ReadEvent(input[old(pos)..]);
              && rest == input[pos..] && Value() == Apply(old(Value()), e)
              && r == Result(old(Value()), e) && (more <==> !Ends(e))
    {
      hide ReadFrame, Apply;
      sendPtr := 0;
      while pos < |input| && input[pos] != START_CHAR
        invariant Valid() && sendPtr == 0 && old(pos) <= pos
        invariant Value() == old(Value())
        invariant ReadEvent(input[pos..]) == ReadEvent(input[old(pos)..])
        decreases |input| - pos
      {
        var c := input[pos];
        assert input[pos..][0] == c && input[pos..][1..] == input[pos + 1..];
        pos := pos + 1;
        if c == ETX_CHAR {
          CancelIsNothing(Value());
          return Some(0), true;
        }
      }
      if pos == |input| {
        assert input[pos..] == [];
        SilenceIsNothing(Value());
        return None, false;
      }
      assert input[pos..][0] == START_CHAR && input[pos..][1..] == input[pos + 1..];
      pos := pos + 1;
      ghost var e;
      var done;
      e, done, more := ReceiveFrame();
      r := if done then Some(addr) else None;
    }

    /** k_recv; None when the line falls silent first. */
    method KRecv() returns (r: Option<nat>)
      requires Valid() && pos == 0 && Value() == FRESH
      modifies this
      ensures Valid() && (Value(), r) == Receive(FRESH, input)
    {
      hide ReadEvent, Apply, Result;
      var more := true;
      assert input[0..] == input;
      while more
        invariant Valid()
        invariant more ==> Receive(Value(), input[pos..]) == Receive(FRESH, input)
        invariant !more ==> (Value(), None) == Receive(FRESH, input)
        decreases |input| - pos, more
      {
        ghost var s := input[pos..];
        r, more := ReceivePacket();
        if r.Some? {
          return;
        }
        assert s != [] ==> |ReadEvent(s).1| < |s|;
        assert s == [] ==> ReadEvent(s) == (Silence, []);
      }
      r := None;
    }
  }

  lemma BeginNumber(d: Download, n: nat)
    requires d.Valid()
    ensures Kermit.Begin(d, n).n == n
  {
  }

  lemma CancelIsNothing(d: Download)
    requires d.Valid()
    ensures Apply(d, Cancel) == d
  {
  }

  lemma FeedNothing(d: Download)
    requires d.Valid()
    ensures Feed(d, []) == d
  {
  }
}
