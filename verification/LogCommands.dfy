/**
 common/cmd_log.c as it runs: the message is copied to a work buffer, tags are
 written over what lies in front of a line there, and characters go one by one
 to the circular buffer.
 */
module LogCommands {
  import opened Machine
  import opened LogBuffer

  lemma PutOne(lbuf: seq<char>, h: Header, c: char)
    requires |lbuf| == LOGBUFF_LEN
    ensures PutAll(lbuf, h, [c]) == (lbuf[Slot(h) := c], Advance(h))
  {
    assert [c][1..] == "";
    assert PutAll(lbuf[Slot(h) := c], Advance(h), "") == (lbuf[Slot(h) := c], Advance(h));
  }

  class Log {
    const version: nat
    const lbuf: array<char>
    const buf: array<char>
    var header: Header
    var msgLevel: int

    ghost predicate Valid()
      reads this
    {
      lbuf.Length == LOGBUFF_LEN && buf.Length == 1024 && lbuf != buf
    }

    constructor (version: nat)
      ensures Valid() && fresh(lbuf) && fresh(buf)
      ensures header == Reset(version) && msgLevel == -1 && this.version == version
    {
      this.version := version;
      lbuf := new char[LOGBUFF_LEN];
      buf := new char[1024];
      header := LogBuffer.Reset(version);
      msgLevel := -1;
    }

    /** logbuff_reset. */
    method ResetLog()
      requires Valid()
      modifies this`header
      ensures header == Reset(version)
    {
      header := LogBuffer.Reset(version);
    }

    /** One character to the circular buffer, in the layout the header has. */
    method PutChar(c: char)
      requires Valid()
      modifies this`header, lbuf
      ensures (lbuf[..], header) == PutAll(old(lbuf[..]), old(header), [c])
    {
      PutOne(lbuf[..], header, c);
      hide Slot, Advance, PutAll;
      lbuf[Slot(header)] := c;
      header := Advance(header);
    }

    /** The inner loop of logbuff_printk: log from p up to a line feed or the end. */
    method PutLine(p0: nat, end: nat) returns (p: nat, lineFeed: bool)
      requires Valid() && p0 < end <= buf.Length
      modifies this`header, lbuf
      ensures var s := buf[p0..end]; var n := LineLen(s);
              && (lbuf[..], header) == PutAll(old(lbuf[..]), old(header), s[..n])
              && lineFeed == (s[n - 1] == '\n')
              && (lineFeed ==> p == p0 + n - 1) && (!lineFeed ==> p == end && n == |s|)
    {
      hide PutAll, LineLen;
      ghost var s := buf[p0..end];
      ghost var b0, h0 := lbuf[..], header;
      p, lineFeed := p0, false;
      assert PutAll(b0, h0, "") == (b0, h0) by { PutNothing(b0, h0); }
      assert s[..0] == "";
      while p < end
        invariant p0 <= p <= end
        invariant buf[p0..end] == s
        invariant forall i :: 0 <= i < p - p0 ==> s[i] != '\n'
        invariant (lbuf[..], header) == PutAll(b0, h0, s[..p - p0])
      {
        var c := buf[p];
        assert c == s[p - p0];
        PutChar(c);
        PutAllSplit(b0, h0, s[..p - p0], [c]);
        assert s[..p - p0] + [c] == s[..p - p0 + 1];
        if c == '\n' {
          LineLenIs(s, p - p0 + 1);
          return p, true;
        }
        p := p + 1;
      }
      LineLenIs(s, |s|);
      assert s[..|s|] == s;
    }

    /** strcpy(buf + 3, line). */
    method CopyIn(line: string)
      requires Valid() && |line| + 4 <= buf.Length
      modifies buf
      ensures buf[3..3 + |line|] == line && buf[3 + |line|] == '\0'
    {
      var i := 0;
      while i < |line|
        invariant 0 <= i <= |line|
        invariant forall j :: 0 <= j < i ==> buf[3 + j] == line[j]
      {
        buf[3 + i] := line[i];
        i := i + 1;
      }
      buf[3 + |line|] := '\0';
    }

    /** The `if (msg_level < 0)` block: put a tag in front of p unless there is one. */
    method TagLine(p0: nat, end: nat) returns (p: nat)
      requires Valid() && 3 <= p0 < end < buf.Length && buf[end] == '\0'
      modifies this`msgLevel, buf
      ensures var s := old(buf[p0..end]);
              && (msgLevel == if old(msgLevel) >= 0 then old(msgLevel)
                              else if IsTag(s) then s[1] as int - '0' as int else DEFAULT_LEVEL)
              && p <= p0
              && buf[p..end] == (if old(msgLevel) < 0 && !IsTag(s) then "<4>" + s else s)
      ensures buf[p0..end] == old(buf[p0..end]) && buf[end] == '\0'
    {
      p := p0;
      if msgLevel < 0 {
        if buf[p] != '<' || buf[p + 1] < '0' || buf[p + 1] > '7' || buf[p + 2] != '>' {
          p := p - 3;
          buf[p] := '<';
          buf[p + 1] := '0' + DEFAULT_LEVEL as char;
          buf[p + 2] := '>';
          msgLevel := DEFAULT_LEVEL;
        } else {
          msgLevel := buf[p + 1] as int - '0' as int;
        }
      }
    }

    /** One round of the outer loop of logbuff_printk: a line of the message, from p on. */
    method PutTaggedLine(p0: nat, end: nat) returns (p: nat)
      requires Valid() && 3 <= p0 < end < buf.Length && buf[end] == '\0'
      modifies this`header, this`msgLevel, lbuf, buf
      ensures p0 <= p <= end + 1 && buf[end] == '\0'
      ensures var rest := old(buf[p0..end]); var n := LineLen(rest);
              && (lbuf[..], header) == PutAll(old(lbuf[..]), old(header), Chars(FirstOf(old(msgLevel), rest)))
              && msgLevel == LevelAfter(old(msgLevel), rest, n)
              && (if p <= end then buf[p..end] else "") == rest[n..]
    {
      hide PutAll, Chars, IsTag, LineLen, LevelAfter, FirstOf;
      ghost var rest, before := buf[p0..end], msgLevel;
      var q := TagLine(p0, end);
      ghost var s := buf[q..end];
      LoggedLine(before, rest, s);
      var lineFeed;
      q, lineFeed := PutLine(q, end);
      if lineFeed {
        msgLevel := -1;
      }
      LevelIs(before, rest, LineLen(rest), msgLevel, lineFeed);
      p := q + 1;
      SliceFrom(buf, p0, p, end, rest, LineLen(rest));
    }

    /** logbuff_printk. */
    method Printk(line: string)
      requires Valid() && |line| + 4 <= 1024
      modifies this`header, this`msgLevel, lbuf, buf
      ensures var (m, level) := Emit(old(msgLevel), line);
              (lbuf[..], header) == PutAll(old(lbuf[..]), old(header), Chars(m)) && msgLevel == level
    {
      hide PutAll, Emit, Chars, LineLen, LevelAfter, FirstOf;
      ghost var b0, h0, level0 := lbuf[..], header, msgLevel;
      CopyIn(line);
      var end := 3 + |line|;
      var p := 3;
      ghost var done, rest := "", line;
      PutNothing(b0, h0);
      assert done + Chars(Emit(level0, line).0) == Chars(Emit(level0, line).0);
      while p < end
        invariant 3 <= p && end == 3 + |line| && buf[end] == '\0'
        invariant rest == if p <= end then buf[p..end] else ""
        invariant done + Chars(Emit(msgLevel, rest).0) == Chars(Emit(level0, line).0)
        invariant Emit(msgLevel, rest).1 == Emit(level0, line).1
        invariant (lbuf[..], header) == PutAll(b0, h0, done)
        decreases end - p
      {
        ghost var before, n := msgLevel, LineLen(rest);
        p := PutTaggedLine(p, end);
        ghost var x := Chars(FirstOf(before, rest));
        PutAllSplit(b0, h0, done, x);
        EmitNext(before, rest, done);
        done, rest := done + x, rest[n..];
      }
      EmitStep(msgLevel, "");
      CharsNothing();
      assert done + "" == done;
    }

    /** `log show`. */
    method ShowLog() returns (text: string)
      requires Valid()
      ensures text == Show(lbuf[..], header)
    {
      hide Shown;
      var (start, size) := Shown(header);
      text := "";
      var i := 0;
      while i < size
        invariant 0 <= i <= size
        invariant |text| == i && forall j :: 0 <= j < i ==> text[j] == lbuf[(start + j) % ULONG % LOGBUFF_LEN]
      {
        text := text + [lbuf[(start + i) % ULONG % LOGBUFF_LEN]];
        i := i + 1;
      }
    }
  }

  /** What is logged for a message is its first line and then what is logged for the others. */
  lemma EmitNext(level: int, rest: string, done: string)
    requires rest != ""
    ensures 0 < LineLen(rest) <= |rest|
    ensures var next, others := LevelAfter(level, rest, LineLen(rest)), rest[LineLen(rest)..];
            && done + Chars(FirstOf(level, rest)) + Chars(Emit(next, others).0) == done + Chars(Emit(level, rest).0)
            && Emit(next, others).1 == Emit(level, rest).1
  {
    hide Emit, Chars, LevelAfter, FirstOf;
    EmitStep(level, rest);
    var next, others := LevelAfter(level, rest, LineLen(rest)), rest[LineLen(rest)..];
    CharsSplit(FirstOf(level, rest), Emit(next, others).0);
  }

  lemma PutNothing(lbuf: seq<char>, h: Header)
    requires |lbuf| == LOGBUFF_LEN
    ensures PutAll(lbuf, h, "") == (lbuf, h)
  {
  }

  lemma SliceFrom(buf: array<char>, p0: nat, p: nat, end: nat, rest: string, n: nat)
    requires p0 <= end <= buf.Length && buf[p0..end] == rest && n <= |rest|
    requires if p <= end then p == p0 + n else n == |rest|
    ensures (if p <= end then buf[p..end] else "") == rest[n..]
  {
  }

  lemma CharsNothing()
    ensures Chars([]) == ""
  {
  }

  lemma {:induction false} LineLenIs(s: string, n: nat)
    requires 0 < n <= |s| && (forall i :: 0 <= i < n - 1 ==> s[i] != '\n') && (n < |s| ==> s[n - 1] == '\n')
    ensures LineLen(s) == n
  {
    hide LineLen;
  }

  /** The characters that leave the work buffer for a line are those of its emission. */
  lemma LoggedLine(level: int, rest: string, s: string)
    requires rest != "" && s == if level < 0 && !IsTag(rest) then "<4>" + rest else rest
    ensures s[..LineLen(s)] == Chars(FirstOf(level, rest))
    ensures |s| - LineLen(s) == |rest| - LineLen(rest)
    ensures s[LineLen(s) - 1] == rest[LineLen(rest) - 1]
  {
    hide LineLen;
    if level < 0 && !IsTag(rest) { LoggedTagged(level, rest, s); } else { LoggedPlain(level, rest); }
  }

  lemma LoggedTagged(level: int, rest: string, s: string)
    requires rest != "" && level < 0 && !IsTag(rest) && s == "<4>" + rest
    ensures s[..LineLen(s)] == Chars(FirstOf(level, rest))
    ensures LineLen(s) == LineLen(rest) + 3
  {
    hide IsTag, LineLen, Chars, Plain;
    var n := LineLen(rest);
    CharsPlain(rest[..n]);
    CharsTag();
    CharsSplit(DEFAULT_TAG, Plain(rest[..n]));
    TaggedLineLen(rest, s);
    assert s[..n + 3] == "<4>" + rest[..n];
  }

  lemma LoggedPlain(level: int, rest: string)
    requires rest != "" && (level >= 0 || IsTag(rest))
    ensures rest[..LineLen(rest)] == Chars(FirstOf(level, rest))
  {
    hide IsTag, LineLen, Chars, Plain;
    var n := LineLen(rest);
    CharsPlain(rest[..n]);
    assert [] + Plain(rest[..n]) == Plain(rest[..n]);
  }

  lemma TaggedLineLen(rest: string, s: string)
    requires rest != "" && s == "<4>" + rest
    ensures LineLen(s) == LineLen(rest) + 3
  {
    hide LineLen;
    var n := LineLen(rest);
    assert s[0] != '\n' && s[1] != '\n' && s[2] != '\n';
    assert forall i :: 3 <= i < |s| ==> s[i] == rest[i - 3];
    LineLenIs(s, n + 3);
  }

  lemma CharsPlain(s: string)
    ensures Chars(Plain(s)) == s
  {
  }

  lemma CharsTag()
    ensures Chars(DEFAULT_TAG) == "<4>"
  {
  }

  lemma LevelIs(level: int, rest: string, n: nat, now: int, lineFeed: bool)
    requires 0 < n <= |rest| && lineFeed == (rest[n - 1] == '\n')
    requires now == if lineFeed then -1 else if level >= 0 then level
                    else if IsTag(rest) then rest[1] as int - '0' as int else DEFAULT_LEVEL
    ensures now == LevelAfter(level, rest, n)
  {
    hide IsTag;
  }
}
