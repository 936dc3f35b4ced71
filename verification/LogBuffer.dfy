/**
 The log buffer of common/cmd_log.c: line tags, the two header layouts over
 one circular buffer, and `log show`.
 */
module LogBuffer {
  import opened Machine
  import opened Sequences

  const LOGBUFF_LEN := 16384
  /** default_message_loglevel. */
  const DEFAULT_LEVEL := 4

  // --------------------------------------------------------------------
  // What a message emits
  // --------------------------------------------------------------------

  predicate IsTag(s: string) {
    |s| >= 3 && s[0] == '<' && '0' <= s[1] <= '7' && s[2] == '>'
  }

  /** A character that goes to the log, and whether logbuff_printk put it there itself. */
  datatype Mark = Mark(c: char, inserted: bool)

  /** Up to and including the first line feed. */
  function LineLen(s: string): (n: nat)
    ensures n <= |s| && (s != "" ==> n > 0)
    ensures forall i :: 0 <= i < n - 1 ==> s[i] != '\n'
    ensures n < |s| ==> n > 0 && s[n - 1] == '\n'
  {
    if s == "" then 0 else if s[0] == '\n' then 1 else 1 + LineLen(s[1..])
  }

  const DEFAULT_TAG: seq<Mark> := [Mark('<', true), Mark('4', true), Mark('>', true)]

  function Plain(s: string): (r: seq<Mark>)
    ensures |r| == |s| && forall i :: 0 <= i < |s| ==> r[i] == Mark(s[i], false)
  {
    seq(|s|, i requires 0 <= i < |s| => Mark(s[i], false))
  }

  /** The level (-1 between lines) after a line of which these are the characters from its first one on. */
  function LevelAfter(level: int, s: string, n: nat): int
    requires 0 < n <= |s|
  {
    if s[n - 1] == '\n' then -1
    else if level >= 0 then level
    else if IsTag(s) then s[1] as int - '0' as int
    else DEFAULT_LEVEL
  }

  /** logbuff_printk: what is logged for the rest of a message, and the level it leaves. */
  function Emit(level: int, s: string): (seq<Mark>, int)
    decreases |s|
  {
    if s == "" then ([], level)
    else
      var n := LineLen(s);
      var (more, last) := Emit(LevelAfter(level, s, n), s[n..]);
      ((if level < 0 && !IsTag(s) then DEFAULT_TAG else []) + Plain(s[..n]) + more, last)
  }

  function Chars(m: seq<Mark>): (r: string)
    ensures |r| == |m| && forall i :: 0 <= i < |m| ==> r[i] == m[i].c
  {
    seq(|m|, i requires 0 <= i < |m| => m[i].c)
  }

  /** The text without the inserted tags. */
  function Original(m: seq<Mark>): string {
    if m == [] then "" else (if m[0].inserted then "" else [m[0].c]) + Original(m[1..])
  }

  /** All messages of a run, from power-up. */
  function EmitAll(level: int, messages: seq<string>): (seq<Mark>, int)
    decreases |messages|
  {
    if messages == [] then ([], level)
    else
      var (a, mid) := Emit(level, messages[0]);
      var (b, last) := EmitAll(mid, messages[1..]);
      (a + b, last)
  }

  // -- nothing is lost

  lemma {:induction false} OriginalSplit(a: seq<Mark>, b: seq<Mark>)
    ensures Original(a + b) == Original(a) + Original(b)
  {
    if a == [] {
      assert a + b == b;
    } else {
      assert (a + b)[0] == a[0] && (a + b)[1..] == a[1..] + b;
      OriginalSplit(a[1..], b);
    }
  }

  lemma {:induction false} OriginalPlain(s: string)
    ensures Original(Plain(s)) == s
  {
    if s != "" {
      assert Plain(s)[1..] == Plain(s[1..]);
      OriginalPlain(s[1..]);
    }
  }

  lemma OriginalTag()
    ensures Original(DEFAULT_TAG) == ""
  {
    assert DEFAULT_TAG[1..] == [Mark('4', true), Mark('>', true)];
    assert DEFAULT_TAG[1..][1..] == [Mark('>', true)];
    assert DEFAULT_TAG[1..][1..][1..] == [];
  }

  lemma OriginalNothing()
    ensures Original([]) == ""
  {
  }

  lemma FirstOriginal(level: int, s: string)
    ensures Original(FirstOf(level, s)) == s[..LineLen(s)]
  {
    hide LineLen, IsTag, Plain, Original;
    var tag := if level < 0 && !IsTag(s) then DEFAULT_TAG else [];
    OriginalSplit(tag, Plain(s[..LineLen(s)]));
    OriginalPlain(s[..LineLen(s)]);
    OriginalTag();
    OriginalNothing();
  }

  lemma {:induction false} EmitOriginal(level: int, s: string)
    ensures Original(Emit(level, s).0) == s
    decreases |s|
  {
    hide LineLen, FirstOf, Original, LevelAfter, Emit;
    EmitStep(level, s);
    if s == "" {
      OriginalNothing();
    } else {
      var n := LineLen(s);
      var next := LevelAfter(level, s, n);
      EmitOriginal(next, s[n..]);
      OriginalSplit(FirstOf(level, s), Emit(next, s[n..]).0);
      FirstOriginal(level, s);
      assert s[..n] + s[n..] == s;
    }
  }

  /** Deleting the inserted tags gives the concatenated messages: the tags overwrite nothing that was not logged. */
  lemma {:induction false} NothingLost(level: int, messages: seq<string>)
    ensures Original(EmitAll(level, messages).0) == Concat(messages)
    decreases |messages|
  {
    hide Emit;
    if messages != [] {
      var (a, mid) := Emit(level, messages[0]);
      EmitOriginal(level, messages[0]);
      NothingLost(mid, messages[1..]);
      OriginalSplit(a, EmitAll(mid, messages[1..]).0);
    }
  }

  // -- every line is tagged

  predicate StartsLine(t: string, i: int)
    requires 0 <= i <= |t|
  {
    i == 0 || t[i - 1] == '\n'
  }

  /** Every line that has begun begins with a tag. */
  predicate LinesTagged(t: string) {
    forall i :: 0 <= i < |t| && StartsLine(t, i) ==> IsTag(t[i..])
  }

  /** The level says whether the next character starts a line. */
  predicate LevelFits(t: string, level: int) {
    level < 0 <==> StartsLine(t, |t|)
  }

  lemma {:induction false} AppendLine(t: string, x: string)
    requires LinesTagged(t) && x != "" && forall i :: 0 <= i < |x| - 1 ==> x[i] != '\n'
    requires StartsLine(t, |t|) ==> IsTag(x)
    ensures LinesTagged(t + x)
    ensures StartsLine(t + x, |t + x|) <==> x[|x| - 1] == '\n'
  {
    var u := t + x;
    forall i | 0 <= i < |u| && StartsLine(u, i) ensures IsTag(u[i..]) {
      if i < |t| {
        assert StartsLine(t, i);
        assert IsTag(t[i..]);
        assert u[i..] == t[i..] + x;
      } else if i == |t| {
        assert StartsLine(t, |t|);
        assert u[i..] == x;
      }
    }
  }

  lemma {:induction false} EmitTagged(t: string, level: int, s: string)
    requires LinesTagged(t) && LevelFits(t, level)
    ensures LinesTagged(t + Chars(Emit(level, s).0)) && LevelFits(t + Chars(Emit(level, s).0), Emit(level, s).1)
    decreases |s|
  {
    hide LinesTagged, LevelFits, Emit, LineLen, IsTag, Plain, LevelAfter, Chars, FirstOf;
    EmitStep(level, s);
    if s == "" {
      assert t + Chars([]) == t;
    } else {
      var n := LineLen(s);
      var next := LevelAfter(level, s, n);
      var line := FirstOf(level, s);
      var more := Emit(next, s[n..]).0;
      LineTagged(t, level, s);
      EmitTagged(t + Chars(line), next, s[n..]);
      CharsSplit(line, more);
      assert t + (Chars(line) + Chars(more)) == (t + Chars(line)) + Chars(more);
    }
  }

  /** The first line of a message as it is logged. */
  function FirstOf(level: int, s: string): seq<Mark> {
    (if level < 0 && !IsTag(s) then DEFAULT_TAG else []) + Plain(s[..LineLen(s)])
  }

  lemma EmitStep(level: int, s: string)
    ensures s == "" ==> Emit(level, s) == ([], level)
    ensures s != "" ==>
            var n := LineLen(s);
            var (more, last) := Emit(LevelAfter(level, s, n), s[n..]);
            Emit(level, s) == (FirstOf(level, s) + more, last)
  {
    hide IsTag, Plain, LineLen, LevelAfter;
  }

  lemma CharsSplit(a: seq<Mark>, b: seq<Mark>)
    ensures Chars(a + b) == Chars(a) + Chars(b)
  {
  }

  lemma LineTagged(t: string, level: int, s: string)
    requires LinesTagged(t) && LevelFits(t, level) && s != ""
    ensures LinesTagged(t + Chars(FirstOf(level, s)))
    ensures LevelFits(t + Chars(FirstOf(level, s)), LevelAfter(level, s, LineLen(s)))
  {
    hide LinesTagged, LineLen, IsTag, Plain, Chars, LevelAfter;
    FirstLine(level, s, LineLen(s));
    AppendLine(t, Chars(FirstOf(level, s)));
  }

  lemma FirstLine(level: int, s: string, n: nat)
    requires s != "" && n == LineLen(s)
    ensures var x := Chars(FirstOf(level, s));
            && x != "" && x[|x| - 1] == s[n - 1]
            && (forall i :: 0 <= i < |x| - 1 ==> x[i] != '\n')
            && (level < 0 ==> IsTag(x))
            && (LevelAfter(level, s, n) < 0 <==> x[|x| - 1] == '\n')
  {
    if level < 0 && IsTag(s) {
      assert s[0] != '\n' && s[1] != '\n';
      assert n >= 3;
    }
  }

  /** In every run each line of the emitted stream begins with a tag <0>..<7>. */
  lemma {:induction false} EveryLineTagged(t: string, level: int, messages: seq<string>)
    requires LinesTagged(t) && LevelFits(t, level)
    ensures LinesTagged(t + Chars(EmitAll(level, messages).0))
    decreases |messages|
  {
    hide LinesTagged, LevelFits, Emit;
    if messages == [] {
      assert t + Chars([]) == t;
    } else {
      var (a, mid) := Emit(level, messages[0]);
      EmitTagged(t, level, messages[0]);
      EveryLineTagged(t + Chars(a), mid, messages[1..]);
      var b := EmitAll(mid, messages[1..]).0;
      assert Chars(a + b) == Chars(a) + Chars(b);
      assert t + (Chars(a) + Chars(b)) == (t + Chars(a)) + Chars(b);
    }
  }

  // -- where tags are inserted

  /** logbuff_printk put something in from here on. */
  predicate TagStarts(m: seq<Mark>, i: nat)
    requires i < |m|
  {
    m[i].inserted && (i == 0 || !m[i - 1].inserted)
  }

  /** A line starts here, in what a message emits that came at the given level. */
  predicate LineAt(level: int, m: seq<Mark>, i: nat)
    requires i < |m|
  {
    if i == 0 then level < 0 else m[i - 1].c == '\n'
  }

  predicate InsertedRight(level: int, m: seq<Mark>, i: nat)
    requires i < |m|
  {
    && (TagStarts(m, i) <==> LineAt(level, m, i) && !IsTag(Original(m[i..])))
    && (TagStarts(m, i) ==>
      && i + 3 < |m| && !m[i + 3].inserted
      && m[i..i + 3] == [Mark('<', true), Mark('4', true), Mark('>', true)])
  }

  /**
   The tag <4>, and nothing else, is put in front of exactly those lines of a message
   that do not bring a tag of their own.
   */
  lemma {:induction false} InsertedIff(level: int, s: string)
    ensures var m := Emit(level, s).0; forall i :: 0 <= i < |m| ==> InsertedRight(level, m, i)
    decreases |s|
  {
    hide InsertedRight, IsTag, LineLen, FirstOf, LevelAfter, Emit, Original;
    EmitStep(level, s);
    if s != "" {
      var n := LineLen(s);
      var next := LevelAfter(level, s, n);
      var m, first, more := Emit(level, s).0, FirstOf(level, s), Emit(next, s[n..]).0;
      InsertedIff(next, s[n..]);
      EmitOriginal(level, s);
      forall i | 0 <= i < |m| ensures InsertedRight(level, m, i) {
        if i < |first| {
          InsertedFirst(level, s, m, i);
        } else {
          InsertedLater(level, s, m, more, i - |first|);
        }
      }
    }
  }

  lemma InsertedFirst(level: int, s: string, m: seq<Mark>, i: nat)
    requires s != "" && FirstOf(level, s) <= m && Original(m) == s && i < |FirstOf(level, s)|
    ensures InsertedRight(level, m, i)
  {
    hide IsTag, Original;
    assert m[0..] == m;
    var first := FirstOf(level, s);
    assert forall j :: 0 <= j < |first| ==> m[j] == first[j];
    if level < 0 && !IsTag(s) {
      assert |first| > 3;
      assert m[0..3] == DEFAULT_TAG;
    }
  }

  lemma InsertedLater(level: int, s: string, m: seq<Mark>, more: seq<Mark>, i: nat)
    requires s != "" && m == FirstOf(level, s) + more && i < |more|
    requires InsertedRight(LevelAfter(level, s, LineLen(s)), more, i)
    ensures InsertedRight(level, m, |FirstOf(level, s)| + i)
  {
    hide IsTag, Original, LevelAfter, LineLen, FirstOf;
    var first := FirstOf(level, s);
    var k := |first| + i;
    FirstEnds(level, s);
    assert m[k..] == more[i..];
    assert i > 0 ==> m[k - 1] == more[i - 1];
    if TagStarts(more, i) {
      assert m[k..k + 3] == more[i..i + 3];
    }
  }

  lemma FirstEnds(level: int, s: string)
    requires s != ""
    ensures var first := FirstOf(level, s);
      && first != [] && !first[|first| - 1].inserted
      && (first[|first| - 1].c == '\n' <==> LevelAfter(level, s, LineLen(s)) < 0)
  {
    hide Plain;
    var n := LineLen(s);
    var first := FirstOf(level, s);
    assert first[|first| - 1] == Plain(s[..n])[n - 1];
    assert s[..n][n - 1] == s[n - 1];
  }

  // -- which level a line has

  /** Inside a line the level is the one of its tag. */
  predicate LevelNames(t: string, level: int) {
    && LevelFits(t, level)
    && level < 8 && (level >= 0 ==> exists i :: 0 <= i < |t| && NamesAt(t, level, i))
  }

  predicate NamesAt(t: string, level: int, i: nat)
    requires i < |t|
  {
    StartsLine(t, i) && '\n' !in t[i..] && IsTag(t[i..]) && level == t[i + 1] as int - '0' as int
  }

  /** After every run the level is that of the last line, or there is no line open. */
  lemma {:induction false} LevelIsTag(t: string, level: int, messages: seq<string>)
    requires LevelNames(t, level)
    ensures LevelNames(t + Chars(EmitAll(level, messages).0), EmitAll(level, messages).1)
    decreases |messages|
  {
    hide LevelNames, Emit, Chars;
    if messages == [] {
      assert t + Chars([]) == t;
    } else {
      var (a, mid) := Emit(level, messages[0]);
      EmitNames(t, level, messages[0]);
      LevelIsTag(t + Chars(a), mid, messages[1..]);
      var b := EmitAll(mid, messages[1..]).0;
      CharsSplit(a, b);
      assert t + (Chars(a) + Chars(b)) == (t + Chars(a)) + Chars(b);
    }
  }

  lemma {:induction false} EmitNames(t: string, level: int, s: string)
    requires LevelNames(t, level)
    ensures LevelNames(t + Chars(Emit(level, s).0), Emit(level, s).1)
    decreases |s|
  {
    hide LevelNames, Emit, LineLen, LevelAfter, Chars, FirstOf;
    EmitStep(level, s);
    if s == "" {
      assert Chars([]) == "";
      assert t + "" == t;
    } else {
      var n := LineLen(s);
      var next := LevelAfter(level, s, n);
      var line := FirstOf(level, s);
      var more := Emit(next, s[n..]).0;
      LineNames(t, level, s);
      EmitNames(t + Chars(line), next, s[n..]);
      CharsSplit(line, more);
      assert t + (Chars(line) + Chars(more)) == (t + Chars(line)) + Chars(more);
    }
  }

  lemma LineNames(t: string, level: int, s: string)
    requires LevelNames(t, level) && s != ""
    ensures LevelNames(t + Chars(FirstOf(level, s)), LevelAfter(level, s, LineLen(s)))
  {
    hide FirstOf, LevelAfter, LineLen, NamesAt;
    var x, next := Chars(FirstOf(level, s)), LevelAfter(level, s, LineLen(s));
    FirstLine(level, s, LineLen(s));
    assert (t + x)[|t + x| - 1] == x[|x| - 1];
    if next >= 0 {
      OpenLine(level, s);
      if level >= 0 {
        var i :| 0 <= i < |t| && NamesAt(t, level, i);
        NamesOn(t, level, i, x);
      } else {
        NamesNew(t, next, x);
      }
    }
  }

  lemma OpenLine(level: int, s: string)
    requires s != "" && LevelAfter(level, s, LineLen(s)) >= 0
    ensures var x, next := Chars(FirstOf(level, s)), LevelAfter(level, s, LineLen(s));
      && '\n' !in x
      && (level >= 0 ==> next == level)
      && (level < 0 ==> IsTag(x) && next == x[1] as int - '0' as int < 8)
  {
    hide LineLen, IsTag, Plain, FirstOf;
    var n, x := LineLen(s), Chars(FirstOf(level, s));
    FirstLine(level, s, n);
    assert x[|x| - 1] != '\n';
    if level < 0 {
      if IsTag(s) {
        OwnTag(level, s);
      } else {
        NewTag(level, s);
      }
    }
  }

  lemma OwnTag(level: int, s: string)
    requires IsTag(s)
    ensures LineLen(s) >= 3 && Chars(FirstOf(level, s)) == s[..LineLen(s)]
    ensures IsTag(s[..LineLen(s)]) && s[..LineLen(s)][1] == s[1]
  {
    hide Plain;
    var n := LineLen(s);
    assert s[0] != '\n' && s[1] != '\n';
    assert [] + Plain(s[..n]) == Plain(s[..n]);
  }

  lemma NewTag(level: int, s: string)
    requires level < 0 && !IsTag(s)
    ensures |Chars(FirstOf(level, s))| >= 3 && Chars(FirstOf(level, s))[..3] == "<4>"
  {
    hide LineLen, IsTag, Plain;
    CharsSplit(DEFAULT_TAG, Plain(s[..LineLen(s)]));
    assert Chars(DEFAULT_TAG) == "<4>";
  }

  lemma NamesOn(t: string, level: int, i: nat, x: string)
    requires i < |t| && NamesAt(t, level, i) && '\n' !in x
    ensures NamesAt(t + x, level, i)
  {
    assert (t + x)[i..] == t[i..] + x;
  }

  lemma NamesNew(t: string, level: int, x: string)
    requires StartsLine(t, |t|) && IsTag(x) && '\n' !in x && level == x[1] as int - '0' as int
    ensures NamesAt(t + x, level, |t|)
  {
    assert (t + x)[|t|..] == x;
  }

  // --------------------------------------------------------------------
  // The circular buffer
  // --------------------------------------------------------------------

  /** The two header layouts; counters are unsigned longs. */
  datatype Header = V1(start: nat, size: nat, chars: nat) | V2(start: nat, con: nat, end: nat, chars: nat)

  function Reset(version: nat): Header {
    if version == 2 then V2(0, 0, 0, 0) else V1(0, 0, 0)
  }

  /** Where the next character goes. */
  function Slot(h: Header): (k: nat)
    ensures k < LOGBUFF_LEN
  {
    match h
    case V1(start, size, _) => (start + size) % ULONG % LOGBUFF_LEN
    case V2(_, _, end, _) => end % LOGBUFF_LEN
  }

  function Advance(h: Header): Header {
    match h
    case V1(start, size, chars) =>
      if size < LOGBUFF_LEN then V1(start, size + 1, (chars + 1) % ULONG)
      else V1((start + 1) % ULONG, size, (chars + 1) % ULONG)
    case V2(start, con, end, chars) =>
      var end1 := (end + 1) % ULONG;
      if (end1 - start) % ULONG > LOGBUFF_LEN then V2((start + 1) % ULONG, con, end1, (chars + 1) % ULONG)
      else V2(start, con, end1, (chars + 1) % ULONG)
  }

  /** `log show`: first character and number of characters. */
  function Shown(h: Header): (nat, nat) {
    match h
    case V1(start, size, _) => (start, if size > LOGBUFF_LEN then LOGBUFF_LEN else size)
    case V2(start, _, end, _) =>
      var size := (end - start) % ULONG;
      (start, if size > LOGBUFF_LEN then LOGBUFF_LEN else size)
  }

  function Show(lbuf: seq<char>, h: Header): (r: string)
    requires |lbuf| == LOGBUFF_LEN
  {
    var (start, size) := Shown(h);
    seq(size, i requires 0 <= i => lbuf[(start + i) % ULONG % LOGBUFF_LEN])
  }

  function PutAll(lbuf: seq<char>, h: Header, t: string): (r: (seq<char>, Header))
    requires |lbuf| == LOGBUFF_LEN
    ensures |r.0| == LOGBUFF_LEN
    decreases |t|
  {
    if t == "" then (lbuf, h) else PutAll(lbuf[Slot(h) := t[0]], Advance(h), t[1..])
  }

  /** How many characters of a stream of that length are still in the buffer. */
  function Kept(total: nat): nat {
    if total < LOGBUFF_LEN then total else LOGBUFF_LEN
  }

  /** The last characters of a stream, as many as fit. */
  function Last(t: string): string {
    t[|t| - Kept(|t|)..]
  }

  /** The header describes a stream of `total` characters. */
  predicate Counts(h: Header, total: nat) {
    && h.start == (total - Kept(total)) % ULONG
    && h.chars == total % ULONG
    && (h.V1? ==> h.size == Kept(total))
    && (h.V2? ==> h.end == total % ULONG)
  }

  /** The buffer holds the last characters of the stream, each at its index modulo the length. */
  predicate Holds(lbuf: seq<char>, t: string) {
    && |lbuf| == LOGBUFF_LEN
    && forall j :: |t| - Kept(|t|) <= j < |t| ==> lbuf[j % LOGBUFF_LEN] == t[j]
  }

  lemma ModMod(x: nat)
    ensures x % ULONG % LOGBUFF_LEN == x % LOGBUFF_LEN
  {
  }

  lemma SubMod(a: nat, b: nat)
    requires b <= a && a - b < ULONG
    ensures (a % ULONG - b % ULONG) % ULONG == a - b
  {
  }

  lemma AdvanceCounts1(h: Header, total: nat)
    requires h.V1? && Counts(h, total)
    ensures Slot(h) == total % LOGBUFF_LEN
    ensures Counts(Advance(h), total + 1)
  {
    var first := total - Kept(total);
    AddMod(first, Kept(total));
    ModMod(total);
    AddMod(total, 1);
    AddMod(first, 1);
  }

  lemma AdvanceCounts2(h: Header, total: nat)
    requires h.V2? && Counts(h, total)
    ensures Slot(h) == total % LOGBUFF_LEN
    ensures Counts(Advance(h), total + 1)
  {
    var first := total - Kept(total);
    ModMod(total);
    AddMod(total, 1);
    AddMod(first, 1);
    SubMod(total + 1, first);
  }

  lemma AdvanceCounts(h: Header, total: nat)
    requires Counts(h, total)
    ensures Slot(h) == total % LOGBUFF_LEN
    ensures Counts(Advance(h), total + 1)
  {
    hide Slot, Advance, Counts;
    if h.V1? { AdvanceCounts1(h, total); } else { AdvanceCounts2(h, total); }
  }

  lemma PutHolds(lbuf: seq<char>, t: string, c: char)
    requires Holds(lbuf, t)
    ensures Holds(lbuf[|t| % LOGBUFF_LEN := c], t + [c])
  {
    var u := t + [c];
    var b := lbuf[|t| % LOGBUFF_LEN := c];
    forall j | |u| - Kept(|u|) <= j < |u| ensures b[j % LOGBUFF_LEN] == u[j] {
      if j < |t| {
        assert |t| - j < LOGBUFF_LEN;
        assert j % LOGBUFF_LEN != |t| % LOGBUFF_LEN;
        assert |t| - Kept(|t|) <= j;
      }
    }
  }

  lemma {:induction false} PutAllHolds(lbuf: seq<char>, h: Header, t: string, x: string)
    requires Holds(lbuf, t) && Counts(h, |t|)
    ensures Holds(PutAll(lbuf, h, x).0, t + x) && Counts(PutAll(lbuf, h, x).1, |t + x|)
    decreases |x|
  {
    hide Holds, Counts, Slot, Advance;
    assert |lbuf| == LOGBUFF_LEN by { HoldsLen(lbuf, t); }
    if x == "" {
      assert t + x == t;
    } else {
      AdvanceCounts(h, |t|);
      PutHolds(lbuf, t, x[0]);
      assert (t + [x[0]]) + x[1..] == t + x;
      PutAllHolds(lbuf[Slot(h) := x[0]], Advance(h), t + [x[0]], x[1..]);
    }
  }

  lemma HoldsLen(lbuf: seq<char>, t: string)
    requires Holds(lbuf, t)
    ensures |lbuf| == LOGBUFF_LEN
  {
  }

  lemma ShownIs(h: Header, total: nat)
    requires Counts(h, total)
    ensures Shown(h) == ((total - Kept(total)) % ULONG, Kept(total))
  {
    SubMod(total, total - Kept(total));
  }

  lemma ShownIndex(first: nat, i: nat)
    ensures (first % ULONG + i) % ULONG % LOGBUFF_LEN == (first + i) % LOGBUFF_LEN
  {
    AddMod(first, i);
    ModMod(first + i);
  }

  lemma ShowLast(lbuf: seq<char>, h: Header, t: string)
    requires Holds(lbuf, t) && Counts(h, |t|)
    ensures Show(lbuf, h) == Last(t)
  {
    hide Shown, Counts;
    ShownIs(h, |t|);
    var first := |t| - Kept(|t|);
    var r := Show(lbuf, h);
    assert |r| == |Last(t)| == Kept(|t|);
    forall i | 0 <= i < |r| ensures r[i] == Last(t)[i] {
      ShownIndex(first, i);
      assert lbuf[(first + i) % LOGBUFF_LEN] == t[first + i];
    }
  }

  /**
   Whatever was logged since the last reset, both layouts show the same text: the
   last LOGBUFF_LEN characters of it.
   */
  lemma LayoutsAgree(lbuf: seq<char>, t: string)
    requires |lbuf| == LOGBUFF_LEN
    ensures var (b1, h1) := PutAll(lbuf, Reset(1), t);
            var (b2, h2) := PutAll(lbuf, Reset(2), t);
            Show(b1, h1) == Show(b2, h2) == Last(t)
  {
    hide PutAll, Show, Last;
    assert Holds(lbuf, "") && Counts(Reset(1), 0) && Counts(Reset(2), 0);
    assert "" + t == t;
    PutAllHolds(lbuf, Reset(1), "", t);
    PutAllHolds(lbuf, Reset(2), "", t);
    ShowLast(PutAll(lbuf, Reset(1), t).0, PutAll(lbuf, Reset(1), t).1, t);
    ShowLast(PutAll(lbuf, Reset(2), t).0, PutAll(lbuf, Reset(2), t).1, t);
  }

  lemma {:induction false} PutAllSplit(lbuf: seq<char>, h: Header, x: string, y: string)
    requires |lbuf| == LOGBUFF_LEN
    ensures PutAll(lbuf, h, x + y) == PutAll(PutAll(lbuf, h, x).0, PutAll(lbuf, h, x).1, y)
    decreases |x|
  {
    hide Slot, Advance;
    if x == "" {
      assert x + y == y;
    } else {
      assert (x + y)[0] == x[0] && (x + y)[1..] == x[1..] + y;
      PutAllSplit(lbuf[Slot(h) := x[0]], Advance(h), x[1..], y);
    }
  }

  /** A run of messages, one logbuff_printk each, on one layout. */
  function LogAll(lbuf: seq<char>, h: Header, level: int, messages: seq<string>): (r: (seq<char>, Header))
    requires |lbuf| == LOGBUFF_LEN
    ensures |r.0| == LOGBUFF_LEN
    decreases |messages|
  {
    if messages == [] then (lbuf, h)
    else
      var (m, next) := Emit(level, messages[0]);
      var (b, g) := PutAll(lbuf, h, Chars(m));
      LogAll(b, g, next, messages[1..])
  }

  lemma {:induction false} LogAllIsStream(lbuf: seq<char>, h: Header, level: int, messages: seq<string>)
    requires |lbuf| == LOGBUFF_LEN
    ensures LogAll(lbuf, h, level, messages) == PutAll(lbuf, h, Chars(EmitAll(level, messages).0))
    decreases |messages|
  {
    hide Emit, Chars, Slot, Advance;
    if messages == [] {
      assert Chars([]) == "";
    } else {
      var (a, mid) := Emit(level, messages[0]);
      var b := EmitAll(mid, messages[1..]).0;
      var (lb, g) := PutAll(lbuf, h, Chars(a));
      LogAllIsStream(lb, g, mid, messages[1..]);
      CharsSplit(a, b);
      PutAllSplit(lbuf, h, Chars(a), Chars(b));
    }
  }

  /** Behind its first line every stream is tagged, also one that begins in the middle of a line. */
  lemma LaterLinesTagged(level: int, messages: seq<string>, i: nat)
    requires level >= 0
    requires 0 < i < |Chars(EmitAll(level, messages).0)| && StartsLine(Chars(EmitAll(level, messages).0), i)
    ensures IsTag(Chars(EmitAll(level, messages).0)[i..])
  {
    hide EmitAll, Chars;
    var t := Chars(EmitAll(level, messages).0);
    assert LinesTagged("<4>") && LevelFits("<4>", level);
    EveryLineTagged("<4>", level, messages);
    assert ("<4>" + t)[i + 2] == t[i - 1];
    assert StartsLine("<4>" + t, i + 3);
    assert ("<4>" + t)[i + 3..] == t[i..];
  }

  /**
   Every line of the stream is tagged, if and only if it begins between lines, is
   empty, or begins with a tag of its own.
   */
  lemma TaggedIff(level: int, messages: seq<string>)
    ensures var t := Chars(EmitAll(level, messages).0);
      LinesTagged(t) <==> level < 0 || t == "" || IsTag(t)
  {
    hide EmitAll, Chars, IsTag;
    var t := Chars(EmitAll(level, messages).0);
    if level < 0 {
      EveryLineTagged("", level, messages);
      assert "" + t == t;
    } else if t != "" {
      assert t[0..] == t && StartsLine(t, 0);
      forall i: nat | 0 < i < |t| && StartsLine(t, i) ensures IsTag(t[i..]) {
        LaterLinesTagged(level, messages, i);
      }
    }
  }

  /**
   Log refinement. For every run of messages after power-up or a reset, with the
   level that the messages before left, both layouts show the last LOGBUFF_LEN
   characters of one stream; without the inserted tags it is the messages, one
   after another; and every line of it begins with a tag, if and only if the run
   begins between lines, logs nothing, or begins with a tag of its own.
   */
  lemma LogRefinement(lbuf: seq<char>, level: int, messages: seq<string>)
    requires |lbuf| == LOGBUFF_LEN
    ensures var m := EmitAll(level, messages).0;
            var (b1, h1) := LogAll(lbuf, Reset(1), level, messages);
            var (b2, h2) := LogAll(lbuf, Reset(2), level, messages);
            && Show(b1, h1) == Show(b2, h2) == Last(Chars(m))
            && Original(m) == Concat(messages)
            && (LinesTagged(Chars(m)) <==> level < 0 || Chars(m) == "" || IsTag(Chars(m)))
  {
    hide LogAll, EmitAll, Show, Last, PutAll, LinesTagged, IsTag;
    var t := Chars(EmitAll(level, messages).0);
    LogAllIsStream(lbuf, Reset(1), level, messages);
    LogAllIsStream(lbuf, Reset(2), level, messages);
    LayoutsAgree(lbuf, t);
    TaggedIff(level, messages);
    NothingLost(level, messages);
  }

  /** logbuff_reset keeps the level: after a reset in the middle of a line the text goes on without a tag. */
  lemma ResetInMidLine(lbuf: seq<char>)
    requires |lbuf| == LOGBUFF_LEN
    ensures var level := Emit(-1, "abc").1;
      var (b, h) := LogAll(lbuf, Reset(1), level, ["def"]);
      level == DEFAULT_LEVEL && Show(b, h) == "def" && !LinesTagged(Show(b, h))
  {
    hide Show, PutAll, LogAll, Emit, EmitAll, Original, LinesTagged;
    assert Emit(-1, "abc").1 == DEFAULT_LEVEL by {
      OneLine(-1, "abc");
    }
    GoesOn("def");
    LogRefinement(lbuf, DEFAULT_LEVEL, ["def"]);
    assert Last("def") == "def";
    assert !IsTag("def");
  }

  /** In the middle of a line a message without line feed is logged as it is. */
  lemma GoesOn(s: string)
    requires s != "" && '\n' !in s
    ensures Chars(EmitAll(DEFAULT_LEVEL, [s]).0) == s
  {
    hide Emit, Chars;
    OneLine(DEFAULT_LEVEL, s);
    assert [s][1..] == [];
    var m := Emit(DEFAULT_LEVEL, s).0;
    assert EmitAll(DEFAULT_LEVEL, [s]).0 == m + [] == m;
    PlainLine(s);
  }

  lemma PlainLine(s: string)
    requires s != "" && LineLen(s) == |s|
    ensures Chars(FirstOf(DEFAULT_LEVEL, s)) == s
  {
    hide LineLen;
    assert s[..|s|] == s && [] + Plain(s) == Plain(s);
  }

  /** A message of one unfinished line. */
  lemma OneLine(level: int, s: string)
    requires s != "" && '\n' !in s
    ensures Emit(level, s) == (FirstOf(level, s), LevelAfter(level, s, |s|)) && LineLen(s) == |s|
  {
    hide LevelAfter, FirstOf;
    assert LineLen(s) == |s| by {
      var n := LineLen(s);
      assert s[n - 1] in s;
    }
    EmitStep(level, s);
    EmitStep(LevelAfter(level, s, |s|), "");
    assert s[|s|..] == "" && FirstOf(level, s) + [] == FirstOf(level, s);
  }
}
