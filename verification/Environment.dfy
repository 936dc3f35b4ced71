/**
 The environment blob before relocation: linear lookup of common/cmd_nvedit.c
 and enumeration of api/api.c. The blob is a list of name=value texts, each
 ended by a zero byte, with one more zero byte at the end.
 */
module Environment {
  import opened Machine
  import opened Option

  const EQUALS: Byte := 61

  datatype Entry = Entry(name: seq<Byte>, value: seq<Byte>)

  predicate EntryOk(e: Entry) {
    e.name != [] && 0 !in e.name && EQUALS !in e.name && 0 !in e.value
  }

  predicate AllOk(entries: seq<Entry>) {
    forall e :: e in entries ==> EntryOk(e)
  }

  predicate DistinctNames(entries: seq<Entry>) {
    forall i, j :: 0 <= i < j < |entries| ==> entries[i].name != entries[j].name
  }

  function Text(e: Entry): seq<Byte> {
    e.name + [EQUALS] + e.value
  }

  /** The entries one behind the other, each with its zero byte. */
  function Encode(entries: seq<Entry>): seq<Byte> {
    if entries == [] then [] else Text(entries[0]) + [0] + Encode(entries[1..])
  }

  /** The position of entry k. */
  function Offset(entries: seq<Entry>, k: nat): nat
    requires k <= |entries|
  {
    if k == 0 then 0 else |Text(entries[0])| + 1 + Offset(entries[1..], k - 1)
  }

  // A blob is CONFIG_ENV_SIZE bytes and the one behind them, which the scans look at last.

  ghost predicate Begins(blob: seq<Byte>, entries: seq<Entry>) {
    AllOk(entries) && |Encode(entries)| < |blob| && blob[..|Encode(entries)|] == Encode(entries)
  }

  /** The list is complete: another zero byte ends it. */
  ghost predicate Stores(blob: seq<Byte>, entries: seq<Entry>) {
    Begins(blob, entries) && blob[|Encode(entries)|] == 0
  }

  /** Behind the last complete entry no zero byte comes any more. */
  ghost predicate RunsOut(blob: seq<Byte>, entries: seq<Entry>) {
    Begins(blob, entries) && forall i :: |Encode(entries)| <= i < |blob| ==> blob[i] != 0
  }

  ghost predicate Readable(blob: seq<Byte>, entries: seq<Entry>) {
    Stores(blob, entries) || RunsOut(blob, entries)
  }

  // --------------------------------------------------------------------
  // Where the entries lie
  // --------------------------------------------------------------------

  lemma {:induction false} EntryAt(entries: seq<Entry>, k: nat)
    requires k < |entries|
    ensures Offset(entries, k + 1) == Offset(entries, k) + |Text(entries[k])| + 1 <= |Encode(entries)|
    ensures Encode(entries)[Offset(entries, k)..Offset(entries, k + 1)] == Text(entries[k]) + [0]
  {
    hide Text;
    var rest := entries[1..];
    var t := Text(entries[0]) + [0];
    assert Encode(entries) == t + Encode(rest);
    if k == 0 {
      assert Offset(rest, 0) == 0;
      assert Encode(entries)[0..|t|] == t;
    } else {
      EntryAt(rest, k - 1);
      var i, j := Offset(rest, k - 1), Offset(rest, k);
      assert Encode(entries)[|t| + i..|t| + j] == Encode(rest)[i..j];
    }
  }

  lemma {:induction false} EndAt(entries: seq<Entry>)
    ensures Offset(entries, |entries|) == |Encode(entries)|
  {
    hide Text;
    if entries != [] {
      EndAt(entries[1..]);
    }
  }

  /** The bytes of a stored entry: its name, an equals sign, its value, a zero. */
  lemma StoredEntry(blob: seq<Byte>, entries: seq<Entry>, k: nat)
    requires Begins(blob, entries) && k < |entries|
    ensures var i, e := Offset(entries, k), entries[k];
      && EntryOk(e) && Offset(entries, k + 1) == i + |e.name| + |e.value| + 2 < |blob|
      && (forall j :: i <= j < i + |e.name| ==> blob[j] == e.name[j - i])
      && blob[i + |e.name|] == EQUALS
      && (forall j :: i + |e.name| < j < i + |e.name| + 1 + |e.value| ==> blob[j] == e.value[j - i - |e.name| - 1])
      && blob[i + |e.name| + 1 + |e.value|] == 0
  {
    hide Encode, Offset;
    var i, e := Offset(entries, k), entries[k];
    var next := Offset(entries, k + 1);
    EntryAt(entries, k);
    var t := Text(e) + [0];
    SliceOfPrefix(blob, |Encode(entries)|, i, next);
    forall j | i <= j < next ensures blob[j] == t[j - i] {
      assert blob[i..next][j - i] == t[j - i];
    }
  }

  lemma SliceOfPrefix(s: seq<Byte>, n: nat, i: nat, j: nat)
    requires i <= j <= n <= |s|
    ensures s[..n][i..j] == s[i..j]
  {
  }

  /** An entry does not begin with a zero byte; behind the last one lies the end of the list, or it runs out. */
  lemma FirstByte(blob: seq<Byte>, entries: seq<Entry>, k: nat)
    requires Readable(blob, entries) && k <= |entries|
    ensures Begins(blob, entries) && Offset(entries, k) < |blob|
    ensures blob[Offset(entries, k)] == 0 <==> k == |entries| && Stores(blob, entries)
  {
    hide Offset, Encode;
    EndAt(entries);
    if k < |entries| {
      StoredEntry(blob, entries, k);
    }
  }

  // --------------------------------------------------------------------
  // Names
  // --------------------------------------------------------------------

  /** The name at the start of a text that is a plain name or a name=value pair. */
  function Key(s: seq<Byte>): (r: seq<Byte>)
    ensures |r| <= |s| && r == s[..|r|] && 0 !in r && EQUALS !in r
    ensures |r| < |s| ==> s[|r|] == 0 || s[|r|] == EQUALS
  {
    if s == [] || s[0] == 0 || s[0] == EQUALS then [] else [s[0]] + Key(s[1..])
  }

  /** The first entry with the given name. */
  function Find(entries: seq<Entry>, name: seq<Byte>): (r: Option<nat>)
    ensures r.Some? ==> r.value < |entries| && entries[r.value].name == name
    ensures r.Some? ==> forall j :: 0 <= j < r.value ==> entries[j].name != name
    ensures r.None? ==> forall j :: 0 <= j < |entries| ==> entries[j].name != name
  {
    if entries == [] then None
    else if entries[0].name == name then Some(0)
    else
      var r := Find(entries[1..], name);
      if r.None? then None else Some(r.value + 1)
  }

  /**
   envmatch on entry k: the position of its value if the names agree. The name ends with a
   zero byte or an equals sign.
   */
  method EnvMatch(blob: seq<Byte>, ghost entries: seq<Entry>, s1: seq<Byte>, i2: nat, ghost k: nat)
    returns (r: Option<nat>)
    requires Begins(blob, entries) && k < |entries| && i2 == Offset(entries, k)
    requires |Key(s1)| < |s1|
    ensures r == if Key(s1) == entries[k].name then Some(i2 + |entries[k].name| + 1) else None
  {
    hide Begins, Offset, Key, EntryOk;
    StoredEntry(blob, entries, k);
    ghost var name := entries[k].name;
    ghost var key := Key(s1);
    EntryName(entries[k]);
    var p, j: nat := 0, i2;
    while s1[p] == blob[j]
      invariant j == i2 + p && 0 <= p <= |key| && p <= |name|
      invariant key[..p] == name[..p]
      decreases |key| - p
    {
      if s1[p] == EQUALS {
        assert p == |key|;
        return Some(j + 1);
      }
      p, j := p + 1, j + 1;
    }
    if s1[p] == 0 && blob[j] == EQUALS {
      return Some(j + 1);
    }
    return None;
  }

  lemma EntryName(e: Entry)
    requires EntryOk(e)
    ensures 0 !in e.name && EQUALS !in e.name && e.name != [] && 0 !in e.value
  {
  }

  // --------------------------------------------------------------------
  // Lookup
  // --------------------------------------------------------------------

  /** What getenv_f returns for a value and leaves in a buffer of the given length. */
  function CutTo(value: seq<Byte>, len: nat): (nat, seq<Byte>) {
    if |value| < len then (|value|, value + [0])
    else if len == 0 then (0, [])
    else (len, value[..len - 1] + [0])
  }

  /**
   The buffer holds the longest beginning of the value that leaves room for a zero byte
   behind it, and the count is below the buffer length exactly when that is the whole value.
   */
  lemma CutIsLongest(value: seq<Byte>, len: nat)
    ensures var (count, bytes) := CutTo(value, len);
      && |bytes| <= len && (len == 0 <==> bytes == [])
      && (len > 0 ==>
        && bytes[|bytes| - 1] == 0 && bytes[..|bytes| - 1] <= value
        && forall t :: t <= value && |t| < len ==> t <= bytes[..|bytes| - 1])
      && (count < len <==> len > 0 && bytes == value + [0])
      && (count < len ==> count == |value|) && count <= len
  {
    var (count, bytes) := CutTo(value, len);
    if len > 0 {
      var kept := if |value| < len then |value| else len - 1;
      assert bytes == value[..kept] + [0];
      assert bytes[..|bytes| - 1] == value[..kept];
      assert |value| >= len ==> |bytes| < |value + [0]|;
      forall t | t <= value && |t| < len ensures t <= bytes[..|bytes| - 1] {
        assert t == value[..|t|] == value[..kept][..|t|];
      }
    }
  }

  /** The scan to the end of entry k; None when it passes CONFIG_ENV_SIZE, behind the last complete entry. */
  method EntryEnd(blob: seq<Byte>, ghost entries: seq<Entry>, i: nat, ghost k: nat) returns (end: Option<nat>)
    requires Readable(blob, entries) && k <= |entries| && i == Offset(entries, k) < |blob| && blob[i] != 0
    ensures k < |entries| ==> end.Some? && end.value + 1 == Offset(entries, k + 1)
    ensures k == |entries| ==> end.None?
  {
    hide Offset, EntryOk, Encode;
    ghost var stop := if k < |entries| then i + |entries[k].name| + 1 + |entries[k].value| else |blob|;
    NonZeroUpTo(blob, entries, k);
    var nxt := i;
    while blob[nxt] != 0
      invariant i <= nxt <= stop && nxt < |blob|
      decreases |blob| - nxt
    {
      if nxt >= |blob| - 1 {
        return None;
      }
      nxt := nxt + 1;
    }
    return Some(nxt);
  }

  /** Where the bytes of entry k, or those behind the last one, are zero. */
  lemma NonZeroUpTo(blob: seq<Byte>, entries: seq<Entry>, k: nat)
    requires Readable(blob, entries) && k <= |entries|
    requires Offset(entries, k) < |blob| && blob[Offset(entries, k)] != 0
    ensures var i := Offset(entries, k);
      if k < |entries| then
        var stop := i + |entries[k].name| + 1 + |entries[k].value|;
        && stop + 1 == Offset(entries, k + 1) < |blob| && blob[stop] == 0
        && forall j :: i <= j < stop ==> blob[j] != 0
      else forall j :: i <= j < |blob| ==> blob[j] != 0
  {
    hide Offset, Encode;
    EndAt(entries);
    if k < |entries| {
      var e, i := entries[k], Offset(entries, k);
      StoredEntry(blob, entries, k);
      FirstByte(blob, entries, k + 1);
      forall j | i <= j < i + |e.name| + 1 + |e.value| ensures blob[j] != 0 {
        if j < i + |e.name| {
          assert e.name[j - i] in e.name;
        } else if j > i + |e.name| {
          assert e.value[j - i - |e.name| - 1] in e.value;
        }
      }
    }
  }

  /** The copy out of getenv_f, from the value of entry k. */
  method CopyOut(blob: seq<Byte>, ghost entries: seq<Entry>, val: nat, ghost k: nat, buf: array<Byte>, len: nat)
    returns (n: nat)
    requires Begins(blob, entries) && k < |entries| && val == Offset(entries, k) + |entries[k].name| + 1
    requires len <= buf.Length
    modifies buf
    ensures var (count, bytes) := CutTo(entries[k].value, len);
      n == count && buf[..] == bytes + old(buf[|bytes|..])
  {
    hide Begins, Offset, EntryOk;
    StoredEntry(blob, entries, k);
    EntryName(entries[k]);
    ghost var value := entries[k].value;
    n := 0;
    while n < len
      invariant 0 <= n <= len && n <= |value|
      invariant forall j :: 0 <= j < n ==> buf[j] == value[j]
      invariant forall j :: n <= j < buf.Length ==> buf[j] == old(buf[j])
    {
      buf[n] := blob[val + n];
      if buf[n] == 0 {
        return;
      }
      n := n + 1;
    }
    if n > 0 {
      buf[n - 1] := 0;
    }
  }

  /** getenv_f: the value of the first entry of that name, cut to the buffer. */
  method GetEnvF(blob: seq<Byte>, ghost entries: seq<Entry>, name: seq<Byte>, buf: array<Byte>, len: nat)
    returns (r: int)
    requires Readable(blob, entries) && 0 !in name && len <= buf.Length
    modifies buf
    ensures var found := Find(entries, Key(name));
      match found
      case None => r == -1 && buf[..] == old(buf[..])
      case Some(k) =>
        var (count, bytes) := CutTo(entries[k].value, len);
        r == count && buf[..] == bytes + old(buf[|bytes|..])
  {
    hide Readable, Stores, Begins, Offset, EntryOk, CutTo, Key;
    var i := 0;
    ghost var k := 0;
    KeyOfString(name);
    OffsetZero(entries);
    FirstByte(blob, entries, 0);
    while blob[i] != 0
      invariant 0 <= k <= |entries| && i == Offset(entries, k) < |blob|
      invariant blob[i] == 0 ==> k == |entries|
      invariant forall j :: 0 <= j < k ==> entries[j].name != Key(name)
      invariant buf[..] == old(buf[..])
      decreases |entries| - k
    {
      var nxt := EntryEnd(blob, entries, i, k);
      if nxt.None? {
        return -1;
      }
      var val := EnvMatch(blob, entries, name + [0], i, k);
      if val.Some? {
        r := CopyOut(blob, entries, val.value, k, buf, len);
        return;
      }
      k := k + 1;
      i := nxt.value + 1;
      FirstByte(blob, entries, k);
    }
    return -1;
  }

  lemma OffsetZero(entries: seq<Entry>)
    ensures Offset(entries, 0) == 0
  {
  }

  lemma {:induction false} KeyOfString(name: seq<Byte>)
    requires 0 !in name
    ensures |Key(name + [0])| < |name + [0]| && Key(name + [0]) == Key(name)
  {
    if name != [] {
      KeyOfString(name[1..]);
      assert (name + [0])[1..] == name[1..] + [0];
    }
  }

  // --------------------------------------------------------------------
  // Enumeration
  // --------------------------------------------------------------------

  /** API_env_enum after the entry at a position: the entry after the first one of that name, None for NULL. */
  function After(entries: seq<Entry>, last: nat): (r: Option<nat>)
    requires last < |entries|
    ensures r.Some? ==> r.value < |entries|
  {
    var k := Find(entries, entries[last].name).value + 1;
    if k == |entries| then None else Some(k)
  }

  method ApiEnvEnum(blob: seq<Byte>, ghost entries: seq<Entry>, last: Option<nat>, ghost at: nat)
    returns (next: Option<nat>)
    requires Readable(blob, entries)
    requires last.Some? ==> at < |entries| && last.value == Offset(entries, at)
    ensures last.None? ==> next == Some(0)
    ensures last.Some? ==>
      next == match After(entries, at)
        case None => if Stores(blob, entries) then None else Some(Offset(entries, |entries|))
        case Some(k) => Some(Offset(entries, k))
  {
    hide Readable, Stores, Begins, Offset, EntryOk, Key;
    if last.None? {
      return Some(0);
    }
    next := last;
    FirstByte(blob, entries, at);
    KeyOfEntry(blob, entries, at);
    var i := 0;
    ghost var k := 0;
    OffsetZero(entries);
    FirstByte(blob, entries, 0);
    while blob[i] != 0
      invariant 0 <= k <= at && i == Offset(entries, k) < |blob| && blob[i] != 0
      invariant forall j :: 0 <= j < k ==> entries[j].name != entries[at].name
      decreases |entries| - k
    {
      var n := EntryEnd(blob, entries, i, k);
      var val := EnvMatch(blob, entries, blob[last.value..], i, k);
      FirstByte(blob, entries, k + 1);
      if val.Some? {
        i := n.value + 1;
        if blob[i] == 0 {
          return None;
        }
        return Some(i);
      }
      k := k + 1;
      i := n.value + 1;
    }
  }

  lemma KeyOfEntry(blob: seq<Byte>, entries: seq<Entry>, k: nat)
    requires Begins(blob, entries) && k < |entries|
    ensures Offset(entries, k) < |blob|
    ensures var s1 := blob[Offset(entries, k)..];
      |Key(s1)| < |s1| && Key(s1) == entries[k].name
  {
    hide Begins, Offset;
    StoredEntry(blob, entries, k);
    var s1, name := blob[Offset(entries, k)..], entries[k].name;
    assert s1[..|name|] == name && s1[|name|] == EQUALS;
    KeyStops(s1, |name|);
  }

  lemma {:induction false} KeyStops(s: seq<Byte>, n: nat)
    requires n < |s| && s[n] == EQUALS && 0 !in s[..n] && EQUALS !in s[..n]
    ensures Key(s) == s[..n]
  {
    if n > 0 {
      assert s[0] == s[..n][0];
      assert s[1..][..n - 1] == s[..n][1..];
      KeyStops(s[1..], n - 1);
    }
  }

  /** The entries visited from entry k on by at most n more calls, until NULL comes back. */
  function Walk(entries: seq<Entry>, k: nat, n: nat): (r: seq<nat>)
    requires k < |entries|
    ensures r != [] && r[0] == k
    decreases n
  {
    if n == 0 || After(entries, k).None? then [k]
    else [k] + Walk(entries, After(entries, k).value, n - 1)
  }

  function Range(k: nat, n: nat): seq<nat>
    decreases n - k
  {
    if k >= n then [] else [k] + Range(k + 1, n)
  }

  function Next(k: nat, n: nat): Option<nat> {
    if k + 1 < n then Some(k + 1) else None
  }

  lemma {:induction false} WalkIff(entries: seq<Entry>, k: nat, n: nat)
    requires k < |entries| <= k + n
    ensures Walk(entries, k, n) == Range(k, |entries|)
      <==> forall m :: k <= m < |entries| ==> After(entries, m) == Next(m, |entries|)
    decreases |entries| - k
  {
    hide After;
    var rest := Range(k + 1, |entries|);
    assert Range(k, |entries|)[1..] == rest;
    var next := After(entries, k);
    if next == Some(k + 1) {
      assert Walk(entries, k, n)[1..] == Walk(entries, k + 1, n - 1);
      WalkIff(entries, k + 1, n - 1);
    } else if next.Some? {
      assert Walk(entries, k, n)[1] == next.value;
    }
  }

  lemma AfterIff(entries: seq<Entry>)
    ensures (forall m :: 0 <= m < |entries| ==> After(entries, m) == Next(m, |entries|)) <==> DistinctNames(entries)
  {
    hide Find;
    if DistinctNames(entries) {
      forall m | 0 <= m < |entries| ensures After(entries, m) == Next(m, |entries|) {
        LookupIsMap(entries, m);
      }
    } else {
      var i, j :| 0 <= i < j < |entries| && entries[i].name == entries[j].name;
      assert Find(entries, entries[j].name).value <= i;
      assert After(entries, j) != Next(j, |entries|);
    }
  }

  /**
   Enumerating from NULL visits every entry once, in order, and then yields NULL, exactly
   when the names are distinct.
   */
  lemma EnumeratesIff(entries: seq<Entry>)
    requires entries != []
    ensures Walk(entries, 0, |entries|) == Range(0, |entries|) <==> DistinctNames(entries)
  {
    WalkIff(entries, 0, |entries|);
    AfterIff(entries);
  }

  /** With distinct names the lookup is the map from names to values. */
  lemma LookupIsMap(entries: seq<Entry>, k: nat)
    requires DistinctNames(entries) && k < |entries|
    ensures Find(entries, entries[k].name) == Some(k)
  {
    hide Find;
    var f := Find(entries, entries[k].name).value;
    assert entries[f].name == entries[k].name;
  }
}
