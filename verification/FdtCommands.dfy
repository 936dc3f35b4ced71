/** The loops of common/cmd_fdt.c that parse and print property values; FdtProp says what they compute. */
module FdtCommands {
  import opened Option
  import opened Numerals
  import opened FdtProp
  import opened Sequences

  /** is_printable_string. */
  method IsPrintableString(v: string) returns (printable: bool)
    ensures printable <==> IsPrintable(v)
  {
    hide IsPrint;
    if v == "" {
      return false;
    }
    if v[|v| - 1] != '\0' {
      return false;
    }
    var i := 0;
    assert v[0..] == v;
    while i < |v| && (v[i] == '\0' || IsPrint(v[i]))
      invariant 0 <= i < |v|
      invariant PrintableFrom(v[i..]) == PrintableFrom(v)
    {
      assert v[i..][0] == v[i] && v[i..][1..] == v[i + 1..];
      if v[i] == '\0' {
        if |v| - i == 1 {
          return true;
        }
        assert v[i..][1] == v[i + 1];
        if v[i + 1] == '\0' {
          return false;
        }
      }
      i := i + 1;
    }
    assert v[i..][0] == v[i];
    return false;
  }

  lemma JoinedStep(done: string, x: string, rest: Option<string>)
    ensures Joined(done, match rest case None => None case Some(v) => Some(x + v)) == Joined(done + x, rest)
  {
    match rest
    case None =>
    case Some(v) => assert done + (x + v) == (done + x) + v;
  }

  /** The `<...>` branch of fdt_parse_prop. */
  method ParseCellArgs(first: string, args: seq<string>) returns (r: Option<string>)
    ensures r == ParseCells(first, args)
  {
    hide StrToUL, SkipBlanks, Be32;
    var s, idx, data := first, 0, "";
    assert args[0..] == args;
    JoinedNothing(ParseCells(first, args));
    while true
      invariant 0 <= idx <= |args|
      invariant Joined(data, ParseCells(s, args[idx..])) == ParseCells(first, args)
      decreases |args| - idx, |s|
    {
      if s == "" {
        if idx == |args| {
          return None;
        }
        assert args[idx..][0] == args[idx] && args[idx..][1..] == args[idx + 1..];
        s, idx := args[idx], idx + 1;
      } else if s[0] == '>' {
        assert data + "" == data;
        return Some(data);
      } else {
        var n, rest := SimpleStrToUL(s, 0);
        if |rest| == |s| {
          return None;
        }
        JoinedStep(data, Be32(n), ParseCells(SkipBlanks(rest), args[idx..]));
        data := data + Be32(n);
        s := SkipBlanks(rest);
      }
    }
  }

  /** The `[...]` branch. */
  method ParseByteArgs(first: string, args: seq<string>) returns (r: Option<string>)
    ensures r == ParseBytes(first, args)
  {
    hide StrToUL, SkipBlanks;
    var s, idx, data := first, 0, "";
    assert args[0..] == args;
    JoinedNothing(ParseBytes(first, args));
    while true
      invariant 0 <= idx <= |args|
      invariant Joined(data, ParseBytes(s, args[idx..])) == ParseBytes(first, args)
      decreases |args| - idx, |s|
    {
      var t := SkipBlanks(s);
      if t == "" {
        if idx == |args| {
          return None;
        }
        assert args[idx..][0] == args[idx] && args[idx..][1..] == args[idx + 1..];
        s, idx := args[idx], idx + 1;
      } else if !IsXDigit(t[0]) {
        assert data + "" == data;
        return if t[0] == ']' then Some(data) else None;
      } else {
        var n, rest := SimpleStrToUL(t, 16);
        if |rest| >= |t| {
          return None;
        }
        JoinedStep(data, [(n % 256) as char], ParseBytes(rest, args[idx..]));
        data := data + [(n % 256) as char];
        s := rest;
      }
    }
  }

  /** fdt_parse_prop. */
  method FdtParseProp(args: seq<string>) returns (r: Option<string>)
    requires args != []
    ensures r == ParseProp(args)
  {
    var s := args[0];
    if s != "" && s[0] == '<' {
      r := ParseCellArgs(s[1..], args[1..]);
    } else if s != "" && s[0] == '[' {
      r := ParseByteArgs(s[1..], args[1..]);
    } else {
      var data, idx := "", 0;
      assert args[0..] == args;
      while idx < |args|
        invariant 0 <= idx <= |args|
        invariant data + ParseStrings(args[idx..]) == ParseStrings(args)
      {
        assert args[idx..][0] == args[idx] && args[idx..][1..] == args[idx + 1..];
        ghost var rest := ParseStrings(args[idx + 1..]);
        assert data + (args[idx] + ("\0" + rest)) == (data + args[idx] + "\0") + rest;
        data := data + args[idx] + "\0";
        idx := idx + 1;
      }
      assert data + "" == data;
      r := Some(data);
    }
  }

  /** print_data of a value that is not empty. */
  method ShowData(v: string) returns (shown: Shown)
    requires IsValue(v) && v != ""
    ensures shown == PrintData(v)
  {
    hide Strings, CellsText, BytesText, IsPrintable;
    var printable := IsPrintableString(v);
    if printable {
      var strings := ShowStrings(v);
      return Quoted(strings);
    }
    if |v| % 4 == 0 {
      var text := ShowCells(v);
      return Text("<" + text);
    }
    var text := ShowBytes(v);
    return Text("[" + text);
  }

  /** What a step of a loop printed, in front of what is still to be printed. */
  lemma Moved<T>(done: seq<T>, piece: seq<T>, later: seq<T>)
    ensures done + (piece + later) == (done + piece) + later
  {
  }

  lemma StringsStep(v: string)
    ensures v == "" ==> Strings(v) == []
    ensures v != "" ==>
            var n := StrLen(v); Strings(v) == [v[..n]] + Strings(if n < |v| then v[n + 1..] else "")
  {
    hide StrLen;
  }

  method ShowStrings(v: string) returns (strings: seq<string>)
    ensures strings == Strings(v)
  {
    hide StrLen, Strings;
    var rest := v;
    strings := [];
    assert strings + Strings(rest) == Strings(v);
    while rest != ""
      invariant strings + Strings(rest) == Strings(v)
      decreases |rest|
    {
      var n := StrLen(rest);
      var next := if n < |rest| then rest[n + 1..] else "";
      StringsStep(rest);
      Moved(strings, [rest[..n]], Strings(next));
      strings := strings + [rest[..n]];
      rest := next;
    }
    StringsStep("");
    assert strings + [] == strings;
  }

  /** Cells from byte j on, nothing when there are none left. */
  function CellsLeft(v: string, j: nat): string
    requires IsValue(v) && |v| % 4 == 0 && j <= |v| && j % 4 == 0
  {
    if j < |v| then CellsText(v[j..]) else ""
  }

  lemma CellsStep(v: string, j: nat)
    requires IsValue(v) && |v| % 4 == 0 && j < |v| && j % 4 == 0
    ensures CellsLeft(v, j) ==
            "0x" + Format(CellOf(v[j..]), 16) + (if j + 4 < |v| then " " else ">") + CellsLeft(v, j + 4)
  {
    hide Format, CellOf;
    var w := v[j..];
    assert w[4..] == v[j + 4..];
  }

  method ShowCells(v: string) returns (text: string)
    requires IsValue(v) && v != "" && |v| % 4 == 0
    ensures text == CellsText(v)
  {
    hide Format, CellOf, CellsLeft, CellsText;
    text := "";
    var j := 0;
    assert CellsLeft(v, 0) == CellsText(v) by { AllLeft(v); }
    assert text + CellsText(v) == CellsText(v);
    while j < |v|
      invariant 0 <= j <= |v| && j % 4 == 0
      invariant text + CellsLeft(v, j) == CellsText(v)
    {
      CellsStep(v, j);
      var piece := "0x" + Format(CellOf(v[j..]), 16) + (if j + 4 < |v| then " " else ">");
      Moved(text, piece, CellsLeft(v, j + 4));
      text := text + piece;
      j := j + 4;
    }
    NoneLeft(v);
    assert text + "" == text;
  }

  lemma AllLeft(v: string)
    requires IsValue(v) && v != ""
    ensures |v| % 4 == 0 ==> CellsLeft(v, 0) == CellsText(v)
    ensures BytesLeft(v, 0) == BytesText(v)
  {
    hide CellsText, BytesText;
    assert v[0..] == v;
  }

  lemma NoneLeft(v: string)
    requires IsValue(v)
    ensures |v| % 4 == 0 ==> CellsLeft(v, |v|) == ""
    ensures BytesLeft(v, |v|) == ""
  {
  }

  function BytesLeft(v: string, j: nat): string
    requires IsValue(v) && j <= |v|
  {
    if j < |v| then BytesText(v[j..]) else ""
  }

  lemma BytesStep(v: string, j: nat)
    requires IsValue(v) && j < |v|
    ensures BytesLeft(v, j) ==
      FormatPadded(v[j] as int, 16, 2) + (if j + 1 < |v| then " " else "]") + BytesLeft(v, j + 1)
  {
    hide FormatPadded;
    assert v[j..][0] == v[j] && v[j..][1..] == v[j + 1..];
  }

  method ShowBytes(v: string) returns (text: string)
    requires IsValue(v) && v != ""
    ensures text == BytesText(v)
  {
    hide FormatPadded, BytesLeft, BytesText;
    text := "";
    var j := 0;
    AllLeft(v);
    assert text + BytesText(v) == BytesText(v);
    while j < |v|
      invariant 0 <= j <= |v|
      invariant text + BytesLeft(v, j) == BytesText(v)
    {
      BytesStep(v, j);
      var piece := FormatPadded(v[j] as int, 16, 2) + (if j + 1 < |v| then " " else "]");
      Moved(text, piece, BytesLeft(v, j + 1));
      text := text + piece;
      j := j + 1;
    }
    NoneLeft(v);
    assert text + "" == text;
  }
}
