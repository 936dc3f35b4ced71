/**
 Device-tree property values as text: print_data of common/cmd_fdt.c chooses
 strings, cells or bytes, and fdt_parse_prop reads the three forms back. A
 value is a string of characters below 256.
 */
module FdtProp {
  import opened Machine
  import opened Option
  import opened Numerals

  predicate IsValue(v: string) {
    forall i :: 0 <= i < |v| ==> v[i] as int < 256
  }

  // --------------------------------------------------------------------
  // Parsing
  // --------------------------------------------------------------------

  function SkipBlanks(s: string): (r: string)
    ensures |r| <= |s|
  {
    if s != "" && s[0] == ' ' then SkipBlanks(s[1..]) else s
  }

  /** The four bytes of a cell, most significant first. */
  function Be32(n: nat): (s: string)
    requires n < ULONG
    ensures |s| == 4 && IsValue(s)
  {
    [(n / 0x100_0000) as char, (n / 0x1_0000 % 256) as char, (n / 256 % 256) as char, (n % 256) as char]
  }

  /** `<...>`: cells from the text s and the arguments after it. */
  function ParseCells(s: string, more: seq<string>): Option<string>
    decreases |more|, |s|
  {
    if s == "" then
      if more == [] then None else ParseCells(more[0], more[1..])
    else if s[0] == '>' then Some("")
    else
      var (n, rest) := StrToUL(s, 0);
      if |rest| == |s| then None
      else
        match ParseCells(SkipBlanks(rest), more)
        case None => None
        case Some(v) => Some(Be32(n) + v)
  }

  /** `[...]`: bytes. */
  function ParseBytes(s: string, more: seq<string>): Option<string>
    decreases |more|, |s|
  {
    var t := SkipBlanks(s);
    if t == "" then
      if more == [] then None else ParseBytes(more[0], more[1..])
    else if !IsXDigit(t[0]) then
      if t[0] == ']' then Some("") else None
    else
      var (n, rest) := StrToUL(t, 16);
      if |rest| >= |t| then None
      else
        match ParseBytes(rest, more)
        case None => None
        case Some(v) => Some([(n % 256) as char] + v)
  }

  /** One or more strings, each with its terminating NUL. */
  function ParseStrings(args: seq<string>): string {
    if args == [] then "" else args[0] + ("\0" + ParseStrings(args[1..]))
  }

  /** fdt_parse_prop. */
  function ParseProp(args: seq<string>): Option<string>
    requires args != []
  {
    var s := args[0];
    if s != "" && s[0] == '<' then ParseCells(s[1..], args[1..])
    else if s != "" && s[0] == '[' then ParseBytes(s[1..], args[1..])
    else Some(ParseStrings(args))
  }

  // --------------------------------------------------------------------
  // Printing
  // --------------------------------------------------------------------

  /** isprint of lib/ctype.c. */
  predicate IsPrint(c: char) {
    ' ' <= c <= '~' || 160 <= c as int < 256
  }

  /** is_printable_string: NUL-terminated strings, one behind the other, none but the first empty. */
  predicate PrintableFrom(s: string) {
    if s == "" then false
    else if s[0] == '\0' then |s| == 1 || (s[1] != '\0' && PrintableFrom(s[1..]))
    else IsPrint(s[0]) && PrintableFrom(s[1..])
  }

  predicate IsPrintable(v: string) {
    v != "" && v[|v| - 1] == '\0' && PrintableFrom(v)
  }

  /** strlen. */
  function StrLen(s: string): (n: nat)
    ensures n <= |s| && '\0' !in s[..n] && (n < |s| ==> s[n] == '\0')
  {
    if s == "" || s[0] == '\0' then 0 else 1 + StrLen(s[1..])
  }

  /** The strings of a value, as print_data puts them between quotes. */
  function Strings(v: string): seq<string>
    decreases |v|
  {
    if v == "" then []
    else
      var n := StrLen(v);
      [v[..n]] + Strings(if n < |v| then v[n + 1..] else "")
  }

  function CellOf(v: string): (n: nat)
    requires |v| >= 4 && IsValue(v)
    ensures n < ULONG
  {
    v[0] as int * 0x100_0000 + v[1] as int * 0x1_0000 + v[2] as int * 256 + v[3] as int
  }

  /** Cells: `0x%x`, blanks between them, and the closing bracket. */
  function CellsText(v: string): string
    requires IsValue(v) && |v| % 4 == 0 && v != ""
  {
    "0x" + (Format(CellOf(v), 16) + if |v| == 4 then ">" else " " + CellsText(v[4..]))
  }

  /** Bytes: `%02x`, blanks between them, and the closing bracket. */
  function BytesText(v: string): string
    requires IsValue(v) && v != ""
  {
    FormatPadded(v[0] as int, 16, 2) + if |v| == 1 then "]" else " " + BytesText(v[1..])
  }

  /** What print_data shows: strings in quotes, or a bracketed text. */
  datatype Shown = Quoted(strings: seq<string>) | Text(text: string)

  function PrintData(v: string): Shown
    requires IsValue(v) && v != ""
  {
    if IsPrintable(v) then Quoted(Strings(v))
    else if |v| % 4 == 0 then Text("<" + CellsText(v))
    else Text("[" + BytesText(v))
  }

  /** The arguments joined with single blanks. */
  function Join(args: seq<string>): string
    requires args != []
  {
    if |args| == 1 then args[0] else args[0] + (" " + Join(args[1..]))
  }

  /**
   How a shown value can be typed in: quoted strings one argument each, a text split at any
   of its blanks or at none.
   */
  predicate TypedAs(shown: Shown, args: seq<string>) {
    && args != []
    && match shown
       case Quoted(strings) => args == strings
       case Text(text) => Join(args) == text
  }

  // --------------------------------------------------------------------
  // Cells
  // --------------------------------------------------------------------

  lemma CellRoundTrip(v: string)
    requires |v| >= 4 && IsValue(v)
    ensures Be32(CellOf(v)) == v[..4]
  {
    DigitsOf(v[0] as int, v[1] as int, v[2] as int, v[3] as int, CellOf(v));
  }

  lemma DigitsOf(a: nat, b: nat, c: nat, d: nat, n: nat)
    requires a < 256 && b < 256 && c < 256 && d < 256 && n == a * 0x100_0000 + b * 0x1_0000 + c * 256 + d
    ensures n / 0x100_0000 == a && n / 0x1_0000 % 256 == b && n / 256 % 256 == c && n % 256 == d
  {
    assert n / 0x100_0000 == a;
    assert n / 0x1_0000 == a * 256 + b;
    assert n / 256 == a * 0x1_0000 + b * 256 + c;
  }

  /** `0x` and hexadecimal digits are read back in base 0. */
  lemma HexCell(n: nat, rest: string)
    requires n < ULONG && StopsScan(rest, 16)
    ensures StrToUL("0x" + (Format(n, 16) + rest), 0) == (n, rest)
  {
    hide Format;
    var digits := Format(n, 16) + rest;
    var s := "0x" + digits;
    assert digits[0] == Format(n, 16)[0] && IsDigitOf(digits[0], 16);
    assert s[0] == '0' && s[1] == 'x' && s[2] == digits[0] && s[2..] == digits;
    assert Prefix(s, 0) == (2, 16);
    ScanFormat(n, 16, rest);
  }

  /** A token without blanks at the head of joined arguments lies inside the first argument. */
  lemma FirstToken(args: seq<string>, token: string, rest: string)
    requires args != [] && Join(args) == token + rest && ' ' !in token
    ensures |token| <= |args[0]| && args[0][..|token|] == token
    ensures var s := args[0][|token|..];
            if |args| == 1 then s == rest else rest == s + (" " + Join(args[1..]))
  {
    var s, j := args[0], Join(args);
    assert |args| > 1 ==> j[|s|] == ' ' && (token + rest)[|s|] == ' ';
    assert s == j[..|s|];
    assert (token + rest)[..|token|] == token;
    assert s[..|token|] == j[..|token|];
    assert (token + rest)[|token|..] == rest;
    if |args| > 1 {
      assert j[|token|..] == s[|token|..] + (" " + Join(args[1..]));
    }
  }

  /** What is left of the arguments after a token and the blank behind it. */
  function NextArgs(args: seq<string>, rest: string): seq<string>
    requires args != []
  {
    if rest == "" then args[1..] else [rest[1..]] + args[1..]
  }

  lemma Resume(args: seq<string>, rest: string, text: string)
    requires args != [] && text != "" && text[0] != ' '
    requires var after := " " + text; if |args| == 1 then rest == after else after == rest + (" " + Join(args[1..]))
    ensures var next := NextArgs(args, rest);
            && next != [] && Join(next) == text && next[0] != "" && next[0][0] != ' '
            && (rest == "" ==> |args| > 1 && next == args[1..])
            && (rest != "" ==> rest == " " + next[0] && next[1..] == args[1..])
  {
    var after, more := " " + text, args[1..];
    assert after[0] == ' ' && after[1..] == text;
    if |args| == 1 {
      assert NextArgs(args, rest) == [text];
    } else if rest == "" {
      assert after == " " + Join(more);
      assert Join(more) == after[1..];
      JoinHead(more, text);
    } else {
      assert rest[0] == after[0];
      var s := rest[1..];
      var next := [s] + more;
      assert next[1..] == more;
      assert after[1..] == s + (" " + Join(more));
      JoinHead(next, text);
    }
  }

  lemma JoinHead(args: seq<string>, text: string)
    requires args != [] && Join(args) == text && text != "" && text[0] != ' '
    ensures args[0] != "" && args[0][0] != ' '
  {
    assert text[0] == args[0][0];
  }

  /** A closing bracket behind the last token ends the arguments. */
  lemma Closing(args: seq<string>, rest: string, c: char)
    requires args != [] && c != ' '
    requires if |args| == 1 then rest == [c] else [c] == rest + (" " + Join(args[1..]))
    ensures |args| == 1 && rest == [c]
  {
    if |args| > 1 {
      BlankInside(rest, Join(args[1..]));
    }
  }

  lemma BlankInside(a: string, b: string)
    ensures ' ' in a + (" " + b)
  {
    assert (a + (" " + b))[|a|] == ' ';
  }

  lemma FormatNoBlank(n: nat)
    ensures ' ' !in Format(n, 16)
  {
    hide Format;
    var f := Format(n, 16);
    forall i | 0 <= i < |f| ensures f[i] != ' ' {
      assert IsDigitOf(f[i], 16);
    }
  }

  lemma CellsTextStarts(v: string)
    requires IsValue(v) && |v| % 4 == 0 && v != ""
    ensures CellsText(v) != "" && CellsText(v)[0] == '0'
  {
    hide Format;
  }

  lemma ParseCellsFirst(s: string, n: nat, rest: string, more: seq<string>)
    requires n < ULONG && s == "0x" + (Format(n, 16) + rest) && StopsScan(rest, 16)
    ensures ParseCells(s, more) ==
      match ParseCells(SkipBlanks(rest), more) case None => None case Some(v) => Some(Be32(n) + v)
  {
    hide Format, StrToUL, Be32;
    HexCell(n, rest);
    assert s[0] == '0';
  }

  /** The first cell of the arguments, and what is left of the first argument behind it. */
  lemma CellHead(n: nat, after: string, args: seq<string>) returns (rest: string)
    requires args != [] && Join(args) == "0x" + (Format(n, 16) + after)
    ensures args[0] == "0x" + (Format(n, 16) + rest)
    ensures if |args| == 1 then rest == after else after == rest + (" " + Join(args[1..]))
  {
    hide Format, Join;
    var token := "0x" + Format(n, 16);
    FormatNoBlank(n);
    assert "0x" + (Format(n, 16) + after) == token + after;
    FirstToken(args, token, after);
    rest := args[0][|token|..];
    assert args[0] == token + rest;
  }

  /** Cells are read back from their text, however it is split into arguments. */
  lemma {:induction false} ParseCellsText(v: string, args: seq<string>)
    requires IsValue(v) && |v| % 4 == 0 && v != "" && args != [] && Join(args) == CellsText(v)
    ensures ParseCells(args[0], args[1..]) == Some(v)
    decreases |v|
  {
    hide Format, ParseCells, Join, Be32, CellOf, NextArgs, SkipBlanks;
    var n, w, more := CellOf(v), v[4..], args[1..];
    CellRoundTrip(v);
    assert v == v[..4] + w;
    if |v| == 4 {
      var rest := CellHead(n, ">", args);
      Closing(args, rest, '>');
      ParseCellsFirst(args[0], n, rest, more);
      CellsClosed(more);
      assert w == "" && v[..4] + "" == v[..4];
    } else {
      var text := CellsText(w);
      var rest := CellHead(n, " " + text, args);
      CellsTextStarts(w);
      Resume(args, rest, text);
      var next := NextArgs(args, rest);
      ParseCellsText(w, next);
      RestStops(rest, next);
      ParseCellsFirst(args[0], n, rest, more);
      SkipOne(next[0]);
      CellsNextArg(more);
    }
  }

  lemma RestStops(rest: string, next: seq<string>)
    requires next != [] && (rest != "" ==> rest == " " + next[0])
    ensures StopsScan(rest, 16)
  {
  }

  lemma CellsClosed(more: seq<string>)
    ensures ParseCells(">", more) == Some("") && SkipBlanks(">") == ">"
  {
  }

  lemma SkipOne(s: string)
    requires s != "" && s[0] != ' '
    ensures SkipBlanks(" " + s) == SkipBlanks(s) == s && SkipBlanks("") == ""
  {
    assert (" " + s)[1..] == s;
  }

  lemma CellsNextArg(more: seq<string>)
    ensures more != [] ==> ParseCells("", more) == ParseCells(more[0], more[1..])
  {
  }

  // --------------------------------------------------------------------
  // Bytes
  // --------------------------------------------------------------------

  lemma FoldTwo(a: nat, b: nat)
    requires a < 16 && b < 16
    ensures AllDigits([Digit(a), Digit(b)], 16) && Fold([Digit(a), Digit(b)], 16, 0) == a * 16 + b
    ensures AllDigits([Digit(b)], 16) && Fold([Digit(b)], 16, 0) == b
  {
    var s := [Digit(a), Digit(b)];
    assert s[1..] == [Digit(b)] && [Digit(b)][1..] == "";
    assert Fold("", 16, a * 16 + b) == a * 16 + b && Fold("", 16, b) == b;
    assert Shift(0, 16, s[0]) == a && Shift(a, 16, s[1]) == a * 16 + b && Shift(0, 16, s[1]) == b;
  }

  /** Two hexadecimal digits are read back in base 16. */
  lemma HexByte(n: nat, rest: string)
    requires n < 256 && StopsScan(rest, 16)
    ensures StrToUL(FormatPadded(n, 16, 2) + rest, 16) == (n, rest)
    ensures |FormatPadded(n, 16, 2)| == 2 && ' ' !in FormatPadded(n, 16, 2) && IsXDigit(FormatPadded(n, 16, 2)[0])
  {
    hide FormatPadded, Scan, Fold;
    HexDigits(n);
    var a, b := n / 16, n % 16;
    FoldTwo(a, b);
    var f := [Digit(a), Digit(b)];
    var s := f + rest;
    if a == 0 {
      assert s[0] == '0' && s[1] == f[1];
      assert Prefix(s, 16) == (1, 16);
      assert s[1..] == [f[1]] + rest;
      ScanDigits([f[1]], rest, 16, 0);
    } else {
      assert s[0] == f[0] != '0';
      assert Prefix(s, 16) == (0, 16) && s[0..] == f + rest;
      ScanDigits(f, rest, 16, 0);
    }
  }

  lemma HexDigits(n: nat)
    requires n < 256
    ensures FormatPadded(n, 16, 2) == [Digit(n / 16), Digit(n % 16)]
  {
    if n < 16 {
      assert Format(n, 16) == [Digit(n)];
      assert Zeros(1) == ['0'] && Digit(0) == '0';
    } else {
      assert Format(n / 16, 16) == [Digit(n / 16)];
    }
  }

  lemma BytesTextStarts(v: string)
    requires IsValue(v) && v != ""
    ensures BytesText(v) != "" && BytesText(v)[0] != ' '
  {
    hide FormatPadded;
    HexByte(v[0] as int, "");
  }

  lemma ParseBytesFirst(s: string, n: nat, rest: string, more: seq<string>)
    requires n < 256 && s == FormatPadded(n, 16, 2) + rest && StopsScan(rest, 16)
    ensures ParseBytes(s, more) == match ParseBytes(rest, more) case None => None case Some(v) => Some([n as char] + v)
  {
    hide FormatPadded, StrToUL;
    HexByte(n, rest);
    assert s[0] == FormatPadded(n, 16, 2)[0];
    assert SkipBlanks(s) == s;
  }

  lemma BytesNextArg(s: string, more: seq<string>)
    requires s != "" && s[0] != ' '
    ensures ParseBytes(" " + s, more) == ParseBytes(s, more)
    ensures more != [] ==> ParseBytes("", more) == ParseBytes(more[0], more[1..])
    ensures ParseBytes("]", more) == Some("")
  {
    hide SkipBlanks, StrToUL;
    SkipOne(s);
    SkipOne("]");
  }

  /** Bytes are read back from their text, however it is split into arguments. */
  lemma {:induction false} ParseBytesText(v: string, args: seq<string>)
    requires IsValue(v) && v != "" && args != [] && Join(args) == BytesText(v)
    ensures ParseBytes(args[0], args[1..]) == Some(v)
    decreases |v|
  {
    hide FormatPadded, ParseBytes, Join;
    var n := v[0] as int;
    var token := FormatPadded(n, 16, 2);
    var last := |v| == 1;
    var after := if last then "]" else " " + BytesText(v[1..]);
    assert BytesText(v) == token + after;
    HexByte(n, "");
    FirstToken(args, token, after);
    assert v == [v[0]] + v[1..];
    var s, more := args[0], args[1..];
    var rest := s[|token|..];
    assert s == token + rest;
    if last {
      Closing(args, rest, ']');
      ParseBytesFirst(s, n, rest, more);
      BytesNextArg("0", more);
    } else {
      var text, next := BytesText(v[1..]), NextArgs(args, rest);
      BytesTextStarts(v[1..]);
      Resume(args, rest, text);
      ParseBytesText(v[1..], next);
      ParseBytesFirst(s, n, rest, more);
      BytesNextArg(next[0], more);
    }
  }

  // --------------------------------------------------------------------
  // Strings
  // --------------------------------------------------------------------

  /** The strings of a NUL-terminated value, each with its NUL again, are the value. */
  lemma {:induction false} ParseStringsBack(v: string)
    requires v != "" && v[|v| - 1] == '\0'
    ensures Strings(v) != [] && Strings(v)[0] == v[..StrLen(v)]
    ensures ParseStrings(Strings(v)) == v
    decreases |v|
  {
    hide StrLen, Strings, ParseStrings;
    var n := StrLen(v);
    assert n < |v| by { assert v[|v| - 1] in v[..|v|]; }
    var more := v[n + 1..];
    StringsStep(v);
    ParseStringsStep(v[..n], Strings(more));
    assert v == v[..n] + ("\0" + more);
    if more != "" {
      ParseStringsBack(more);
    }
  }

  lemma StringsStep(v: string)
    requires v != "" && StrLen(v) < |v|
    ensures Strings(v) == [v[..StrLen(v)]] + Strings(v[StrLen(v) + 1..]) && Strings("") == []
  {
    hide StrLen;
  }

  lemma ParseStringsStep(s: string, more: seq<string>)
    ensures ParseStrings([s] + more) == s + ("\0" + ParseStrings(more)) && ParseStrings([]) == ""
  {
    assert ([s] + more)[1..] == more;
  }

  // -- a string that looks like cells or bytes is not read back

  function TotalLen(args: seq<string>): nat {
    if args == [] then 0 else |args[0]| + TotalLen(args[1..])
  }

  lemma {:induction false} ParseStringsLen(args: seq<string>)
    ensures |ParseStrings(args)| == TotalLen(args) + |args|
  {
    if args != [] {
      ParseStringsLen(args[1..]);
    }
  }

  lemma {:induction false} BytesNoLonger(s: string, more: seq<string>)
    ensures ParseBytes(s, more).Some? ==> |ParseBytes(s, more).value| <= |s| + TotalLen(more)
    decreases |more|, |s|
  {
    hide StrToUL, SkipBlanks;
    var t := SkipBlanks(s);
    if t == "" {
      if more != [] { BytesNoLonger(more[0], more[1..]); }
    } else if IsXDigit(t[0]) {
      var rest := StrToUL(t, 16).1;
      if |rest| < |t| { BytesNoLonger(rest, more); }
    }
  }

  function Pow16(k: nat): (p: nat)
    ensures p > 0
  {
    if k == 0 then 1 else 16 * Pow16(k - 1)
  }

  lemma {:induction false} ScanBound(s: string, base: nat, acc: nat, k: nat)
    requires base <= 16 && acc < Pow16(k)
    ensures Scan(s, base, acc).0 < Pow16(k + |s| - |Scan(s, base, acc).1|)
    decreases |s|
  {
    hide Shift, Pow16, Scan, IsXDigit, DigitValue;
    ScanStep(s, base, acc);
    if s != "" && IsDigitOf(s[0], base) {
      ShiftBound(acc, base, s[0], k);
      ScanBound(s[1..], base, Shift(acc, base, s[0]), k + 1);
    }
  }

  lemma ScanStep(s: string, base: nat, acc: nat)
    ensures Scan(s, base, acc)
      == if s != "" && IsDigitOf(s[0], base) then Scan(s[1..], base, Shift(acc, base, s[0])) else (acc, s)
  {
  }

  lemma ShiftBound(acc: nat, base: nat, c: char, k: nat)
    requires base <= 16 && acc < Pow16(k) && IsDigitOf(c, base)
    ensures Shift(acc, base, c) < Pow16(k + 1)
  {
    hide DigitValue, IsXDigit;
    assert Pow16(k + 1) == 16 * Pow16(k);
    TimesAtMost(acc, base);
    ModAtMost(acc * base + DigitValue(c));
  }

  lemma TimesAtMost(a: nat, base: nat)
    requires base <= 16
    ensures 0 <= a * base <= a * 16
  {
  }

  lemma ModAtMost(x: nat)
    ensures x % ULONG <= x
  {
  }

  lemma {:induction false} Pow16Monotone(a: nat, b: nat)
    requires a <= b
    ensures Pow16(a) <= Pow16(b)
    decreases b
  {
    if a < b { Pow16Monotone(a, b - 1); }
  }

  /** A number of more than five hexadecimal digits' worth takes more than five characters. */
  lemma BigTakesSix(s: string)
    requires StrToUL(s, 0).0 >= 0x10_0000
    ensures |s| - |StrToUL(s, 0).1| >= 6
  {
    hide Scan, Prefix, Pow16;
    var (skip, base) := Prefix(s, 0);
    AnyBase(s);
    ScanBound(s[skip..], base, 0, 0);
    var used := |s| - skip - |StrToUL(s, 0).1|;
    if used <= 5 {
      Pow16Monotone(used, 5);
      PowFive();
    }
  }

  lemma AnyBase(s: string)
    ensures Prefix(s, 0).1 <= 16 && 0 < Pow16(0)
  {
  }

  lemma PowFive()
    ensures Pow16(5) == 0x10_0000
  {
    assert Pow16(1) == 16 && Pow16(2) == 256 && Pow16(3) == 4096;
    assert Pow16(4) == 16 * Pow16(3);
  }

  /** Every four bytes make a number with something in its upper half. */
  predicate BigCells(w: string)
    requires IsValue(w)
  {
    |w| >= 4 ==> CellOf(w) >= 0x10_0000 && BigCells(w[4..])
  }

  lemma {:induction false} CellsTakeText(s: string, more: seq<string>)
    requires ParseCells(s, more).Some? && IsValue(ParseCells(s, more).value) && BigCells(ParseCells(s, more).value)
    ensures |ParseCells(s, more).value| % 4 == 0
    ensures 6 * |ParseCells(s, more).value| <= 4 * (|s| + TotalLen(more))
    decreases |more|, |s|
  {
    hide StrToUL, SkipBlanks, Be32, CellOf, BigCells, IsValue;
    if s == "" {
      CellsTakeText(more[0], more[1..]);
    } else if s[0] != '>' {
      var (n, rest) := StrToUL(s, 0);
      var w := ParseCells(SkipBlanks(rest), more).value;
      var v := Be32(n) + w;
      FirstCell(n, w, v);
      BigTakesSix(s);
      CellsTakeText(SkipBlanks(rest), more);
    }
  }

  lemma FirstCell(n: nat, w: string, v: string)
    requires n < ULONG && v == Be32(n) + w && IsValue(v) && BigCells(v)
    ensures |v| == 4 + |w| && IsValue(w) && n >= 0x10_0000 && BigCells(w)
  {
    hide Be32, CellOf;
    assert v[4..] == w && v[..4] == Be32(n);
    Be32Back(n, v);
  }

  lemma Be32Back(n: nat, v: string)
    requires n < ULONG && |v| >= 4 && IsValue(v) && v[..4] == Be32(n)
    ensures CellOf(v) == n
  {
    assert v[0] == v[..4][0] && v[1] == v[..4][1] && v[2] == v[..4][2] && v[3] == v[..4][3];
    FourBytes(n);
  }

  lemma FourBytes(n: nat)
    requires n < ULONG
    ensures n / 0x100_0000 < 256
    ensures n / 0x100_0000 * 0x100_0000 + n / 0x1_0000 % 256 * 0x1_0000 + n / 256 % 256 * 256 + n % 256 == n
  {
    var x, y := n / 256, n / 0x1_0000;
    assert x / 256 == y && y / 256 == n / 0x100_0000;
    assert n == x * 256 + n % 256 && x == y * 256 + x % 256 && y == y / 256 * 256 + y % 256;
  }

  predicate NoDoubleNul(v: string) {
    forall i :: 0 <= i < |v| - 1 ==> !(v[i] == '\0' && v[i + 1] == '\0')
  }

  predicate NulOrPrint(v: string) {
    forall i :: 0 <= i < |v| ==> v[i] == '\0' || IsPrint(v[i])
  }

  lemma {:induction false} PrintableIs(v: string)
    requires PrintableFrom(v)
    ensures NoDoubleNul(v) && NulOrPrint(v) && IsValue(v)
  {
    var more := v[1..];
    if more != "" {
      PrintableIs(more);
    }
    forall i | 0 <= i < |v| ensures v[i] == '\0' || IsPrint(v[i]) {
      if i > 0 { assert v[i] == more[i - 1]; }
    }
    forall i | 0 <= i < |v| - 1 ensures !(v[i] == '\0' && v[i + 1] == '\0') {
      if i > 0 { assert v[i] == more[i - 1] && v[i + 1] == more[i]; }
    }
  }

  lemma {:induction false} PrintableBig(v: string)
    requires NoDoubleNul(v) && NulOrPrint(v) && IsValue(v)
    ensures BigCells(v)
    decreases |v|
  {
    if |v| >= 4 {
      var w := v[4..];
      assert forall i :: 0 <= i < |w| ==> w[i] == v[i + 4];
      PrintableBig(w);
      assert !(v[0] == '\0' && v[1] == '\0');
      assert v[0] == '\0' || IsPrint(v[0]);
      assert v[1] == '\0' || IsPrint(v[1]);
    }
  }

  /** Neither a control character nor one with the high bit, nor DEL. */
  predicate Visible(c: char) {
    c as int < 256 && c as int % 128 >= 32 && c as int != 127
  }

  lemma {:induction false} PrintableBack(v: string)
    requires v != "" && v[|v| - 1] == '\0' && NoDoubleNul(v) && NulOrPrint(v)
    ensures PrintableFrom(v)
  {
    if |v| > 1 {
      var more := v[1..];
      assert forall i :: 0 <= i < |more| ==> more[i] == v[i + 1];
      PrintableBack(more);
    }
  }

  /** The values shown as strings: visible characters and NULs, one of them at the end and no two together. */
  lemma PrintableIff(v: string)
    ensures IsPrintable(v) <==>
      && v != "" && v[|v| - 1] == '\0' && NoDoubleNul(v)
      && forall i :: 0 <= i < |v| ==> v[i] == '\0' || Visible(v[i])
  {
    hide NoDoubleNul, PrintableFrom;
    assert NulOrPrint(v) <==> forall i :: 0 <= i < |v| ==> v[i] == '\0' || Visible(v[i]);
    if IsPrintable(v) {
      PrintableIs(v);
    } else if v != "" && v[|v| - 1] == '\0' && NoDoubleNul(v) && NulOrPrint(v) {
      PrintableBack(v);
    }
  }

  // -- malformed text

  predicate Closed(s: string, more: seq<string>, c: char) {
    c in s || exists i :: 0 <= i < |more| && c in more[i]
  }

  lemma ClosedNext(s: string, more: seq<string>, c: char)
    requires more != [] && Closed(more[0], more[1..], c)
    ensures Closed(s, more, c)
  {
    if c !in more[0] {
      var i :| 0 <= i < |more[1..]| && c in more[1..][i];
      assert c in more[i + 1];
    }
  }

  lemma ClosedOn(s: string, n: nat, more: seq<string>, c: char)
    requires n <= |s| && Closed(s[n..], more, c)
    ensures Closed(s, more, c)
  {
  }

  /** Cells are refused when something else stands where a number should begin, or without a closing bracket. */
  lemma {:induction false} CellsRefused(s: string, more: seq<string>)
    ensures s != "" && s[0] != '>' && !IsDigit(s[0]) ==> ParseCells(s, more).None?
    ensures ParseCells(s, more).Some? ==> Closed(s, more, '>')
    decreases |more|, |s|
  {
    hide Closed, SkipBlanks;
    if s == "" {
      if more != [] {
        CellsRefused(more[0], more[1..]);
        if Closed(more[0], more[1..], '>') {
          ClosedNext(s, more, '>');
        }
      }
    } else if s[0] == '>' {
      ClosedHere(s, 0, more, '>');
    } else {
      var rest := StrToUL(s, 0).1;
      if |rest| < |s| {
        var k := BlanksSkipped(rest);
        CellsRefused(rest[k..], more);
        if ParseCells(s, more).Some? {
          ClosedOn(rest, k, more, '>');
          ClosedOn(s, |s| - |rest|, more, '>');
        }
      }
    }
  }

  lemma ClosedHere(s: string, i: nat, more: seq<string>, c: char)
    requires i < |s| && s[i] == c
    ensures Closed(s, more, c)
  {
  }

  lemma {:induction false} BlanksSkipped(s: string) returns (k: nat)
    ensures k <= |s| && SkipBlanks(s) == s[k..]
    ensures forall i :: 0 <= i < k ==> s[i] == ' '
    ensures k < |s| ==> s[k] != ' '
  {
    k := 0;
    if s != "" && s[0] == ' ' {
      var j := BlanksSkipped(s[1..]);
      assert forall i :: 1 <= i <= j ==> s[i] == s[1..][i - 1];
      k := j + 1;
    }
  }

  /** So are bytes; blanks may stand in front of a byte. */
  lemma {:induction false} BytesRefused(s: string, more: seq<string>)
    ensures var t := SkipBlanks(s); t != "" && t[0] != ']' && !IsXDigit(t[0]) ==> ParseBytes(s, more).None?
    ensures ParseBytes(s, more).Some? ==> Closed(s, more, ']')
    decreases |more|, |s|
  {
    hide Closed, SkipBlanks;
    var k := BlanksSkipped(s);
    var t := SkipBlanks(s);
    if t == "" {
      if more != [] {
        BytesRefused(more[0], more[1..]);
        if Closed(more[0], more[1..], ']') {
          ClosedNext(s, more, ']');
        }
      }
    } else if IsXDigit(t[0]) {
      var rest := StrToUL(t, 16).1;
      if |rest| < |t| {
        BytesRefused(rest, more);
        if ParseBytes(s, more).Some? {
          ClosedOn(t, |t| - |rest|, more, ']');
          ClosedOn(s, k, more, ']');
        }
      }
    } else if t[0] == ']' {
      ClosedHere(s, k, more, ']');
    }
  }

  /** The strings that fdt_parse_prop takes for cells or bytes. */
  predicate LooksBracketed(v: string) {
    v != "" && (v[0] == '<' || v[0] == '[')
  }

  lemma BracketedLost(v: string)
    requires IsValue(v) && IsPrintable(v) && LooksBracketed(v)
    ensures Strings(v) != [] && ParseProp(Strings(v)) != Some(v)
  {
    hide Strings, ParseCells, ParseBytes, PrintableFrom, StrLen;
    ParseStringsBack(v);
    var args := Strings(v);
    var s, more := args[0][1..], args[1..];
    assert v[0] != '\0';
    assert StrLen(v) > 0 by { StrLenPositive(v); }
    assert args[0][0] == v[0];
    ParseStringsLen(args);
    assert TotalLen(args) == |args[0]| + TotalLen(more);
    if v[0] == '[' {
      BytesNoLonger(s, more);
    } else {
      PrintableIs(v);
      PrintableBig(v);
      if ParseCells(s, more) == Some(v) {
        CellsTakeText(s, more);
      }
    }
  }

  lemma StrLenPositive(v: string)
    requires v != "" && v[0] != '\0'
    ensures StrLen(v) > 0
  {
  }

  /**
   FDT value round trip: typing back what print_data shows yields the value,
   exactly when it was not shown as strings of which the first begins with `<` or `[`.
   */
  lemma PropRoundTrip(v: string, args: seq<string>)
    requires IsValue(v) && v != "" && TypedAs(PrintData(v), args)
    ensures ParseProp(args) == Some(v) <==> !(IsPrintable(v) && LooksBracketed(v))
  {
    hide ParseCells, ParseBytes, CellsText, BytesText, Strings, PrintableFrom, StrLen;
    if IsPrintable(v) {
      if LooksBracketed(v) {
        BracketedLost(v);
      } else {
        ParseStringsBack(v);
        assert args[0] != "" ==> args[0][0] == v[0];
      }
    } else if |v| % 4 == 0 {
      var text := CellsText(v);
      DropBracket(args, '<', text);
      ParseCellsText(v, [args[0][1..]] + args[1..]);
      assert ([args[0][1..]] + args[1..])[1..] == args[1..];
    } else {
      var text := BytesText(v);
      DropBracket(args, '[', text);
      ParseBytesText(v, [args[0][1..]] + args[1..]);
      assert ([args[0][1..]] + args[1..])[1..] == args[1..];
    }
  }

  lemma DropBracket(args: seq<string>, c: char, text: string)
    requires args != [] && Join(args) == [c] + text && c != ' '
    ensures args[0] != "" && args[0][0] == c
    ensures Join([args[0][1..]] + args[1..]) == text
  {
    JoinHead(args, [c] + text);
    var next := [args[0][1..]] + args[1..];
    assert next[1..] == args[1..];
    assert ([c] + text)[1..] == text;
    if |args| > 1 {
      assert Join(args)[1..] == args[0][1..] + (" " + Join(args[1..]));
    }
  }
}
