/**
 Numbers in text: `simple_strtoul` from lib/vsprintf.c and the `%u` / `%x`
 conversions that the partition, device-tree and environment code print with.
 A C string is a `string` without its terminating NUL; a moved pointer is the
 remaining suffix.
 */
module Numerals {
  import opened Machine

  predicate IsDigit(c: char) {
    '0' <= c <= '9'
  }

  predicate IsXDigit(c: char) {
    IsDigit(c) || 'a' <= c <= 'f' || 'A' <= c <= 'F'
  }

  function DigitValue(c: char): nat
    requires IsXDigit(c)
  {
    if IsDigit(c) then c as int - '0' as int
    else if 'a' <= c <= 'f' then c as int - 'a' as int + 10
    else c as int - 'A' as int + 10
  }

  predicate IsDigitOf(c: char, base: nat) {
    IsXDigit(c) && DigitValue(c) < base
  }

  /** One more digit, with 32-bit wrap-around. */
  function Shift(acc: nat, base: nat, c: char): (r: nat)
    requires IsXDigit(c)
    ensures r < ULONG
  {
    (acc * base + DigitValue(c)) % ULONG
  }

  /** The digit loop of simple_strtoul: value (with 32-bit wrap-around) and what is left. */
  function Scan(s: string, base: nat, acc: nat): (r: (nat, string))
    ensures |r.1| <= |s| && r.1 == s[|s| - |r.1|..]
    ensures acc < ULONG ==> r.0 < ULONG
    ensures r.0 != acc ==> |r.1| < |s|
  {
    if s != "" && IsDigitOf(s[0], base)
    then Scan(s[1..], base, Shift(acc, base, s[0]))
    else (acc, s)
  }

  /** What the prefix of a number says: how many characters it takes and the base it selects. */
  function Prefix(s: string, base: nat): (r: (nat, nat))
    ensures r.0 <= |s| && r.1 != 0
  {
    if s != "" && s[0] == '0' then
      if |s| > 2 && s[1] == 'x' && IsXDigit(s[2]) then (2, 16)
      else (1, if base == 0 then 8 else base)
    else (0, if base == 0 then 10 else base)
  }

  /** simple_strtoul(cp, &endp, base), base 0 meaning C notation. */
  function StrToUL(s: string, base: nat): (r: (nat, string))
    ensures r.0 < ULONG && |r.1| <= |s| && r.1 == s[|s| - |r.1|..]
    ensures r.0 != 0 ==> |r.1| < |s|
  {
    var (skip, b) := Prefix(s, base);
    Scan(s[skip..], b, 0)
  }

  /** simple_strtoul as the source runs it, moving a pointer over the text. */
  method SimpleStrToUL(s: string, base: nat) returns (value: nat, rest: string)
    ensures (value, rest) == StrToUL(s, base)
  {
    var p, b := 0, base;
    if |s| > 0 && s[0] == '0' {
      p := 1;
      if |s| > 2 && s[1] == 'x' && IsXDigit(s[2]) {
        b := 16;
        p := 2;
      }
      if b == 0 {
        b := 8;
      }
    }
    if b == 0 {
      b := 10;
    }
    assert (p, b) == Prefix(s, base);
    value, rest := ScanLoop(s, p, b);
  }

  /** The `while (isxdigit(*cp) && ...)` loop. */
  method ScanLoop(s: string, start: nat, base: nat) returns (value: nat, rest: string)
    requires start <= |s|
    ensures (value, rest) == Scan(s[start..], base, 0)
  {
    var p := start;
    value := 0;
    while p < |s| && IsDigitOf(s[p], base)
      invariant p <= |s|
      invariant Scan(s[p..], base, value) == Scan(s[start..], base, 0)
    {
      assert s[p..][1..] == s[p + 1..];
      value := Shift(value, base, s[p]);
      p := p + 1;
    }
    rest := s[p..];
  }

  /** The digit character printed for d. */
  function Digit(d: nat): (c: char)
    requires d < 16
    ensures IsXDigit(c) && DigitValue(c) == d
    ensures d < 10 ==> IsDigit(c)
  {
    if d < 10 then '0' + d as char else 'a' + (d - 10) as char
  }

  /** The bases printf is used with. */
  type PrintBase = b: nat | b == 10 || b == 16 witness 10

  /** n without its last digit. */
  function Quot(n: nat, base: PrintBase): (q: nat)
    ensures n >= base ==> 0 < q < n
  {
    if base == 10 then n / 10 else n / 16
  }

  function LastDigit(n: nat, base: PrintBase): (d: nat)
    ensures d < base
  {
    if base == 10 then n % 10 else n % 16
  }

  /** `%u` (base 10) and `%x` (base 16). */
  function Format(n: nat, base: PrintBase): (s: string)
    ensures s != ""
    ensures AllDigits(s, base)
    ensures n != 0 ==> s[0] != '0'
    decreases n
  {
    if n < base then [Digit(n)] else Format(Quot(n, base), base) + [Digit(LastDigit(n, base))]
  }

  function Zeros(n: nat): (s: string)
    ensures |s| == n && forall c :: c in s ==> c == '0'
  {
    seq(n, _ => '0')
  }

  /** `%0<width>x`. */
  function FormatPadded(n: nat, base: PrintBase, width: nat): (s: string)
    ensures |s| >= width
  {
    var d := Format(n, base);
    if |d| < width then Zeros(width - |d|) + d else d
  }

  // --------------------------------------------------------------------
  // Reading back a printed number
  // --------------------------------------------------------------------

  predicate AllDigits(s: string, base: nat) {
    forall i :: 0 <= i < |s| ==> IsDigitOf(s[i], base)
  }

  /** Value of a digit string, continuing from acc. */
  function Fold(s: string, base: nat, acc: nat): nat
    requires AllDigits(s, base)
  {
    if s == "" then acc else Fold(s[1..], base, Shift(acc, base, s[0]))
  }

  predicate StopsScan(rest: string, base: nat) {
    rest == "" || !IsDigitOf(rest[0], base)
  }

  lemma {:induction false} ScanDigits(s: string, rest: string, base: nat, acc: nat)
    requires AllDigits(s, base)
    requires StopsScan(rest, base)
    ensures Scan(s + rest, base, acc) == (Fold(s, base, acc), rest)
  {
    if s == "" {
      assert s + rest == rest;
    } else {
      assert (s + rest)[1..] == s[1..] + rest;
      ScanDigits(s[1..], rest, base, Shift(acc, base, s[0]));
    }
  }

  lemma {:induction false} FoldSnoc(s: string, c: char, base: nat, acc: nat)
    requires AllDigits(s, base) && IsDigitOf(c, base)
    ensures Fold(s + [c], base, acc) == Shift(Fold(s, base, acc), base, c)
  {
    var t := s + [c];
    if s == "" {
      assert t == [c] && t[1..] == "";
    } else {
      assert t[1..] == s[1..] + [c];
      FoldSnoc(s[1..], c, base, Shift(acc, base, s[0]));
    }
  }

  lemma ShiftQuot(n: nat, base: PrintBase)
    requires n < ULONG
    ensures Shift(Quot(n, base), base, Digit(LastDigit(n, base))) == n
  {
    if base == 10 {
      assert n / 10 * 10 + n % 10 == n;
    } else {
      assert n / 16 * 16 + n % 16 == n;
    }
  }

  lemma {:induction false} FoldFormat(n: nat, base: PrintBase)
    requires n < ULONG
    ensures Fold(Format(n, base), base, 0) == n
    decreases n
  {
    if n >= base {
      FoldFormat(Quot(n, base), base);
      FoldSnoc(Format(Quot(n, base), base), Digit(LastDigit(n, base)), base, 0);
      ShiftQuot(n, base);
    } else {
      assert Format(n, base) == [Digit(n)];
      assert Fold([Digit(n)][1..], base, n) == n;
    }
  }

  /** A printed number followed by something that is no digit scans back to itself. */
  lemma ScanFormat(n: nat, base: PrintBase, rest: string)
    requires n < ULONG && StopsScan(rest, base)
    ensures Scan(Format(n, base) + rest, base, 0) == (n, rest)
  {
    ScanDigits(Format(n, base), rest, base, 0);
    FoldFormat(n, base);
  }

  /** Decimal text is read back by base-0 strtoul: the leading zero that would mean octal is only printed for 0. */
  lemma StrToULDecimal(n: nat, rest: string)
    requires n < ULONG && (rest == "" || (!IsXDigit(rest[0]) && rest[0] != 'x'))
    ensures StrToUL(Format(n, 10) + rest, 0) == (n, rest)
    ensures StrToUL(Format(n, 10) + rest, 10) == (n, rest)
  {
    var s := Format(n, 10) + rest;
    ScanFormat(n, 10, rest);
    if n == 0 {
      assert Format(n, 10) == ['0'];
      assert s[0] == '0' && s[1..] == rest;
      assert Prefix(s, 0) == (1, 8) && Prefix(s, 10) == (1, 10);
    } else {
      assert s[0] == Format(n, 10)[0];
      assert Prefix(s, 0) == (0, 10) && Prefix(s, 10) == (0, 10);
      assert s[0..] == s;
    }
  }

  lemma {:induction false} ZerosFold(n: nat, s: string, base: PrintBase)
    requires AllDigits(s, base)
    ensures AllDigits(Zeros(n) + s, base) && Fold(Zeros(n) + s, base, 0) == Fold(s, base, 0)
  {
    hide AllDigits, Fold;
    if n == 0 {
      assert Zeros(0) + s == s;
    } else {
      ZerosFold(n - 1, s, base);
      var t := Zeros(n) + s;
      assert t[1..] == Zeros(n - 1) + s;
      ZeroFold(t, base);
    }
  }

  lemma ZeroFold(t: string, base: PrintBase)
    requires t != "" && t[0] == '0' && AllDigits(t[1..], base)
    ensures AllDigits(t, base) && Fold(t, base, 0) == Fold(t[1..], base, 0)
  {
    assert forall i :: 1 <= i < |t| ==> t[i] == t[1..][i - 1];
  }

  /** A padded number scans back to the number as well. */
  lemma ScanPadded(n: nat, base: PrintBase, width: nat, rest: string)
    requires n < ULONG && StopsScan(rest, base)
    ensures FormatPadded(n, base, width) != "" && AllDigits(FormatPadded(n, base, width), base)
    ensures Scan(FormatPadded(n, base, width) + rest, base, 0) == (n, rest)
    ensures |FormatPadded(n, base, width)| == if |Format(n, base)| < width then width else |Format(n, base)|
  {
    hide Format;
    var s := Format(n, base);
    if |s| < width {
      ZerosFold(width - |s|, s, base);
    }
    ScanDigits(FormatPadded(n, base, width), rest, base, 0);
    FoldFormat(n, base);
  }

  /** `0x` and a hexadecimal digit selects base 16, whatever base is asked for. */
  lemma HexPrefix(s: string, rest: string, base: nat)
    requires s != "" && AllDigits(s, 16) && StopsScan(rest, 16)
    ensures StrToUL("0x" + (s + rest), base) == (Fold(s, 16, 0), rest)
  {
    hide Scan, Fold;
    var t := "0x" + (s + rest);
    assert IsDigitOf(s[0], 16);
    assert t[0] == '0' && t[1] == 'x' && t[2] == s[0] && t[2..] == s + rest;
    ScanDigits(s, rest, 16, 0);
  }

  /** Another leading zero selects base 8 when none is asked for. */
  lemma OctalPrefix(s: string, rest: string)
    requires AllDigits(s, 8) && StopsScan(rest, 8) && (s + rest == "" || (s + rest)[0] != 'x')
    ensures StrToUL("0" + (s + rest), 0) == (Fold(s, 8, 0), rest)
  {
    hide Scan, Fold, AllDigits, StopsScan, IsXDigit, DigitValue;
    var u := s + rest;
    var t := "0" + u;
    assert t[1..] == u && (|t| > 1 ==> t[1] == u[0]);
    assert Prefix(t, 0) == (1, 8);
    ScanDigits(s, rest, 8, 0);
  }

  /** Hexadecimal digits count the same in either case. */
  lemma CaseOfDigits(d: nat)
    requires 10 <= d < 16
    ensures var upper := 'A' + (d - 10) as char;
      IsXDigit(upper) && DigitValue(upper) == d && upper != Digit(d) && IsDigitOf(upper, 16)
  {
  }
}
