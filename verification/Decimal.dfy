/** Numbers at the console: the decimal printer and parser of the system calls. */
module Decimals {
  import opened Bytes

  const INT_MIN := -0x8000_0000
  const INT_MAX := 0x7fff_ffff

  // ---- numerals ----

  predicate IsDigit(c: char) {
    '0' <= c <= '9'
  }

  function DigitValue(c: char): nat
    requires IsDigit(c)
  {
    (c - '0') as int
  }

  function DigitChar(d: nat): (c: char)
    requires d < 10
    ensures IsDigit(c) && DigitValue(c) == d
  {
    '0' + d as char
  }

  predicate AllDigits(s: string) {
    forall i :: 0 <= i < |s| ==> IsDigit(s[i])
  }

  function Value(s: string): nat
    requires AllDigits(s)
  {
    if s == "" then 0 else 10 * Value(s[..|s| - 1]) + DigitValue(s[|s| - 1])
  }

  function Digits(n: nat): (s: string)
    ensures AllDigits(s) && s != ""
  {
    if n < 10 then [DigitChar(n)] else Digits(n / 10) + [DigitChar(n % 10)]
  }

  lemma {:induction false} ValueOfDigits(n: nat)
    ensures Value(Digits(n)) == n
  {
    var s := Digits(n);
    if n < 10 {
      assert s[..|s| - 1] == "";
    } else {
      assert s[..|s| - 1] == Digits(n / 10);
      ValueOfDigits(n / 10);
    }
  }

  /** The digits of a number are the only numeral for it without a leading zero. */
  lemma {:induction false} DigitsOfValue(s: string)
    requires AllDigits(s) && s != "" && (s[0] != '0' || |s| == 1)
    ensures Digits(Value(s)) == s && (Value(s) == 0 ==> s == "0")
  {
    var n := |s| - 1;
    assert s == s[..n] + [s[n]];
    if n == 0 {
      assert s[..0] == "";
    } else {
      if n > 1 || s[..n] != "0" {
        DigitsOfValue(s[..n]);
      }
      LeadingDigit(s[..n]);
      DigitsStep(Value(s[..n]), DigitValue(s[n]));
    }
  }

  lemma {:induction false} LeadingDigit(s: string)
    requires AllDigits(s) && s != "" && s[0] != '0'
    ensures Value(s) > 0
  {
    if |s| > 1 {
      LeadingDigit(s[..|s| - 1]);
    } else {
      assert s[..0] == "";
    }
  }

  function Pow10(k: nat): (p: nat)
    ensures p > 0
  {
    if k == 0 then 1 else 10 * Pow10(k - 1)
  }

  lemma {:induction false} DigitsBound(n: nat, k: nat)
    requires n < Pow10(k) && k > 0
    ensures |Digits(n)| <= k
  {
    if n >= 10 {
      assert n < 10 * Pow10(k - 1);
      assert k > 1;
      DigitsBound(n / 10, k - 1);
    }
  }

  lemma {:induction false} ValueGrows(s: string, k: nat)
    requires AllDigits(s) && k <= |s|
    ensures Value(s[..k]) <= Value(s)
  {
    if k < |s| {
      ValueGrows(s[..|s| - 1], k);
      assert s[..|s| - 1][..k] == s[..k];
    } else {
      assert s[..k] == s;
    }
  }

  // ---- what the system calls mean ----

  /** What `SysPrintNum` shows. */
  function Printed(n: int32): string {
    if n < 0 then "-" + Digits(-(n as int)) else Digits(n)
  }

  function Sign(line: string): int {
    if line != "" && line[0] == '-' then -1 else 1
  }

  function Body(line: string): string {
    if line != "" && line[0] == '-' then line[1..] else line
  }

  /** What a line stands for: its number if it is one that fits in 32 bits, and
      0 if it is not; nothing at all stands for the least integer. A lone sign
      stands for 0. */
  function Parsed(line: string): int32 {
    if line == "" then INT_MIN
    else if !AllDigits(Body(line)) then 0
    else
      var v := Sign(line) * Value(Body(line));
      if INT_MIN <= v <= INT_MAX then v else 0
  }

  predicate Terminator(c: char) {
    c == '\n' || c == '\0'
  }

  function Line(input: string): (line: string)
    ensures |line| <= |input|
  {
    if input == "" || Terminator(input[0]) then "" else [input[0]] + Line(input[1..])
  }

  lemma {:induction false} LineOf(s: string, rest: string)
    requires forall i :: 0 <= i < |s| ==> !Terminator(s[i])
    requires rest != "" && Terminator(rest[0])
    ensures Line(s + rest) == s
  {
    if s == "" {
      assert s + rest == rest;
    } else {
      assert (s + rest)[1..] == s[1..] + rest;
      LineOf(s[1..], rest);
    }
  }

  /** Every number printed and read back is itself. */
  lemma RoundTrip(n: int32, rest: string)
    ensures |Printed(n)| <= 11 && Line(Printed(n) + "\n" + rest) == Printed(n) && Parsed(Printed(n)) == n
  {
    var m: nat := if n < 0 then -(n as int) else n;
    PrintedShort(m);
    ValueOfDigits(m);
    var s := Printed(n);
    assert n >= 0 ==> s[0] != '-';
    assert Body(s) == Digits(m);
    assert s + "\n" + rest == s + ("\n" + rest);
    LineOf(s, "\n" + rest);
  }

  lemma PrintedShort(m: nat)
    requires m <= 0x8000_0000
    ensures |Digits(m)| <= 10
  {
    assert Pow10(5) == 100000;
    assert Pow10(10) == 10_000_000_000;
    DigitsBound(m, 10);
  }

  // ---- the system calls ----

  /** Read up to `length` characters, ending at a newline or a NUL. */
  method SysReadString(input: string, buffer: array<char>, length: nat) returns (n: nat)
    requires length <= buffer.Length && (length <= |input| || |Line(input)| < |input|)
    modifies buffer
    ensures n == Min(length, |Line(input)|) && buffer[..n] == Line(input)[..n]
    ensures n < length ==> buffer[n] == '\0'
  {
    n := 0;
    while n < length
      invariant n <= length && n <= |Line(input)| && buffer[..n] == Line(input)[..n]
    {
      LineAt(input, n);
      buffer[n] := input[n];
      if Terminator(buffer[n]) {
        buffer[n] := '\0';
        break;
      }
      n := n + 1;
    }
  }

  lemma {:induction false} LineAt(input: string, n: nat)
    requires n < |input| && n <= |Line(input)|
    ensures n == |Line(input)| <==> Terminator(input[n])
    ensures n < |Line(input)| ==> Line(input)[n] == input[n]
  {
    if n > 0 {
      LineAt(input[1..], n - 1);
    }
  }

  lemma {:induction false} LineHasNoTerminator(input: string, n: nat)
    requires n < |Line(input)|
    ensures !Terminator(Line(input)[n])
  {
    if n > 0 {
      LineHasNoTerminator(input[1..], n - 1);
    }
  }

  /** The length of the text in the buffer. */
  method CountChars(buffer: array<char>, ghost line: string) returns (len: nat)
    requires |line| < buffer.Length && buffer[..|line|] == line && Terminator(buffer[|line|])
    requires forall i :: 0 <= i < |line| ==> !Terminator(line[i])
    ensures len == |line|
  {
    assert forall i :: 0 <= i < |line| ==> buffer[i] == buffer[..|line|][i];
    len := 0;
    while buffer[len] != '\0' && buffer[len] != '\n'
      invariant len <= |line|
      decreases |line| - len
    {
      len := len + 1;
    }
  }

  /** `SysReadNum` on a line of at most 11 characters. */
  method SysReadNum(input: string) returns (number: int32)
    requires |Line(input)| <= 11 && |Line(input)| < |input|
    ensures number == Parsed(Line(input))
  {
    var buffer := new char[12];
    ghost var line := Line(input);
    var n := SysReadString(input, buffer, 12);
    assert line[..|line|] == line;
    assert n == |line| && buffer[..n] == line;
    forall i | 0 <= i < |line| ensures !Terminator(line[i]) {
      LineHasNoTerminator(input, i);
    }
    var len := CountChars(buffer, line);
    if len == 0 {
      return INT_MIN;
    }
    assert buffer[..n][0] == buffer[0];
    var negative := buffer[0] == '-';
    number := ParseDigits(buffer[..len], if negative then 1 else 0, negative);
  }

  /** Overflow is caught before it happens: the value may not exceed a tenth of
      the limit before a digit is added. */
  method ParseDigits(line: string, start: nat, negative: bool) returns (number: int32)
    requires 0 < |line| <= 11 && (negative <==> line[0] == '-') && start == if negative then 1 else 0
    ensures number == Parsed(line)
  {
    ghost var body := Body(line);
    number := 0;
    for i := start to |line|
      invariant AllDigits(body[..i - start]) && 0 <= number <= INT_MAX && number == Value(body[..i - start])
    {
      var c := line[i];
      assert c == body[i - start];
      if !IsDigit(c) {
        return 0;
      }
      Extend(body, i - start);
      if number > 214748364 || (number == 214748364 && c > '7') {
        TooBig(line, body, i - start, number);
        if number == 214748364 && c == '8' && negative {
          return INT_MIN;
        }
        return 0;
      }
      number := number * 10 + DigitValue(c);
    }
    assert body[..|line| - start] == body;
    if negative {
      number := -number;
    }
  }

  lemma Extend(body: string, k: nat)
    requires k < |body| && AllDigits(body[..k]) && IsDigit(body[k])
    ensures AllDigits(body[..k + 1]) && Value(body[..k + 1]) == 10 * Value(body[..k]) + DigitValue(body[k])
  {
    assert body[..k + 1][..k] == body[..k];
  }

  lemma {:induction false} ValueBelow(s: string)
    requires AllDigits(s)
    ensures Value(s) < Pow10(|s|)
  {
    if s != "" {
      ValueBelow(s[..|s| - 1]);
    }
  }

  /** Past the limit nothing that follows can bring the value back, and the
      least integer uses up the whole line. */
  lemma TooBig(line: string, body: string, k: nat, number: int)
    requires 0 < |line| <= 11 && body == Body(line) && k < |body|
    requires AllDigits(body[..k + 1]) && number == Value(body[..k]) && IsDigit(body[k])
    requires Value(body[..k + 1]) == 10 * number + DigitValue(body[k])
    requires number > 214748364 || (number == 214748364 && body[k] > '7')
    ensures Parsed(line) == if number == 214748364 && body[k] == '8' && line[0] == '-' then INT_MIN else 0
  {
    if AllDigits(body) {
      ValueGrows(body, k + 1);
    }
    if number == 214748364 && body[k] == '8' && line[0] == '-' {
      ValueBelow(body[..k + 1]);
      assert Pow10(9) == 1_000_000_000 by { assert Pow10(5) == 100000; }
      PowGrows(k + 1, 9);
      assert k + 1 == |body|;
      assert body[..k + 1] == body;
    }
  }

  lemma {:induction false} PowGrows(j: nat, k: nat)
    ensures j <= k ==> Pow10(j) <= Pow10(k)
  {
    if j < k {
      PowGrows(j, k - 1);
    }
  }

  /** Print up to the first NUL. */
  method SysPrintString(buffer: array<char>, ghost end: nat) returns (out: string)
    requires end < buffer.Length && buffer[end] == '\0' && forall i :: 0 <= i < end ==> buffer[i] != '\0'
    ensures out == buffer[..end]
  {
    out := "";
    var i := 0;
    while buffer[i] != '\0'
      invariant i <= end && out == buffer[..i]
      decreases end - i
    {
      out := out + [buffer[i]];
      i := i + 1;
    }
  }

  /** `SysPrintNum`: the digits are counted, then filled in from the right. */
  method SysPrintNum(number: int32) returns (out: string)
    ensures out == Printed(number)
  {
    if number == INT_MIN {
      LeastPrinted();
      return "-2147483648";
    }
    var numToStr := new char[12](_ => '\0');
    var n: nat := if number < 0 then -number else number;
    var start := if number < 0 then 1 else 0;
    if number < 0 {
      numToStr[0] := '-';
    }
    var len := CountDigits(n);
    PrintedShort(n);
    FillDigits(numToStr, start, len, n);
    assert forall i :: start <= i < start + len ==> numToStr[i] == numToStr[start..start + len][i - start];
    out := SysPrintString(numToStr, start + len);
  }

  lemma DigitsStep(n: nat, d: nat)
    requires n > 0 && d < 10
    ensures Digits(10 * n + d) == Digits(n) + [DigitChar(d)]
  {
  }

  lemma LeastPrinted()
    ensures Digits(2147483648) == "2147483648"
  {
    hide Digits;
    assert Digits(2) == "2" by { SmallDigits(2); }
    DigitsStep(2, 1);
    DigitsStep(21, 4);
    DigitsStep(214, 7);
    DigitsStep(2147, 4);
    DigitsStep(21474, 8);
    DigitsStep(214748, 3);
    DigitsStep(2147483, 6);
    DigitsStep(21474836, 4);
    DigitsStep(214748364, 8);
  }

  lemma SmallDigits(d: nat)
    requires d < 10
    ensures Digits(d) == [DigitChar(d)]
  {
  }

  /** The number 0 is shown as one digit. */
  method CountDigits(n: nat) returns (len: nat)
    ensures len == |Digits(n)|
  {
    if n == 0 {
      return 1;
    }
    var tmp := n;
    len := 0;
    while tmp != 0
      invariant len + (if tmp == 0 then 0 else |Digits(tmp)|) == |Digits(n)|
    {
      tmp := tmp / 10;
      len := len + 1;
    }
  }

  method FillDigits(buffer: array<char>, start: nat, len: nat, n: nat)
    requires start + len <= buffer.Length && len == |Digits(n)|
    modifies buffer
    ensures buffer[start..start + len] == Digits(n)
    ensures forall i :: 0 <= i < buffer.Length && !(start <= i < start + len) ==> buffer[i] == old(buffer[i])
  {
    var tmp, i := n, len;
    while i > 0
      invariant 0 <= i <= len
      invariant forall j :: 0 <= j < buffer.Length && !(start <= j < start + len) ==> buffer[j] == old(buffer[j])
      invariant i > 0 ==> |Digits(tmp)| == i && Digits(n) == Digits(tmp) + buffer[start + i..start + len]
      invariant i == 0 ==> Digits(n) == buffer[start..start + len]
    {
      i := i - 1;
      buffer[start + i] := DigitChar(tmp % 10);
      tmp := tmp / 10;
    }
  }
}
