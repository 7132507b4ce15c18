/** userprog/ksyscall.h: reading a number from a line of the console, and printing one. */
module ConsoleNumbers {
  import opened Words

  const INT_MIN := -0x8000_0000

  // ---------------------------------------------------------------- what a line means

  predicate IsDigit(c: char) {
    '0' <= c <= '9'
  }

  function DigitValue(c: char): (d: int) {
    c as int - '0' as int
  }

  predicate AllDigits(s: seq<char>) {
    forall i :: 0 <= i < |s| ==> IsDigit(s[i])
  }

  function Decimal(s: seq<char>): (n: int) {
    if s == [] then 0 else 10 * Decimal(s[..|s| - 1]) + DigitValue(s[|s| - 1])
  }

  /** Digits, perhaps after a minus sign. */
  predicate WellFormed(line: seq<char>) {
    line != [] && if line[0] == '-' then AllDigits(line[1..]) else AllDigits(line)
  }

  /** An integer as the machine's arithmetic represents it. */
  function Wrap(n: int): (r: int32) {
    ToSigned(ToUnsigned(n))
  }

  /** The number a line denotes; 0 if it is malformed. */
  function LineValue(line: seq<char>): (n: int32) {
    if !WellFormed(line) then 0
    else if line[0] == '-' then Wrap(-Decimal(line[1..]))
    else Wrap(Decimal(line))
  }

  lemma WrapStep(n: int, d: int)
    ensures Wrap(Wrap(n) * 10 + d) == Wrap(n * 10 + d) && Wrap(-(Wrap(n) as int)) == Wrap(-n)
  {
    var k := n / TWO_32;
    assert n == k * TWO_32 + n % TWO_32;
    var j := (n - Wrap(n)) / TWO_32;
    assert n == Wrap(n) + j * TWO_32;
    Congruent(Wrap(n) * 10 + d, 10 * j);
    assert Wrap(n) * 10 + d + 10 * j * TWO_32 == n * 10 + d;
    Congruent(-n, j);
  }

  lemma Congruent(n: int, j: int)
    ensures (n + j * TWO_32) % TWO_32 == n % TWO_32
  {
  }

  /** What the console holds: empty lines, then a line, its newline, and what was typed after it. */
  predicate Holds(input: seq<char>, skip: nat, line: seq<char>) {
    && line != [] && '\n' !in line && skip + |line| < |input|
    && (forall i :: 0 <= i < skip ==> input[i] == '\n')
    && input[skip..skip + |line|] == line && input[skip + |line|] == '\n'
  }

  /** Reads the line and nothing after its newline; `skip` and `line` say what the console holds. */
  method SysReadNum(input: seq<char>, ghost skip: nat, ghost line: seq<char>) returns (result: int32, used: nat)
    requires Holds(input, skip, line)
    ensures result == LineValue(line) && used == skip + |line| + 1
  {
    LineInInput(input, skip, line);
    var valid, negative := true, false;
    result := 0;
    var i := 0;
    var c := input[0];
    while c == '\n'
      invariant i <= skip && c == input[i]
      decreases skip - i
    {
      i := i + 1;
      c := input[i];
    }
    assert i == skip && c == line[0];
    if c == '-' {
      negative := true;
    } else if '0' <= c <= '9' {
      result := c as int - '0' as int;
    } else {
      valid := false;
    }
    ghost var k := 1;
    StartOfLine(line);
    while true
      invariant 1 <= k <= |line| && i == skip + k - 1 && negative == (line[0] == '-')
      invariant valid <==> WellFormed(line[..k])
      invariant result == if valid then Wrap(Decimal(line[if negative then 1 else 0..k])) else 0
      decreases |line| - k
    {
      i := i + 1;
      c := input[i];
      if k < |line| {
        OneMoreChar(line, k);
      }
      if '0' <= c <= '9' && valid {
        WrapStep(Decimal(line[if negative then 1 else 0..k]), DigitValue(c));
        result := Wrap(result * 10 + DigitValue(c));
      } else if c != '\n' {
        valid := false;
        result := 0;
      } else {
        break;
      }
      k := k + 1;
    }
    assert line[..k] == line && line[0..k] == line && line[1..k] == line[1..];
    used := i + 1;
    if negative {
      WrapStep(Decimal(line[1..]), 0);
      result := Wrap(-(result as int));
    }
  }

  lemma LineInInput(input: seq<char>, skip: nat, line: seq<char>)
    requires Holds(input, skip, line)
    ensures forall j :: 0 <= j < |line| ==> input[skip + j] == line[j] != '\n'
  {
    forall j | 0 <= j < |line|
      ensures input[skip + j] == line[j] != '\n'
    {
      assert input[skip..skip + |line|][j] == line[j] && line[j] in line;
    }
  }

  lemma StartOfLine(line: seq<char>)
    requires line != []
    ensures WellFormed(line[..1]) <==> line[0] == '-' || IsDigit(line[0])
    ensures line[0] == '-' ==> Wrap(Decimal(line[1..1])) == 0
    ensures IsDigit(line[0]) ==> Wrap(Decimal(line[0..1])) == DigitValue(line[0])
  {
    assert line[0..1] == [line[0]] == line[..1];
    assert [line[0]][..0] == [];
    assert Decimal([line[0]]) == DigitValue(line[0]);
    assert [line[0]][1..] == [];
  }

  lemma OneMoreChar(line: seq<char>, k: nat)
    requires 1 <= k < |line|
    ensures WellFormed(line[..k + 1]) <==> WellFormed(line[..k]) && IsDigit(line[k])
    ensures forall a :: 0 <= a <= 1 ==> Decimal(line[a..k + 1]) == 10 * Decimal(line[a..k]) + DigitValue(line[k])
  {
    forall a | 0 <= a <= 1
      ensures Decimal(line[a..k + 1]) == 10 * Decimal(line[a..k]) + DigitValue(line[k])
    {
      assert line[a..k + 1][..k - a] == line[a..k] && line[a..k + 1][k - a] == line[k];
    }
    assert line[..k + 1][1..] == line[..k][1..] + [line[k]] && line[..k + 1] == line[..k] + [line[k]];
  }

  // ---------------------------------------------------------------- printing

  /** Division that truncates toward zero, and its remainder. */
  function TruncDiv(n: int, d: int): (q: int)
    requires d > 0
  {
    if n >= 0 then n / d else -(-n / d)
  }

  function TruncMod(n: int, d: int): (r: int)
    requires d > 0
  {
    n - TruncDiv(n, d) * d
  }

  lemma TruncTen(n: int)
    ensures -9 <= TruncMod(n, 10) <= 9 && (n >= 0 ==> TruncMod(n, 10) == n % 10 && TruncDiv(n, 10) == n / 10)
    ensures n < 0 ==> TruncMod(n, 10) <= 0 && n < TruncDiv(n, 10) <= 0
  {
  }

  function DigitChar(d: int): (c: char)
    requires -9 <= d <= 9
  {
    (d + '0' as int) as char
  }

  /** What PrintNum puts on the console: the digits of the magnitude; negating the smallest integer does not make it
      positive, so that its remainders, and with them the characters, are off. */
  function Chars(n: int): (s: seq<char>)
    decreases if n < 0 then -n else n
  {
    TruncTen(n);
    var q := TruncDiv(n, 10);
    (if q == 0 then [] else Chars(q)) + [DigitChar(TruncMod(n, 10))]
  }

  function Printed(n: int32): (s: seq<char>) {
    if n >= 0 then Chars(n) else ['-'] + Chars(if n == INT_MIN then n else -(n as int))
  }

  function Reversed<T>(s: seq<T>): (r: seq<T>)
    ensures |r| == |s| && forall i :: 0 <= i < |s| ==> r[i] == s[|s| - 1 - i]
  {
    if s == [] then [] else Reversed(s[1..]) + [s[0]]
  }

  /** The loop that splits off the digits, last one first. */
  method Digits(start: int) returns (arr: seq<char>)
    ensures Reversed(arr) == Chars(start)
  {
    hide Chars, Reversed, TruncDiv, TruncMod, DigitChar;
    var number := start;
    arr := [];
    while true
      invariant Chars(start) == Chars(number) + Reversed(arr)
      decreases if number < 0 then -number else number
    {
      TruncTen(number);
      CharsStep(number);
      var digit := TruncMod(number, 10);
      number := TruncDiv(number, 10);
      arr := arr + [DigitChar(digit)];
      if number == 0 {
        break;
      }
    }
  }

  method SysPrintNum(n: int32) returns (output: seq<char>)
    ensures output == Printed(n)
  {
    hide Chars, Reversed;
    var number: int := n;
    var negative := false;
    if number < 0 {
      negative := true;
      number := if number == INT_MIN then number else -number;
    }
    var arr := Digits(number);
    if negative {
      arr := arr + ['-'];
    }
    output := [];
    for i := 0 to |arr|
      invariant output == Reversed(arr)[..i]
    {
      output := output + [arr[|arr| - 1 - i]];
    }
  }

  lemma CharsStep(n: int)
    ensures -9 <= TruncMod(n, 10) <= 9
    ensures Chars(n) == (if TruncDiv(n, 10) == 0 then [] else Chars(TruncDiv(n, 10))) + [DigitChar(TruncMod(n, 10))]
  {
    TruncTen(n);
  }

  // ---------------------------------------------------------------- round trip

  lemma {:induction false} CharsMean(n: nat)
    ensures AllDigits(Chars(n)) && Chars(n) != [] && Decimal(Chars(n)) == n
    decreases n
  {
    TruncTen(n);
    CharsStep(n);
    var q, last := n / 10, DigitChar(n % 10);
    hide Chars, TruncDiv, TruncMod;
    var front := if q == 0 then [] else Chars(q);
    assert Chars(n) == front + [last] && (front + [last])[..|front|] == front;
    assert IsDigit(last) && DigitValue(last) == n % 10;
    if q != 0 {
      CharsMean(q);
    }
    assert Decimal(front) == q;
    assert Decimal(front + [last]) == 10 * q + n % 10;
  }

  /** The characters of a negative number are no digits, unless they are zeros; the first is none. */
  lemma {:induction false} CharsOfNegative(n: int)
    requires n < 0
    ensures Chars(n) != [] && !IsDigit(Chars(n)[0])
    decreases -n
  {
    TruncTen(n);
    var q := TruncDiv(n, 10);
    if q != 0 {
      CharsOfNegative(q);
    }
  }

  /** Reading back what was printed gives the same number, for every number but the smallest. */
  lemma RoundTripIff(n: int32)
    ensures LineValue(Printed(n)) == n <==> n != INT_MIN
  {
    SignedRoundTrip(n);
    if n >= 0 {
      CharsMean(n);
      assert Printed(n)[0] != '-';
    } else if n == INT_MIN {
      CharsOfNegative(n);
      assert Printed(n)[1..] == Chars(n);
      assert !AllDigits(Chars(n));
    } else {
      var m: int := n;
      CharsMean(-m);
      assert Printed(n)[1..] == Chars(-m);
    }
  }

  /** The newline that ends a printed number's line is not part of it, so it can be read with SysReadNum. */
  lemma PrintedIsALine(n: int32, rest: seq<char>)
    ensures Holds(Printed(n) + ['\n'] + rest, 0, Printed(n))
  {
    CharsNoNewline(if n == INT_MIN then n else if n < 0 then -(n as int) else n);
  }

  lemma {:induction false} CharsNoNewline(n: int)
    ensures Chars(n) != [] && '\n' !in Chars(n)
    decreases if n < 0 then -n else n
  {
    TruncTen(n);
    if TruncDiv(n, 10) != 0 {
      CharsNoNewline(TruncDiv(n, 10));
    }
  }
}
