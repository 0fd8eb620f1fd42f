/** Number printing and parsing, and the string searches, of `src/str.c`. */
module Str {
  import opened Arithmetic
  import opened Options
  import opened Words

  const INT_MAX := 0x7fff_ffff
  const DIGITS := "0123456789abcdef"

  // A C string is modelled by its characters before the terminator; reading at its
  // length reads the terminator.
  ghost predicate IsCString(s: string) {
    '\0' !in s
  }

  function At(s: string, i: nat): char
    requires i <= |s|
  {
    if i < |s| then s[i] else '\0'
  }

  // ----- itoa -----

  // The digits of `n`, most significant first; none for 0.
  function Digits(n: nat, base: nat): string
    requires 2 <= base <= 16
  {
    if n == 0 then "" else Digits(Quotient(n, base), base) + [DIGITS[Remainder(n, base)]]
  }

  // What `itoa` returns for a value that is not negative.
  function Printed(n: nat, base: nat): string
    requires 2 <= base <= 16
  {
    if n == 0 then "0" else Digits(n, base)
  }

  predicate IsDigit(c: char, base: nat)
    requires base <= 16
  {
    c in DIGITS[..base]
  }

  function DigitOf(c: char): nat {
    if '0' <= c <= '9' then c as nat - '0' as nat
    else if 'a' <= c <= 'f' then c as nat - 'a' as nat + 10
    else 0
  }

  lemma DigitOfDigit(d: nat, base: nat)
    requires d < base <= 16
    ensures IsDigit(DIGITS[d], base) && DigitOf(DIGITS[d]) == d
    ensures DIGITS[d] as int == if d < 10 then 48 + d else 87 + d
  {
    assert DIGITS[..base][d] == DIGITS[d];
  }

  lemma DigitOfInverse(c: char, base: nat)
    requires base <= 16 && IsDigit(c, base)
    ensures DigitOf(c) < base && DIGITS[DigitOf(c)] == c
  {
    var d :| 0 <= d < base && DIGITS[..base][d] == c;
    DigitOfDigit(d, base);
  }

  // Positional value, independent of how the digits were produced.
  function Value(s: string, base: nat): nat {
    if s == "" then 0 else base * Value(s[..|s| - 1], base) + DigitOf(s[|s| - 1])
  }

  ghost predicate IsNumeral(s: string, base: nat)
    requires base <= 16
  {
    (forall i :: 0 <= i < |s| ==> IsDigit(s[i], base)) && (s != "" ==> s[0] != '0')
  }

  lemma ValueOfSnoc(s: string, q: nat, d: nat, base: nat)
    requires d < base <= 16 && Value(s, base) == q
    ensures Value(s + [DIGITS[d]], base) == base * q + d
  {
    DigitOfDigit(d, base);
    assert (s + [DIGITS[d]])[..|s|] == s;
  }

  lemma NonzeroDigit(d: nat)
    requires 0 < d < 16
    ensures DIGITS[d] != '0'
  {
  }

  // The digits evaluate back to the number.
  lemma {:induction false} DigitsValue(n: nat, base: nat)
    requires 2 <= base <= 16
    ensures Value(Digits(n, base), base) == n
  {
    hide Quotient, Remainder;
    if n != 0 {
      var q, d := Division(n, base);
      DigitsValue(q, base);
      ValueOfSnoc(Digits(q, base), q, d, base);
    }
  }

  // Each is a digit of the base, and the first is not a zero.
  lemma {:induction false} DigitsNumeral(n: nat, base: nat)
    requires 2 <= base <= 16
    ensures IsNumeral(Digits(n, base), base)
    ensures n != 0 ==> Digits(n, base) != ""
  {
    hide Quotient, Remainder;
    if n != 0 {
      var q, d := Division(n, base);
      DigitsNumeral(q, base);
      DigitOfDigit(d, base);
      if q == 0 {
        assert base * q == 0;
        NonzeroDigit(d);
      }
    }
  }

  // A numeral without a leading zero is determined by its value: `Digits` is the only one.
  lemma {:induction false} NumeralIsDigits(s: string, base: nat)
    requires 2 <= base <= 16 && IsNumeral(s, base)
    ensures s == Digits(Value(s, base), base)
    ensures s != "" ==> Value(s, base) != 0
  {
    hide Quotient, Remainder;
    if s != "" {
      var head, c := s[..|s| - 1], s[|s| - 1];
      NumeralIsDigits(head, base);
      DigitOfInverse(c, base);
      if head == "" {
        assert DIGITS[0] == '0' && s[0] == c;
      }
      assert s == head + [c];
      DigitsOfSnoc(Value(head, base), DigitOf(c), base);
    }
  }

  lemma DigitsOfSnoc(v: nat, d: nat, base: nat)
    requires 2 <= base <= 16 && d < base && (v != 0 || d != 0)
    ensures base * v + d != 0
    ensures Digits(base * v + d, base) == Digits(v, base) + [DIGITS[d]]
  {
    hide Quotient, Remainder;
    var n := base * v + d;
    DivModOf(n, v, d, base);
    if v != 0 {
      AtLeast(v, base);
    }
  }

  lemma DigitsUnfold(v: nat, base: nat, tail: string)
    requires 2 <= base <= 16 && v != 0
    ensures Digits(v, base) + tail ==
            Digits(Quotient(v, base), base) + ([DIGITS[Remainder(v, base)]] + tail)
  {
  }

  function Pow2(k: nat): nat {
    if k == 0 then 1 else 2 * Pow2(k - 1)
  }

  // In any base a number below 2^k needs at most k cells.
  lemma {:induction false} DigitsLength(n: nat, base: nat, k: nat)
    requires 2 <= base <= 16 && n < Pow2(k)
    ensures |Digits(n, base)| <= k
  {
    if n != 0 {
      HalfAtMost(n, base);
      DigitsLength(Quotient(n, base), base, k - 1);
    }
  }

  lemma NoDigits(base: nat)
    requires 2 <= base <= 16
    ensures Digits(0, base) == ""
  {
  }

  // So the digits of an `int` never use up the buffer.
  lemma Fits32(n: nat, base: nat)
    requires 2 <= base <= 16 && n <= INT_MAX
    ensures |Digits(n, base)| <= 31
  {
    PowersOfTwo();
    DigitsLength(n, base, 31);
  }

  // The static buffer of `itoa`. Digits go to cells 64 downto 1; cell 65 is the terminator,
  // which the kernel's declaration of 64 cells leaves out.
  class Printer {
    const buf: array<char>

    ghost predicate Valid()
      reads this, buf
    {
      buf.Length == 66 && buf[65] == '\0'
    }

    constructor ()
      ensures Valid() && fresh(buf)
    {
      buf := new char[66](_ => '\0');
    }

    // `itoa`: the string that starts at the returned pointer. C division rounds towards zero, so
    // a negative value has a negative remainder before it reaches zero; indexing the digit string
    // with it is undefined.
    method Itoa(val: int, base: nat) returns (s: Option<string>)
      requires Valid() && -INT_MAX - 1 <= val <= INT_MAX && 2 <= base <= 16
      modifies buf
      ensures Valid() && (s.None? <==> val < 0)
      ensures val >= 0 ==> s.value == Printed(val, base) && |s.value| <= 31
      ensures val == 0 ==> s.value == "0"
      ensures val > 0 ==> s.value == buf[65 - |s.value|..65]
      ensures val >= 0 ==>
                forall k :: 0 <= k < (if val == 0 then 65 else 65 - |s.value|) ==> buf[k] == old(buf[k])
    {
      if val == 0 {
        return Some("0");
      }
      hide Digits, Quotient, Remainder;
      ghost var all := if val > 0 then Digits(val, base) else "";
      var i, v := 64, val;
      PowersOfTwo();
      while v != 0 && i != 0
        invariant 0 <= i <= 64 && buf[65] == '\0'
        invariant val > 0 ==> v >= 0 && all == Digits(v, base) + buf[i + 1..65]
        invariant val < 0 ==> v < 0 && i > 32 && -v < Pow2(i - 32)
        invariant forall k :: 0 <= k <= i ==> buf[k] == old(buf[k])
        decreases i
      {
        var d := TruncatedRemainder(v, base);
        if d < 0 {
          return None;
        }
        if v < 0 {
          NegativeStep(v, base, i - 32);
        } else {
          DigitsUnfold(v, base, buf[i + 1..65]);
        }
        ghost var tail := buf[i + 1..65];
        buf[i] := DIGITS[d];
        assert buf[i..65] == [DIGITS[d]] + tail;
        i, v := i - 1, TruncatedQuotient(v, base);
      }
      Fits32(val, base);
      assert |all| == |Digits(v, base)| + 64 - i;
      NoDigits(base);
      s := Some(buf[i + 1..65]);
    }
  }

  // The C operators `/` and `%` for a positive divisor.
  function TruncatedQuotient(v: int, base: nat): int
    requires 0 < base
  {
    if v >= 0 then Quotient(v, base) else -(Quotient(-v, base) as int)
  }

  function TruncatedRemainder(v: int, base: nat): (r: int)
    requires 0 < base
    ensures r < base && (v >= 0 ==> r >= 0) && (v <= 0 ==> r <= 0)
  {
    if v >= 0 then Remainder(v, base) else -(Remainder(-v, base) as int)
  }

  // A negative value that divides evenly stays negative and at least halves.
  lemma NegativeStep(v: int, base: nat, k: nat)
    requires 2 <= base <= 16 && v < 0 && TruncatedRemainder(v, base) == 0 && -v < Pow2(k)
    ensures TruncatedQuotient(v, base) < 0 && k > 1 && -TruncatedQuotient(v, base) < Pow2(k - 1)
  {
    hide Quotient, Remainder;
    var q, d := Division(-v, base);
    HalfAtMost(-v, base);
    assert q == 0 ==> base * q == 0;
  }

  lemma PowersOfTwo()
    ensures Pow2(31) == INT_MAX + 1 && Pow2(32) == 2 * (INT_MAX + 1)
  {
    assert Pow2(10) == 1024;
    assert Pow2(20) == 1024 * 1024;
    assert Pow2(30) == 1024 * 1024 * 1024;
  }

  // ----- atoi -----

  // What the loop of `atoi` accumulates, on unbounded integers and for any characters.
  function Accumulated(s: string): int {
    if s == "" then 0 else Accumulated(s[..|s| - 1]) * 10 + s[|s| - 1] as int - '0' as int
  }

  function Pow10(k: nat): nat {
    if k == 0 then 1 else 10 * Pow10(k - 1)
  }

  // In any text, digit or not, a character counts its code less 48, ten times as much for every
  // character behind it.
  lemma {:induction false} AccumulatedAppend(s: string, t: string)
    ensures Accumulated(s + t) == Accumulated(s) * Pow10(|t|) + Accumulated(t)
    ensures |t| == 1 ==> Accumulated(t) == t[0] as int - 48
  {
    if t == "" {
      assert s + t == s;
    } else {
      var n := |t| - 1;
      AccumulatedAppend(s, t[..n]);
      assert (s + t)[..|s + t| - 1] == s + t[..n];
      assert Accumulated(s) * (10 * Pow10(n)) == 10 * (Accumulated(s) * Pow10(n));
    }
  }

  // `atoi`, with the two's complement wrap-around of each 32-bit operation.
  method Atoi(str: string) returns (res: int)
    requires IsCString(str)
    ensures res == ToInt32(Accumulated(str))
  {
    res := 0;
    var i := 0;
    while At(str, i) != '\0'
      invariant 0 <= i <= |str|
      invariant res == ToInt32(Accumulated(str[..i]))
      decreases |str| - i
    {
      ToInt32Step(Accumulated(str[..i]), str[i] as int);
      assert str[..i + 1][..i] == str[..i];
      res := ToInt32(ToInt32(ToInt32(res * 10) + str[i] as int) - '0' as int);
      i := i + 1;
    }
    assert str[..i] == str;
  }

  lemma {:induction false} AccumulatedIsValue(s: string)
    requires forall i :: 0 <= i < |s| ==> IsDigit(s[i], 10)
    ensures Accumulated(s) == Value(s, 10)
  {
    if s != "" {
      AccumulatedIsValue(s[..|s| - 1]);
      DigitOfInverse(s[|s| - 1], 10);
    }
  }

  lemma PrintedValue(n: nat, base: nat)
    requires 2 <= base <= 16
    ensures Printed(n, base) != "" && Value(Printed(n, base), base) == n
    ensures forall i :: 0 <= i < |Printed(n, base)| ==> IsDigit(Printed(n, base)[i], base)
    ensures n == 0 ==> Printed(n, base) == "0"
    ensures n != 0 ==> Printed(n, base)[0] != '0'
  {
    if n == 0 {
      assert DIGITS[..base][0] == '0';
    } else {
      DigitsValue(n, base);
      DigitsNumeral(n, base);
    }
  }

  // Reading a printed decimal back gives the number, reduced to 32 bits.
  lemma AtoiOfItoa(n: nat)
    ensures ToInt32(Accumulated(Printed(n, 10))) == ToInt32(n)
    ensures n <= INT_MAX ==> ToInt32(Accumulated(Printed(n, 10))) == n
  {
    hide Printed, Value, Accumulated;
    PrintedValue(n, 10);
    AccumulatedIsValue(Printed(n, 10));
  }

  // Every intermediate result of `res*10 + str[i] - '0'` is an `int`, so that C defines it.
  ghost predicate NeverOverflows(s: string) {
    s == "" ||
    (NeverOverflows(s[..|s| - 1]) &&
     var r := Accumulated(s[..|s| - 1]) * 10;
     InInt(r) && InInt(r + s[|s| - 1] as int) && InInt(r + s[|s| - 1] as int - '0' as int))
  }

  predicate InInt(x: int) {
    -INT_MAX - 1 <= x <= INT_MAX
  }

  // The sum with the character code comes before '0' is taken off, so the last 48 values
  // of `int` overflow on the way although their result fits.
  lemma AtoiOverflow(n: nat)
    ensures NeverOverflows(Printed(n, 10)) <==> n <= INT_MAX - 48
  {
    if n == 0 {
      assert Printed(0, 10)[..0] == "";
    } else {
      OverflowOfDigits(n);
    }
  }

  lemma {:induction false} OverflowOfDigits(n: nat)
    requires n != 0
    ensures NeverOverflows(Digits(n, 10)) <==> n <= INT_MAX - 48
  {
    hide Quotient, Remainder, Value;
    var q, d := Division(n, 10);
    var s, c := Digits(q, 10), DIGITS[d];
    assert Digits(n, 10) == s + [c];
    DigitsValue(q, 10);
    DigitsNumeral(q, 10);
    AccumulatedIsValue(s);
    OverflowAtLast(s, d, q);
    if q != 0 {
      OverflowOfDigits(q);
    }
  }

  lemma OverflowAtLast(s: string, d: nat, q: nat)
    requires d < 10 && Accumulated(s) == q
    ensures NeverOverflows(s + [DIGITS[d]]) <==> NeverOverflows(s) && 10 * q + d <= INT_MAX - 48
  {
    assert (s + [DIGITS[d]])[..|s|] == s;
    assert DIGITS[d] as int == '0' as int + d;
  }

  // ----- strcmp and strchr -----

  // This kernel's `strcmp` answers 1 for equal strings and 0 for all others.
  method Strcmp(s1: string, s2: string) returns (r: int)
    requires IsCString(s1) && IsCString(s2)
    ensures r == 1 || r == 0
    ensures r == 1 <==> s1 == s2
  {
    var i := 0;
    while At(s1, i) != '\0'
      invariant 0 <= i <= |s1| && i <= |s2|
      invariant s1[..i] == s2[..i]
      decreases |s1| - i
    {
      if At(s2, i) == '\0' { return 0; }
      if At(s2, i) > At(s1, i) { return 0; }
      if At(s1, i) > At(s2, i) { return 0; }
      i := i + 1;
    }
    if At(s2, i) != '\0' { return 0; }
    assert s1 == s1[..i] && s2 == s2[..i];
    return 1;
  }

  // Whether `strchr` finds `c`: the terminator counts as a character of the string.
  predicate Finds(s: string, c: char) {
    c == '\0' || c in s
  }

  // `strchr`; `None` in C is a null pointer, here a negative index.
  method Strchr(s: string, c: char) returns (r: int)
    requires IsCString(s)
    ensures r >= 0 <==> Finds(s, c)
    ensures r >= 0 ==> r <= |s| && At(s, r) == c && c !in s[..r]
    ensures c == '\0' ==> r == |s|
    ensures c != '\0' ==> if c in s then 0 <= r < |s| && s[r] == c else r < 0
  {
    var i := 0;
    while At(s, i) != c
      invariant 0 <= i <= |s|
      invariant c !in s[..i]
      decreases |s| - i
    {
      if At(s, i) == '\0' {
        assert s[..i] == s;
        return -1;
      }
      i := i + 1;
    }
    return i;
  }
}
