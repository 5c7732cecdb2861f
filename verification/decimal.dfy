// The 64-bit decimal printer and its parser. The printer counts the digits with an int, so that
// large numbers lose their leading digits: exactly when is stated here.
module Decimal {
  import opened Numbers

  const UINT64 := 0x1_0000_0000_0000_0000

  function Pow10(n: nat): (r: nat)
    ensures r >= 1
  {
    if n == 0 then 1 else 10 * Pow10(n - 1)
  }

  /** Division of an int by 10, towards zero. */
  function Tenth(n: int): int {
    if n < 0 then -((-n) / 10) else n / 10
  }

  function Count(n: int): nat
    decreases if n < 0 then -n else n
  {
    if n == 0 then 0 else 1 + Count(Tenth(n))
  }

  /** How many digits the printer decides on. */
  function DigitCount(number: nat): nat {
    1 + Count(Signed32(number / 10))
  }

  /** The last `d` digits of a number. */
  function LastDigits(number: nat, d: nat): (l: Text)
    ensures |l| == d
    decreases d
  {
    if d == 0 then [] else LastDigits(number / 10, d - 1) + ['0' as int + number % 10]
  }

  /** The text without its closing 0: one digit gets a leading zero, in one character. */
  function Printed(number: nat): Text {
    if DigitCount(number) == 1 then ['0' as int, ('0' as int + number) % 256] else LastDigits(number, DigitCount(number))
  }

  predicate IsDigit(c: int) {
    '0' as int <= c <= '9' as int
  }

  /** The number read from position `i` on, with `num` read before. */
  function Read(s: Text, i: nat, num: int): int
    requires i <= |s|
    decreases |s| - i
  {
    if i < |s| && IsDigit(s[i]) then Read(s, i + 1, (num * 10 + s[i] - '0' as int) % UINT64) else num
  }

  // ------------------------------------------------------------------ the code

  method Itoa(number: nat, s: array<int>) returns (digits: nat)
    requires number < UINT64 && |Printed(number)| < s.Length
    modifies s
    ensures digits == DigitCount(number)
    ensures s[..|Printed(number)|] == Printed(number) && s[|Printed(number)|] == 0
  {
    var n := Signed32(number / 10);
    CountIsSmall(n);
    digits := 1;
    while n != 0
      invariant digits + Count(n) == DigitCount(number)
      decreases Count(n)
    {
      n := Tenth(n);
      digits := digits + 1;
    }
    if digits == 1 {
      s[0] := '0' as int;
      s[1] := ('0' as int + number) % 256;
      s[2] := 0;
      assert s[..2] == Printed(number);
    } else {
      s[digits] := 0;
      PutDigits(number, s, digits);
    }
  }

  method PutDigits(number: nat, s: array<int>, digits: nat)
    requires digits < s.Length
    modifies s
    ensures s[..digits] == LastDigits(number, digits) && s[digits] == old(s[digits])
  {
    var i := digits;
    var rest := number;
    ghost var all := LastDigits(number, digits);
    while i > 0
      invariant 0 <= i <= digits && rest >= 0
      invariant all == LastDigits(rest, i) + s[i..digits]
      invariant s[digits] == old(s[digits])
    {
      i := i - 1;
      ghost var done := s[i + 1..digits];
      ghost var c := '0' as int + rest % 10;
      assert all == LastDigits(rest / 10, i) + ([c] + done);
      s[i] := '0' as int + rest % 10;
      assert s[i..digits] == [c] + done;
      rest := rest / 10;
    }
  }

  method Atoi(s: Text) returns (num: int)
    requires 0 in s
    ensures num == Read(s, 0, 0)
  {
    num := 0;
    var i := 0;
    while s[i] != 0 && IsDigit(s[i])
      invariant 0 <= i < |s| && 0 in s[i..] && Read(s, i, num) == Read(s, 0, 0)
      decreases |s| - i
    {
      assert s[i..] == [s[i]] + s[i + 1..];
      num := (num * 10 + s[i] - '0' as int) % UINT64;
      i := i + 1;
    }
  }

  // ------------------------------------------------------------------ round trip

  lemma {:induction false} CountBound(n: int, k: nat)
    requires 0 - Pow10(k) < n < Pow10(k)
    ensures Count(n) <= k
    decreases k
  {
    if n != 0 {
      CountBound(Tenth(n), k - 1);
    }
  }

  lemma CountIsSmall(n: int)
    requires -(UINT32 / 2) <= n < UINT32 / 2
    ensures Count(n) <= 10
  {
    assert Pow10(5) == 100000;
    Pow10Splits(5, 5);
    CountBound(n, 10);
  }

  lemma {:induction false} Pow10Splits(a: nat, b: nat)
    ensures Pow10(a + b) == Pow10(a) * Pow10(b)
  {
    if a > 0 {
      Pow10Splits(a - 1, b);
    }
  }

  lemma {:induction false} CountIsEnough(n: nat)
    ensures n < Pow10(Count(n))
    decreases n
  {
    if n > 0 {
      CountIsEnough(n / 10);
    }
  }

  function Value(l: Text): int {
    if l == [] then 0 else Value(l[..|l| - 1]) * 10 + l[|l| - 1] - '0' as int
  }

  predicate AllDecimal(l: Text) {
    forall i | 0 <= i < |l| :: IsDigit(l[i])
  }

  /** The last digits of a number are worth its remainder. */
  lemma {:induction false} LastDigitsValue(number: nat, d: nat)
    ensures AllDecimal(LastDigits(number, d))
    ensures Value(LastDigits(number, d)) == number % Pow10(d)
    decreases d
  {
    if d > 0 {
      LastDigitsValue(number / 10, d - 1);
      var l := LastDigits(number, d);
      assert l[..d - 1] == LastDigits(number / 10, d - 1);
      RemainderStep(number, Pow10(d - 1));
    }
  }

  lemma RemainderStep(number: nat, m: nat)
    requires m >= 1
    ensures number % (10 * m) == (number / 10) % m * 10 + number % 10
  {
    var q := number / 10;
    var k := q / m;
    var r := q % m;
    assert q == m * k + r;
    assert number == 10 * (m * k + r) + number % 10;
    Rearranged(m, k, r, number % 10);
    RemainderOf(number, 10 * m, k, r * 10 + number % 10);
  }

  lemma Rearranged(m: int, k: int, r: int, e: int)
    ensures 10 * (m * k + r) + e == (10 * m) * k + (r * 10 + e)
  {
  }

  lemma RemainderOf(x: int, m: int, k: int, r: int)
    requires m > 0 && x == m * k + r && 0 <= r < m
    ensures x % m == r
  {
    var q := x / m;
    assert x == m * q + x % m;
    assert m * k - m * q == x % m - r;
    Factor(m, k, q);
    Multiple(k - q, m);
  }

  lemma Factor(m: int, k: int, q: int)
    ensures m * k - m * q == (k - q) * m
  {
  }

  lemma Multiple(d: int, m: int)
    requires m > 0
    ensures d > 0 ==> d * m >= m
    ensures d < 0 ==> d * m <= -m
  {
  }

  lemma {:induction false} ValueBound(l: Text)
    requires AllDecimal(l)
    ensures 0 <= Value(l) < Pow10(|l|)
  {
    if l != [] {
      ValueBound(l[..|l| - 1]);
    }
  }

  lemma ValueStep(l: Text, i: nat)
    requires AllDecimal(l) && |l| <= 12 && i < |l|
    ensures Value(l[..i + 1]) == (Value(l[..i]) * 10 + l[i] - '0' as int) % UINT64
  {
    var n := l[..i + 1];
    assert n[..i] == l[..i];
    ValueBound(n);
    Pow10Small(i + 1);
  }

  /** Reading takes the digits and stops at the closing 0. */
  lemma {:induction false} ReadsDigits(l: Text, rest: Text, i: nat)
    requires AllDecimal(l) && |l| <= 12 && rest != [] && rest[0] == 0 && i <= |l|
    ensures Read(l + rest, i, Value(l[..i])) == Value(l)
    decreases |l| - i
  {
    hide Value;
    if i < |l| {
      assert (l + rest)[i] == l[i];
      ValueStep(l, i);
      ReadsDigits(l, rest, i + 1);
    } else {
      assert (l + rest)[i] == rest[0];
      assert l[..i] == l;
    }
  }

  lemma Pow10Small(n: nat)
    requires n <= 12
    ensures Pow10(n) <= 1000000000000
  {
    assert Pow10(6) == 1000000;
    Pow10Splits(6, 6);
    Pow10Grows(n, 12);
  }

  lemma {:induction false} Pow10Grows(n: nat, m: nat)
    requires n <= m
    ensures Pow10(n) <= Pow10(m)
  {
    if n < m {
      Pow10Grows(n, m - 1);
    }
  }

  /** The printer counts the digits of the number divided by ten, as an int. The count is right
      below ten times 2^31, and for an eleven-digit number whose int has ten digits. */
  predicate CountsWell(number: nat) {
    number < 10 * (UINT32 / 2)
    || (number < 100000000000 && (Signed32(number / 10) >= 1000000000 || Signed32(number / 10) <= -1000000000))
  }

  /** Reading what was printed gives the number back exactly for the numbers it counts well. */
  lemma DecimalRoundTrip(number: nat, rest: Text)
    requires number < UINT64 && rest != [] && rest[0] == 0
    ensures Read(Printed(number) + rest, 0, 0) == number <==> CountsWell(number)
  {
    var d := DigitCount(number);
    CountIsSmall(Signed32(number / 10));
    EnoughDigits(number);
    if d == 1 {
      OneDigit(number, rest);
    } else {
      LastDigitsValue(number, d);
      ReadsDigits(LastDigits(number, d), rest, 0);
      RemainderExact(number, Pow10(d));
    }
  }

  lemma EnoughDigits(number: nat)
    ensures number < Pow10(DigitCount(number)) <==> CountsWell(number)
  {
    hide Pow10;
    var n := Signed32(number / 10);
    CountIsSmall(n);
    PowersOfTen();
    if number < 10 * (UINT32 / 2) {
      SmallNumbersRoundTrip(number);
    } else if -1000000000 < n < 1000000000 {
      CountBound(n, 9);
      Pow10Grows(DigitCount(number), 10);
    } else {
      CountReaches(n, 9);
    }
  }

  lemma PowersOfTen()
    ensures Pow10(9) == 1000000000 && Pow10(10) == 10000000000 && Pow10(11) == 100000000000
  {
    assert Pow10(5) == 100000;
    Pow10Splits(5, 5);
  }

  lemma {:induction false} CountReaches(n: int, k: nat)
    requires n >= Pow10(k) || -n >= Pow10(k)
    ensures Count(n) > k
    decreases k
  {
    if k > 0 {
      CountReaches(Tenth(n), k - 1);
    }
  }

  /** Ten times 2^32 is printed as one digit, and read as 0. */
  lemma TenTimesTwoTo32(rest: Text)
    requires rest != [] && rest[0] == 0
    ensures var number := 10 * UINT32; DigitCount(number) == 1 && Read(Printed(number) + rest, 0, 0) == 0 && !CountsWell(number)
  {
    var s := Printed(10 * UINT32) + rest;
    assert s[0] == '0' as int && s[1] == '0' as int && s[2] == 0;
    assert Read(s, 2, 0) == 0;
  }

  lemma RemainderExact(x: nat, m: nat)
    requires m >= 1
    ensures x % m == x <==> x < m
  {
  }

  lemma OneDigit(number: nat, rest: Text)
    requires rest != [] && rest[0] == 0
    ensures var s := ['0' as int, ('0' as int + number) % 256] + rest; Read(s, 0, 0) == number <==> number < Pow10(1)
  {
    var s := ['0' as int, ('0' as int + number) % 256] + rest;
    assert s[0] == '0' as int && s[1] == ('0' as int + number) % 256 && s[2] == 0;
    assert Read(s, 2, 0) == 0;
    assert IsDigit(s[1]) ==> Read(s, 2, s[1] - '0' as int) == s[1] - '0' as int;
  }

  /** That is so for all numbers below ten times 2^31. */
  lemma SmallNumbersRoundTrip(number: nat)
    requires number < 10 * (UINT32 / 2)
    ensures number < Pow10(DigitCount(number))
  {
    hide Count, Pow10;
    var n := number / 10;
    assert Signed32(n) == n;
    CountIsEnough(n);
    TenTimes(Count(n));
  }

  lemma {:induction false} LeadingZero(t: Text)
    ensures Value(['0' as int] + t) == Value(t)
  {
    var l := ['0' as int] + t;
    if t == [] {
      assert Value([]) == 0 && l[..0] == [];
    } else {
      assert l[..|l| - 1] == ['0' as int] + t[..|t| - 1];
      LeadingZero(t[..|t| - 1]);
    }
  }

  lemma CountIsNeeded(n: nat)
    requires n > 0
    ensures Count(n) > 0 && Pow10(Count(n) - 1) <= n
  {
    hide Pow10;
    assert Count(n) > 0;
    if n < Pow10(Count(n) - 1) {
      CountBound(n, Count(n) - 1);
    }
  }

  /** The digits that are counted are needed. */
  lemma NoneTooMany(number: nat)
    requires CountsWell(number) && number >= 10
    ensures DigitCount(number) >= 2 && Pow10(DigitCount(number) - 1) <= number
  {
    hide Pow10, Count;
    var n := Signed32(number / 10);
    if number < 10 * (UINT32 / 2) {
      assert n == number / 10;
      CountIsNeeded(n);
      TenTimes(Count(n) - 1);
    } else {
      PowersOfTen();
      CountIsSmall(n);
      CountReaches(n, 9);
    }
  }

  lemma NoLeadingZero(l: Text)
    requires l != [] && AllDecimal(l) && Value(l) >= Pow10(|l| - 1)
    ensures l[0] != '0' as int
  {
    hide Value, Pow10;
    if l[0] == '0' as int {
      assert l == ['0' as int] + l[1..];
      LeadingZero(l[1..]);
      ValueBound(l[1..]);
      assert false;
    }
  }

  /** One digit is printed with a leading 0, ... */
  lemma OneDigitPrinted(number: nat)
    requires number < 10
    ensures Printed(number) == ['0' as int, '0' as int + number]
  {
    hide LastDigits;
    assert number / 10 == 0 && Signed32(0) == 0;
  }

  /** ... other numbers, where the digits are enough, without. */
  lemma OthersPrinted(number: nat)
    requires CountsWell(number) && number >= 10
    ensures AllDecimal(Printed(number))
    ensures |Printed(number)| == DigitCount(number) >= 2 && Printed(number)[0] != '0' as int
  {
    NoneTooMany(number);
    EnoughDigits(number);
    hide Pow10, DigitCount, Value, LastDigits, CountsWell, AllDecimal;
    var d := DigitCount(number);
    LastDigitsValue(number, d);
    RemainderExact(number, Pow10(d));
    NoLeadingZero(LastDigits(number, d));
  }

  lemma TenTimes(n: nat)
    ensures Pow10(1 + n) == 10 * Pow10(n)
  {
  }
}
