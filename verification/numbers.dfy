// Numbers as text: printing in a base, with the digits produced last to first and reversed in
// place, and parsing them again.
module Numbers {

  const UINT32 := 0x1_0000_0000

  /** Characters are their codes. */
  type Text = seq<int>

  // ------------------------------------------------------------------ digits

  function DigitChar(d: int): int {
    if d < 10 then d + '0' as int else d + 'A' as int - 10
  }

  function ToUpper(c: int): int {
    if 'a' as int <= c <= 'z' as int then c - 'a' as int + 'A' as int else c
  }

  /** The parser computes in one unsigned byte. */
  function DigitOf(c: int): (d: int)
    ensures 0 <= d < 256
  {
    (if c <= '9' as int then c - '0' as int else ToUpper(c) + 10 - 'A' as int) % 256
  }

  lemma DigitIsRead(d: int)
    requires 0 <= d < 36
    ensures DigitOf(DigitChar(d)) == d && DigitChar(d) > '-' as int
  {
  }

  function Quot(v: nat, base: int): nat
    requires base >= 2
  {
    v / base
  }

  function Rem(v: nat, base: int): nat
    requires base >= 2
  {
    v % base
  }

  lemma QuotRem(v: nat, base: int)
    requires base >= 2
    ensures v == Quot(v, base) * base + Rem(v, base) && 0 <= Rem(v, base) < base
    ensures Quot(v, base) != 0 ==> Quot(v, base) < v
  {
  }

  /** The digits of a number, last first. */
  function Low(v: nat, base: int): (l: Text)
    requires base >= 2
    ensures |l| >= 1
    decreases v
  {
    QuotRem(v, base);
    [DigitChar(Rem(v, base))] + if Quot(v, base) == 0 then [] else Low(Quot(v, base), base)
  }

  lemma LowStep(v: nat, base: int)
    requires base >= 2
    ensures Low(v, base) == [DigitChar(Rem(v, base))] + if Quot(v, base) == 0 then [] else Low(Quot(v, base), base)
  {
  }

  function Reversed(l: Text): (r: Text)
    ensures |r| == |l| && forall i | 0 <= i < |l| :: r[i] == l[|l| - 1 - i]
  {
    if l == [] then [] else Reversed(l[1..]) + [l[0]]
  }

  /** The digits of a number as they are written. */
  function Digits(v: nat, base: int): Text
    requires base >= 2
  {
    Reversed(Low(v, base))
  }

  /** What a text of digits is worth. */
  function Worth(l: Text, base: int): int {
    if l == [] then 0 else Worth(l[..|l| - 1], base) * base + DigitOf(l[|l| - 1])
  }

  lemma DigitsStep(v: nat, base: int)
    requires base >= 2
    ensures var q := Quot(v, base);
            Digits(v, base) == (if q == 0 then [] else Digits(q, base)) + [DigitChar(Rem(v, base))]
  {
    hide Quot, Rem, DigitChar;
    var l := Low(v, base);
    assert Quot(v, base) != 0 ==> l[1..] == Low(Quot(v, base), base);
    assert Reversed(l) == Reversed(l[1..]) + [l[0]];
  }

  lemma WorthOfNothing(base: int)
    ensures Worth([], base) == 0
  {
  }

  lemma WorthStep(l: Text, c: int, base: int)
    ensures Worth(l + [c], base) == Worth(l, base) * base + DigitOf(c)
  {
    assert (l + [c])[..|l|] == l;
  }

  /** The digits of a number are worth the number. */
  lemma {:induction false} DigitsAreWorth(v: nat, base: int)
    requires 2 <= base <= 36
    ensures Worth(Digits(v, base), base) == v
    decreases v
  {
    hide Quot, Rem, DigitChar, Digits, DigitOf;
    QuotRem(v, base);
    DigitsStep(v, base);
    DigitIsRead(Rem(v, base));
    var q := Quot(v, base);
    if q == 0 {
      WorthStep([], DigitChar(Rem(v, base)), base);
    } else {
      DigitsAreWorth(q, base);
      WorthStep(Digits(q, base), DigitChar(Rem(v, base)), base);
    }
  }

  /** Every one of them is a digit, and no minus sign. */
  predicate AllDigits(l: Text, base: int) {
    forall i | 0 <= i < |l| :: DigitOf(l[i]) < base && l[i] > '-' as int
  }

  lemma {:induction false} DigitsAreDigits(v: nat, base: int)
    requires 2 <= base <= 36
    ensures AllDigits(Digits(v, base), base) && |Digits(v, base)| >= 1
    decreases v
  {
    hide Quot, Rem, DigitChar, Digits, DigitOf;
    QuotRem(v, base);
    DigitsStep(v, base);
    DigitIsRead(Rem(v, base));
    if Quot(v, base) != 0 {
      DigitsAreDigits(Quot(v, base), base);
    }
  }

  // ------------------------------------------------------------------ printing

  /** Writes the digits and a closing 0, and returns how many digits there are. */
  method UintToBase(value: nat, buffer: array<int>, base: int) returns (digits: nat)
    requires value < UINT32 && base >= 2 && |Digits(value, base)| < buffer.Length
    modifies buffer
    ensures digits == |Digits(value, base)| && buffer[..digits] == Digits(value, base) && buffer[digits] == 0
    ensures forall k | digits < k < buffer.Length :: buffer[k] == old(buffer[k])
  {
    digits := LowDigits(value, buffer, base);
    buffer[digits] := 0;
    assert buffer[..digits] == Low(value, base);
    Reverse(buffer, digits);
  }

  /** The digits as they come, last first. */
  method LowDigits(value: nat, buffer: array<int>, base: int) returns (digits: nat)
    requires base >= 2 && |Low(value, base)| < buffer.Length
    modifies buffer
    ensures digits == |Low(value, base)| && buffer[..digits] == Low(value, base)
    ensures forall k | digits <= k < buffer.Length :: buffer[k] == old(buffer[k])
  {
    hide Quot, Rem, DigitChar, Low;
    ghost var low := Low(value, base);
    var v := value;
    QuotRem(v, base);
    LowStep(v, base);
    buffer[0] := DigitChar(Rem(v, base));
    digits := 1;
    v := Quot(v, base);
    while v != 0
      invariant 1 <= digits <= |low|
      invariant low == buffer[..digits] + if v == 0 then [] else Low(v, base)
      invariant forall k | digits <= k < buffer.Length :: buffer[k] == old(buffer[k])
      decreases v
    {
      QuotRem(v, base);
      LowStep(v, base);
      ghost var done, c := buffer[..digits], DigitChar(Rem(v, base));
      ghost var rest := if Quot(v, base) == 0 then [] else Low(Quot(v, base), base);
      assert low == done + ([c] + rest) == (done + [c]) + rest;
      buffer[digits] := DigitChar(Rem(v, base));
      assert buffer[..digits + 1] == done + [c];
      digits := digits + 1;
      v := Quot(v, base);
    }
  }

  /** Reverses the first `n` characters in place. */
  method Reverse(buffer: array<int>, n: nat)
    requires n <= buffer.Length
    modifies buffer
    ensures buffer[..n] == Reversed(old(buffer[..n]))
    ensures forall k | n <= k < buffer.Length :: buffer[k] == old(buffer[k])
  {
    var p1, p2 := 0, n - 1;
    while p1 < p2
      invariant 0 <= p1 <= n && p1 + p2 == n - 1
      invariant forall k | 0 <= k < p1 :: buffer[k] == old(buffer[n - 1 - k]) && buffer[n - 1 - k] == old(buffer[k])
      invariant forall k | p1 <= k <= p2 && k < n :: buffer[k] == old(buffer[k])
      invariant forall k | n <= k < buffer.Length :: buffer[k] == old(buffer[k])
    {
      buffer[p1], buffer[p2] := buffer[p2], buffer[p1];
      p1, p2 := p1 + 1, p2 - 1;
    }
    assert buffer[..n] == Reversed(old(buffer[..n]));
  }

  // ------------------------------------------------------------------ parsing

  /** Where parsing stops: at the closing 0, after `len` characters if len is not negative, or at
      the first character that is no digit. */
  function Stop(s: Text, i: nat, len: int, base: int): (e: nat)
    requires i <= |s|
    ensures i <= e <= |s|
    decreases |s| - i
  {
    if i == |s| || s[i] == 0 || (0 <= len <= i) || DigitOf(s[i]) >= base then i else Stop(s, i + 1, len, base)
  }

  /** Unsigned 32-bit arithmetic, and the same bits read as a signed number. */
  function Unsigned32(v: int): (r: int)
    ensures 0 <= r < UINT32
  {
    v % UINT32
  }

  function Signed32(v: int): (r: int)
    ensures -(UINT32 / 2) <= r < UINT32 / 2
  {
    (v + UINT32 / 2) % UINT32 - UINT32 / 2
  }

  lemma SameBits(v: int)
    ensures Unsigned32(Signed32(v)) == Unsigned32(v)
    ensures 0 <= v < UINT32 ==> Unsigned32(v) == v
  {
  }

  lemma WrapsOnce(a: int, k: int)
    ensures Unsigned32(a + k * UINT32) == Unsigned32(a) && Signed32(a + k * UINT32) == Signed32(a)
  {
    RemainderIs(a + k * UINT32, a / UINT32 + k, a % UINT32);
    var b := a + UINT32 / 2;
    RemainderIs(b + k * UINT32, b / UINT32 + k, b % UINT32);
  }

  lemma RemainderIs(x: int, m: int, r: int)
    requires x == m * UINT32 + r && 0 <= r < UINT32
    ensures x % UINT32 == r
  {
  }

  /** Wrapping around at every step or once at the end is the same. */
  lemma HornerWraps(a: int, b: int, c: int)
    ensures Unsigned32(Unsigned32(Unsigned32(a) * b) + c) == Unsigned32(a * b + c)
  {
    var k := a / UINT32;
    assert a == Unsigned32(a) + k * UINT32;
    Distribute(Unsigned32(a), k, b);
    var p := Unsigned32(a) * b;
    var m := p / UINT32;
    assert p == Unsigned32(p) + m * UINT32;
    WrapsOnce(Unsigned32(p) + c, m);
    WrapsOnce(p + c, k * b);
  }

  lemma Distribute(r: int, k: int, b: int)
    ensures (r + k * UINT32) * b == r * b + (k * b) * UINT32
  {
  }

  lemma NegativeWraps(v: int)
    ensures Signed32(0 - Unsigned32(v)) == Signed32(0 - v) && Signed32(Unsigned32(v)) == Signed32(v)
  {
    var k := v / UINT32;
    assert v == Unsigned32(v) + k * UINT32;
    WrapsOnce(Unsigned32(v), k);
    WrapsOnce(0 - v, k);
  }

  predicate Negative(s: Text, unsign: bool)
    requires |s| > 0
  {
    !unsign && s[0] == '-' as int
  }

  /** How many characters are consumed, and what is in the result afterwards: it stays at
      `before` if no digit was read. */
  function Parsed(s: Text, len: int, base: int, unsign: bool, before: int): (r: (int, int))
    requires |s| > 0
  {
    if Negative(s, unsign) then
      var e := Stop(s[1..], 0, len, base);
      (e + 1, if e == 0 then before else Signed32(0 - Worth(s[1..][..e], base)))
    else
      var e := Stop(s, 0, len, base);
      (e, if e == 0 then before else Signed32(Worth(s[..e], base)))
  }

  /** The loop of the parser; the number is kept in 32 bits. */
  method ParseDigits(s: Text, len: int, base: nat) returns (i: nat, num: int)
    requires 0 in s
    ensures i == Stop(s, 0, len, base) && num == Unsigned32(Worth(s[..i], base))
  {
    hide Unsigned32, DigitOf, Worth;
    i, num := 0, 0;
    WorthOfNothing(base);
    SameBits(0);
    assert s[..0] == [];
    while s[i] != 0
      invariant 0 <= i < |s| && 0 in s[i..] && Stop(s, i, len, base) == Stop(s, 0, len, base)
      invariant num == Unsigned32(Worth(s[..i], base))
      decreases |s| - i
    {
      assert s[i..] == [s[i]] + s[i + 1..];
      if len >= 0 && i >= len {
        break;
      }
      var aux := DigitOf(s[i]);
      if aux >= base {
        break;
      }
      HornerWraps(Worth(s[..i], base), base, aux);
      WorthStep(s[..i], s[i], base);
      assert s[..i + 1] == s[..i] + [s[i]];
      num := Unsigned32(num * base);
      num := Unsigned32(num + aux);
      i := i + 1;
    }
  }

  method StrToIntBase(s: Text, len: int, base: nat, unsign: bool, before: int) returns (consumed: int, result: int)
    requires 0 in s
    ensures (consumed, result) == Parsed(s, len, base, unsign, before)
  {
    hide Unsigned32, Signed32, Worth, Stop;
    result := before;
    if Negative(s, unsign) {
      assert s[0] != 0 && forall c | c in s :: c == s[0] || c in s[1..];
      var i, num := ParseDigits(s[1..], len, base);
      NegativeWraps(Worth(s[1..][..i], base));
      if i != 0 {
        result := Signed32(0 - num);
      }
      consumed := i + 1;
    } else {
      var i, num := ParseDigits(s, len, base);
      NegativeWraps(Worth(s[..i], base));
      if i != 0 {
        result := Signed32(num);
      }
      consumed := i;
    }
  }

  // ------------------------------------------------------------------ main results

  /** Parsing what was printed consumes exactly the digits, ... */
  lemma {:induction false} StopsBehindDigits(d: Text, rest: Text, i: nat, len: int, base: int)
    requires AllDigits(d, base) && i <= |d| && rest != [] && rest[0] == 0 && (len < 0 || len >= |d|)
    ensures Stop(d + rest, i, len, base) == |d|
    decreases |d| - i
  {
    if i < |d| {
      StopsBehindDigits(d, rest, i + 1, len, base);
    }
  }

  /** ... and gives back the same 32 bits, signed or unsigned, in every base from 2 to 36; of a
      longer number, the last 32. */
  lemma RoundTrip(value: nat, base: int, rest: Text, len: int, unsign: bool, before: int)
    requires 2 <= base <= 36 && rest != [] && rest[0] == 0
    requires len < 0 || len >= |Digits(value, base)|
    ensures var (consumed, result) := Parsed(Digits(value, base) + rest, len, base, unsign, before);
            && consumed == |Digits(value, base)| && Unsigned32(result) == Unsigned32(value)
            && (value < UINT32 ==> Unsigned32(result) == value)
  {
    hide Unsigned32, Signed32, Worth, Stop, Digits, DigitOf;
    var d := Digits(value, base);
    SameBits(value);
    DigitsAreDigits(value, base);
    DigitsAreWorth(value, base);
    StopsBehindDigits(d, rest, 0, len, base);
    assert (d + rest)[0] == d[0];
    assert (d + rest)[..|d|] == d;
  }

  // ------------------------------------------------------------------ signs

  /** A number with its sign. */
  function SignedText(v: int, base: int): Text
    requires base >= 2
  {
    if v < 0 then ['-' as int] + Digits(-v, base) else Digits(v, base)
  }

  /** In signed mode a number comes back with its sign, which is consumed, too. */
  lemma SignedRoundTrip(v: int, base: int, rest: Text, len: int, before: int)
    requires -(UINT32 / 2) <= v < UINT32 / 2 && 2 <= base <= 36 && rest != [] && rest[0] == 0
    requires len < 0 || len >= |Digits(if v < 0 then -v else v, base)|
    ensures Parsed(SignedText(v, base) + rest, len, base, false, before) == (|SignedText(v, base)|, v)
  {
    hide Worth, Stop, Digits, DigitOf, Signed32;
    var u := if v < 0 then -v else v;
    var d := Digits(u, base);
    DigitsAreDigits(u, base);
    DigitsAreWorth(u, base);
    StopsBehindDigits(d, rest, 0, len, base);
    SignedFits(v);
    assert (d + rest)[..|d|] == d && (d + rest)[0] == d[0];
    assert (['-' as int] + d) + rest == ['-' as int] + (d + rest);
  }

  lemma SignedFits(v: int)
    requires -(UINT32 / 2) <= v < UINT32 / 2
    ensures Signed32(v) == v
  {
  }

  /** What is no digit. */
  predicate NoDigit(c: int, base: int) {
    c == 0 || DigitOf(c) >= base
  }

  /** Where there is no digit nothing is stored. A minus sign is consumed in signed mode, and is no
      digit otherwise. */
  lemma NothingToRead(s: Text, len: int, base: int, before: int)
    requires |s| > 0 && base <= 36
    ensures NoDigit(s[0], base) ==> Parsed(s, len, base, true, before) == (0, before)
    ensures s[0] == '-' as int ==> Parsed(s, len, base, true, before) == (0, before)
    ensures s[0] != '-' as int && NoDigit(s[0], base) ==> Parsed(s, len, base, false, before) == (0, before)
    ensures s[0] == '-' as int && |s| > 1 && NoDigit(s[1], base) ==> Parsed(s, len, base, false, before) == (1, before)
  {
  }

  // ------------------------------------------------------------------ a limit on the length

  /** A number without its last `k` digits. */
  function Shifted(v: nat, base: int, k: nat): nat
    requires base >= 2
  {
    if k == 0 then v else Shifted(v, base, k - 1) / base
  }

  lemma {:induction false} DigitsFront(v: nat, base: int, k: nat)
    requires base >= 2 && k < |Digits(v, base)|
    ensures Digits(v, base)[..|Digits(v, base)| - k] == Digits(Shifted(v, base, k), base)
  {
    hide Digits;
    if k > 0 {
      DigitsFront(v, base, k - 1);
      var u := Shifted(v, base, k - 1);
      DigitsStep(u, base);
      assert Digits(u, base)[..|Digits(u, base)| - 1] == Digits(u / base, base);
    }
  }

  lemma {:induction false} StopsAtLength(d: Text, rest: Text, i: nat, len: int, base: int)
    requires AllDigits(d, base) && i <= len <= |d|
    ensures Stop(d + rest, i, len, base) == len
    decreases |d| - i
  {
    if i < len {
      StopsAtLength(d, rest, i + 1, len, base);
    }
  }

  /** With a limit of less than all digits, only the first ones count. */
  lemma FirstDigitsCount(v: nat, base: int, rest: Text, k: nat, unsign: bool, before: int)
    requires 2 <= base <= 36 && k < |Digits(v, base)|
    ensures var len := |Digits(v, base)| - k;
            Parsed(Digits(v, base) + rest, len, base, unsign, before) == (len, Signed32(Shifted(v, base, k)))
  {
    hide Worth, Stop, Digits, DigitOf, Signed32, Shifted;
    var d := Digits(v, base);
    var len := |d| - k;
    DigitsAreDigits(v, base);
    DigitsFront(v, base, k);
    DigitsAreWorth(Shifted(v, base, k), base);
    StopsAtLength(d, rest, 0, len, base);
    assert (d + rest)[0] == d[0] && (d + rest)[..len] == d[..len];
  }

  // ------------------------------------------------------------------ the digits themselves

  /** Only 0 is printed with a leading 0; letters are capital letters. */
  lemma {:induction false} PrintedPlainly(v: nat, base: int)
    requires 2 <= base <= 36
    ensures var d := Digits(v, base);
            && |d| >= 1 && (d[0] == '0' as int <==> v == 0) && (v < base ==> |d| == 1)
            && forall i | 0 <= i < |d| :: '0' as int <= d[i] <= '9' as int || 'A' as int <= d[i] <= 'Z' as int
    decreases v
  {
    hide Digits;
    QuotRem(v, base);
    DigitsStep(v, base);
    if Quot(v, base) != 0 {
      PrintedPlainly(Quot(v, base), base);
    }
  }

  /** Small letters are read like capital ones. */
  lemma SmallLetterIsRead(d: int)
    requires 10 <= d < 36
    ensures DigitOf(DigitChar(d) - 'A' as int + 'a' as int) == d
  {
  }
}
