/** RAW_PRINT_BASE_N: printing a signed number backwards into a 21-byte buffer. */
module RawPrint {

  function Digit(v: nat): (c: char)
    requires v < 36
  {
    if v > 9 then ('a' as int + v - 10) as char else ('0' as int + v) as char
  }

  function DigitValue(c: char): (v: int) {
    if 'a' <= c then c as int - 'a' as int + 10 else c as int - '0' as int
  }

  function Quot(n: nat, base: nat): (q: nat)
    requires base >= 2
  {
    n / base
  }

  function Rem(n: nat, base: nat): (r: nat)
    requires base >= 2
    ensures r < base
  {
    n % base
  }

  lemma QuotTimes(n: nat, base: nat)
    requires base >= 2
    ensures n == Quot(n, base) * base + Rem(n, base)
  {
  }

  lemma QuotRem(n: nat, base: nat)
    requires base >= 2
    ensures n == Quot(n, base) * base + Rem(n, base)
    ensures if n < base then Quot(n, base) == 0 && Rem(n, base) == n else 0 < Quot(n, base) < n
  {
    hide Quot, Rem;
    QuotTimes(n, base);
    var q := Quot(n, base);
    if q > 0 {
      ProductMonotone(2, base, q, q);
      ProductMonotone(1, q, base, base);
    }
  }

  lemma ProductMonotone(a: nat, b: nat, x: nat, y: nat)
    requires a <= b && x <= y
    ensures a * x <= b * y
  {
  }

  lemma QuotAtLeast(n: nat, base: nat, p: nat)
    requires base >= 2 && n >= base * p
    ensures Quot(n, base) >= p
  {
    hide Quot, Rem;
    QuotTimes(n, base);
    var q := Quot(n, base);
    assert base * (q + 1) == q * base + base;
    if q < p {
      ProductMonotone(base, base, q + 1, p);
    }
  }

  /** n in the given base, most significant digit first, without leading zeros. */
  function Digits(n: nat, base: nat): (s: string)
    requires 2 <= base <= 36
    ensures |s| > 0
  {
    if n < base then [Digit(n)]
    else
      QuotRem(n, base);
      Digits(Quot(n, base), base) + [Digit(Rem(n, base))]
  }

  function Shown(num: int, base: nat): (s: string)
    requires 2 <= base <= 36
  {
    if num < 0 then ['-'] + Digits(-num, base) else Digits(num, base)
  }

  function ReadDigits(s: string, base: nat): (n: int) {
    if s == [] then 0 else ReadDigits(s[..|s| - 1], base) * base + DigitValue(s[|s| - 1])
  }

  function Read(s: string, base: nat): (n: int) {
    if s != [] && s[0] == '-' then -ReadDigits(s[1..], base) else ReadDigits(s, base)
  }

  lemma {:induction false} ReadDigitsOf(n: nat, base: nat)
    requires 2 <= base <= 36
    ensures ReadDigits(Digits(n, base), base) == n
    ensures Digits(n, base)[0] != '-'
  {
    hide Quot, Rem;
    QuotRem(n, base);
    var s := Digits(n, base);
    if n < base {
      assert s[..0] == [];
    } else {
      ReadDigitsOf(Quot(n, base), base);
      assert s[..|s| - 1] == Digits(Quot(n, base), base);
    }
  }

  /** What is printed reads back as the number, in every base. */
  lemma ReadShown(num: int, base: nat)
    requires 2 <= base <= 36
    ensures Read(Shown(num, base), base) == num
  {
    if num < 0 {
      ReadDigitsOf(-num, base);
      assert Shown(num, base)[1..] == Digits(-num, base);
    } else {
      ReadDigitsOf(num, base);
    }
  }

  function Pow(base: nat, k: nat): (r: nat) {
    if k == 0 then 1 else base * Pow(base, k - 1)
  }

  lemma {:induction false} PowMonotone(b: nat, c: nat, k: nat)
    requires b <= c
    ensures Pow(b, k) <= Pow(c, k)
  {
    if k > 0 {
      PowMonotone(b, c, k - 1);
      ProductMonotone(b, c, Pow(b, k - 1), Pow(c, k - 1));
    }
  }

  lemma {:induction false} LongNumbersAreLarge(n: nat, base: nat, k: nat)
    requires 2 <= base <= 36 && |Digits(n, base)| > k > 0
    ensures n >= Pow(base, k)
    decreases k
  {
    hide Quot, Rem;
    QuotRem(n, base);
    var q := Quot(n, base);
    if k > 1 {
      LongNumbersAreLarge(q, base, k - 1);
      ProductMonotone(base, base, Pow(base, k - 1), q);
    } else {
      assert Pow(base, 1) == base;
    }
  }

  lemma {:induction false} LargeNumbersAreLong(n: nat, base: nat, k: nat)
    requires 2 <= base <= 36 && n >= Pow(base, k)
    ensures |Digits(n, base)| > k
    decreases k
  {
    if k > 0 {
      PowPositive(base, k - 1);
      QuotRem(n, base);
      QuotAtLeast(n, base, Pow(base, k - 1));
      hide Quot, Rem, Pow;
      LargeNumbersAreLong(Quot(n, base), base, k - 1);
    }
  }

  lemma {:induction false} PowPositive(base: nat, k: nat)
    requires base > 0
    ensures Pow(base, k) > 0
  {
    if k > 0 {
      PowPositive(base, k - 1);
      ProductMonotone(1, base, 1, Pow(base, k - 1));
    }
  }

  /** The guard for the buffer: what a caller can test before the call. */
  predicate Fits(num: int, base: nat) {
    if num < 0 then -num < Pow(base, 20) else num < Pow(base, 21)
  }

  /** The text is no longer than the buffer exactly when the magnitude is below
      base^21, or base^20 if there is a sign. */
  lemma FitsIff(num: int, base: nat)
    requires 2 <= base <= 36
    ensures |Shown(num, base)| <= 21 <==> Fits(num, base)
  {
    hide Digits, Pow;
    var n, k := if num < 0 then -num else num, if num < 0 then 20 else 21;
    if |Digits(n, base)| > k {
      LongNumbersAreLarge(n, base, k);
    } else if n >= Pow(base, k) {
      LargeNumbersAreLong(n, base, k);
    }
  }

  lemma TwentiethPowers()
    ensures Pow(8, 20) == 0x1000_0000_0000_0000
    ensures Pow(9, 20) > 0x8000_0000_0000_0000
  {
    assert Pow(8, 4) == 4096 && Pow(9, 4) == 6561;
    assert Pow(8, 8) == 16777216 && Pow(9, 8) == 43046721;
    assert Pow(8, 12) == 68719476736 && Pow(9, 12) == 282429536481;
    assert Pow(8, 16) == 281474976710656 && Pow(9, 16) == 1853020188851841;
    assert Pow(8, 20) == 1152921504606846976 && Pow(9, 20) == 12157665459056928801;
  }

  /** The 64-bit values the macro can negate. */
  predicate Negatable(num: int) {
    -0x8000_0000_0000_0000 < num < 0x8000_0000_0000_0000
  }

  /** Every such value fits exactly in the bases from 9 on; below, the number
      -8^20 overruns the buffer. */
  lemma AllFitIff(base: nat)
    requires 2 <= base <= 36
    ensures (forall num :: Negatable(num) ==> |Shown(num, base)| <= 21) <==> base >= 9
    ensures base < 9 ==> |Shown(-0x1000_0000_0000_0000, base)| > 21
  {
    hide Shown, Pow;
    TwentiethPowers();
    if base >= 9 {
      PowMonotone(9, base, 20);
      NextPower(base, 20);
      forall num | Negatable(num)
        ensures |Shown(num, base)| <= 21
      {
        FitsIff(num, base);
      }
    } else {
      PowMonotone(base, 8, 20);
      FitsIff(-0x1000_0000_0000_0000, base);
      assert Negatable(-0x1000_0000_0000_0000);
    }
  }

  lemma NextPower(base: nat, k: nat)
    requires base > 0
    ensures Pow(base, k + 1) >= Pow(base, k)
  {
    ProductMonotone(1, base, Pow(base, k), Pow(base, k));
  }

  /** The macro's loop: digits are stored backwards from the end of the buffer.
      A store in front of it ends the model with ok false. */
  method StoreDigits(buf: array<char>, num: nat, base: nat) returns (ok: bool, p: int)
    requires buf.Length == 21 && 2 <= base <= 36
    modifies buf
    ensures ok <==> |Digits(num, base)| <= 21
    ensures ok ==> -1 <= p < 20 && buf[p + 1..] == Digits(num, base)
  {
    hide Quot, Rem, Digit;
    var n: nat := num;
    ok, p := true, 20;
    var more := true;
    while more
      invariant -1 <= p <= 20 && (!more ==> p < 20)
      invariant Digits(num, base) == if more then Digits(n, base) + buf[p + 1..] else buf[p + 1..]
      decreases more, n
    {
      if p < 0 {
        assert |Digits(num, base)| == |Digits(n, base)| + 21;
        return false, p;
      }
      ghost var tail := buf[p + 1..];
      QuotRem(n, base);
      buf[p] := Digit(Rem(n, base));
      assert buf[p..] == [Digit(Rem(n, base))] + tail;
      assert n >= base ==> Digits(num, base) == Digits(Quot(n, base), base) + buf[p..];
      n := Quot(n, base);
      more := n != 0;
      p := p - 1;
    }
  }

  /** The macro: the digits, then the sign. The stores stay inside the 21 bytes
      exactly for the numbers that fit, and the l bytes from p are then the
      number. -2^63 is excluded because the macro negates it. */
  method PrintBaseN(num: int, base: nat) returns (ok: bool, buf: array<char>, p: int, l: nat)
    requires Negatable(num) && 2 <= base <= 36
    ensures fresh(buf) && buf.Length == 21
    ensures ok <==> Fits(num, base)
    ensures ok ==> 0 <= p && p + l == 21 && buf[p..] == Shown(num, base)
  {
    hide Digits, Fits;
    FitsIff(num, base);
    buf := new char[21](_ => '\0');
    ok, p := StoreDigits(buf, if num < 0 then -num else num, base);
    if ok && num < 0 {
      if p < 0 {
        return false, buf, p, 21;
      }
      ghost var digits := buf[p + 1..];
      buf[p] := '-';
      assert buf[p..] == ['-'] + digits;
    } else {
      p := p + 1;
    }
    l := if ok then 21 - p else 0;
  }
}
