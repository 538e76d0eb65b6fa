/** Text helpers of the kernel: numbers to digits and back, and the searches of the C string library on
    the part of a buffer before its terminating zero. */
module Text {

  const NUL: char := '\0'

  predicate IsDigit(c: char) { '0' <= c <= '9' }

  function Digit(d: int): char
    requires 0 <= d < 16
  {
    "0123456789ABCDEF"[d]
  }

  function Power10(k: nat): nat {
    if k == 0 then 1 else 10 * Power10(k - 1)
  }

  /** The digits of n, most significant first. */
  function Digits(n: nat, base: nat): (s: string)
    requires base == 10 || base == 16
    ensures |s| > 0
    decreases n
  {
    if n < base then [Digit(n)] else Digits(n / base, base) + [Digit(n % base)]
  }

  function Decimal(n: nat): string { Digits(n, 10) }

  function Hex(n: nat): string { Digits(n, 16) }

  /** The characters of the digits. */
  lemma DigitCode(d: int)
    requires 0 <= d < 16
    ensures Digit(d) as int == if d < 10 then 48 + d else 55 + d
  {
  }

  /** The number without its last k decimal digits. */
  ghost function Without(n: nat, k: nat): nat {
    if k == 0 then n else Without(n / 10, k - 1)
  }

  /** Place k from the right holds the last digit of what is left without k digits. */
  lemma {:induction false} DecimalPlace(n: nat, k: nat)
    requires k < |Decimal(n)|
    ensures Decimal(n)[|Decimal(n)| - 1 - k] as int == 48 + Without(n, k) % 10
    decreases k
  {
    hide Digit;
    DigitCode(n % 10);
    if n >= 10 {
      assert Decimal(n) == Decimal(n / 10) + [Digit(n % 10)];
      if k > 0 { DecimalPlace(n / 10, k - 1); }
    }
  }

  lemma SmallDigit(d: int)
    requires 0 <= d < 10
    ensures IsDigit(Digit(d))
  {
  }

  lemma {:induction false} DecimalDigits(n: nat)
    ensures forall i :: 0 <= i < |Decimal(n)| ==> IsDigit(Decimal(n)[i])
  {
    SmallDigit(n % 10);
    hide Digit, IsDigit;
    if n >= 10 {
      DecimalDigits(n / 10);
      assert Decimal(n) == Decimal(n / 10) + [Digit(n % 10)];
    }
  }

  /** The number of digits: 10^(len - 1) <= n < 10^len. */
  lemma {:induction false} DecimalLength(n: nat)
    ensures n < Power10(|Decimal(n)|)
    ensures n > 0 ==> Power10(|Decimal(n)| - 1) <= n
  {
    if n >= 10 { DecimalLength(n / 10); }
  }

  // ---- reading digits ----

  /** The value of one digit, as the parsers read it. */
  function DigitValue(c: char): nat {
    if '0' <= c <= '9' then c as int - '0' as int
    else if 'a' <= c <= 'f' then c as int - 'a' as int + 10
    else if 'A' <= c <= 'F' then c as int - 'A' as int + 10
    else 0
  }

  /** Letters count as digits in either case. */
  lemma LetterValue(k: int)
    requires 0 <= k < 6
    ensures DigitValue((97 + k) as char) == DigitValue((65 + k) as char) == 10 + k
  {
  }

  function Value(s: string, base: nat): nat {
    if s == [] then 0 else Value(s[..|s| - 1], base) * base + DigitValue(s[|s| - 1])
  }

  lemma DigitRoundTrip(d: int)
    requires 0 <= d < 16
    ensures DigitValue(Digit(d)) == d
  {
  }

  lemma DivMod(n: nat, base: nat)
    requires base == 10 || base == 16
    ensures n / base * base + n % base == n && (n >= base ==> n / base < n)
  {
    if base == 10 { assert n / 10 * 10 + n % 10 == n; } else { assert n / 16 * 16 + n % 16 == n; }
  }

  lemma ValueSnoc(s: string, c: char, base: nat)
    ensures Value(s + [c], base) == Value(s, base) * base + DigitValue(c)
  {
    assert (s + [c])[..|s|] == s;
  }

  /** Reading what was printed. */
  lemma {:induction false} ValueDigits(n: nat, base: nat)
    requires base == 10 || base == 16
    ensures Value(Digits(n, base), base) == n
    decreases n
  {
    DivMod(n, base);
    if n < base {
      DigitRoundTrip(n);
      ValueSnoc([], Digit(n), base);
      assert [] + [Digit(n)] == [Digit(n)];
    } else {
      DigitRoundTrip(n % base);
      ValueDigits(n / base, base);
      ValueSnoc(Digits(n / base, base), Digit(n % base), base);
    }
  }

  // ---- searching ----

  ghost predicate PrefixAt(s: string, i: int, p: string) {
    0 <= i && i + |p| <= |s| && s[i..i + |p|] == p
  }

  /** strchr from the start of s; |s| when c does not occur. */
  function IndexOf(s: string, c: char): (i: nat)
    ensures i <= |s| && (i < |s| ==> s[i] == c)
    ensures forall k :: 0 <= k < i ==> s[k] != c
  {
    if s == [] || s[0] == c then 0 else 1 + IndexOf(s[1..], c)
  }

  /** strstr from the start of s. */
  function Find(s: string, p: string): (r: int)
    ensures r == -1 || PrefixAt(s, r, p)
    ensures forall k :: 0 <= k < (if r == -1 then |s| + 1 else r) ==> !PrefixAt(s, k, p)
  {
    if |p| <= |s| && s[..|p|] == p then
      assert PrefixAt(s, 0, p);
      0
    else if s == [] then
      assert !PrefixAt(s, 0, p);
      -1
    else
      var r := Find(s[1..], p);
      FindShift(s, p, r);
      if r == -1 then -1 else r + 1
  }

  lemma FindShift(s: string, p: string, r: int)
    requires s != [] && !(|p| <= |s| && s[..|p|] == p)
    requires r == -1 || PrefixAt(s[1..], r, p)
    requires forall k :: 0 <= k < (if r == -1 then |s[1..]| + 1 else r) ==> !PrefixAt(s[1..], k, p)
    ensures r != -1 ==> PrefixAt(s, r + 1, p)
    ensures forall k :: 0 <= k < (if r == -1 then |s| + 1 else r + 1) ==> !PrefixAt(s, k, p)
  {
    if r != -1 { assert s[1..][r..r + |p|] == s[r + 1..r + 1 + |p|]; }
    forall k | 0 <= k < (if r == -1 then |s| + 1 else r + 1) ensures !PrefixAt(s, k, p) {
      if k > 0 && PrefixAt(s, k, p) {
        assert s[1..][k - 1..k - 1 + |p|] == s[k..k + |p|];
        assert PrefixAt(s[1..], k - 1, p);
      }
    }
  }

  lemma IndexOfIs(s: string, c: char, i: nat)
    requires i < |s| && s[i] == c && forall k :: 0 <= k < i ==> s[k] != c
    ensures IndexOf(s, c) == i
  {
    var r := IndexOf(s, c);
  }

  lemma FindIs(s: string, p: string, i: nat)
    requires PrefixAt(s, i, p) && forall k :: 0 <= k < i ==> !PrefixAt(s, k, p)
    ensures Find(s, p) == i
  {
    var r := Find(s, p);
    assert r != -1 ==> PrefixAt(s, r, p);
  }

  // ---- uint_to_str and hex_to_str ----

  /** The digits not yet in the buffer. */
  ghost function Rest(v: nat, base: nat): string
    requires base == 10 || base == 16
  {
    if v > 0 then Digits(v, base) else []
  }

  lemma RestStep(v: nat, base: nat, tail: string)
    requires (base == 10 || base == 16) && v > 0
    ensures v % base < 16 && v / base < v
    ensures Rest(v, base) + tail == Rest(v / base, base) + ([Digit(v % base)] + tail)
  {
    DivMod(v, base);
    if v < base {
      assert v / base == 0 && v % base == v;
      assert [Digit(v)] + tail == [] + ([Digit(v)] + tail);
    } else {
      hide Digit;
      assert v / base > 0 by { if base == 10 { assert v / 10 > 0; } else { assert v / 16 > 0; } }
      var a, d := Digits(v / base, base), Digit(v % base);
      assert (a + [d]) + tail == a + ([d] + tail);
    }
  }

  /** The digit loops of uint_to_str and hex_to_str: fill a temporary buffer from the least significant
      digit, then reverse it. */
  method NumberToStr(value: nat, base: nat) returns (out: string)
    requires base == 10 || base == 16
    ensures out == Digits(value, base)
  {
    if value == 0 { return "0"; }
    hide Digits, Reverse, Digit;
    var tmp: string, v: nat := [], value;
    assert Rest(v, base) + Reverse([]) == Rest(v, base) by { ReverseEmpty(); }
    while v > 0
      invariant Rest(v, base) + Reverse(tmp) == Digits(value, base)
    {
      RestStep(v, base, Reverse(tmp));
      ReverseSnoc(tmp, Digit(v % base));
      tmp := tmp + [Digit(v % base)];
      v := v / base;
    }
    assert [] + Reverse(tmp) == Reverse(tmp);
    out := ReverseBuffer(tmp);
  }

  method ReverseBuffer(tmp: string) returns (out: string)
    ensures out == Reverse(tmp)
  {
    out := [];
    var i := |tmp|;
    assert tmp[..i] == tmp;
    for j := 0 to i
      invariant out + Reverse(tmp[..i - j]) == Reverse(tmp)
    {
      ReverseSnoc(tmp[..i - j - 1], tmp[i - j - 1]);
      assert tmp[..i - j] == tmp[..i - j - 1] + [tmp[i - j - 1]];
      out := out + [tmp[i - j - 1]];
    }
    assert tmp[..0] == [];
  }

  lemma ReverseEmpty()
    ensures Reverse([]) == []
  {
  }

  ghost function Reverse(s: string): string {
    if s == [] then [] else [s[|s| - 1]] + Reverse(s[..|s| - 1])
  }

  lemma ReverseSnoc(s: string, c: char)
    ensures Reverse(s + [c]) == [c] + Reverse(s)
  {
    assert (s + [c])[..|s|] == s;
  }
}
