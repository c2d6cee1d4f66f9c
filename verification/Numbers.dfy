/** Numbers as text: `stringify` of an unsigned number, and `numify` to an unsigned type (3rdparty/stout/numify.hpp). */
module Numbers {
  import opened Wrappers

  const SIZE_MAX: nat := 0xFFFF_FFFF_FFFF_FFFF
  const UINT32_MAX: nat := 0xFFFF_FFFF

  predicate IsDigit(c: char) { '0' <= c <= '9' }

  predicate AllDigits(s: string) { forall i :: 0 <= i < |s| ==> IsDigit(s[i]) }

  function Digit(d: nat): (c: char)
    requires d < 10
    ensures IsDigit(c)
  {
    '0' + d as char
  }

  function DigitValue(c: char): nat
    requires IsDigit(c)
  {
    (c - '0') as nat
  }

  /** Base ten, most significant digit first. */
  function Decimal(n: nat): (s: string)
    ensures s != [] && AllDigits(s)
  {
    if n < 10 then [Digit(n)] else Decimal(n / 10) + [Digit(n % 10)]
  }

  function Value(s: string): nat
    requires AllDigits(s)
  {
    if s == [] then 0 else Value(s[..|s| - 1]) * 10 + DigitValue(s[|s| - 1])
  }

  predicate IsHexDigit(c: char) { IsDigit(c) || 'a' <= c <= 'f' || 'A' <= c <= 'F' }

  predicate AllHex(s: string) { forall i :: 0 <= i < |s| ==> IsHexDigit(s[i]) }

  function HexValue(s: string): nat
    requires AllHex(s)
  {
    if s == [] then 0
    else
      var c := s[|s| - 1];
      var d := if IsDigit(c) then (c - '0') as nat
               else if 'a' <= c <= 'f' then (c - 'a') as nat + 10
               else (c - 'A') as nat + 10;
      HexValue(s[..|s| - 1]) * 16 + d
  }

  /** The value of an unsigned number that was read with a minus sign: it wraps around. */
  function Negated(n: nat, max: nat): (r: nat)
    requires n <= max
    ensures r <= max && (r + n == 0 || r + n == max + 1)
  {
    if n == 0 then 0 else max + 1 - n
  }

  function Bounded(n: nat, negative: bool, max: nat): Option<nat> {
    if n > max then None else Some(if negative then Negated(n, max) else n)
  }

  /** Decimal with an optional sign, or else hexadecimal with a prefix and an optional minus sign. */
  function Numify(s: string, max: nat): Option<nat> {
    var negative := |s| > 0 && s[0] == '-';
    var body := if |s| > 0 && (s[0] == '-' || s[0] == '+') then s[1..] else s;
    if body != [] && AllDigits(body) then Bounded(Value(body), negative, max)
    else
      var unsigned := if negative then s[1..] else s;
      if |unsigned| > 2 && unsigned[0] == '0' && unsigned[1] in {'x', 'X'} && AllHex(unsigned[2..])
      then Bounded(HexValue(unsigned[2..]), negative, max)
      else None
  }

  lemma {:induction false} DecimalValue(n: nat)
    ensures Value(Decimal(n)) == n
  {
    if n >= 10 {
      DecimalValue(n / 10);
      var s := Decimal(n);
      assert s[..|s| - 1] == Decimal(n / 10);
    }
  }

  /** Without a leading zero there is one text for each number. */
  lemma {:induction false} ValueDecimal(s: string)
    requires s != [] && AllDigits(s) && (|s| > 1 ==> s[0] != '0')
    ensures Decimal(Value(s)) == s && (|s| > 1 ==> Value(s) >= 10)
  {
    var front, d := s[..|s| - 1], DigitValue(s[|s| - 1]);
    assert s == front + [s[|s| - 1]];
    if |s| > 1 {
      ValueDecimal(front);
      assert |front| == 1 ==> Value(front) == Value(front[..0]) * 10 + DigitValue(front[0]);
      assert Value(front) > 0;
      assert Value(s) / 10 == Value(front) && Value(s) % 10 == d;
    }
  }

  /** `numify` reads back what `stringify` wrote, for every number of the type. */
  lemma {:induction false} NumifyDecimal(n: nat, max: nat)
    requires n <= max
    ensures Numify(Decimal(n), max) == Some(n)
  {
    DecimalValue(n);
    assert IsDigit(Decimal(n)[0]);
  }
}
