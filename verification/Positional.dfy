/** Numbers written with a fixed count of digits, most significant first. */
module Positional {
  import opened Arith

  function Power(base: nat, k: nat): (p: nat)
    requires base > 0
    ensures p > 0
  {
    if k == 0 then 1
    else
      MulMonotone(1, Power(base, k - 1), base);
      Power(base, k - 1) * base
  }

  predicate AreDigits(ds: seq<nat>, base: nat) {
    forall i :: 0 <= i < |ds| ==> ds[i] < base
  }

  /** The number a digit list writes. */
  function Number(ds: seq<nat>, base: nat): nat {
    if ds == [] then 0 else Number(ds[..|ds| - 1], base) * base + ds[|ds| - 1]
  }

  /** The k lowest digits of a number. */
  function Digits(v: nat, k: nat, base: nat): (ds: seq<nat>)
    requires base > 0
    ensures |ds| == k && AreDigits(ds, base)
    decreases k
  {
    if k == 0 then [] else (Quotient(v, base); Digits(v / base, k - 1, base) + [v % base])
  }

  lemma {:induction false} NumberOfDigits(v: nat, k: nat, base: nat)
    requires base > 0 && v < Power(base, k)
    ensures Number(Digits(v, k, base), base) == v
    decreases k
  {
    if k > 0 {
      Quotient(v, base);
      DigitsBelow(v / base, Power(base, k - 1), v % base, base);
      NumberOfDigits(v / base, k - 1, base);
      var ds := Digits(v, k, base);
      assert ds[..k - 1] == Digits(v / base, k - 1, base);
    }
  }

  lemma {:induction false} DigitsOfNumber(ds: seq<nat>, base: nat)
    requires base > 0 && AreDigits(ds, base)
    ensures Number(ds, base) < Power(base, |ds|)
    ensures Digits(Number(ds, base), |ds|, base) == ds
    decreases |ds|
  {
    if ds != [] {
      var front, d := ds[..|ds| - 1], ds[|ds| - 1];
      DigitsOfNumber(front, base);
      DivModUnique(Number(front, base), d, base);
      DigitsBelow(Number(front, base), Power(base, |front|), d, base);
      assert ds == front + [d];
    }
  }

  // ----- Hexadecimal text -----

  predicate IsHex(c: char) {
    '0' <= c <= '9' || 'a' <= c <= 'f' || 'A' <= c <= 'F'
  }

  predicate AllHex(s: string) {
    forall i :: 0 <= i < |s| ==> IsHex(s[i])
  }

  function Nibble(c: char): (v: nat)
    requires IsHex(c)
    ensures v < 16
  {
    if c <= '9' then (c - '0') as nat
    else if c <= 'F' then 10 + (c - 'A') as nat
    else 10 + (c - 'a') as nat
  }

  /** The sixteen digits, in either case. */
  lemma HexDigits(d: nat)
    requires d < 16
    ensures var lower, upper := "0123456789abcdef"[d], "0123456789ABCDEF"[d];
            IsHex(lower) && IsHex(upper) && Nibble(lower) == d == Nibble(upper)
  {
  }

  /** The number a hex string writes, most significant digit first. */
  function HexValue(s: string): nat
    requires AllHex(s)
  {
    if s == "" then 0 else HexValue(s[..|s| - 1]) * 16 + Nibble(s[|s| - 1])
  }

  function HexDigit(d: nat): char
    requires d < 16
  {
    if d < 10 then '0' + d as char else 'a' + (d - 10) as char
  }

  /** Python's {n:x}. */
  function Hex(n: nat): (s: string)
    ensures s != ""
    ensures forall i :: 0 <= i < |s| ==> '0' <= s[i] <= '9' || 'a' <= s[i] <= 'f'
    ensures n > 0 ==> s[0] != '0'
  {
    if n < 16 then [HexDigit(n)] else Hex(n / 16) + [HexDigit(n % 16)]
  }

  lemma {:induction false} HexReadsBack(n: nat)
    ensures AllHex(Hex(n)) && HexValue(Hex(n)) == n
    decreases n
  {
    var s := Hex(n);
    if n < 16 {
      assert s[..0] == "";
    } else {
      HexReadsBack(n / 16);
      assert s[..|s| - 1] == Hex(n / 16);
    }
  }
}
