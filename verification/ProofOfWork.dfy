/**
 The proof of work that gates an upload (scripts/collect_submit.py).  The hash is a
 parameter: a function from the nonce to the hex digest of "<content hash>:<nonce>".
 */
module ProofOfWork {
  import opened Arith
  import opened Positional

  lemma Shift16(v: nat, p: nat, low: nat, d: nat)
    ensures (v * p + low) * 16 + d == v * (16 * p) + (low * 16 + d)
  {
    assert v * p * 16 == v * (16 * p);
  }

  lemma Pow16(n: nat)
    ensures Pow2(n + 4) == 16 * Pow2(n)
  {
    Pow2Add(4, n);
    assert Pow2(0) == 1 && Pow2(1) == 2 && Pow2(2) == 4 && Pow2(3) == 8 && Pow2(4) == 16;
  }

  /** The same number read from the front. */
  lemma {:induction false} HexFront(s: string)
    requires AllHex(s) && s != ""
    ensures HexValue(s) == Nibble(s[0]) * Pow2(4 * (|s| - 1)) + HexValue(s[1..])
    decreases |s|
  {
    if |s| == 1 {
      assert s[..0] == "" && s[1..] == "";
      assert Pow2(0) == 1;
    } else {
      var front := s[..|s| - 1];
      HexFront(front);
      assert front[1..] == s[1..][..|s| - 2];
      var d := Nibble(s[|s| - 1]);
      Pow16(4 * (|s| - 2));
      Shift16(Nibble(s[0]), Pow2(4 * (|s| - 2)), HexValue(front[1..]), d);
      assert HexValue(s[1..]) == HexValue(front[1..]) * 16 + d;
    }
  }

  lemma {:induction false} HexBound(s: string)
    requires AllHex(s)
    ensures HexValue(s) < Pow2(4 * |s|)
    decreases |s|
  {
    if s != "" {
      HexBound(s[..|s| - 1]);
      Pow16(4 * (|s| - 1));
    }
  }

  /** The top k bits of the written number are zero. */
  predicate Below(s: string, k: nat)
    requires AllHex(s) && k <= 4 * |s|
  {
    HexValue(s) < Pow2(4 * |s| - k)
  }

  /** Leading zero bits as a function of the string: what the loop below counts. */
  function ZeroBits(s: string): nat
    requires AllHex(s)
  {
    if s == "" then 0
    else
      FirstZeros(Nibble(s[0]), ZeroBits(s[1..]))
  }

  /** Zero bits of a number that starts with digit v and has `tail` zero bits behind it. */
  function FirstZeros(v: nat, tail: nat): nat {
    if v == 0 then 4 + tail else if v < 2 then 3 else if v < 4 then 2 else if v < 8 then 1 else 0
  }

  /** scripts/collect_submit.py:86-100. */
  method LeadingZeroBits(digest: string) returns (bits: nat)
    requires AllHex(digest)
    ensures bits == ZeroBits(digest)
    ensures forall k: nat :: k <= 4 * |digest| ==> (bits >= k <==> Below(digest, k))
  {
    bits := 0;
    var i := 0;
    while i < |digest|
      invariant i <= |digest|
      invariant bits + ZeroBits(digest[i..]) == ZeroBits(digest)
    {
      var nibble := Nibble(digest[i]);
      assert digest[i..][1..] == digest[i + 1..];
      i := i + 1;
      if nibble == 0 {
        bits := bits + 4;
        continue;
      }
      if nibble < 2 {
        bits := bits + 3;
      } else if nibble < 4 {
        bits := bits + 2;
      } else if nibble < 8 {
        bits := bits + 1;
      }
      break;
    }
    forall k: nat | k <= 4 * |digest|
      ensures ZeroBits(digest) >= k <==> Below(digest, k)
    {
      ZeroBitsIsBound(digest, k);
    }
  }

  /** At least k leading zero bits means: below 2^(4L - k). */
  lemma {:induction false} ZeroBitsIsBound(s: string, k: nat)
    requires AllHex(s) && k <= 4 * |s|
    ensures ZeroBits(s) >= k <==> Below(s, k)
    decreases |s|
  {
    if s == "" {
      assert Pow2(0) == 1;
    } else {
      if k >= 4 { ZeroBitsIsBound(s[1..], k - 4); }
      LeadingDigit(s, k);
    }
  }

  lemma LeadingDigit(s: string, k: nat)
    requires AllHex(s) && s != "" && k <= 4 * |s|
    requires k >= 4 ==> (ZeroBits(s[1..]) >= k - 4 <==> Below(s[1..], k - 4))
    ensures ZeroBits(s) >= k <==> Below(s, k)
  {
    var rest := s[1..];
    var v, low, n := Nibble(s[0]), HexValue(rest), 4 * |rest|;
    HexBound(rest);
    OneDigit(v, low, n, ZeroBits(rest), k);
    BelowFront(s, k);
  }

  lemma BelowFront(s: string, k: nat)
    requires AllHex(s) && s != "" && k <= 4 * |s|
    ensures var n := 4 * |s[1..]|;
            Below(s, k) <==> Nibble(s[0]) * Pow2(n) + HexValue(s[1..]) < Pow2(n + 4 - k)
  {
    HexFront(s);
  }

  /** One digit in front of a number below 2^n whose leading zeros are `tail`. */
  lemma OneDigit(v: nat, low: nat, n: nat, tail: nat, k: nat)
    requires v < 16 && low < Pow2(n) && k <= n + 4
    requires k >= 4 ==> (tail >= k - 4 <==> low < Pow2(n - (k - 4)))
    ensures FirstZeros(v, tail) >= k <==> v * Pow2(n) + low < Pow2(n + 4 - k)
  {
    if v == 0 {
      if k < 4 { Pow2Monotone(n, n + 4 - k); }
    } else {
      FirstDigit(v, low, n, k);
    }
  }

  lemma Compare(v: nat, c: nat, p: nat, low: nat)
    requires low < p
    ensures v * p + low < c * p <==> v < c
  {
    if v < c {
      MulMonotone(v + 1, c, p);
      assert (v + 1) * p == v * p + p;
    } else {
      MulMonotone(c, v, p);
    }
  }

  /** The nonzero leading digit decides. */
  lemma FirstDigit(v: nat, low: nat, n: nat, k: nat)
    requires 1 <= v < 16 && low < Pow2(n) && k <= n + 4
    ensures (if v < 2 then 3 else if v < 4 then 2 else if v < 8 then 1 else 0) >= k
            <==> v * Pow2(n) + low < Pow2(n + 4 - k)
  {
    var p := Pow2(n);
    if k <= 4 {
      Pow2Add(4 - k, n);
      assert Pow2(0) == 1 && Pow2(1) == 2 && Pow2(2) == 4 && Pow2(3) == 8 && Pow2(4) == 16;
      Compare(v, Pow2(4 - k), p, low);
    } else {
      Pow2Monotone(n + 4 - k, n);
      assert v * p >= p;
    }
  }

  predicate Meets(digest: nat -> string, n: nat, difficulty: nat) {
    AllHex(digest(n)) && ZeroBits(digest(n)) >= difficulty
  }

  /** scripts/collect_submit.py:103-110: the least nonce that meets the difficulty, whenever
      there is one; `some` is any nonce that does. */
  method SolvePow(digest: nat -> string, difficulty: nat, ghost some: nat) returns (nonce: nat)
    requires forall n :: AllHex(digest(n))
    requires Meets(digest, some, difficulty)
    ensures Meets(digest, nonce, difficulty)
    ensures forall n :: 0 <= n < nonce ==> !Meets(digest, n, difficulty)
  {
    nonce := 0;
    while true
      invariant nonce <= some
      invariant forall n :: 0 <= n < nonce ==> !Meets(digest, n, difficulty)
      decreases some - nonce
    {
      var bits := LeadingZeroBits(digest(nonce));
      if bits >= difficulty {
        return;
      }
      nonce := nonce + 1;
    }
  }
}
