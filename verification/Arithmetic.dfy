/** Division by variables, in the few steps the proofs need. */
module Arithmetic {

  lemma Division(x: nat, d: nat)
    requires d > 0
    ensures x == x / d * d + x % d
  {
  }

  lemma Product(a: nat, b: nat, m: nat, n: nat)
    requires a <= m && b <= n
    ensures a * b <= m * n
  {
    assert a * b <= m * b;
    assert m * b <= m * n;
  }

  lemma DivMod(q: nat, r: nat, d: nat)
    requires r < d
    ensures (q * d + r) / d == q && (q * d + r) % d == r
  {
    var x := q * d + r;
    var k, m := x / d, x % d;
    Division(x, d);
    assert (q + 1) * d == q * d + d && (k + 1) * d == k * d + d;
    if q > k {
      Product(k + 1, d, q, d);
    } else if q < k {
      Product(q + 1, d, k, d);
    }
  }

  lemma Below(q: nat, d: nat, m: nat, r: nat)
    requires d > 0 && q * d + r < m * d
    ensures q < m
  {
    if q >= m {
      Product(m, d, q, d);
    }
  }

  /** Dividing drops the remainder and no multiple of the divisor. */
  lemma DivShift(q: nat, d: nat, p: nat)
    requires p > 0
    ensures (q * p + d) / p == q + d / p
  {
    Division(d, p);
    assert q * p + d == (q + d / p) * p + d % p;
    DivMod(q + d / p, d % p, p);
  }

  /** Taking off the lowest of the binary digits, once, twice and thrice. */
  lemma Digits(h: nat, c: nat, b: nat, a: nat)
    requires c < 2 && b < 2 && a < 2
    ensures var x := 8 * h + 4 * c + 2 * b + a;
            x % 2 == a && x / 2 == 4 * h + 2 * c + b && x / 4 == 2 * h + c && x / 8 == h
    ensures (4 * h + 2 * c + b) % 2 == b && (2 * h + c) % 2 == c
  {
    LowBit(4 * h + 2 * c + b, a);
    LowBit(2 * h + c, b);
    LowBit(h, c);
    Quarter(2 * h + c, 2 * b + a);
    Eighth(h, 4 * c + 2 * b + a);
  }

  lemma LowBit(h: nat, b: nat)
    requires b < 2
    ensures (2 * h + b) / 2 == h && (2 * h + b) % 2 == b
  {
  }

  lemma Quarter(h: nat, low: nat)
    requires low < 4
    ensures (4 * h + low) / 4 == h && (4 * h + low) % 4 == low
  {
  }

  lemma Eighth(h: nat, low: nat)
    requires low < 8
    ensures (8 * h + low) / 8 == h && (8 * h + low) % 8 == low
  {
  }

  lemma UpperDigits(v: nat, low: nat, b4: nat, b5: nat, b6: nat, b7: nat)
    requires low < 0x10 && b4 < 2 && b5 < 2 && b6 < 2 && b7 < 2
    requires v == low + 0x10 * b4 + 0x20 * b5 + 0x40 * b6 + 0x80 * b7
    ensures v / 0x10 % 2 == b4 && v / 0x20 % 2 == b5 && v / 0x40 % 2 == b6 && v / 0x80 % 2 == b7
  {
    var h := b4 + 2 * b5 + 4 * b6 + 8 * b7;
    Above(v, 0x10, h, low);
    Digits(b7, b6, b5, b4);
    Above(v, 0x20, b5 + 2 * b6 + 4 * b7, low + 0x10 * b4);
    Above(v, 0x40, b6 + 2 * b7, low + 0x10 * b4 + 0x20 * b5);
    Above(v, 0x80, b7, low + 0x10 * b4 + 0x20 * b5 + 0x40 * b6);
  }

  lemma Above(v: nat, d: nat, q: nat, r: nat)
    requires r < d && v == q * d + r
    ensures v / d == q
  {
    DivMod(q, r, d);
  }

  /** The eight binary digits of a number, lowest first. */
  ghost predicate Spells(d: seq<nat>, v: nat) {
    && |d| == 8 && (forall j :: 0 <= j < 8 ==> d[j] < 2)
    && v == d[0] + 2 * d[1] + 4 * d[2] + 8 * d[3] + 0x10 * d[4] + 0x20 * d[5] + 0x40 * d[6] + 0x80 * d[7]
  }

  /** Dividing by a power of two brings the digit of that place down. */
  lemma DigitAt(d: seq<nat>, v: nat, j: nat)
    requires Spells(d, v) && j < 8
    ensures v / [1, 2, 4, 8, 16, 32, 64, 128][j] % 2 == d[j]
  {
    Digits(d[3] + 2 * d[4] + 4 * d[5] + 8 * d[6] + 0x10 * d[7], d[2], d[1], d[0]);
    LowBit(d[4] + 2 * d[5] + 4 * d[6] + 8 * d[7], d[3]);
    UpperDigits(v, d[0] + 2 * d[1] + 4 * d[2] + 8 * d[3], d[4], d[5], d[6], d[7]);
  }

  lemma DigitsOf(v: nat) returns (d: seq<nat>)
    requires v < 0x100
    ensures Spells(d, v)
  {
    var h, d3, d2, d1, d0 := FourDigits(v);
    var top, d7, d6, d5, d4 := FourDigits(h);
    d := [d0, d1, d2, d3, d4, d5, d6, d7];
  }

  lemma FourDigits(v: nat) returns (h: nat, d: nat, c: nat, b: nat, a: nat)
    ensures d < 2 && c < 2 && b < 2 && a < 2 && v == 16 * h + 8 * d + 4 * c + 2 * b + a
  {
    var x := v / 2;
    var y := x / 2;
    var z := y / 2;
    h, d, c, b, a := z / 2, z % 2, y % 2, x % 2, v % 2;
  }
}
