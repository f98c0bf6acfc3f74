/** Flags after addition and subtraction, and the conditions read from them.  Main
    results: after a compare the conditions are the mathematical relations; a chain of
    carries adds numbers of any length with exact carry and overflow; and exactly when the
    flags of the immediate forms, and the zero flag of an addition, are right. */
module Alu {
  import opened Words
  import opened Arithmetic

  datatype Flags = Flags(carry: bool, zero: bool, sign: bool, overflow: bool, parity: bool)

  /** Operand sizes in bits. */
  type Size = n: nat | n == 8 || n == 16 || n == 32 witness 8

  function Mod(n: Size): nat {
    if n == 8 then 0x100 else if n == 16 then 0x1_0000 else 0x1_0000_0000
  }

  function Half(n: Size): nat {
    if n == 8 then 0x80 else if n == 16 then 0x8000 else 0x8000_0000
  }

  function Reduced(n: Size, x: int): nat {
    x % Mod(n)
  }

  function Top(n: Size, x: int): bool {
    x / Half(n) % 2 == 1
  }

  function Signed(n: Size, x: nat): int {
    if x < Half(n) then x else x - Mod(n)
  }

  predicate Representable(n: Size, x: int) {
    -(Half(n) as int) <= x < Half(n)
  }

  // ------------------------------------------------------------- the flags register

  function BitOf(x: int, i: nat): bool
    requires i < 8
  {
    x / [1, 2, 4, 8, 16, 32, 64, 128][i] % 2 == 1
  }

  /** True for an even number of ones among the first n bits. */
  function EvenBits(x: int, n: nat): bool
    requires n <= 8
  {
    if n == 0 then true else EvenBits(x, n - 1) != BitOf(x, n - 1)
  }

  /** chk_parity: the accumulator flips for every one. */
  method CheckParity(v: byte) returns (p: bool)
    ensures p == EvenBits(v, 8)
  {
    p := true;
    var i := 0;
    while i < 8
      invariant 0 <= i <= 8 && p == EvenBits(v, i)
    {
      p := p != BitOf(v, i);
      i := i + 1;
    }
  }

  /** update_reg_add; the sum is not reduced before it is tested for zero. */
  function AfterAdd(n: Size, a: nat, b: nat, carry: bool): Flags {
    var result := a + b + if carry then 1 else 0;
    Flags(result / Mod(n) % 2 == 1, result == 0, Top(n, result),
          Top(n, a) == Top(n, b) && Top(n, a) != Top(n, result), EvenBits(result, 8))
  }

  /** update_reg_sub; the difference is a 64-bit word. */
  function AfterSub(n: Size, a: nat, b: nat): Flags {
    var result := (a - b) % 0x1_0000_0000_0000_0000;
    Flags(result / Mod(n) % 2 == 1, result == 0, Top(n, result),
          Top(n, a) != Top(n, b) && Top(n, a) != Top(n, result), EvenBits(result, 8))
  }

  predicate Operands(n: Size, a: nat, b: nat) {
    a < Mod(n) && b < Mod(n)
  }

  // ------------------------------------------------------------- conditions

  datatype Condition = O | NO | B | NB | Z | NZ | BE | A | S | NS | P | NP | L | NL | LE | NLE

  function Holds(c: Condition, f: Flags): bool {
    match c
    case O => f.overflow
    case NO => !f.overflow
    case B => f.carry
    case NB => !f.carry
    case Z => f.zero
    case NZ => !f.zero
    case BE => f.carry || f.zero
    case A => !(f.carry || f.zero)
    case S => f.sign
    case NS => !f.sign
    case P => f.parity
    case NP => !f.parity
    case L => f.sign != f.overflow
    case NL => f.sign == f.overflow
    case LE => f.zero || f.sign != f.overflow
    case NLE => !f.zero && f.sign == f.overflow
  }

  /** The relation each condition is named for, between compared operands. */
  predicate Relation(c: Condition, n: Size, a: nat, b: nat)
    requires Operands(n, a, b)
  {
    var x, y := Signed(n, a), Signed(n, b);
    match c
    case O => !Representable(n, x - y)
    case NO => Representable(n, x - y)
    case B => a < b
    case NB => a >= b
    case Z => a == b
    case NZ => a != b
    case BE => a <= b
    case A => a > b
    case S => Signed(n, Reduced(n, a - b)) < 0
    case NS => Signed(n, Reduced(n, a - b)) >= 0
    case P => EvenBits(Reduced(n, a - b), 8)
    case NP => !EvenBits(Reduced(n, a - b), 8)
    case L => x < y
    case NL => x >= y
    case LE => x <= y
    case NLE => x > y
  }

  /** The part of a wide result above the operand, and the operand's top bit. */
  lemma Parts(n: Size, high: nat, d: nat)
    requires d < Mod(n)
    ensures (high * Mod(n) + d) / Mod(n) == high && (high * Mod(n) + d) % Mod(n) == d
    ensures Top(n, high * Mod(n) + d) == (d >= Half(n))
  {
    DivMod(high, d, Mod(n));
    var half := Half(n);
    assert Mod(n) == 2 * half;
    assert high * Mod(n) == (2 * high) * half;
    DivShift(2 * high, d, half);
    if d >= half {
      DivMod(1, d - half, half);
    } else {
      DivMod(0, d, half);
    }
  }

  lemma TopOf(n: Size, x: nat)
    requires x < Mod(n)
    ensures Top(n, x) == (x >= Half(n))
  {
    Parts(n, 0, x);
  }

  /** The 64-bit difference: below zero its upper part is all ones. */
  lemma Difference(n: Size, a: nat, b: nat) returns (high: nat, d: nat)
    requires Operands(n, a, b)
    ensures (a - b) % 0x1_0000_0000_0000_0000 == high * Mod(n) + d && d < Mod(n)
    ensures high % 2 == (if a < b then 1 else 0) && (high == 0 <==> a >= b)
    ensures d as int == if a < b then a - b + Mod(n) else a - b
    ensures Reduced(n, a - b) == d
  {
    d := if a < b then a - b + Mod(n) else a - b;
    high := if a >= b then 0
              else if n == 8 then 0xff_ffff_ffff_ffff else if n == 16 then 0xffff_ffff_ffff else 0xffff_ffff;
  }

  lemma SubFacts(n: Size, a: nat, b: nat)
    requires Operands(n, a, b)
    ensures var f := AfterSub(n, a, b);
            && f.carry == (a < b) && f.zero == (a == b)
            && f.sign == (Signed(n, Reduced(n, a - b)) < 0)
            && f.overflow == !Representable(n, Signed(n, a) - Signed(n, b))
            && f.sign == ((Signed(n, a) < Signed(n, b)) != f.overflow)
            && f.parity == EvenBits(Reduced(n, a - b), 8)
  {
    hide EvenBits, Top, Mod, Half;
    var high, d := Difference(n, a, b);
    TwoHalves(n);
    Parts(n, high, d);
    TopOf(n, a);
    TopOf(n, b);
    LowByte(n, high, d);
    assert (high * Mod(n) + d == 0) == (a == b) by { ZeroDifference(high, Mod(n), d); }
    hide Reduced;
  }

  lemma ZeroDifference(high: nat, m: nat, d: nat)
    requires m > 0
    ensures high * m + d == 0 <==> high == 0 && d == 0
  {
    if high > 0 {
      assert high * m >= m;
    }
  }

  /** Parity looks at the low byte alone. */
  lemma LowByte(n: Size, high: nat, d: nat)
    requires d < Mod(n)
    ensures EvenBits(high * Mod(n) + d, 8) == EvenBits(d, 8)
  {
    hide EvenBits;
    var m := Mod(n) / 0x100;
    assert Mod(n) == m * 0x100;
    hide Mod;
    assert high * (m * 0x100) == (high * m) * 0x100;
    SameParity(high * m, d, 8);
  }

  /** Even parity is an even sum of the eight binary digits. */
  lemma ParityOfDigits(d: seq<nat>, v: nat)
    requires Spells(d, v)
    ensures EvenBits(v, 8) <==> (d[0] + d[1] + d[2] + d[3] + d[4] + d[5] + d[6] + d[7]) % 2 == 0
  {
    var sums := [0, d[0], d[0] + d[1], d[0] + d[1] + d[2], d[0] + d[1] + d[2] + d[3],
                 d[0] + d[1] + d[2] + d[3] + d[4], d[0] + d[1] + d[2] + d[3] + d[4] + d[5],
                 d[0] + d[1] + d[2] + d[3] + d[4] + d[5] + d[6],
                 d[0] + d[1] + d[2] + d[3] + d[4] + d[5] + d[6] + d[7]];
    PartialParity(d, v, sums, 8);
  }

  lemma {:induction false} PartialParity(d: seq<nat>, v: nat, sums: seq<nat>, n: nat)
    requires Spells(d, v) && n <= 8 && |sums| == 9 && sums[0] == 0
    requires forall i :: 0 <= i < 8 ==> sums[i + 1] == sums[i] + d[i]
    ensures EvenBits(v, n) <==> sums[n] % 2 == 0
  {
    if n > 0 {
      PartialParity(d, v, sums, n - 1);
      DigitAt(d, v, n - 1);
      assert sums[n - 1 + 1] == sums[n - 1] + d[n - 1];
      Flip(sums[n - 1], d[n - 1]);
    }
  }

  lemma Flip(x: nat, b: nat)
    requires b < 2
    ensures ((x + b) % 2 == 0) <==> (x % 2 == 0) != (b == 1)
  {
  }

  lemma {:induction false} SameParity(k: nat, d: nat, n: nat)
    requires n <= 8
    ensures EvenBits(k * 0x100 + d, n) == EvenBits(d, n)
  {
    if n > 0 {
      SameParity(k, d, n - 1);
      SameBit(k, d, n - 1);
    }
  }

  lemma SameBit(k: nat, d: nat, i: nat)
    requires i < 8
    ensures BitOf(k * 0x100 + d, i) == BitOf(d, i)
  {
    var p := [1, 2, 4, 8, 16, 32, 64, 128][i];
    var q := [128, 64, 32, 16, 8, 4, 2, 1][i];
    assert p * q == 128;
    assert k * 0x100 == (2 * (k * q)) * p by { Regroup(k, q, p); }
    DivShift(2 * (k * q), d, p);
    assert (2 * (k * q) + d / p) % 2 == d / p % 2;
  }

  lemma Regroup(k: nat, q: nat, p: nat)
    requires p * q == 128
    ensures k * 0x100 == (2 * (k * q)) * p
  {
    assert (2 * (k * q)) * p == 2 * k * (p * q);
  }

  /** After a compare every condition holds exactly when the relation it is named for
      does, at every operand size. */
  lemma CompareDecides(n: Size, a: nat, b: nat, c: Condition)
    requires Operands(n, a, b)
    ensures Holds(c, AfterSub(n, a, b)) <==> Relation(c, n, a, b)
  {
    SubFacts(n, a, b);
    hide AfterSub, EvenBits, Representable;
    SignedOrder(n, a, b);
  }

  lemma SignedOrder(n: Size, a: nat, b: nat)
    requires Operands(n, a, b)
    ensures Signed(n, a) == Signed(n, b) <==> a == b
  {
  }

  // ------------------------------------------------------------- addition

  lemma AddFacts(n: Size, a: nat, b: nat, carry: bool)
    requires Operands(n, a, b)
    ensures var f := AfterAdd(n, a, b, carry); var c := if carry then 1 else 0;
            && f.carry == (a + b + c >= Mod(n)) && f.zero == (a + b + c == 0)
            && f.sign == (Signed(n, Reduced(n, a + b + c)) < 0)
            && f.overflow == !Representable(n, Signed(n, a) + Signed(n, b) + c)
            && Reduced(n, a + b + c) == a + b + c - if f.carry then Mod(n) else 0
  {
    hide EvenBits, Top, Mod, Half;
    var sum := a + b + if carry then 1 else 0;
    TwoHalves(n);
    TopOf(n, a);
    TopOf(n, b);
    SumParts(n, sum);
    hide Reduced;
  }

  lemma TwoHalves(n: Size)
    ensures Mod(n) == 2 * Half(n) && Half(n) > 0
  {
  }

  lemma SumParts(n: Size, sum: nat)
    requires sum < 2 * Mod(n)
    ensures sum / Mod(n) == (if sum >= Mod(n) then 1 else 0)
    ensures Reduced(n, sum) == (if sum >= Mod(n) then sum - Mod(n) else sum)
    ensures Top(n, sum) == (Reduced(n, sum) >= Half(n))
  {
    hide Top, Mod, Half;
    if sum >= Mod(n) {
      Parts(n, 1, sum - Mod(n));
    } else {
      Parts(n, 0, sum);
    }
  }

  /** The zero flag of an addition is right unless the sum is exactly one more than fits. */
  lemma ZeroAfterAddIff(n: Size, a: nat, b: nat, carry: bool)
    requires Operands(n, a, b)
    ensures var sum := a + b + if carry then 1 else 0;
            AfterAdd(n, a, b, carry).zero == (Reduced(n, sum) == 0) <==> sum != Mod(n)
  {
    AddFacts(n, a, b, carry);
    hide AfterAdd, Reduced;
  }

  /** adc with an immediate folds the carry into the operand, which is then cut to size. */
  function AfterAdcImmediate(n: Size, a: nat, imm: nat, carry: bool): Flags {
    AfterAdd(n, a, Reduced(n, imm + if carry then 1 else 0), false)
  }

  function AfterSbbImmediate(n: Size, a: nat, imm: nat, carry: bool): Flags {
    AfterSub(n, a, Reduced(n, imm + if carry then 1 else 0))
  }

  lemma Increment(n: Size, imm: nat, carry: bool)
    requires imm < Mod(n)
    ensures Reduced(n, imm + if carry then 1 else 0) ==
            if carry && imm == Mod(n) - 1 then 0 else imm + if carry then 1 else 0
  {
  }

  /** The carry it leaves is that of the sum unless the immediate is all ones and the
      carry was set; the overflow, unless the immediate is the largest signed number and
      the carry was set. */
  lemma AdcImmediateIff(n: Size, a: nat, imm: nat, carry: bool)
    requires Operands(n, a, imm)
    ensures var f := AfterAdcImmediate(n, a, imm, carry); var sum := a + imm + if carry then 1 else 0;
            && (f.carry == (sum >= Mod(n)) <==> !(carry && imm == Mod(n) - 1))
            && (f.overflow == !Representable(n, Signed(n, a) + Signed(n, imm) + if carry then 1 else 0)
                <==> !(carry && imm == Half(n) - 1))
  {
    Increment(n, imm, carry);
    AddFacts(n, a, Reduced(n, imm + if carry then 1 else 0), false);
    hide AfterAdd, Reduced;
  }

  lemma SbbImmediateIff(n: Size, a: nat, imm: nat, carry: bool)
    requires Operands(n, a, imm)
    ensures var f := AfterSbbImmediate(n, a, imm, carry); var c := if carry then 1 else 0;
            && (f.carry == (a < imm + c) <==> !(carry && imm == Mod(n) - 1))
            && (f.overflow == !Representable(n, Signed(n, a) - Signed(n, imm) - c)
                <==> !(carry && imm == Half(n) - 1))
  {
    Increment(n, imm, carry);
    SubFacts(n, a, Reduced(n, imm + if carry then 1 else 0));
    hide AfterSub, Reduced;
  }

  // ------------------------------------------------------------- numbers of any length

  /** A number as 16-bit limbs, least significant first. */
  function Number(xs: seq<u16>): nat {
    if xs == [] then 0 else xs[0] + 0x1_0000 * Number(xs[1..])
  }

  function Power(k: nat): nat {
    if k == 0 then 1 else 0x1_0000 * Power(k - 1)
  }

  function SignedNumber(xs: seq<u16>): int
    requires |xs| > 0
  {
    if xs[|xs| - 1] >= 0x8000 then Number(xs) - Power(|xs|) else Number(xs)
  }

  /** One register-operand add of 16 bits, and one add with carry. */
  function Limb(x: u16, y: u16, carry: bool): (u16, Flags) {
    (Wrap16(x + y + if carry then 1 else 0), AfterAdd(16, x, y, carry))
  }

  /** add on the first limbs, adc on the others; the flags are the last one's. */
  function AddChain(xs: seq<u16>, ys: seq<u16>, carry: bool): (r: (seq<u16>, Flags))
    requires |xs| == |ys| > 0
    ensures |r.0| == |xs|
  {
    var (z, f) := Limb(xs[0], ys[0], carry);
    if |xs| == 1 then ([z], f)
    else
      var (zs, g) := AddChain(xs[1..], ys[1..], f.carry);
      ([z] + zs, g)
  }

  lemma LimbFacts(x: u16, y: u16, carry: bool)
    ensures var (z, f) := Limb(x, y, carry);
            z as int + (if f.carry then 0x1_0000 else 0) == x as int + y as int + if carry then 1 else 0
  {
    AddFacts(16, x, y, carry);
    hide AfterAdd;
  }

  /** The chain computes the sum of the whole numbers modulo 2^(16k), and leaves the
      carry out of the whole sum. */
  lemma {:induction false} AddChainSum(xs: seq<u16>, ys: seq<u16>, carry: bool)
    requires |xs| == |ys| > 0
    ensures var (zs, f) := AddChain(xs, ys, carry);
            Number(zs) + (if f.carry then Power(|xs|) else 0) == Number(xs) + Number(ys) + if carry then 1 else 0
  {
    hide Limb;
    LimbFacts(xs[0], ys[0], carry);
    var (z, f) := Limb(xs[0], ys[0], carry);
    if |xs| == 1 {
      assert xs[1..] == [] && ys[1..] == [];
      assert Number([z]) == z by { assert [z][1..] == []; }
      assert Power(1) == 0x1_0000 * Power(0);
    } else {
      AddChainSum(xs[1..], ys[1..], f.carry);
      var (zs, g) := AddChain(xs[1..], ys[1..], f.carry);
      assert ([z] + zs)[1..] == zs;
    }
  }

  lemma {:induction false} NumberBelow(xs: seq<u16>)
    ensures Number(xs) < Power(|xs|)
  {
    if xs != [] {
      NumberBelow(xs[1..]);
    }
  }

  /** The last limb of the chain sees the carry out of the limbs before it. */
  lemma {:induction false} LastLimb(xs: seq<u16>, ys: seq<u16>, carry: bool) returns (c: bool)
    requires |xs| == |ys| > 0
    ensures var n := |xs| - 1; var (zs, f) := AddChain(xs, ys, carry);
            && (zs[n], f) == Limb(xs[n], ys[n], c)
            && Number(zs[..n]) + (if c then Power(n) else 0)
               == Number(xs[..n]) + Number(ys[..n]) + if carry then 1 else 0
  {
    hide Limb, Number, Power;
    var (z, f) := Limb(xs[0], ys[0], carry);
    if |xs| == 1 {
      c := carry;
      EmptyNumber();
    } else {
      var n := |xs| - 1;
      c := LastLimb(xs[1..], ys[1..], f.carry);
      LimbFacts(xs[0], ys[0], carry);
      var (zs, g) := AddChain(xs[1..], ys[1..], f.carry);
      assert ([z] + zs)[..n] == [z] + zs[..n - 1];
      NumberSplit(xs, n);
      NumberSplit(ys, n);
      PrependLimb(z, zs[..n - 1]);
      PowerStep(n);
    }
  }

  lemma EmptyNumber()
    ensures Number([]) == 0 && Power(0) == 1
  {
  }

  lemma PowerStep(n: nat)
    requires n > 0
    ensures Power(n) == 0x1_0000 * Power(n - 1)
  {
  }

  lemma PrependLimb(z: u16, zs: seq<u16>)
    ensures Number([z] + zs) == z + 0x1_0000 * Number(zs)
  {
    assert ([z] + zs)[1..] == zs;
  }

  lemma NumberSplit(xs: seq<u16>, n: nat)
    requires 0 < n <= |xs|
    ensures Number(xs[..n]) == xs[0] + 0x1_0000 * Number(xs[1..][..n - 1])
  {
    assert xs[..n][1..] == xs[1..][..n - 1];
  }

  lemma {:induction false} NumberTop(xs: seq<u16>)
    requires |xs| > 0
    ensures var n := |xs| - 1; Number(xs) == Number(xs[..n]) + Power(n) * xs[n]
  {
    var n := |xs| - 1;
    if n == 0 {
      assert xs[1..] == [];
    } else {
      NumberTop(xs[1..]);
      NumberSplit(xs, n);
      assert 0x1_0000 * (Power(n - 1) * xs[n]) == Power(n) * xs[n] by { Associate(Power(n - 1), xs[n]); }
    }
  }

  lemma Associate(p: nat, x: nat)
    ensures 0x1_0000 * (p * x) == (0x1_0000 * p) * x
  {
  }

  /** ... and the overflow flag says exactly whether the signed sum of the whole numbers
      does not fit their length. */
  lemma AddChainOverflow(xs: seq<u16>, ys: seq<u16>, carry: bool)
    requires |xs| == |ys| > 0
    ensures var k := |xs|; var sum := SignedNumber(xs) + SignedNumber(ys) + if carry then 1 else 0;
            AddChain(xs, ys, carry).1.overflow <==> !(-(Power(k) as int) <= 2 * sum < Power(k))
  {
    hide AddChain, AfterAdd, Number, Power, Signed, Limb, SignedNumber;
    var n := |xs| - 1;
    var c := LastLimb(xs, ys, carry);
    var zs := AddChain(xs, ys, carry).0;
    LimbOverflow(xs[n], ys[n], c);
    SignedNumberTop(xs);
    SignedNumberTop(ys);
    NumberBelow(zs[..n]);
    PowerStep(n + 1);
    SumFits(Power(n), Signed(16, xs[n]), Signed(16, ys[n]), if c then 1 else 0, Number(zs[..n]));
  }

  lemma LimbOverflow(x: u16, y: u16, c: bool)
    ensures Limb(x, y, c).1.overflow <==> !(-0x8000 <= Signed(16, x) + Signed(16, y) + (if c then 1 else 0) < 0x8000)
  {
    AddFacts(16, x, y, c);
    hide AfterAdd, Signed;
  }

  lemma SignedNumberTop(xs: seq<u16>)
    requires |xs| > 0
    ensures var n := |xs| - 1; SignedNumber(xs) == Number(xs[..n]) + Power(n) * Signed(16, xs[n])
  {
    var n := |xs| - 1;
    hide Number, Signed;
    NumberTop(xs);
    SignedTop(Power(n), xs[n], Number(xs[..n]));
  }

  lemma SignedTop(p: nat, x: u16, low: nat)
    ensures (low + p * x) - (if x >= 0x8000 then 0x1_0000 * p else 0) == low + p * Signed(16, x)
  {
    assert p * (x - 0x1_0000) == p * x - p * 0x1_0000;
  }

  lemma SumFits(p: nat, x: int, y: int, c: nat, low: nat)
    requires low < p
    ensures var sum := p * x + p * y + p * c + low;
            -0x1_0000 * p <= 2 * sum < 0x1_0000 * p <==> -0x8000 <= x + y + c < 0x8000
  {
    var t := x + y + c;
    assert p * x + p * y + p * c == p * t;
    if t < -0x8000 {
      assert p * t <= p * -0x8001;
    } else if t >= 0x8000 {
      assert p * t >= p * 0x8000;
    } else {
      assert p * -0x8000 <= p * t <= p * 0x7fff;
    }
  }

  // ------------------------------------------------------------- the register object

  class FlagsRegister {
    var carry: bool
    var zero: bool
    var sign: bool
    var overflow: bool
    var parity: bool

    ghost function View(): Flags
      reads this
    {
      Flags(carry, zero, sign, overflow, parity)
    }

    /** The second operand is cut to size first, whatever width it comes in. */
    method UpdateAdd(n: Size, v1: nat, v2: nat, hasCarry: bool)
      requires v1 < Mod(n)
      modifies this
      ensures View() == AfterAdd(n, v1, Reduced(n, v2), hasCarry)
    {
      hide EvenBits, Top;
      var operand := Reduced(n, v2);
      var result := v1 + operand + if hasCarry then 1 else 0;
      var s1, s2, sr := Top(n, v1), Top(n, operand), Top(n, result);
      carry := result / Mod(n) % 2 == 1;
      parity := CheckParity(result % 0x100);
      LowByte(8, result / 0x100, result % 0x100);
      zero := result == 0;
      sign := sr;
      overflow := s1 == s2 && s1 != sr;
    }

    method UpdateSub(n: Size, v1: nat, v2: nat)
      requires v1 < Mod(n)
      modifies this
      ensures View() == AfterSub(n, v1, Reduced(n, v2))
    {
      hide EvenBits, Top;
      var operand := Reduced(n, v2);
      var result := (v1 - operand) % 0x1_0000_0000_0000_0000;
      var s1, s2, sr := Top(n, v1), Top(n, operand), Top(n, result);
      carry := result / Mod(n) % 2 == 1;
      parity := CheckParity(result % 0x100);
      LowByte(8, result / 0x100, result % 0x100);
      zero := result == 0;
      sign := sr;
      overflow := s1 != s2 && s1 != sr;
    }
  }
}
