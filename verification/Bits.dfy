// Bit vectors of any width, least significant bit first, and their value as a
// natural number. The shifter, the find-first-one tree and the divider's
// result register share this representation.
module Bits {
  type Vector = seq<bool>

  function Pow2(n: nat): (p: nat)
    ensures p > 0
  {
    if n == 0 then 1 else 2 * Pow2(n - 1)
  }

  function Val(v: Vector): nat {
    if v == [] then 0 else (if v[0] then 1 else 0) + 2 * Val(v[1..])
  }

  function Reverse(v: Vector): (r: Vector)
    ensures |r| == |v|
  {
    seq(|v|, i requires 0 <= i < |v| => v[|v| - 1 - i])
  }

  function Not(v: Vector): (r: Vector)
    ensures |r| == |v|
  {
    seq(|v|, i requires 0 <= i < |v| => !v[i])
  }

  function Zeros(n: nat): (r: Vector)
    ensures |r| == n
  {
    seq(n, i => false)
  }

  /** Right shift by s, filling from the top with the given bit. */
  function ShiftRight(v: Vector, s: nat, fill: bool): (r: Vector)
    ensures |r| == |v|
  {
    seq(|v|, i requires 0 <= i < |v| => if i + s < |v| then v[i + s] else fill)
  }

  /** The independent definition of a left shift by s that drops the top bits. */
  function ShiftLeft(v: Vector, s: nat): (r: Vector)
    ensures |r| == |v|
  {
    seq(|v|, i requires 0 <= i < |v| => if i >= s then v[i - s] else false)
  }

  function FromNat(n: nat, width: nat): (r: Vector)
    ensures |r| == width
  {
    if width == 0 then [] else [n % 2 == 1] + FromNat(n / 2, width - 1)
  }

  lemma {:induction false} ValBound(v: Vector)
    ensures Val(v) < Pow2(|v|)
  {
    if v != [] {
      ValBound(v[1..]);
    }
  }

  lemma {:induction false} ValFromNat(n: nat, width: nat)
    requires n < Pow2(width)
    ensures Val(FromNat(n, width)) == n
  {
    if width > 0 {
      ValFromNat(n / 2, width - 1);
      assert FromNat(n, width)[1..] == FromNat(n / 2, width - 1);
    }
  }

  lemma {:induction false} ValZero(v: Vector)
    ensures Val(v) == 0 <==> forall i :: 0 <= i < |v| ==> !v[i]
  {
    if v != [] {
      ValZero(v[1..]);
      if Val(v) == 0 {
        forall i | 0 <= i < |v| ensures !v[i] { if i > 0 { assert v[i] == v[1..][i - 1]; } }
      }
    }
  }

  /** The weight of the top bit. */
  lemma {:induction false} ValTop(v: Vector)
    requires v != []
    ensures Val(v) == Val(v[..|v| - 1]) + (if v[|v| - 1] then Pow2(|v| - 1) else 0)
  {
    if |v| == 1 {
      assert v[1..] == [];
    } else {
      ValTop(v[1..]);
      assert v[1..][..|v| - 2] == v[..|v| - 1][1..];
    }
  }

  /** Prepending s zero bits multiplies by two to the s. */
  lemma {:induction false} ValPrependZeros(v: Vector, s: nat)
    ensures Val(Zeros(s) + v) == Val(v) * Pow2(s)
  {
    if s == 0 {
      assert Zeros(s) + v == v;
    } else {
      ValPrependZeros(v, s - 1);
      assert (Zeros(s) + v)[1..] == Zeros(s - 1) + v;
      DoubleProduct(Val(v), s);
    }
  }

  lemma DoubleProduct(a: nat, s: nat)
    requires s > 0
    ensures a * Pow2(s) == 2 * (a * Pow2(s - 1))
  {
  }

  lemma {:induction false} Pow2Add(a: nat, b: nat)
    ensures Pow2(a + b) == Pow2(a) * Pow2(b)
  {
    if a > 0 {
      Pow2Add(a - 1, b);
      Associate(2, Pow2(a - 1), Pow2(b));
    }
  }

  lemma Associate(x: nat, y: nat, z: nat)
    ensures x * (y * z) == (x * y) * z
  {
  }

  lemma {:induction false} Pow2Monotone(a: nat, b: nat)
    requires a <= b
    ensures Pow2(a) <= Pow2(b)
  {
    if a < b { Pow2Monotone(a, b - 1); }
  }

  /** Removing clear top bits keeps the value. */
  lemma {:induction false} ValDropTop(v: Vector, keep: nat)
    requires keep <= |v|
    requires forall i :: keep <= i < |v| ==> !v[i]
    ensures Val(v) == Val(v[..keep])
    decreases |v|
  {
    if keep < |v| {
      ValTop(v);
      ValDropTop(v[..|v| - 1], keep);
      assert v[..|v| - 1][..keep] == v[..keep];
    } else {
      assert v[..keep] == v;
    }
  }

  /** A left shift that loses no set bit multiplies. */
  lemma ValShiftLeft(v: Vector, s: nat)
    requires s <= |v|
    requires forall i :: |v| - s <= i < |v| ==> !v[i]
    ensures Val(ShiftLeft(v, s)) == Val(v) * Pow2(s)
  {
    ValDropTop(v, |v| - s);
    assert ShiftLeft(v, s) == Zeros(s) + v[..|v| - s];
    ValPrependZeros(v[..|v| - s], s);
  }

  /** Complementing every bit subtracts from the all-ones word. */
  lemma {:induction false} ValNot(v: Vector)
    ensures Val(Not(v)) == Pow2(|v|) - 1 - Val(v)
  {
    if v != [] {
      ValNot(v[1..]);
      assert Not(v)[1..] == Not(v[1..]);
    }
  }

  /** Reversing the bits, shifting right and reversing again is a left shift:
      how rtl/cv32e40p_alu.sv builds its left shifts. */
  lemma LeftShiftByReversal(v: Vector, s: nat)
    ensures Reverse(ShiftRight(Reverse(v), s, false)) == ShiftLeft(v, s)
  {
    var l := Reverse(ShiftRight(Reverse(v), s, false));
    forall i | 0 <= i < |v| ensures l[i] == ShiftLeft(v, s)[i] {
      assert l[i] == ShiftRight(Reverse(v), s, false)[|v| - 1 - i];
    }
  }

  // ---------------------------------------------------------------------------
  // Right shifts divide.

  /** The value as a signed number. */
  function Signed(v: Vector): int
    requires v != []
  {
    if v[|v| - 1] then Val(v) - Pow2(|v|) else Val(v)
  }

  /** The lowest bit of a signed number. */
  lemma SignedLowest(v: Vector)
    requires |v| >= 2
    ensures Signed(v) == (if v[0] then 1 else 0) + 2 * Signed(v[1..])
  {
  }

  /** Shifting right by one, with copies of the top bit, halves and rounds down. */
  lemma {:induction false} ShiftRightOnce(v: Vector)
    requires v != []
    ensures ShiftRight(v, 1, v[|v| - 1])[|v| - 1] == v[|v| - 1]
    ensures Signed(ShiftRight(v, 1, v[|v| - 1])) == Signed(v) / 2
    decreases |v|
  {
    var top := v[|v| - 1];
    var r := ShiftRight(v, 1, top);
    if |v| == 1 {
      OneBit(v);
      assert r == v;
    } else {
      ShiftRightOnce(v[1..]);
      var tail := ShiftRight(v[1..], 1, top);
      assert r[1..] == tail && r[0] == v[1];
      HalfOf(Signed(v), Signed(v[1..]), v[0], Signed(r), Signed(tail), v[1]) by {
        SignedLowest(v);
        SignedLowest(r);
        SignedLowestBit(v[1..]);
      }
    }
  }

  lemma OneBit(v: Vector)
    requires |v| == 1
    ensures Signed(v) == if v[0] then -1 else 0
  {
    assert v[1..] == [];
    assert Val(v) == if v[0] then 1 else 0;
    assert Pow2(1) == 2 * Pow2(0);
  }

  /** The lowest bit tells odd from even. */
  lemma SignedLowestBit(v: Vector)
    requires v != []
    ensures Signed(v) % 2 == if v[0] then 1 else 0
  {
    if |v| == 1 { OneBit(v); } else { SignedLowest(v); }
  }

  lemma HalfOf(x: int, half: int, low: bool, r: int, tail: int, next: bool)
    requires x == (if low then 1 else 0) + 2 * half
    requires r == (if next then 1 else 0) + 2 * tail
    requires tail == half / 2 && half % 2 == (if next then 1 else 0)
    ensures r == x / 2
  {
  }

  /** Dividing twice, rounding down, is dividing by the product. */
  lemma FloorOfFloor(x: int, p: nat)
    requires p > 0
    ensures x / p / 2 == x / (2 * p)
  {
    var q, r := x / p, x % p;
    var h, b := q / 2, q % 2;
    assert x == p * q + r && q == 2 * h + b;
    assert p * q == (2 * p) * h + p * b by {
      assert p * (2 * h + b) == p * (2 * h) + p * b;
      assert p * (2 * h) == (2 * p) * h;
    }
    assert 0 <= p * b + r < 2 * p by {
      if b == 0 { assert p * b == 0; } else { assert p * b == p; }
    }
    FloorUnique(x, 2 * p, h, p * b + r);
  }

  lemma FloorUnique(x: int, d: nat, q: int, r: nat)
    requires d > 0 && r < d && x == d * q + r
    ensures x / d == q
  {
    var e := x / d - q;
    assert x == d * (x / d) + x % d;
    assert d * (x / d) - d * q == d * e;
    MultipleSign(d, e);
  }

  lemma MultipleSign(d: nat, e: int)
    requires d > 0
    ensures e > 0 ==> d * e >= d
    ensures e < 0 ==> d * e <= -(d as int)
  {
  }

  lemma ShiftRightSteps(v: Vector, s: nat, fill: bool)
    requires s > 0
    ensures ShiftRight(v, s, fill) == ShiftRight(ShiftRight(v, s - 1, fill), 1, fill)
  {
  }

  /** An arithmetic right shift divides the signed value and rounds down. */
  lemma {:induction false} ShiftRightSigned(v: Vector, s: nat)
    requires v != []
    ensures ShiftRight(v, s, v[|v| - 1])[|v| - 1] == v[|v| - 1]
    ensures Signed(ShiftRight(v, s, v[|v| - 1])) == Signed(v) / Pow2(s)
    decreases s
  {
    var top := v[|v| - 1];
    if s == 0 {
      assert ShiftRight(v, 0, top) == v;
    } else {
      var r := ShiftRight(v, s - 1, top);
      ShiftRightSigned(v, s - 1);
      ShiftRightSteps(v, s, top);
      ShiftRightOnce(r);
      FloorOfFloor(Signed(v), Pow2(s - 1));
    }
  }

  /** A logical right shift divides the value. */
  lemma {:induction false} ShiftRightUnsigned(v: Vector, s: nat)
    ensures Val(ShiftRight(v, s, false)) == Val(v) / Pow2(s)
    decreases s
  {
    if s == 0 {
      assert ShiftRight(v, 0, false) == v;
    } else {
      var r := ShiftRight(v, s - 1, false);
      ShiftRightUnsigned(v, s - 1);
      ShiftRightSteps(v, s, false);
      HalveUnsigned(r);
      FloorOfFloor(Val(v), Pow2(s - 1));
    }
  }

  lemma HalveUnsigned(v: Vector)
    ensures Val(ShiftRight(v, 1, false)) == Val(v) / 2
  {
    if v == [] {
      assert ShiftRight(v, 1, false) == [];
    } else {
      var r := ShiftRight(v, 1, false);
      ValDropTop(r, |v| - 1);
      assert r[..|v| - 1] == v[1..];
    }
  }
}
