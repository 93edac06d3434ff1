// rtl/cv32e40p_alu.sv: how the ALU prepares the divider's operands. Operand a is the
// divisor and operand b the dividend (the decoder swaps them).
module DividerOperands {
  import opened Arithmetic
  import opened Bits
  import opened FindFirstOne
  import Divider

  function PopCount(v: Vector): nat {
    if v == [] then 0 else (if v[0] then 1 else 0) + PopCount(v[1..])
  }

  /** div_op_a_signed */
  predicate NegativeDivisor(y: Vector, isSigned: bool) requires |y| >= 2 {
    y[|y| - 1] && isSigned
  }

  function SearchInput(y: Vector, isSigned: bool): (v: Vector)
    requires |y| >= 2
    ensures |v| == |y|
  {
    if NegativeDivisor(y, isSigned) then Reverse(Not(y)) else Reverse(y)
  }

  /** A sum or count truncated to the range below m. */
  function Truncate(x: nat, m: nat): (r: nat)
    requires x < 2 * m
    ensures r < m
  {
    if x >= m then x - m else x
  }

  /** clb_result: one less than the count found, truncated. The source has a width
      of 32, so its 6-bit values are truncated modulo 64. */
  function LeadingBits(first: nat, w: nat): (r: nat)
    requires first < w
    ensures r < 2 * w
  {
    Truncate(first + 2 * w - 1, 2 * w)
  }

  /** div_shift, from what the find-first-one tree reports. */
  function DivShift(found: Node, w: nat, negative: bool): (r: nat)
    requires found.index < w
    ensures r < 2 * w
  {
    var count := if !found.sel then w - 1 else LeadingBits(found.index, w);
    Truncate(count + (if negative then 0 else 1), 2 * w)
  }

  /** The divider's inputs; the shifter sees the low 5 bits of div_shift. */
  function Operands(found: Node, x: nat, y: Vector, isSigned: bool, isRem: bool): Divider.Inputs
    requires |y| >= 2 && found.index < |y|
  {
    var s := DivShift(found, |y|, NegativeDivisor(y, isSigned));
    var shifted := Reverse(ShiftRight(Reverse(y), Truncate(s, |y|), false));
    Divider.Inputs(x, Val(shifted), s, PopCount(y) == 0,
                   NegativeDivisor(y, isSigned), isSigned, isRem, true, false)
  }

  lemma {:induction false} PopCountZero(v: Vector)
    ensures PopCount(v) == 0 <==> Val(v) == 0
  {
    if v != [] { PopCountZero(v[1..]); }
  }

  lemma SignIsTopBit(v: Vector)
    requires |v| >= 2
    ensures Val(v) < Pow2(|v|) && (v[|v| - 1] <==> Divider.SignBit(|v|, Val(v)))
  {
    ValTop(v);
    ValBound(v[..|v| - 1]);
  }

  /** The position of the top one bounds the value from both sides. */
  lemma TopOne(v: Vector, top: nat)
    requires TopAt(v, top)
    ensures Pow2(top) <= Val(v) < Pow2(top + 1)
  {
    ValDropTop(v, top + 1);
    ValTop(v[..top + 1]);
    ValBound(v[..top + 1]);
  }

  lemma ReverseZero(u: Vector)
    ensures Val(Reverse(u)) == 0 <==> Val(u) == 0
  {
    var v := Reverse(u);
    ValZero(u);
    ValZero(v);
    if Val(v) == 0 {
      forall i | 0 <= i < |u| ensures !u[i] { assert v[|u| - 1 - i] == u[i]; }
    }
  }

  lemma LeastIsTop(u: Vector, v: Vector, least: nat)
    requires v == Reverse(u) && least < |u| && v[least] && forall i :: 0 <= i < least ==> !v[i]
    ensures TopAt(u, |u| - 1 - least)
  {
    var top := |u| - 1 - least;
    forall j | top < j < |u| ensures !u[j] { assert v[|u| - 1 - j] == u[j]; }
  }

  /** Searching the reversed word finds the top one. */
  lemma SearchFromTop(u: Vector, v: Vector, found: Node)
    requires |u| >= 2 && v == Reverse(u) && IsLeastOne(v, found)
    ensures found.sel <==> Val(u) != 0
    ensures found.sel ==> TopAt(u, |u| - 1 - found.index)
  {
    assert Val(v) == 0 <==> Val(u) == 0 by { ReverseZero(u); }
    if found.sel { LeastIsTop(u, v, found.index); }
  }

  ghost predicate TopAt(u: Vector, top: nat) {
    top < |u| && u[top] && forall i :: top < i < |u| ==> !u[i]
  }

  /** s is the shift for a divisor of value m, b the shifted word: nothing is lost,
      and one more shift would overflow. */
  ghost predicate PlainFit(w: nat, m: nat, s: nat, b: nat) {
    s < w && b == m * Pow2(s) < Pow2(w) <= m * Pow2(s + 1)
  }

  lemma ShiftToTop(y: Vector, s: nat)
    requires s < |y| && TopAt(y, |y| - 1 - s)
    ensures PlainFit(|y|, Val(y), s, Val(ShiftLeft(y, s)))
  {
    TopOne(y, |y| - 1 - s);
    ValShiftLeft(y, s);
    ValBound(ShiftLeft(y, s));
    Scale(Pow2(|y| - 1 - s), Val(y), s + 1, |y| - 1 - s);
  }

  lemma DivShiftValue(found: Node, w: nat)
    requires found.index < w
    ensures DivShift(found, w, false) == if found.sel then found.index else w
    ensures !found.sel ==> DivShift(found, w, true) == w - 1
    ensures found.sel && found.index > 0 ==> DivShift(found, w, true) == found.index - 1
  {
  }

  /** A divisor of zero: the search fails and the shift is the width. */
  lemma ZeroShift(y: Vector, found: Node)
    requires |y| >= 2 && Val(y) == 0 && IsLeastOne(Reverse(y), found)
    ensures DivShift(found, |y|, false) == |y|
  {
    ReverseZero(y);
    DivShiftValue(found, |y|);
  }

  /** A divisor that is not negative: the shift counts its leading zeros. */
  lemma PlainShift(y: Vector, found: Node)
    requires |y| >= 2 && Val(y) != 0 && IsLeastOne(Reverse(y), found)
    ensures var s := DivShift(found, |y|, false); PlainFit(|y|, Val(y), s, Val(ShiftLeft(y, s)))
  {
    assert PlainFit(|y|, Val(y), found.index, Val(ShiftLeft(y, found.index))) by {
      SearchFromTop(y, Reverse(y), found);
      ShiftToTop(y, found.index);
    }
    assert DivShift(found, |y|, false) == found.index by {
      SearchFromTop(y, Reverse(y), found);
      DivShiftValue(found, |y|);
    }
  }

  lemma Scale(low: nat, m: nat, s: nat, t: nat)
    requires low == Pow2(t) && low <= m
    ensures Pow2(t + s) <= m * Pow2(s)
    ensures low < m ==> Pow2(t + s) < m * Pow2(s)
  {
    Pow2Add(t, s);
    MulMonotone(low, m, Pow2(s));
  }

  /** s is the shift for a negative divisor of magnitude m, b the shifted word: the
      magnitude reaches the weight of the sign bit, and one more shift would pass it. */
  ghost predicate NegativeFit(w: nat, m: nat, s: nat, b: nat) {
    && s < w
    && m * Pow2(s) <= Pow2(w - 1) < m * Pow2(s + 1)
    && b == Pow2(w) - m * Pow2(s)
  }

  /** A negative divisor: the shift counts its redundant sign bits. */
  lemma NegativeShift(y: Vector, m: nat, found: Node)
    requires |y| >= 2 && y[|y| - 1] && Val(y) + m == Pow2(|y|) && IsLeastOne(Reverse(Not(y)), found)
    ensures var s := DivShift(found, |y|, true);
            NegativeFit(|y|, m, s, Val(ShiftLeft(y, s)))
  {
    var n := Not(y);
    SearchFromTop(n, Reverse(n), found);
    ValNot(y);
    DivShiftValue(found, |y|);
    if found.sel {
      ShiftToSign(y, n, m, found.index - 1);
    } else {
      MinusOneShift(y, n, m);
    }
  }

  lemma ShiftToSign(y: Vector, n: Vector, m: nat, s: nat)
    requires n == Not(y) && m == Val(n) + 1 && s + 1 < |y| && TopAt(n, |y| - 2 - s)
    ensures NegativeFit(|y|, m, s, Val(ShiftLeft(y, s)))
  {
    var w := |y|;
    TopOne(n, w - 2 - s);
    Scale(Pow2(w - 2 - s), m, s + 1, w - 2 - s);
    Pow2Add(w - 1 - s, s);
    MulMonotone(m, Pow2(w - 1 - s), Pow2(s));
    ShiftedNegative(y, n, m, s);
  }

  /** All ones: the search finds nothing and only the sign bit stays. */
  lemma MinusOneShift(y: Vector, n: Vector, m: nat)
    requires n == Not(y) && |y| >= 2 && Val(n) == 0 && m == 1
    ensures NegativeFit(|y|, m, |y| - 1, Val(ShiftLeft(y, |y| - 1)))
  {
    ValZero(n);
    ShiftedNegative(y, n, m, |y| - 1);
  }

  lemma ShiftedNegative(y: Vector, n: Vector, m: nat, s: nat)
    requires n == Not(y) && m == Val(n) + 1 && s <= |y| && forall i :: |y| - s <= i < |y| ==> !n[i]
    ensures Val(ShiftLeft(y, s)) == Pow2(|y|) - m * Pow2(s)
  {
    var w := |y|;
    ValDropTop(n, w - s);
    assert ShiftLeft(y, s) == Zeros(s) + y[..w - s];
    ValPrependZeros(y[..w - s], s);
    ValNot(y[..w - s]);
    assert n[..w - s] == Not(y[..w - s]);
    Pow2Add(w - s, s);
    DistributeMinus(Pow2(w - s), m, Pow2(s));
  }

  /** The ALU hands the divider a divisor shifted exactly as far as it goes. */
  lemma OperandsPrepared(found: Node, x: nat, y: Vector, isSigned: bool, isRem: bool)
    requires |y| >= 2 && x < Pow2(|y|) && IsLeastOne(SearchInput(y, isSigned), found)
    ensures Divider.Prepared(|y|, Val(y), Operands(found, x, y, isSigned, isRem))
  {
    OperandFields(found, x, y, isSigned, isRem);
    PreparedCases(found, y, Operands(found, x, y, isSigned, isRem));
  }

  /** What the operands are, with the shifter's detour through reversed words removed. */
  ghost predicate HasOperands(found: Node, y: Vector, i: Divider.Inputs) {
    && |y| >= 2 && found.index < |y|
    && i.opA < Pow2(|y|) && i.opB < Pow2(|y|) && Val(y) < Pow2(|y|)
    && i.shift == DivShift(found, |y|, i.opBSign)
    && i.opB == Val(ShiftLeft(y, Truncate(i.shift, |y|)))
    && i.opBIsZero == (Val(y) == 0)
    && i.opBSign == (i.isSigned && y[|y| - 1])
    && y[|y| - 1] == Divider.SignBit(|y|, Val(y))
  }

  lemma OperandFields(found: Node, x: nat, y: Vector, isSigned: bool, isRem: bool)
    requires |y| >= 2 && x < Pow2(|y|) && found.index < |y|
    ensures HasOperands(found, y, Operands(found, x, y, isSigned, isRem))
  {
    var s := Truncate(DivShift(found, |y|, NegativeDivisor(y, isSigned)), |y|);
    PopCountZero(y);
    SignIsTopBit(y);
    LeftShiftByReversal(y, s);
    ValBound(ShiftLeft(y, s));
  }

  lemma PreparedCases(found: Node, y: Vector, i: Divider.Inputs)
    requires HasOperands(found, y, i) && IsLeastOne(SearchInput(y, i.isSigned), found)
    ensures Divider.Prepared(|y|, Val(y), i)
  {
    if i.opBSign {
      NegativeCase(found, y, i);
    } else if Val(y) == 0 {
      ZeroCase(found, y, i);
    } else {
      PlainShift(y, found);
      PreparedPlain(|y|, Val(y), i);
    }
  }

  lemma NegativeCase(found: Node, y: Vector, i: Divider.Inputs)
    requires HasOperands(found, y, i) && i.opBSign && IsLeastOne(Reverse(Not(y)), found)
    ensures Divider.Prepared(|y|, Val(y), i)
  {
    NegativeOperand(found, y, i);
    PreparedNegative(|y|, Val(y), i);
  }

  lemma NegativeOperand(found: Node, y: Vector, i: Divider.Inputs)
    requires HasOperands(found, y, i) && i.opBSign && IsLeastOne(Reverse(Not(y)), found)
    ensures NegativeFit(|y|, Pow2(|y|) - Val(y), i.shift, i.opB)
  {
    var m: nat := Pow2(|y|) - Val(y);
    NegativeShiftAs(y, m, found, i.shift, i.opB);
  }

  lemma NegativeShiftAs(y: Vector, m: nat, found: Node, s: nat, b: nat)
    requires |y| >= 2 && y[|y| - 1] && Val(y) + m == Pow2(|y|) && IsLeastOne(Reverse(Not(y)), found)
    requires s == DivShift(found, |y|, true) && s < 2 * |y| && b == Val(ShiftLeft(y, Truncate(s, |y|)))
    ensures NegativeFit(|y|, m, s, b)
  {
    NegativeShift(y, m, found);
  }

  lemma ZeroCase(found: Node, y: Vector, i: Divider.Inputs)
    requires HasOperands(found, y, i) && Val(y) == 0 && !i.opBSign && IsLeastOne(Reverse(y), found)
    ensures Divider.Prepared(|y|, Val(y), i)
  {
    ZeroShift(y, found);
    ZeroShifted(y, Truncate(i.shift, |y|));
  }

  lemma PreparedPlain(w: nat, y: nat, i: Divider.Inputs)
    requires w >= 2 && 0 < y < Pow2(w) && i.opA < Pow2(w) && !i.opBIsZero && !i.opBSign
    requires i.isSigned ==> !Divider.SignBit(w, y)
    requires PlainFit(w, y, i.shift, i.opB)
    ensures Divider.Prepared(w, y, i)
  {
  }

  lemma PreparedNegative(w: nat, y: nat, i: Divider.Inputs)
    requires w >= 2 && y < Pow2(w) && i.opA < Pow2(w) && !i.opBIsZero && i.opBSign
    requires i.isSigned && Divider.SignBit(w, y)
    requires NegativeFit(w, Pow2(w) - y, i.shift, i.opB) && i.opB < Pow2(w)
    ensures Divider.Prepared(w, y, i)
  {
  }

  lemma ZeroShifted(y: Vector, s: nat)
    requires Val(y) == 0
    ensures Val(ShiftLeft(y, s)) == 0
  {
    ValZero(y);
    ValZero(ShiftLeft(y, s));
  }

  /** DIV, DIVU, REM and REMU as the core executes them, with divisor y and dividend
      x: from issue, for every pattern of back-pressure, the result offered is that
      of section 7.2 of the RISC-V Instruction Set Manual Volume I, 20191213. */
  lemma DivideInstructionCorrect(x: nat, y: Vector, isSigned: bool, isRem: bool, s: Divider.Regs, ready: seq<bool>)
    requires |y| >= 2 && x < Pow2(|y|)
    requires Divider.Shape(|y|, s) && s.phase == Divider.Idle
    ensures var found := Root(SearchInput(y, isSigned));
            && IsLeastOne(SearchInput(y, isSigned), found)
            && Val(y) < Pow2(|y|)
            && var i := Operands(found, x, y, isSigned, isRem);
            && Divider.Fits(|y|, i)
            && (|ready| >= i.shift + 2 && (forall k :: i.shift + 2 <= k < |ready| ==> !ready[k]) ==>
                var n := Divider.After(|y|, s, i, ready);
                n.phase == Divider.Finish
                && Divider.Result(|y|, n) == Divider.IsaResult(|y|, isSigned, isRem, x, Val(y)))
  {
    var found := Root(SearchInput(y, isSigned));
    FirstOneCorrect(SearchInput(y, isSigned));
    DivideFound(found, x, y, isSigned, isRem, s, ready);
  }

  lemma DivideFound(found: Node, x: nat, y: Vector, isSigned: bool, isRem: bool, s: Divider.Regs, ready: seq<bool>)
    requires |y| >= 2 && x < Pow2(|y|) && IsLeastOne(SearchInput(y, isSigned), found)
    requires Divider.Shape(|y|, s) && s.phase == Divider.Idle
    ensures Val(y) < Pow2(|y|)
    ensures var i := Operands(found, x, y, isSigned, isRem);
            && Divider.Fits(|y|, i)
            && (|ready| >= i.shift + 2 && (forall k :: i.shift + 2 <= k < |ready| ==> !ready[k]) ==>
                var n := Divider.After(|y|, s, i, ready);
                n.phase == Divider.Finish
                && Divider.Result(|y|, n) == Divider.IsaResult(|y|, isSigned, isRem, x, Val(y)))
  {
    var i := Operands(found, x, y, isSigned, isRem);
    OperandsPrepared(found, x, y, isSigned, isRem);
    if |ready| >= i.shift + 2 && (forall k :: i.shift + 2 <= k < |ready| ==> !ready[k]) {
      Divider.DivisionCorrect(|y|, Val(y), i, s, ready);
    }
  }

  /** The same for operands given as numbers below 2 to the power of w. */
  lemma DivideNumbersCorrect(w: nat, x: nat, y: nat, isSigned: bool, isRem: bool, s: Divider.Regs, ready: seq<bool>)
    requires w >= 2 && x < Pow2(w) && y < Pow2(w)
    requires Divider.Shape(w, s) && s.phase == Divider.Idle
    ensures var v := FromNat(y, w);
            var found := Root(SearchInput(v, isSigned));
            && found.index < w
            && var i := Operands(found, x, v, isSigned, isRem);
            && Divider.Fits(w, i)
            && (|ready| >= i.shift + 2 && (forall k :: i.shift + 2 <= k < |ready| ==> !ready[k]) ==>
                var n := Divider.After(w, s, i, ready);
                Divider.OutVld(n, i) && Divider.Result(w, n) == Divider.IsaResult(w, isSigned, isRem, x, y))
  {
    ValFromNat(y, w);
    DivideInstructionCorrect(x, FromNat(y, w), isSigned, isRem, s, ready);
  }
}
