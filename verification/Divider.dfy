// rtl/cv32e40p_alu_div.sv: the serial divider, for every operand width w.
module Divider {
  import opened Arithmetic
  import opened Bits

  datatype Phase = Idle | Divide | Finish

  /** The registers. areg and breg are words; resreg is shifted, so it is a bit vector. */
  datatype Regs = Regs(phase: Phase, areg: nat, breg: nat, resreg: Vector, cnt: nat,
                       remSel: bool, compInv: bool, resInv: bool)

  /** The inputs of one clock. opB is the divisor after the normalising shift,
      opBSign is already gated to false for unsigned operations. */
  datatype Inputs = Inputs(opA: nat, opB: nat, shift: nat, opBIsZero: bool, opBSign: bool,
                           isSigned: bool, isRem: bool, inVld: bool, outRdy: bool)

  predicate Fits(w: nat, i: Inputs) {
    w >= 2 && i.opA < Pow2(w) && i.opB < Pow2(w) && i.shift <= w
  }

  predicate Shape(w: nat, s: Regs) {
    s.areg < Pow2(w) && s.breg < Pow2(w) && |s.resreg| == w
  }

  predicate SignBit(w: nat, x: nat) requires w >= 1 { x >= Pow2(w - 1) }

  /** Two's complement negation of a word. */
  function Neg(w: nat, x: nat): (r: nat)
    requires x < Pow2(w)
    ensures r < Pow2(w)
  {
    if x == 0 then 0 else Pow2(w) - x
  }

  function Sub(w: nat, x: nat, y: nat): (r: nat)
    requires x < Pow2(w) && y < Pow2(w)
    ensures r < Pow2(w)
  {
    if y <= x then x - y else Pow2(w) + x - y
  }

  predicate SignsDiffer(w: nat, i: Inputs) requires w >= 1 {
    i.isSigned && SignBit(w, i.opA) != i.opBSign
  }

  /** The one comparator: inverted for a negative divisor. */
  predicate Compare(s: Regs, i: Inputs) {
    (s.areg == s.breg || (s.areg > s.breg) != s.compInv) && (s.areg != 0 || i.opBIsZero)
  }

  /** Shift right by one with the given top bit. */
  function ShiftRightInto(w: nat, x: nat, top: bool): (r: nat)
    requires w >= 1 && x < Pow2(w)
    ensures r < Pow2(w)
  {
    x / 2 + (if top then Pow2(w - 1) else 0)
  }

  /** One clock edge of the datapath and of the state machine. */
  function Next(w: nat, s: Regs, i: Inputs): (n: Regs)
    requires Shape(w, s) && Fits(w, i)
    ensures Shape(w, n)
  {
    match s.phase
    case Idle =>
      if i.inVld then
        Regs(Divide, if SignsDiffer(w, i) then Neg(w, i.opA) else i.opA, i.opB, Zeros(w), i.shift,
             i.isRem, i.opBSign, (!i.opBIsZero || i.isRem) && SignsDiffer(w, i))
      else CountDown(s)
    case Divide =>
      var c := Compare(s, i);
      CountDown(s).(areg := if c then Sub(w, s.areg, s.breg) else s.areg,
                    breg := ShiftRightInto(w, s.breg, s.compInv),
                    resreg := s.resreg[1..] + [c],
                    phase := if s.cnt == 0 then Finish else Divide)
    case Finish =>
      CountDown(s).(phase := if i.outRdy then Idle else Finish)
  }

  function CountDown(s: Regs): Regs {
    s.(cnt := if s.cnt > 0 then s.cnt - 1 else 0)
  }

  predicate OutVld(s: Regs, i: Inputs) {
    s.phase == Finish || (s.phase == Idle && !i.inVld)
  }

  /** Res_DO. */
  function Result(w: nat, s: Regs): (r: nat)
    requires Shape(w, s)
    ensures r < Pow2(w)
  {
    ValBound(Reverse(s.resreg));
    var out := if s.remSel then s.areg else Val(Reverse(s.resreg));
    if s.resInv then Neg(w, out) else out
  }

  // ---------------------------------------------------------------------------
  // The contract: section 7.2 (Division Operations) of the RISC-V Instruction Set
  // Manual Volume I, 20191213.

  function Signed(w: nat, x: nat): int requires w >= 1 && x < Pow2(w) {
    if SignBit(w, x) then x - Pow2(w) else x
  }

  function Abs(x: int): nat { if x < 0 then -x else x }

  /** Division rounding towards zero. */
  function TruncDiv(x: int, y: int): int requires y != 0 {
    if (x < 0) == (y < 0) then Abs(x) / Abs(y) else -(Abs(x) / Abs(y))
  }

  /** x as a w-bit word. */
  function Word(w: nat, x: int): (r: nat)
    ensures r < Pow2(w)
  {
    x % Pow2(w)
  }

  function IsaValue(w: nat, isSigned: bool, x: nat): int requires w >= 1 && x < Pow2(w) {
    if isSigned then Signed(w, x) else x
  }

  /** DIV, DIVU, REM and REMU of words x and y. Division by zero gives all ones
      and the dividend. Signed overflow needs no case of its own: the quotient
      wraps to the dividend and the remainder is zero. */
  function IsaResult(w: nat, isSigned: bool, isRem: bool, x: nat, y: nat): nat
    requires w >= 1 && x < Pow2(w) && y < Pow2(w)
  {
    if y == 0 then (if isRem then x else Pow2(w) - 1)
    else
      var a := IsaValue(w, isSigned, x);
      var b := IsaValue(w, isSigned, y);
      IsaZero(w, isSigned, y);
      Word(w, if isRem then a - TruncDiv(a, b) * b else TruncDiv(a, b))
  }

  lemma IsaZero(w: nat, isSigned: bool, y: nat)
    requires w >= 1 && y < Pow2(w)
    ensures IsaValue(w, isSigned, y) == 0 <==> y == 0
  {
  }

  /** Signed overflow, as the manual lists it. */
  lemma OverflowRow(w: nat)
    requires w >= 2
    ensures IsaResult(w, true, false, Pow2(w - 1), Pow2(w) - 1) == Pow2(w - 1)
    ensures IsaResult(w, true, true, Pow2(w - 1), Pow2(w) - 1) == 0
  {
    var m: int := Pow2(w - 1);
    assert Signed(w, Pow2(w - 1)) == -m && Signed(w, Pow2(w) - 1) == -1;
    assert Abs(-m) / Abs(-1) == m;
    assert TruncDiv(-m, -1) == m;
    SmallMod(m, Pow2(w));
    SmallMod(0, Pow2(w));
    assert -m - m * -1 == 0;
  }

  /** The two properties by which the manual defines the pair of results. */
  lemma TruncDivDefinition(x: int, y: int)
    requires y != 0
    ensures var q, r := TruncDiv(x, y), x - TruncDiv(x, y) * y;
            x == q * y + r && Abs(r) < Abs(y) && (r == 0 || (r < 0) == (x < 0))
  {
    var q := Abs(x) / Abs(y);
    var m := Abs(x) % Abs(y);
    assert Abs(x) == Abs(y) * q + m;
    if (x < 0) == (y < 0) {
      assert TruncDiv(x, y) * y == if y < 0 then -(Abs(y) * q) else Abs(y) * q by {
        assert y < 0 ==> q * y == -(q * Abs(y));
      }
    } else {
      assert TruncDiv(x, y) == -q;
      assert TruncDiv(x, y) * y == if y < 0 then Abs(y) * q else -(Abs(y) * q) by {
        assert y < 0 ==> -q * y == q * -y;
        assert y > 0 ==> -q * y == -(q * y);
      }
    }
  }

  // ---------------------------------------------------------------------------
  // The restoring loop.

  function Magnitude(w: nat, compInv: bool, x: nat): nat requires x < Pow2(w) {
    if compInv then Neg(w, x) else x
  }

  /** The divisor's magnitude shifted left by c. */
  function Shifted(w: nat, i: Inputs, y: nat, c: nat): nat requires w >= 1 && y < Pow2(w) {
    Abs(IsaValue(w, i.isSigned, y)) * Pow2(c)
  }

  /** The inputs are those of a division by y whose divisor was shifted left as
      far as its magnitude allows. */
  predicate Prepared(w: nat, y: nat, i: Inputs) {
    && Fits(w, i) && y < Pow2(w)
    && i.opBIsZero == (y == 0)
    && i.opBSign == (i.isSigned && SignBit(w, y))
    && (if y == 0 then i.opB == 0 && i.shift == w
        else
          && i.shift < w
          && (if i.opBSign
              then Shifted(w, i, y, i.shift) <= Pow2(w - 1) < Shifted(w, i, y, i.shift + 1)
                   && i.opB == Pow2(w) - Shifted(w, i, y, i.shift)
              else Shifted(w, i, y, i.shift) < Pow2(w) <= Shifted(w, i, y, i.shift + 1)
                   && i.opB == Shifted(w, i, y, i.shift)))
  }

  function Quotient(s: Regs): nat {
    Val(Reverse(s.resreg))
  }

  ghost predicate FlagsFor(w: nat, i: Inputs, s: Regs) requires w >= 1 {
    && s.remSel == i.isRem
    && s.compInv == i.opBSign
    && s.resInv == ((!i.opBIsZero || i.isRem) && SignsDiffer(w, i))
  }

  /** The partial remainder has the divisor's sign and, together with the bits
      of quotient found so far, makes up the dividend; unit is the weight of the
      last quotient bit found times the divisor. */
  ghost predicate Partial(w: nat, i: Inputs, s: Regs, unit: nat) {
    && Fits(w, i) && Shape(w, s) && FlagsFor(w, i, s)
    && (s.compInv && s.areg != 0 ==> SignBit(w, s.areg))
    && Magnitude(w, s.compInv, s.areg) < unit
    && Magnitude(w, s.compInv, s.areg) + unit * Quotient(s) == Abs(IsaValue(w, i.isSigned, i.opA))
  }

  /** Division by zero: the dividend stays and ones are shifted in. */
  ghost predicate PartialZero(w: nat, i: Inputs, s: Regs, steps: nat) {
    && Fits(w, i) && Shape(w, s) && FlagsFor(w, i, s)
    && s.areg == (if SignsDiffer(w, i) then Neg(w, i.opA) else i.opA) && s.breg == 0
    && forall j :: 0 <= j < w && w - steps <= j ==> s.resreg[j]
  }

  /** The registers while the quotient bit of weight 2^cnt is being found. */
  ghost predicate Dividing(w: nat, y: nat, i: Inputs, s: Regs) {
    && Prepared(w, y, i) && Shape(w, s) && s.phase == Divide && s.cnt <= i.shift
    && (if y == 0 then PartialZero(w, i, s, i.shift - s.cnt)
        else
          && Partial(w, i, s, Shifted(w, i, y, s.cnt + 1))
          && Quotient(s) < Pow2(i.shift - s.cnt)
          && s.breg == if s.compInv then Pow2(w) - Shifted(w, i, y, s.cnt) else Shifted(w, i, y, s.cnt))
  }

  ghost predicate Divided(w: nat, y: nat, i: Inputs, s: Regs) {
    && Prepared(w, y, i) && Shape(w, s) && s.phase == Finish
    && (if y == 0 then PartialZero(w, i, s, w) else Partial(w, i, s, Shifted(w, i, y, 0)))
  }

  /** Loading in IDLE establishes the loop. */
  lemma LoadStarts(w: nat, y: nat, i: Inputs, s: Regs)
    requires Prepared(w, y, i) && Shape(w, s) && s.phase == Idle && i.inVld
    ensures Dividing(w, y, i, Next(w, s, i))
    ensures Next(w, s, i).cnt == i.shift
  {
    var n := Next(w, s, i);
    assert Reverse(n.resreg) == Zeros(w);
    ValZero(Zeros(w));
    assert Pow2(0) == 1;
    assert Shifted(w, i, y, i.shift + 1) * 0 == 0;
  }

  lemma ShiftedDoubles(w: nat, i: Inputs, y: nat, c: nat)
    requires w >= 1 && y < Pow2(w)
    ensures Shifted(w, i, y, c + 1) == 2 * Shifted(w, i, y, c)
  {
    DoubleProduct(Abs(IsaValue(w, i.isSigned, y)), c + 1);
  }

  lemma {:induction false} ShiftedGrows(w: nat, i: Inputs, y: nat, c: nat, d: nat)
    requires w >= 1 && y < Pow2(w) && c <= d
    ensures Shifted(w, i, y, c) <= Shifted(w, i, y, d)
  {
    if c < d { ShiftedGrows(w, i, y, c, d - 1); ShiftedDoubles(w, i, y, d - 1); }
  }

  /** The inverted comparator compares magnitudes, and subtracting subtracts them. */
  lemma CompareMagnitudes(w: nat, s: Regs, i: Inputs, b: nat)
    requires w >= 1 && Shape(w, s) && !i.opBIsZero && b > 0
    requires s.compInv && s.areg != 0 ==> SignBit(w, s.areg)
    requires if s.compInv then b <= Pow2(w - 1) && s.breg == Pow2(w) - b else s.breg == b
    ensures var ma := Magnitude(w, s.compInv, s.areg);
            && Compare(s, i) == (ma >= b)
            && (ma >= b ==> Magnitude(w, s.compInv, Sub(w, s.areg, s.breg)) == ma - b)
            && (ma >= b && s.compInv && Sub(w, s.areg, s.breg) != 0 ==> SignBit(w, Sub(w, s.areg, s.breg)))
  {
  }

  /** Shifting a bit into the result register appends it to the quotient. */
  lemma AppendBit(w: nat, r: Vector, c: bool, k: nat)
    requires |r| == w && k < w && Val(Reverse(r)) < Pow2(k)
    ensures Val(Reverse(r[1..] + [c])) == 2 * Val(Reverse(r)) + (if c then 1 else 0)
  {
    var v := Reverse(r);
    ValTop(v);
    Pow2Monotone(k, w - 1);
    assert !v[w - 1];
    assert Reverse(r[1..] + [c])[1..] == v[..w - 1];
  }

  lemma Distribute(unit: nat, half: nat, q: nat, bit: nat)
    requires unit == 2 * half
    ensures unit * q + half * bit == half * (2 * q + bit)
  {
  }

  /** One cycle of DIVIDE finds one bit. */
  lemma DivideStep(w: nat, y: nat, i: Inputs, s: Regs)
    requires Dividing(w, y, i, s)
    ensures s.cnt > 0 ==> Dividing(w, y, i, Next(w, s, i)) && Next(w, s, i).cnt == s.cnt - 1
    ensures s.cnt == 0 ==> Divided(w, y, i, Next(w, s, i))
  {
    if y == 0 { ZeroStep(w, y, i, s); } else { NonZeroStep(w, y, i, s); }
  }

  lemma ZeroStep(w: nat, y: nat, i: Inputs, s: Regs)
    requires Dividing(w, y, i, s) && y == 0
    ensures PartialZero(w, i, Next(w, s, i), i.shift - s.cnt + 1)
  {
    var n := Next(w, s, i);
    assert Compare(s, i);
    forall j | 0 <= j < w && w - (i.shift - s.cnt + 1) <= j ensures n.resreg[j] {
      if j < w - 1 { assert n.resreg[j] == s.resreg[j + 1]; }
    }
  }

  /** The partial remainder against a divisor of magnitude b. */
  lemma PartialStep(w: nat, i: Inputs, s: Regs, b: nat, k: nat)
    requires Partial(w, i, s, 2 * b) && s.phase == Divide && !i.opBIsZero
    requires Quotient(s) < Pow2(k) && k < w && b > 0
    requires if s.compInv then b <= Pow2(w - 1) && s.breg == Pow2(w) - b else s.breg == b
    ensures Partial(w, i, Next(w, s, i), b)
    ensures Quotient(Next(w, s, i)) < Pow2(k + 1)
  {
    CompareMagnitudes(w, s, i, b);
    AppendBit(w, s.resreg, Compare(s, i), k);
    Distribute(2 * b, b, Quotient(s), if Compare(s, i) then 1 else 0);
  }

  lemma NonZeroStep(w: nat, y: nat, i: Inputs, s: Regs)
    requires Dividing(w, y, i, s) && y != 0
    ensures var n := Next(w, s, i);
            && Partial(w, i, n, Shifted(w, i, y, s.cnt))
            && Quotient(n) < Pow2(i.shift - s.cnt + 1)
            && (s.cnt > 0 ==> n.breg == if n.compInv then Pow2(w) - Shifted(w, i, y, s.cnt - 1)
                                        else Shifted(w, i, y, s.cnt - 1))
  {
    ShiftedDoubles(w, i, y, s.cnt);
    ShiftedGrows(w, i, y, s.cnt, i.shift);
    ShiftedPositive(w, i, y, s.cnt);
    PartialStep(w, i, s, Shifted(w, i, y, s.cnt), i.shift - s.cnt);
    if s.cnt > 0 {
      ShiftedDoubles(w, i, y, s.cnt - 1);
      HalveDivisor(w, s, Shifted(w, i, y, s.cnt - 1));
    }
  }

  /** The shift that keeps a one in the top bit halves a negative divisor. */
  lemma HalveDivisor(w: nat, s: Regs, half: nat)
    requires w >= 1 && s.breg < Pow2(w)
    requires if s.compInv then 2 * half <= Pow2(w) && s.breg == Pow2(w) - 2 * half else s.breg == 2 * half
    ensures ShiftRightInto(w, s.breg, s.compInv) == if s.compInv then Pow2(w) - half else half
  {
  }

  lemma ShiftedPositive(w: nat, i: Inputs, y: nat, c: nat)
    requires w >= 1 && y < Pow2(w) && y != 0
    ensures Shifted(w, i, y, c) > 0
  {
    IsaZero(w, i.isSigned, y);
    ProductPositive(Abs(IsaValue(w, i.isSigned, y)), Pow2(c));
  }

  lemma WordOf(w: nat, x: int)
    ensures 0 <= x < Pow2(w) ==> Word(w, x) == x
    ensures -(Pow2(w) as int) < x < 0 ==> Word(w, x) == Pow2(w) + x
  {
    if 0 <= x < Pow2(w) { SmallMod(x, Pow2(w)); }
    if -(Pow2(w) as int) < x < 0 { NegativeMod(x, Pow2(w)); }
  }

  /** The final correction of signs yields the architectural result. */
  lemma DividedResult(w: nat, y: nat, i: Inputs, s: Regs)
    requires Divided(w, y, i, s)
    ensures Result(w, s) == IsaResult(w, i.isSigned, i.isRem, i.opA, y)
  {
    if y == 0 {
      AllOnes(Reverse(s.resreg));
    } else {
      var a := IsaValue(w, i.isSigned, i.opA);
      var b := IsaValue(w, i.isSigned, y);
      IsaZero(w, i.isSigned, y);
      assert Shifted(w, i, y, 0) == Abs(b) * 1 == Abs(b);
      var m := Magnitude(w, s.compInv, s.areg);
      DivModUnique(Abs(a), Abs(b), Quotient(s), m);
      ValBound(Reverse(s.resreg));
      assert SignsDiffer(w, i) == ((a < 0) != (b < 0));
      WordOf(w, TruncDiv(a, b));
      RemainderSign(a, b);
      WordOf(w, a - TruncDiv(a, b) * b);
    }
  }

  lemma RemainderSign(a: int, b: int)
    requires b != 0
    ensures a - TruncDiv(a, b) * b == if a < 0 then -(Abs(a) % Abs(b)) else Abs(a) % Abs(b)
  {
    DivModIdentity(Abs(a), Abs(b));
    SignProducts(Abs(a) / Abs(b), b);
  }

  lemma SignProducts(q: int, b: int)
    ensures q * b == if b < 0 then -(Abs(b) * q) else Abs(b) * q
    ensures -q * b == if b < 0 then Abs(b) * q else -(Abs(b) * q)
  {
  }

  lemma {:induction false} AllOnes(v: Vector)
    requires forall j :: 0 <= j < |v| ==> v[j]
    ensures Val(v) == Pow2(|v|) - 1
  {
    if v != [] { AllOnes(v[1..]); }
  }

  // ---------------------------------------------------------------------------
  // Whole runs: the operands are held while the execute stage waits, outRdy follows
  // any pattern.

  /** The registers after |ready| clocks. */
  function After(w: nat, s: Regs, i: Inputs, ready: seq<bool>): (n: Regs)
    requires Shape(w, s) && Fits(w, i)
    ensures Shape(w, n)
  {
    if ready == [] then s
    else
      var k := |ready| - 1;
      Next(w, After(w, s, i, ready[..k]), i.(outRdy := ready[k]))
  }

  /** Where a division stands after k clocks. */
  ghost predicate RunAt(w: nat, y: nat, i: Inputs, n: Regs, k: nat) {
    && Prepared(w, y, i) && Shape(w, n)
    && (k == 0 ==> n.phase == Idle && i.inVld)
    && (0 < k <= i.shift + 1 ==> Dividing(w, y, i, n) && n.cnt == i.shift + 1 - k)
    && (k > i.shift + 1 ==> Divided(w, y, i, n))
  }

  lemma OutRdyIrrelevant(w: nat, s: Regs, i: Inputs, rdy: bool)
    requires Shape(w, s) && Fits(w, i) && s.phase != Finish
    ensures Next(w, s, i.(outRdy := rdy)) == Next(w, s, i)
  {
  }

  lemma FinishHolds(w: nat, y: nat, i: Inputs, s: Regs)
    requires Divided(w, y, i, s)
    ensures Divided(w, y, i, Next(w, s, i.(outRdy := false)))
  {
  }

  lemma RunStep(w: nat, y: nat, i: Inputs, n: Regs, k: nat, rdy: bool)
    requires RunAt(w, y, i, n, k) && (k >= i.shift + 2 ==> !rdy)
    ensures RunAt(w, y, i, Next(w, n, i.(outRdy := rdy)), k + 1)
  {
    if k == 0 {
      OutRdyIrrelevant(w, n, i, rdy);
      LoadStarts(w, y, i, n);
    } else if k <= i.shift + 1 {
      OutRdyIrrelevant(w, n, i, rdy);
      DivideStep(w, y, i, n);
    } else {
      FinishHolds(w, y, i, n);
    }
  }

  lemma {:induction false} RunReaches(w: nat, y: nat, i: Inputs, s: Regs, ready: seq<bool>)
    requires RunAt(w, y, i, s, 0)
    requires forall k :: i.shift + 2 <= k < |ready| ==> !ready[k]
    ensures RunAt(w, y, i, After(w, s, i, ready), |ready|)
  {
    if ready != [] {
      var k := |ready| - 1;
      RunReaches(w, y, i, s, ready[..k]);
      RunOneMore(w, y, i, s, ready, k);
    }
  }

  lemma RunOneMore(w: nat, y: nat, i: Inputs, s: Regs, ready: seq<bool>, k: nat)
    requires |ready| == k + 1 && Shape(w, s) && Fits(w, i) && (k >= i.shift + 2 ==> !ready[k])
    requires RunAt(w, y, i, After(w, s, i, ready[..k]), k)
    ensures RunAt(w, y, i, After(w, s, i, ready), k + 1)
  {
    RunStep(w, y, i, After(w, s, i, ready[..k]), k, ready[k]);
  }

  /** For every width, operand pair, operation and pattern of back-pressure: the
      operation is taken in the first clock, DIVIDE lasts shift + 1 clocks, and
      then FINISH offers the architectural result until it is taken. */
  lemma DivisionCorrect(w: nat, y: nat, i: Inputs, s: Regs, ready: seq<bool>)
    requires Prepared(w, y, i) && Shape(w, s) && s.phase == Idle && i.inVld
    requires forall k :: i.shift + 2 <= k < |ready| ==> !ready[k]
    ensures var n := After(w, s, i, ready);
            && (0 < |ready| <= i.shift + 1 ==> n.phase == Divide && n.cnt == i.shift + 1 - |ready|)
            && (|ready| > i.shift + 1 ==> n.phase == Finish
                                          && Result(w, n) == IsaResult(w, i.isSigned, i.isRem, i.opA, y))
  {
    RunReaches(w, y, i, s, ready);
    if |ready| > i.shift + 1 { DividedResult(w, y, i, After(w, s, i, ready)); }
  }

  /** Where any operation, right or wrong, stands after k clocks. */
  predicate BusyAt(w: nat, i: Inputs, n: Regs, k: nat) {
    && Shape(w, n) && Fits(w, i)
    && (k == 0 ==> n.phase == Idle && i.inVld)
    && (0 < k <= i.shift + 1 ==> n.phase == Divide && n.cnt == i.shift + 1 - k)
    && (k > i.shift + 1 ==> n.phase == Finish)
  }

  /** The registers that Res_DO depends on. */
  predicate SameOutput(n: Regs, m: Regs) {
    n.areg == m.areg && n.resreg == m.resreg && n.remSel == m.remSel && n.resInv == m.resInv
  }

  lemma BusyStep(w: nat, i: Inputs, n: Regs, k: nat, rdy: bool)
    requires BusyAt(w, i, n, k) && (k >= i.shift + 2 ==> !rdy)
    ensures BusyAt(w, i, Next(w, n, i.(outRdy := rdy)), k + 1)
    ensures k >= i.shift + 2 ==> SameOutput(Next(w, n, i.(outRdy := rdy)), n)
  {
  }

  lemma {:induction false} BusyRun(w: nat, s: Regs, i: Inputs, ready: seq<bool>)
    requires Shape(w, s) && Fits(w, i) && s.phase == Idle && i.inVld
    requires forall k :: i.shift + 2 <= k < |ready| ==> !ready[k]
    ensures BusyAt(w, i, After(w, s, i, ready), |ready|)
    ensures |ready| >= i.shift + 2 ==> SameOutput(After(w, s, i, ready), After(w, s, i, ready[..i.shift + 2]))
    decreases |ready|
  {
    if ready != [] {
      var k := |ready| - 1;
      var before := ready[..k];
      BusyRun(w, s, i, before);
      BusyStep(w, i, After(w, s, i, before), k, ready[k]);
      if k >= i.shift + 2 {
        assert before[..i.shift + 2] == ready[..i.shift + 2];
      } else if k == i.shift + 1 {
        assert ready[..i.shift + 2] == ready;
      }
    }
  }

  lemma BusyOutputs(w: nat, i: Inputs, n: Regs, k: nat)
    requires BusyAt(w, i, n, k)
    ensures OutVld(n, i) <==> k >= i.shift + 2
    ensures k >= i.shift + 2 ==> Next(w, n, i.(outRdy := true)).phase == Idle
  {
  }

  /** The handshake of every operation over its whole run: from acceptance the output is not
      valid for the shift + 1 clocks of DIVIDE; then it is valid with an unchanged result for as
      long as it is not taken, and taking it frees the divider. */
  lemma HandshakeFrees(w: nat, s: Regs, i: Inputs, ready: seq<bool>)
    requires Shape(w, s) && Fits(w, i) && s.phase == Idle && i.inVld
    requires forall k :: i.shift + 2 <= k < |ready| ==> !ready[k]
    ensures var n := After(w, s, i, ready);
            && BusyAt(w, i, n, |ready|)
            && (|ready| <= i.shift + 1 ==> !OutVld(n, i))
            && (|ready| >= i.shift + 2 ==>
                && OutVld(n, i) && Result(w, n) == Result(w, After(w, s, i, ready[..i.shift + 2]))
                && Next(w, n, i.(outRdy := true)).phase == Idle)
  {
    BusyRun(w, s, i, ready);
    BusyOutputs(w, i, After(w, s, i, ready), |ready|);
  }

  // ---------------------------------------------------------------------------
  // Whole runs with any sequence of requests, idle clocks and back-pressure.

  /** The inputs of one clock, and the divisor from which they have been prepared. */
  datatype Clocked = Clocked(i: Inputs, divisor: nat)

  /** The timing that a user sees, without the registers: k clocks have passed since a request was
      accepted, and none is in progress if k is zero. */
  predicate Valid(k: nat, i: Inputs) { if k == 0 then !i.inVld else k >= i.shift + 2 }

  function Progress(k: nat, i: Inputs): nat {
    if k == 0 then (if i.inVld then 1 else 0)
    else if Valid(k, i) && i.outRdy then 0
    else k + 1
  }

  /** Every request is prepared, and held until its result has been taken. */
  predicate Holds(w: nat, k: nat, run: seq<Clocked>)
    decreases |run|
  {
    run == []
    || (&& Fits(w, run[0].i) && (run[0].i.inVld ==> Prepared(w, run[0].divisor, run[0].i)) && (k > 0 ==> run[0].i.inVld)
        && (Progress(k, run[0].i) > 0 && |run| > 1 ==>
              run[1].divisor == run[0].divisor && run[1].i.(outRdy := run[0].i.outRdy) == run[0].i)
        && Holds(w, Progress(k, run[0].i), run[1..]))
  }

  /** In every clock the output is valid exactly when it should be, and with a request up it is the
      result of section 7.2. */
  predicate Serves(w: nat, s: Regs, k: nat, run: seq<Clocked>)
    decreases |run|
  {
    run == []
    || (&& Shape(w, s) && Fits(w, run[0].i) && Prepares(w, run[0])
        && (OutVld(s, run[0].i) <==> Valid(k, run[0].i))
        && (run[0].i.inVld && OutVld(s, run[0].i) ==> Result(w, s) == Architectural(w, run[0]))
        && Serves(w, Next(w, s, run[0].i), Progress(k, run[0].i), run[1..]))
  }

  predicate Prepares(w: nat, c: Clocked) { c.i.inVld ==> Prepared(w, c.divisor, c.i) }

  function Architectural(w: nat, c: Clocked): nat
    requires c.i.inVld && Prepares(w, c)
  {
    IsaResult(w, c.i.isSigned, c.i.isRem, c.i.opA, c.divisor)
  }

  /** Where the registers stand for the timing. */
  ghost predicate Standing(w: nat, s: Regs, k: nat, c: Clocked) {
    if k == 0 then Shape(w, s) && s.phase == Idle else RunAt(w, c.divisor, c.i, s, k)
  }

  lemma StandingStep(w: nat, s: Regs, k: nat, c: Clocked)
    requires Standing(w, s, k, c) && Fits(w, c.i) && Prepares(w, c) && (k > 0 ==> c.i.inVld)
    ensures OutVld(s, c.i) <==> Valid(k, c.i)
    ensures c.i.inVld && OutVld(s, c.i) ==> Result(w, s) == Architectural(w, c)
    ensures Standing(w, Next(w, s, c.i), Progress(k, c.i), c)
  {
    if k == 0 && !c.i.inVld {
    } else if Valid(k, c.i) && c.i.outRdy {
      DividedResult(w, c.divisor, c.i, s);
    } else {
      if Valid(k, c.i) { DividedResult(w, c.divisor, c.i, s); }
      RunStep(w, c.divisor, c.i, s, k, c.i.outRdy);
    }
  }

  lemma StandingHeld(w: nat, s: Regs, k: nat, c: Clocked, d: Clocked)
    requires Standing(w, s, k, c) && (k > 0 ==> d.divisor == c.divisor && d.i.(outRdy := c.i.outRdy) == c.i)
    ensures Standing(w, s, k, d)
  {
  }

  lemma {:induction false} ServesFrom(w: nat, s: Regs, k: nat, run: seq<Clocked>)
    requires Holds(w, k, run) && (run != [] ==> Standing(w, s, k, run[0]))
    ensures Serves(w, s, k, run)
    decreases |run|
  {
    if run != [] {
      var c, n := run[0], Progress(k, run[0].i);
      StandingStep(w, s, k, c);
      if |run| > 1 { StandingHeld(w, Next(w, s, c.i), n, c, run[1]); }
      ServesFrom(w, Next(w, s, c.i), n, run[1..]);
    }
  }

  /** From reset on, for every sequence of requests that are held until taken, of idle clocks and of
      back-pressure: a result is valid from shift + 2 clocks after its request was accepted until it
      is taken, it is the architectural one, and an idle divider stays ready. */
  lemma DividerServes(w: nat, reset: Regs, run: seq<Clocked>)
    requires Shape(w, reset) && reset.phase == Idle && Holds(w, 0, run)
    ensures Serves(w, reset, 0, run)
  {
    ServesFrom(w, reset, 0, run);
  }

  /** The module itself: a register file updated in place at each clock edge. */
  class AluDiv {
    const w: nat
    var phase: Phase
    var areg: nat
    var breg: nat
    var resreg: Vector
    var cnt: nat
    var remSel: bool
    var compInv: bool
    var resInv: bool

    function State(): Regs
      reads this
    {
      Regs(phase, areg, breg, resreg, cnt, remSel, compInv, resInv)
    }

    constructor (w: nat)
      ensures this.w == w && Shape(w, State()) && phase == Idle
    {
      this.w := w;
      phase, areg, breg, resreg, cnt := Idle, 0, 0, Zeros(w), 0;
      remSel, compInv, resInv := false, false, false;
    }

    method ClockIdle(i: Inputs)
      requires Shape(w, State()) && Fits(w, i) && phase == Idle
      modifies this
      ensures State() == Next(w, old(State()), i)
    {
      if i.inVld {
        var negate := SignsDiffer(w, i);
        areg := if negate then Neg(w, i.opA) else i.opA;
        breg, resreg, cnt := i.opB, Zeros(w), i.shift;
        remSel, compInv := i.isRem, i.opBSign;
        resInv := (!i.opBIsZero || i.isRem) && negate;
        phase := Divide;
      } else if cnt > 0 {
        cnt := cnt - 1;
      }
    }

    method ClockDivide(i: Inputs)
      requires Shape(w, State()) && Fits(w, i) && phase == Divide
      modifies this
      ensures State() == Next(w, old(State()), i)
    {
      var comp := Compare(State(), i);
      if comp { areg := Sub(w, areg, breg); }
      breg := ShiftRightInto(w, breg, compInv);
      resreg := resreg[1..] + [comp];
      if cnt == 0 { phase := Finish; } else { cnt := cnt - 1; }
    }

    method ClockFinish(i: Inputs)
      requires Shape(w, State()) && Fits(w, i) && phase == Finish
      modifies this`phase, this`cnt
      ensures State() == Next(w, old(State()), i)
    {
      if i.outRdy { phase := Idle; }
      if cnt > 0 { cnt := cnt - 1; }
    }

    method Clock(i: Inputs) returns (outVld: bool, res: nat)
      requires Shape(w, State()) && Fits(w, i)
      modifies this
      ensures State() == Next(w, old(State()), i)
      ensures outVld == OutVld(old(State()), i) && res == Result(w, old(State()))
    {
      outVld, res := OutVld(State(), i), Result(w, State());
      if phase == Idle {
        ClockIdle(i);
      } else if phase == Divide {
        ClockDivide(i);
      } else {
        ClockFinish(i);
      }
    }
  }
}
