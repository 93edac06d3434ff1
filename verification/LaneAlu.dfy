// The partitioned adder and comparator of rtl/cv32e40p_alu.sv. Words are sequences of
// bytes, least significant first; a partition says at which bytes a lane starts. The ALU's
// instances have four bytes, with lanes of four, two or one.
module LaneAlu {
  import opened Arithmetic

  type Byte = n: nat | n < 256
  type Word = seq<Byte>
  type Partition = seq<bool>

  datatype Mode = Vec32 | Vec16 | Vec8

  function Starts(mode: Mode): Partition {
    match mode
    case Vec32 => [true, false, false, false]
    case Vec16 => [true, false, true, false]
    case Vec8 => [true, true, true, true]
  }

  function Value(w: Word): nat {
    if w == [] then 0 else w[0] + 256 * Value(w[1..])
  }

  function Power(n: nat): (p: nat)
    ensures p > 0
  {
    if n == 0 then 1 else 256 * Power(n - 1)
  }

  function Complement(w: Word): (r: Word)
    ensures |r| == |w|
  {
    seq(|w|, i requires 0 <= i < |w| => 255 - w[i])
  }

  lemma {:induction false} ValueBound(w: Word)
    ensures Value(w) < Power(|w|)
  {
    if w != [] { ValueBound(w[1..]); }
  }

  lemma {:induction false} ValueComplement(w: Word)
    ensures Value(Complement(w)) == Power(|w|) - 1 - Value(w)
    decreases |w|
  {
    if w != [] {
      ValueComplement(w[1..]);
      assert Complement(w)[1..] == Complement(w[1..]);
    }
  }

  // ---------------------------------------------------------------------------
  // The adder: nine bits per byte, the lowest of which guards the byte.

  type Digit = n: nat | n < 512

  /** Guard bits at byte k: (1, 0) hands the carry on, (0, 0) stops it, (1, 1) makes one. */
  function GuardA(starts: Partition, k: nat, negate: bool): nat
    requires k < |starts|
  {
    if k > 0 && starts[k] && !negate then 0 else 1
  }

  function GuardB(starts: Partition, k: nat, negate: bool): nat
    requires k < |starts|
  {
    if negate && (k == 0 || starts[k]) then 1 else 0
  }

  /** adder_in_a and adder_in_b from byte k on. */
  function InA(a: Word, starts: Partition, k: nat, negate: bool): seq<Digit>
    requires |a| == |starts| && k <= |a|
    decreases |a| - k
  {
    if k == |a| then [] else [GuardA(starts, k, negate) + 2 * (a[k] as int)] + InA(a, starts, k + 1, negate)
  }

  function InB(b: Word, starts: Partition, k: nat, negate: bool): seq<Digit>
    requires |b| == |starts| && k <= |b|
    decreases |b| - k
  {
    if k == |b| then [] else [GuardB(starts, k, negate) + 2 * (b[k] as int)] + InB(b, starts, k + 1, negate)
  }

  /** The number with these groups of nine bits. */
  function Number(d: seq<Digit>): nat {
    if d == [] then 0 else d[0] + 512 * Number(d[1..])
  }

  /** The upper eight bits of each of the n lowest groups of nine. */
  function Bytes(x: nat, n: nat): (w: Word)
    ensures |w| == n
    decreases n
  {
    if n == 0 then [] else [(x % 512) / 2] + Bytes(x / 512, n - 1)
  }

  /** adder_result: one wide addition. */
  function Adder(a: Word, b: Word, starts: Partition, negate: bool): (w: Word)
    requires |a| == |b| == |starts|
    ensures |w| == |a|
  {
    Bytes(Number(InA(a, starts, 0, negate)) + Number(InB(b, starts, 0, negate)), |a|)
  }

  function ByteSum(x: Byte, y: Byte, carry: nat): nat { x as int + y as int + carry }

  /** Addition byte by byte with a carry. */
  function Ripple(a: Word, b: Word, carry: nat): (w: Word)
    requires |a| == |b| && carry <= 1
    ensures |w| == |a|
    decreases |a|
  {
    if a == [] then []
    else
      var sum := ByteSum(a[0], b[0], carry);
      [sum % 256] + Ripple(a[1..], b[1..], sum / 256)
  }

  /** A ripple sum is the sum modulo the word size. */
  lemma {:induction false} RippleIsSum(a: Word, b: Word, carry: nat) returns (out: nat)
    requires |a| == |b| && carry <= 1
    ensures out <= 1 && Value(Ripple(a, b, carry)) + out * Power(|a|) == Value(a) + Value(b) + carry
    decreases |a|
  {
    if a == [] {
      out := carry;
    } else {
      var sum := ByteSum(a[0], b[0], carry);
      out := RippleIsSum(a[1..], b[1..], sum / 256);
      var rest := Ripple(a[1..], b[1..], sum / 256);
      assert Ripple(a, b, carry) == [sum % 256] + rest && Value([sum % 256] + rest) == sum % 256 + 256 * Value(rest);
      CarryWeight(out, Power(|a| - 1));
    }
  }

  lemma CarryWeight(out: nat, p: nat)
    requires out <= 1
    ensures out * (256 * p) == 256 * (out * p)
  {
    if out == 1 {
      assert 1 * (256 * p) == 256 * (1 * p);
    }
  }

  /** The carry that enters the byte part of digit k. */
  function Enters(starts: Partition, k: nat, negate: bool, carry: nat): nat
    requires k < |starts| && carry <= 1
  {
    if k == 0 || starts[k] then (if negate then 1 else 0) else carry
  }

  /** The wide addition from byte k on, as bytes. */
  function WideFrom(a: Word, b: Word, starts: Partition, k: nat, negate: bool, carry: nat): (w: Word)
    requires |a| == |b| == |starts| && k <= |a| && carry <= 1
    ensures |w| == |a| - k
  {
    Bytes(Number(InA(a, starts, k, negate)) + Number(InB(b, starts, k, negate)) + carry, |a| - k)
  }

  /** One group of nine bits of the wide addition. */
  lemma WideStep(a: Word, b: Word, starts: Partition, k: nat, negate: bool, carry: nat)
    requires |a| == |b| == |starts| && k < |a| && carry <= 1
    requires k == 0 ==> carry == 0
    ensures var sum := ByteSum(a[k], b[k], Enters(starts, k, negate, carry));
            WideFrom(a, b, starts, k, negate, carry)
            == [sum % 256] + WideFrom(a, b, starts, k + 1, negate, sum / 256)
  {
    var low, high := Low(a, b, starts, k, negate, carry), High(a, b, starts, k, negate);
    WideNumber(a, b, starts, k, negate, carry);
    BytesStep(low, high, |a| - k - 1);
    LowDigit(a, b, starts, k, negate, carry);
  }

  /** The sum of the digits at byte k, and of the numbers above it. */
  function Low(a: Word, b: Word, starts: Partition, k: nat, negate: bool, carry: nat): nat
    requires |a| == |b| == |starts| && k < |a|
  {
    GuardA(starts, k, negate) + 2 * (a[k] as int) + GuardB(starts, k, negate) + 2 * (b[k] as int) + carry
  }

  function High(a: Word, b: Word, starts: Partition, k: nat, negate: bool): nat
    requires |a| == |b| == |starts| && k < |a|
  {
    Number(InA(a, starts, k + 1, negate)) + Number(InB(b, starts, k + 1, negate))
  }

  lemma WideNumber(a: Word, b: Word, starts: Partition, k: nat, negate: bool, carry: nat)
    requires |a| == |b| == |starts| && k < |a| && carry <= 1
    ensures WideFrom(a, b, starts, k, negate, carry)
            == Bytes(Low(a, b, starts, k, negate, carry) + 512 * High(a, b, starts, k, negate), |a| - k - 1 + 1)
  {
    NumberStep(a, b, starts, k, negate);
  }

  lemma LowDigit(a: Word, b: Word, starts: Partition, k: nat, negate: bool, carry: nat)
    requires |a| == |b| == |starts| && k < |a| && carry <= 1 && (k == 0 ==> carry == 0)
    ensures var low, sum := Low(a, b, starts, k, negate, carry), ByteSum(a[k], b[k], Enters(starts, k, negate, carry));
            (low % 512) / 2 == sum % 256 && low / 512 == sum / 256
  {
    GuardCarry(starts, k, negate, carry);
    GuardedByte(GuardA(starts, k, negate), GuardB(starts, k, negate), a[k], b[k], carry);
  }

  lemma NumberStep(a: Word, b: Word, starts: Partition, k: nat, negate: bool)
    requires |a| == |b| == |starts| && k < |a|
    ensures Number(InA(a, starts, k, negate))
            == GuardA(starts, k, negate) + 2 * (a[k] as int) + 512 * Number(InA(a, starts, k + 1, negate))
    ensures Number(InB(b, starts, k, negate))
            == GuardB(starts, k, negate) + 2 * (b[k] as int) + 512 * Number(InB(b, starts, k + 1, negate))
  {
    assert InA(a, starts, k, negate)[1..] == InA(a, starts, k + 1, negate);
    assert InB(b, starts, k, negate)[1..] == InB(b, starts, k + 1, negate);
  }

  /** What the two guard bits make of the carry. */
  lemma GuardCarry(starts: Partition, k: nat, negate: bool, carry: nat)
    requires k < |starts| && carry <= 1 && (k == 0 ==> carry == 0)
    ensures (GuardA(starts, k, negate) + GuardB(starts, k, negate) + carry) / 2 == Enters(starts, k, negate, carry)
  {
  }

  lemma BytesStep(low: nat, high: nat, n: nat)
    ensures Bytes(low + 512 * high, n + 1) == [(low % 512) / 2] + Bytes(low / 512 + high, n)
  {
    SplitDigit(low, high);
  }

  lemma SplitDigit(low: nat, high: nat)
    ensures (low + 512 * high) % 512 == low % 512 && (low + 512 * high) / 512 == low / 512 + high
  {
  }

  lemma GuardedByte(ga: nat, gb: nat, a: Byte, b: Byte, carry: nat)
    requires ga <= 1 && gb <= 1 && carry <= 1
    ensures var low, sum := ga + 2 * a + gb + 2 * b + carry, ByteSum(a, b, (ga + gb + carry) / 2);
            (low % 512) / 2 == sum % 256 && low / 512 == sum / 256
  {
  }

  /** Bytes from..to form one lane. */
  predicate Lane(starts: Partition, from: nat, to: nat) {
    && from < to <= |starts| && (from == 0 || starts[from])
    && forall k :: from < k < to ==> !starts[k]
  }

  lemma RippleFrom(a: Word, b: Word, k: nat, to: nat, carry: nat)
    requires |a| == |b| && k < to <= |a| && carry <= 1
    ensures var sum := ByteSum(a[k], b[k], carry);
            Ripple(a[k..to], b[k..to], carry) == [sum % 256] + Ripple(a[k + 1..to], b[k + 1..to], sum / 256)
  {
    assert a[k..to][1..] == a[k + 1..to] && b[k..to][1..] == b[k + 1..to];
  }

  /** Within a lane the wide addition is a ripple addition. */
  lemma {:induction false} WideInLane(a: Word, b: Word, starts: Partition, from: nat, k: nat, to: nat, negate: bool,
                                      carry: nat)
    requires |a| == |b| == |starts| && carry <= 1
    requires Lane(starts, from, to) && from <= k < to && (k == 0 ==> carry == 0)
    ensures WideFrom(a, b, starts, k, negate, carry)[..to - k]
            == Ripple(a[k..to], b[k..to], Enters(starts, k, negate, carry))
    decreases |a| - k
  {
    var enters := Enters(starts, k, negate, carry);
    WideStep(a, b, starts, k, negate, carry);
    RippleFrom(a, b, k, to, enters);
    var sum := ByteSum(a[k], b[k], enters);
    var rest := WideFrom(a, b, starts, k + 1, negate, sum / 256);
    if k + 1 < to {
      WideInLane(a, b, starts, from, k + 1, to, negate, sum / 256);
    }
    assert ([sum % 256] + rest)[..to - k] == [sum % 256] + rest[..to - k - 1];
  }

  /** The result from byte k on does not depend on the lower bytes, except for a carry. */
  lemma {:induction false} WideSuffix(a: Word, b: Word, starts: Partition, k: nat, negate: bool) returns (carry: nat)
    requires |a| == |b| == |starts| && k <= |a|
    ensures carry <= 1 && (k == 0 ==> carry == 0)
    ensures Adder(a, b, starts, negate)[k..] == WideFrom(a, b, starts, k, negate, carry)
    decreases k
  {
    carry := 0;
    if k > 0 {
      var before := WideSuffix(a, b, starts, k - 1, negate);
      WideStep(a, b, starts, k - 1, negate, before);
      carry := ByteSum(a[k - 1], b[k - 1], Enters(starts, k - 1, negate, before)) / 256;
      var w := Adder(a, b, starts, negate);
      assert w[k..] == w[k - 1..][1..];
    }
  }

  lemma LaneSum(a: Word, b: Word, starts: Partition, from: nat, to: nat, negate: bool) returns (out: nat)
    requires |a| == |b| == |starts| && Lane(starts, from, to)
    ensures var r, m := Value(Adder(a, b, starts, negate)[from..to]), Power(to - from);
            r < m && out <= 1 && r + out * m == Value(a[from..to]) + Value(b[from..to]) + (if negate then 1 else 0)
  {
    var carry := WideSuffix(a, b, starts, from, negate);
    WideInLane(a, b, starts, from, from, to, negate, carry);
    var w := Adder(a, b, starts, negate);
    assert w[from..to] == w[from..][..to - from];
    out := RippleIsSum(a[from..to], b[from..to], if negate then 1 else 0);
    ValueBound(w[from..to]);
  }

  /** The one wide addition adds each lane modulo its size, for every partition. */
  lemma AddsLanewise(a: Word, b: Word, starts: Partition, from: nat, to: nat)
    requires |a| == |b| == |starts| && Lane(starts, from, to)
    ensures Value(Adder(a, b, starts, false)[from..to]) == (Value(a[from..to]) + Value(b[from..to])) % Power(to - from)
  {
    var out := LaneSum(a, b, starts, from, to, false);
    ReduceSum(Value(Adder(a, b, starts, false)[from..to]), out, Value(a[from..to]) + Value(b[from..to]), Power(to - from));
  }

  /** With operand b complemented and the negating guard bits it subtracts each lane. */
  lemma SubtractsLanewise(a: Word, b: Word, starts: Partition, from: nat, to: nat)
    requires |a| == |b| == |starts| && Lane(starts, from, to)
    ensures Value(Adder(a, Complement(b), starts, true)[from..to])
            == (Value(a[from..to]) - Value(b[from..to])) % Power(to - from)
  {
    var out := LaneSum(a, Complement(b), starts, from, to, true);
    assert Complement(b)[from..to] == Complement(b[from..to]);
    ValueComplement(b[from..to]);
    ValueBound(b[from..to]);
    ValueBound(a[from..to]);
    var m := Power(to - from);
    ReduceDifference(Value(Adder(a, Complement(b), starts, true)[from..to]), out, Value(a[from..to]) - Value(b[from..to]), m);
  }

  lemma ReduceSum(r: nat, out: nat, sum: nat, m: nat)
    requires r < m && out <= 1 && r + out * m == sum
    ensures r == sum % m
  {
    if out == 1 { ModOnce(r, m); } else { SmallMod(r, m); }
  }

  lemma ReduceDifference(r: nat, out: nat, difference: int, m: nat)
    requires r < m && out <= 1 && r + out * m == difference + m && -(m as int) < difference
    ensures r == difference % m
  {
    if out == 1 { SmallMod(r, m); } else { NegativeMod(difference, m); }
  }

  /** The lane of four bytes that byte k belongs to. */
  function LaneFrom(mode: Mode, k: nat): nat
    requires k < 4
  {
    match mode case Vec32 => 0 case Vec16 => if k < 2 then 0 else 2 case Vec8 => k
  }

  function LaneTo(mode: Mode, k: nat): nat
    requires k < 4
  {
    match mode case Vec32 => 4 case Vec16 => if k < 2 then 2 else 4 case Vec8 => k + 1
  }

  /** The ALU's four-byte instances in its three vector modes. */
  lemma VectorModes(a: Word, b: Word, mode: Mode, k: nat)
    requires |a| == |b| == 4 && k < 4
    ensures var from, to := LaneFrom(mode, k), LaneTo(mode, k);
            var x, y := Value(a[from..to]), Value(b[from..to]);
            && from <= k < to
            && Value(Adder(a, b, Starts(mode), false)[from..to]) == (x + y) % Power(to - from)
            && Value(Adder(a, Complement(b), Starts(mode), true)[from..to]) == (x - y) % Power(to - from)
  {
    AddsLanewise(a, b, Starts(mode), LaneFrom(mode, k), LaneTo(mode, k));
    SubtractsLanewise(a, b, Starts(mode), LaneFrom(mode, k), LaneTo(mode, k));
  }

  // ---------------------------------------------------------------------------
  // The comparator, composed of four byte comparators.

  /** cmp_signed: the top byte of each lane of a signed comparison. */
  predicate CmpSigned(mode: Mode, signed: bool, k: nat) {
    signed && match mode case Vec32 => k == 3 case Vec16 => k == 1 || k == 3 case Vec8 => true
  }

  function Extended(x: Byte, signed: bool): int { if signed && x >= 128 then x as int - 256 else x }

  predicate GreaterByte(mode: Mode, a: Word, b: Word, signed: bool, k: nat)
    requires |a| == |b| == 4 && k < 4
  {
    Extended(a[k], CmpSigned(mode, signed, k)) > Extended(b[k], CmpSigned(mode, signed, k))
  }

  /** is_equal[k] */
  predicate IsEqual(mode: Mode, a: Word, b: Word, k: nat)
    requires |a| == |b| == 4 && k < 4
  {
    match mode
    case Vec32 => a[3] == b[3] && a[2] == b[2] && a[1] == b[1] && a[0] == b[0]
    case Vec16 => if k < 2 then a[0] == b[0] && a[1] == b[1] else a[2] == b[2] && a[3] == b[3]
    case Vec8 => a[k] == b[k]
  }

  /** is_greater[k] */
  predicate IsGreater(mode: Mode, a: Word, b: Word, signed: bool, k: nat)
    requires |a| == |b| == 4 && k < 4
  {
    var g0, g1 := GreaterByte(mode, a, b, signed, 0), GreaterByte(mode, a, b, signed, 1);
    var g2, g3 := GreaterByte(mode, a, b, signed, 2), GreaterByte(mode, a, b, signed, 3);
    match mode
    case Vec32 => g3 || (a[3] == b[3] && (g2 || (a[2] == b[2] && (g1 || (a[1] == b[1] && g0)))))
    case Vec16 => if k < 2 then g1 || (a[1] == b[1] && g0) else g3 || (a[3] == b[3] && g2)
    case Vec8 => GreaterByte(mode, a, b, signed, k)
  }

  datatype Comparison = Eq | Ne | Gt | Ge | Lt | Le

  /** cmp_result[k] */
  predicate CmpResult(op: Comparison, mode: Mode, a: Word, b: Word, signed: bool, k: nat)
    requires |a| == |b| == 4 && k < 4
  {
    var equal, greater := IsEqual(mode, a, b, k), IsGreater(mode, a, b, signed, k);
    match op
    case Eq => equal
    case Ne => !equal
    case Gt => greater
    case Ge => greater || equal
    case Lt => !(greater || equal)
    case Le => !greater
  }

  /** A lane as a signed or an unsigned number. */
  function Meaning(w: Word, signed: bool): int
    requires w != []
  {
    if signed && w[|w| - 1] >= 128 then Value(w) - Power(|w|) else Value(w)
  }

  predicate Holds(op: Comparison, x: int, y: int) {
    match op
    case Eq => x == y
    case Ne => x != y
    case Gt => x > y
    case Ge => x >= y
    case Lt => x < y
    case Le => x <= y
  }

  /** The same number with the sign taken at the top byte. */
  function TopSigned(w: Word, signed: bool): int
    requires w != []
    decreases |w|
  {
    if |w| == 1 then Extended(w[0], signed) else w[0] as int + 256 * TopSigned(w[1..], signed)
  }

  lemma {:induction false} MeaningIsTopSigned(w: Word, signed: bool)
    requires w != []
    ensures Meaning(w, signed) == TopSigned(w, signed)
    decreases |w|
  {
    if |w| > 1 {
      MeaningIsTopSigned(w[1..], signed);
    } else {
      assert w[1..] == [] && Power(0) == 1;
      assert Value(w) == w[0] && Power(1) == 256 * Power(0);
    }
  }

  /** Lexicographic comparison, the lowest byte last. */
  lemma CompareLowest(a: Word, b: Word, signed: bool)
    requires |a| == |b| > 1
    ensures var x, y, x', y' := TopSigned(a, signed), TopSigned(b, signed),
                                TopSigned(a[1..], signed), TopSigned(b[1..], signed);
            && (x > y <==> x' > y' || (x' == y' && a[0] > b[0]))
            && (x == y <==> x' == y' && a[0] == b[0])
  {
  }

  /** The comparison signals of a byte's lane mean the comparison of the lane. */
  predicate SignalsMean(mode: Mode, a: Word, b: Word, signed: bool, k: nat, x: Word, y: Word)
    requires |a| == |b| == 4 && k < 4 && x != [] && y != []
  {
    && (IsEqual(mode, a, b, k) <==> TopSigned(x, signed) == TopSigned(y, signed))
    && (IsGreater(mode, a, b, signed, k) <==> TopSigned(x, signed) > TopSigned(y, signed))
  }

  lemma SignalsOfByte(a: Word, b: Word, signed: bool, k: nat)
    requires |a| == |b| == 4 && k < 4
    ensures SignalsMean(Vec8, a, b, signed, k, a[k..k + 1], b[k..k + 1])
  {
  }

  lemma SignalsOfHalf(a: Word, b: Word, signed: bool, k: nat)
    requires |a| == |b| == 4 && k < 4
    ensures var from := LaneFrom(Vec16, k); SignalsMean(Vec16, a, b, signed, k, a[from..from + 2], b[from..from + 2])
  {
    var from := LaneFrom(Vec16, k);
    var x, y := a[from..from + 2], b[from..from + 2];
    CompareLowest(x, y, signed);
    assert TopSigned(x[1..], signed) == Extended(a[from + 1], signed);
    assert TopSigned(y[1..], signed) == Extended(b[from + 1], signed);
  }

  lemma SignalsOfWord(a: Word, b: Word, signed: bool, k: nat)
    requires |a| == |b| == 4 && k < 4
    ensures SignalsMean(Vec32, a, b, signed, k, a, b)
  {
    CompareLowest(a, b, signed);
    CompareLowest(a[1..], b[1..], signed);
    CompareLowest(a[1..][1..], b[1..][1..], signed);
    assert TopSigned(a[1..][1..][1..], signed) == Extended(a[3], signed);
    assert TopSigned(b[1..][1..][1..], signed) == Extended(b[3], signed);
  }

  /** Every comparison decides the relation of its lanes' values, signed or unsigned. */
  lemma ComparesLanewise(op: Comparison, mode: Mode, a: Word, b: Word, signed: bool, k: nat)
    requires |a| == |b| == 4 && k < 4
    ensures var from, to := LaneFrom(mode, k), LaneTo(mode, k);
            CmpResult(op, mode, a, b, signed, k)
            <==> Holds(op, Meaning(a[from..to], signed), Meaning(b[from..to], signed))
  {
    var from, to := LaneFrom(mode, k), LaneTo(mode, k);
    MeaningIsTopSigned(a[from..to], signed);
    MeaningIsTopSigned(b[from..to], signed);
    match mode
    case Vec32 =>
      assert a[0..4] == a && b[0..4] == b;
      SignalsOfWord(a, b, signed, k);
    case Vec16 => SignalsOfHalf(a, b, signed, k);
    case Vec8 => SignalsOfByte(a, b, signed, k);
  }
}
