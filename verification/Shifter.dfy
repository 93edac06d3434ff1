// The shifter of rtl/cv32e40p_alu.sv in its vector modes, and the bit-field instructions that
// are built on it. A word is a list of lanes, the least significant first.
module Shifter {
  import opened Bits

  // ---------------------------------------------------------------------------
  // Left shift by reversal, lane by lane.

  function Flatten(lanes: seq<Vector>): Vector {
    if lanes == [] then [] else lanes[0] + Flatten(lanes[1..])
  }

  /** The lanes of the reversed word. */
  function ReversedLanes(lanes: seq<Vector>): (r: seq<Vector>)
    ensures |r| == |lanes|
  {
    if lanes == [] then [] else ReversedLanes(lanes[1..]) + [Reverse(lanes[0])]
  }

  /** shift_amt_left: the amounts in the order of the reversed lanes. */
  function Swapped(amounts: seq<nat>): (r: seq<nat>)
    ensures |r| == |amounts|
  {
    if amounts == [] then [] else Swapped(amounts[1..]) + [amounts[0]]
  }

  /** shift_right_result, with zeros or copies of the sign of each lane shifted in. */
  function ShiftLanesRight(lanes: seq<Vector>, amounts: seq<nat>, arithmetic: bool): (r: seq<Vector>)
    requires |lanes| == |amounts|
    ensures |r| == |lanes|
  {
    seq(|lanes|, l requires 0 <= l < |lanes| =>
      ShiftRight(lanes[l], amounts[l], arithmetic && lanes[l] != [] && lanes[l][|lanes[l]| - 1]))
  }

  /** The independent definition. */
  function ShiftLanesLeft(lanes: seq<Vector>, amounts: seq<nat>): (r: seq<Vector>)
    requires |lanes| == |amounts|
    ensures |r| == |lanes|
  {
    seq(|lanes|, l requires 0 <= l < |lanes| => ShiftLeft(lanes[l], amounts[l]))
  }

  lemma ReverseAppend(a: Vector, b: Vector)
    ensures Reverse(a + b) == Reverse(b) + Reverse(a)
  {
  }

  lemma {:induction false} FlattenAppend(a: seq<Vector>, b: seq<Vector>)
    ensures Flatten(a + b) == Flatten(a) + Flatten(b)
  {
    if a == [] {
      assert a + b == b;
    } else {
      FlattenAppend(a[1..], b);
      assert (a + b)[1..] == a[1..] + b;
    }
  }

  /** ReversedLanes are the lanes of the reversed word. */
  lemma {:induction false} FlattenReversed(lanes: seq<Vector>)
    ensures Flatten(ReversedLanes(lanes)) == Reverse(Flatten(lanes))
  {
    if lanes != [] {
      var last := [Reverse(lanes[0])];
      FlattenReversed(lanes[1..]);
      FlattenAppend(ReversedLanes(lanes[1..]), last);
      assert last[1..] == [] && Flatten(last) == last[0] + Flatten([]) == last[0];
      ReverseAppend(lanes[0], Flatten(lanes[1..]));
    }
  }

  lemma ShiftLast(lanes: seq<Vector>, amounts: seq<nat>, lane: Vector, amount: nat)
    requires |lanes| == |amounts|
    ensures ShiftLanesRight(lanes + [lane], amounts + [amount], false)
            == ShiftLanesRight(lanes, amounts, false) + [ShiftRight(lane, amount, false)]
  {
  }

  /** Reverse the word, shift its lanes right by the swapped amounts, and reverse the word
      again: each lane has been shifted left by its own amount. */
  lemma {:induction false} LeftShiftIsLanewise(lanes: seq<Vector>, amounts: seq<nat>)
    requires |lanes| == |amounts|
    ensures Flatten(ReversedLanes(lanes)) == Reverse(Flatten(lanes))
    ensures Reverse(Flatten(ShiftLanesRight(ReversedLanes(lanes), Swapped(amounts), false)))
            == Flatten(ShiftLanesLeft(lanes, amounts))
  {
    FlattenReversed(lanes);
    if lanes != [] {
      var lane, amount, lanes', amounts' := lanes[0], amounts[0], lanes[1..], amounts[1..];
      LeftShiftIsLanewise(lanes', amounts');
      var shifted := ShiftLanesRight(ReversedLanes(lanes'), Swapped(amounts'), false);
      var last := ShiftRight(Reverse(lane), amount, false);
      ShiftLast(ReversedLanes(lanes'), Swapped(amounts'), Reverse(lane), amount);
      FlattenAppend(shifted, [last]);
      assert [last][1..] == [] && Flatten([last]) == last + Flatten([]) == last;
      ReverseAppend(Flatten(shifted), last);
      LeftShiftByReversal(lane, amount);
      assert ShiftLanesLeft(lanes, amounts) == [ShiftLeft(lane, amount)] + ShiftLanesLeft(lanes', amounts');
    }
  }

  /** A right shift divides each lane's value, signed or unsigned, by its own power of two and
      rounds down. */
  lemma RightShiftDivides(lanes: seq<Vector>, amounts: seq<nat>, l: nat)
    requires |lanes| == |amounts| && l < |lanes| && lanes[l] != []
    ensures |ShiftLanesRight(lanes, amounts, true)[l]| == |ShiftLanesRight(lanes, amounts, false)[l]| == |lanes[l]|
    ensures Signed(ShiftLanesRight(lanes, amounts, true)[l]) == Signed(lanes[l]) / Pow2(amounts[l])
    ensures Val(ShiftLanesRight(lanes, amounts, false)[l]) == Val(lanes[l]) / Pow2(amounts[l])
  {
    ShiftRightSigned(lanes[l], amounts[l]);
    ShiftRightUnsigned(lanes[l], amounts[l]);
  }

  // ---------------------------------------------------------------------------
  // Bit fields: size is the width of the field minus one, offset its position.

  function And(a: Vector, b: Vector): (r: Vector)
    requires |a| == |b|
    ensures |r| == |a|
  {
    seq(|a|, i requires 0 <= i < |a| => a[i] && b[i])
  }

  function Or(a: Vector, b: Vector): (r: Vector)
    requires |a| == |b|
    ensures |r| == |a|
  {
    seq(|a|, i requires 0 <= i < |a| => a[i] || b[i])
  }

  function AllButFirst(n: nat): (r: Vector)
    ensures |r| == n
  {
    seq(n, i => i > 0)
  }

  /** bmask */
  function Mask(n: nat, size: nat, offset: nat): (r: Vector)
    ensures |r| == n
  {
    ShiftLeft(Not(ShiftLeft(AllButFirst(n), size)), offset)
  }

  function Merge(mask: Vector, shifted: Vector, other: Vector): (r: Vector)
    requires |mask| == |shifted| == |other|
    ensures |r| == |mask|
  {
    Or(And(mask, shifted), And(other, Not(mask)))
  }

  /** cv.insert: the left shift is made by reversal. */
  function Insert(dest: Vector, src: Vector, size: nat, offset: nat): (r: Vector)
    requires |dest| == |src|
    ensures |r| == |dest|
  {
    Merge(Mask(|src|, size, offset), Reverse(ShiftRight(Reverse(src), offset, false)), dest)
  }

  /** cv.extract and cv.extractu: the mask starts at zero, and above it the sign is copied. */
  function Extract(src: Vector, size: nat, offset: nat, signed: bool): (r: Vector)
    requires size < |src|
    ensures |r| == |src|
  {
    var shifted := ShiftRight(src, offset, signed && src[|src| - 1]);
    var sign := signed && shifted[size];
    Merge(Mask(|src|, size, 0), shifted, seq(|src|, _ => sign))
  }

  /** The low bits of a word, extended to its width. */
  function Extend(src: Vector, size: nat, signed: bool): (r: Vector)
    requires size < |src|
    ensures |r| == |src|
  {
    seq(|src|, i requires 0 <= i < |src| => if i <= size then src[i] else signed && src[size])
  }

  lemma MaskBits(n: nat, size: nat, offset: nat)
    ensures forall i :: 0 <= i < n ==> (Mask(n, size, offset)[i] <==> offset <= i <= offset + size)
  {
    var first := ShiftLeft(AllButFirst(n), size);
    assert forall i :: 0 <= i < n ==> (first[i] <==> i > size);
  }

  /** Inserting writes the low bits of the source into the field and nothing else. */
  lemma InsertBits(dest: Vector, src: Vector, size: nat, offset: nat)
    requires |dest| == |src|
    ensures forall i :: 0 <= i < |dest| ==>
              Insert(dest, src, size, offset)[i] ==
              if offset <= i <= offset + size then src[i - offset] else dest[i]
  {
    MaskBits(|src|, size, offset);
    LeftShiftByReversal(src, offset);
  }

  /** Extracting after inserting gives back the low bits, zero- or sign-extended, for every
      source and destination exactly when the field fits into the word. */
  lemma InsertExtractExact(n: nat, size: nat, offset: nat, signed: bool)
    requires size < n
    ensures offset + size < n <==>
            forall dest: Vector, src: Vector :: |dest| == |src| == n ==>
              Extract(Insert(dest, src, size, offset), size, offset, signed) == Extend(src, size, signed)
  {
    MaskBits(n, size, 0);
    if offset + size < n {
      forall dest: Vector, src: Vector | |dest| == |src| == n
        ensures Extract(Insert(dest, src, size, offset), size, offset, signed) == Extend(src, size, signed)
      {
        InsertBits(dest, src, size, offset);
      }
    } else {
      FieldDoesNotFit(n, size, offset, signed);
    }
  }

  lemma FieldDoesNotFit(n: nat, size: nat, offset: nat, signed: bool)
    requires size < n <= offset + size
    ensures exists dest: Vector, src: Vector :: |dest| == |src| == n &&
              Extract(Insert(dest, src, size, offset), size, offset, signed) != Extend(src, size, signed)
  {
    var dest := seq(n, _ => false);
    var src := seq(n, i => i == size);
    InsertBits(dest, src, size, offset);
    MaskBits(n, size, 0);
    assert !Extract(Insert(dest, src, size, offset), size, offset, signed)[size];
    assert Extend(src, size, signed)[size];
  }
}
