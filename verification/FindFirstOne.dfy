// rtl/cv32e40p_ff_one.sv: the heap-shaped tree that finds the least set bit of
// a vector of any length of at least two.
module FindFirstOne {
  import opened Bits

  /** $clog2: the number of levels of the tree. */
  function Levels(len: nat): (n: nat)
    requires len >= 1
    ensures Pow2(n) >= len
    ensures n > 0 ==> Pow2(n - 1) < len
  {
    if len == 1 then 0 else 1 + Levels((len + 1) / 2)
  }

  datatype Node = Node(sel: bool, index: nat)

  /** A node of the last level looks at the input bits 2k and 2k + 1. */
  function LeafNode(v: Vector, k: nat): Node {
    if 2 * k < |v| - 1 then Node(v[2 * k] || v[2 * k + 1], if v[2 * k] then 2 * k else 2 * k + 1)
    else if 2 * k == |v| - 1 then Node(v[2 * k], 2 * k)
    else Node(false, 0)
  }

  function Join(left: Node, right: Node): Node {
    Node(left.sel || right.sel, if left.sel then left.index else right.index)
  }

  /** Node k of a level: entry Slot(level, k) of sel_nodes and index_nodes. */
  function TreeNode(v: Vector, level: nat, k: nat): Node
    requires |v| >= 2 && level < Levels(|v|)
    decreases Levels(|v|) - level
  {
    if level == Levels(|v|) - 1 then LeafNode(v, k)
    else
      Join(TreeNode(v, level + 1, 2 * k), TreeNode(v, level + 1, 2 * k + 1))
  }

  function Slot(level: nat, k: nat): nat {
    Pow2(level) - 1 + k
  }

  /** The root: first_one_o is its index, no_ones_o the negation of its sel. */
  function Root(v: Vector): Node
    requires |v| >= 2
  {
    TreeNode(v, 0, 0)
  }

  /** The independent definition of a find-first-one result. */
  ghost predicate IsLeastOne(v: Vector, node: Node) {
    && (node.sel <==> Val(v) != 0)
    && node.index < |v|
    && (node.sel ==> v[node.index] && forall i :: 0 <= i < node.index ==> !v[i])
  }

  /** What a node has to report about the input bits lo..hi. */
  ghost predicate Summarises(v: Vector, node: Node, lo: nat, hi: nat) {
    && (!node.sel ==> forall i :: lo <= i < hi && i < |v| ==> !v[i])
    && (node.sel ==> lo <= node.index < hi && node.index < |v| && v[node.index]
                     && forall i :: lo <= i < node.index ==> !v[i])
  }

  lemma JoinSummarises(v: Vector, left: Node, right: Node, lo: nat, mid: nat, hi: nat)
    requires lo <= mid <= hi && Summarises(v, left, lo, mid) && Summarises(v, right, mid, hi)
    ensures Summarises(v, Join(left, right), lo, hi)
  {
  }

  lemma LeafSummarises(v: Vector, k: nat)
    requires |v| >= 2
    ensures Summarises(v, LeafNode(v, k), k * 2, (k + 1) * 2)
  {
  }

  /** Node k of a level summarises its 2^(levels - level) input bits. */
  lemma {:induction false} NodeSummarises(v: Vector, level: nat, k: nat)
    requires |v| >= 2 && level < Levels(|v|)
    ensures var span := Pow2(Levels(|v|) - level); Summarises(v, TreeNode(v, level, k), k * span, (k + 1) * span)
    decreases Levels(|v|) - level
  {
    if level < Levels(|v|) - 1 {
      var half := Pow2(Levels(|v|) - level - 1);
      NodeSummarises(v, level + 1, 2 * k);
      NodeSummarises(v, level + 1, 2 * k + 1);
      Halves(k, half);
      JoinSummarises(v, TreeNode(v, level + 1, 2 * k), TreeNode(v, level + 1, 2 * k + 1),
                     k * (2 * half), (2 * k + 1) * half, (k + 1) * (2 * half));
    } else {
      assert Pow2(1) == 2;
      LeafSummarises(v, k);
    }
  }

  lemma Halves(k: nat, half: nat)
    ensures 2 * k * half == k * (2 * half) <= (2 * k + 1) * half <= (2 * k + 1 + 1) * half == (k + 1) * (2 * half)
  {
  }

  /** For every length, not only powers of two: no_ones_o says that the input is
      zero, and otherwise first_one_o is the least set bit. */
  lemma FirstOneCorrect(v: Vector)
    requires |v| >= 2
    ensures IsLeastOne(v, Root(v))
  {
    NodeSummarises(v, 0, 0);
    ValZero(v);
    IndexFits(v, 0, 0);
  }

  /** index_lut truncates to $clog2(LEN) bits; nothing is lost. */
  lemma {:induction false} IndexFits(v: Vector, level: nat, k: nat)
    requires |v| >= 2 && level < Levels(|v|)
    ensures TreeNode(v, level, k).index < |v|
    decreases Levels(|v|) - level
  {
    if level < Levels(|v|) - 1 {
      IndexFits(v, level + 1, 2 * k);
      IndexFits(v, level + 1, 2 * k + 1);
    }
  }

  lemma SlotRange(level: nat, k: nat, above: nat)
    requires level < above && k < Pow2(level)
    ensures Slot(level, k) < Pow2(above) - 1
  {
    Pow2Monotone(level + 1, above);
  }

  /** The generate loops give every node its own entry inside the two arrays,
      so no entry has two drivers. */
  lemma SlotsAreDistinct(n: nat, level: nat, k: nat, level': nat, k': nat)
    requires level < n && level' < n && k < Pow2(level) && k' < Pow2(level')
    ensures Slot(level, k) < Pow2(n)
    ensures Slot(level, k) == Slot(level', k') ==> level == level' && k == k'
  {
    SlotRange(level, k, n);
    if level < level' { SlotRange(level, k, level'); }
    if level' < level { SlotRange(level', k', level); }
  }
}
