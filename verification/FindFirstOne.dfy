/** The find-first-one unit: a generated binary tree of (select, index) nodes
    over an input vector of any length of at least two. */
module FindFirstOne {
  import opened Bits

  /** Number of tree levels: the least n with 2^n >= len. */
  function CeilLog2(len: nat): (n: nat)
  {
    if len <= 1 then 0 else 1 + CeilLog2((len + 1) / 2)
  }

  datatype Node = Node(sel: bool, index: nat)

  /** Entry j of the index table, truncated to the width of an index. */
  function IndexLut(input: seq<bool>, j: nat): (i: nat)
  {
    j % Pow2(CeilLog2(|input|))
  }

  /** Node k of the level whose nodes each span 2^height input bits. The level
      next to the input (height 1) reads the vector, padding past its end. */
  function TreeNode(input: seq<bool>, height: nat, k: nat): (n: Node)
    requires height >= 1
    decreases height
  {
    if height == 1 then
      if 2 * k + 1 < |input| then
        Node(input[2 * k] || input[2 * k + 1],
             if input[2 * k] then IndexLut(input, 2 * k) else IndexLut(input, 2 * k + 1))
      else if 2 * k < |input| then
        Node(input[2 * k], IndexLut(input, 2 * k))
      else
        Node(false, 0)
    else
      var left := TreeNode(input, height - 1, 2 * k);
      var right := TreeNode(input, height - 1, 2 * k + 1);
      Node(left.sel || right.sel, if left.sel then left.index else right.index)
  }

  function Root(input: seq<bool>): (n: Node)
    requires |input| >= 2
  {
    TreeNode(input, CeilLog2(|input|), 0)
  }

  /** Output first_one_o. */
  function FirstOne(input: seq<bool>): (i: nat)
    requires |input| >= 2
  {
    Root(input).index
  }

  /** Output no_ones_o. */
  predicate NoOnes(input: seq<bool>)
    requires |input| >= 2
  {
    !Root(input).sel
  }

  lemma {:induction false} CeilLog2Bounds(len: nat)
    requires len >= 1
    ensures len <= Pow2(CeilLog2(len))
    ensures len >= 2 ==> CeilLog2(len) >= 1 && Pow2(CeilLog2(len)) < 2 * len
  {
    if len > 1 {
      CeilLog2Bounds((len + 1) / 2);
    }
  }

  /** What a node spanning input[lo..hi] has to say: whether a position in that
      slice is set and, if so, the lowest one. */
  ghost predicate Answers(input: seq<bool>, n: Node, lo: nat, hi: nat)
  {
    if n.sel then
      lo <= n.index < hi && n.index < |input| && input[n.index] &&
      forall j :: lo <= j < n.index ==> !input[j]
    else
      forall j :: lo <= j < hi && j < |input| ==> !input[j]
  }

  /** A node answers for exactly the slice of the input that it spans. */
  lemma {:induction false} NodeCorrect(input: seq<bool>, height: nat, k: nat)
    requires height >= 1 && |input| >= 1
    ensures Answers(input, TreeNode(input, height, k), k * Pow2(height), k * Pow2(height) + Pow2(height))
    decreases height
  {
    if height == 1 {
      LeafCorrect(input, k);
    } else {
      NodeCorrect(input, height - 1, 2 * k);
      NodeCorrect(input, height - 1, 2 * k + 1);
      SplitSpan(k, Pow2(height - 1));
    }
  }

  lemma SplitSpan(k: nat, p: nat)
    ensures k * (2 * p) == (2 * k) * p
    ensures (2 * k + 1) * p == (2 * k) * p + p
  {}

  lemma LeafCorrect(input: seq<bool>, k: nat)
    requires |input| >= 1
    ensures Answers(input, TreeNode(input, 1, k), k * Pow2(1), k * Pow2(1) + Pow2(1))
  {
    assert Pow2(1) == 2 * Pow2(0) == 2;
    CeilLog2Bounds(|input|);
    if 2 * k < |input| {
      SmallMod(2 * k, Pow2(CeilLog2(|input|)));
    }
    if 2 * k + 1 < |input| {
      SmallMod(2 * k + 1, Pow2(CeilLog2(|input|)));
    }
  }

  lemma SmallMod(a: nat, b: nat)
    requires a < b
    ensures a % b == a
  {}

  /** The unit's promise, for every vector length: no_ones_o exactly on the zero
      vector, and otherwise first_one_o is the lowest set position. */
  lemma {:induction false} FirstOneCorrect(input: seq<bool>)
    requires |input| >= 2
    ensures NoOnes(input) <==> forall j :: 0 <= j < |input| ==> !input[j]
    ensures !NoOnes(input) ==>
      FirstOne(input) < |input| && input[FirstOne(input)] &&
      forall j :: 0 <= j < FirstOne(input) ==> !input[j]
  {
    CeilLog2Bounds(|input|);
    NodeCorrect(input, CeilLog2(|input|), 0);
    assert 0 * Pow2(CeilLog2(|input|)) == 0;
    assert Answers(input, Root(input), 0, Pow2(CeilLog2(|input|)));
  }
}
