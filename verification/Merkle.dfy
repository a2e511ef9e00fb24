/**
 The Merkle tree of internal/merkle/tree.go.

 The code never builds a tree: `Root` and `Proof` each fold a layer of digests
 until one is left, repeating the last digest of an odd layer. The model names the
 tree those loops digest, so that both can be proved against one specification:
 a perfect binary tree over the leaves padded by repeating, at each odd layer, the
 last subtree.
 */
module Merkle {
  import opened Hashing

  function HashPair(h: Hasher, left: string, right: string): string {
    Sum(h, left + right)
  }

  datatype Tree = Leaf(value: string) | Node(left: Tree, right: Tree)

  function Digest(h: Hasher, t: Tree): string {
    match t
    case Leaf(v) => v
    case Node(l, r) => HashPair(h, Digest(h, l), Digest(h, r))
  }

  /** A layer as the loops even it: the last element of an odd layer is repeated. */
  function Evened<T>(layer: seq<T>): (even: seq<T>)
    ensures |even| % 2 == 0
  {
    if |layer| % 2 == 1 then layer + [layer[|layer| - 1]] else layer
  }

  /** The first k pairs of a layer, joined. */
  function PairUp(ts: seq<Tree>, k: nat): seq<Tree>
    requires 2 * k <= |ts|
  {
    seq(k, i requires 0 <= i < k => Node(ts[2 * i], ts[2 * i + 1]))
  }

  /** The subtrees one layer up. */
  function NextLevel(ts: seq<Tree>): (up: seq<Tree>)
    ensures |up| == (|ts| + 1) / 2
  {
    var even := Evened(ts);
    PairUp(even, |even| / 2)
  }

  function Grow(ts: seq<Tree>): Tree
    requires ts != []
    decreases |ts|
  {
    if |ts| == 1 then ts[0] else Grow(NextLevel(ts))
  }

  lemma GrowStep(ts: seq<Tree>)
    requires ts != []
    ensures Grow(ts) == if |ts| == 1 then ts[0] else Grow(NextLevel(ts))
  {}

  function Leaves(leaves: seq<string>): seq<Tree> {
    seq(|leaves|, i requires 0 <= i < |leaves| => Leaf(leaves[i]))
  }

  function TreeOf(leaves: seq<string>): Tree
    requires leaves != []
  {
    Grow(Leaves(leaves))
  }

  /** What `Root` returns: the digest of that tree, and "" for no leaves. */
  function RootOf(h: Hasher, leaves: seq<string>): string {
    if leaves == [] then "" else Digest(h, TreeOf(leaves))
  }

  // ---------------------------------------------------------------- shape

  function Pow2(d: nat): nat {
    if d == 0 then 1 else 2 * Pow2(d - 1)
  }

  /** The number of layers above n leaves. */
  function Depth(n: nat): nat {
    if n <= 1 then 0 else 1 + Depth((n + 1) / 2)
  }

  /** Depth(n) is the least d with 2^d >= n. */
  lemma {:induction false} DepthIsLeast(n: nat, d: nat)
    requires n > 0
    ensures Depth(n) <= d <==> n <= Pow2(d)
    decreases n
  {
    if n > 1 {
      if d > 0 {
        DepthIsLeast((n + 1) / 2, d - 1);
      }
    } else {
      Pow2Positive(d);
    }
  }

  lemma Pow2Positive(d: nat)
    ensures Pow2(d) > 0
  {}

  ghost predicate Perfect(t: Tree, d: nat) {
    match t
    case Leaf(_) => d == 0
    case Node(l, r) => d > 0 && Perfect(l, d - 1) && Perfect(r, d - 1)
  }

  ghost predicate Wide(t: Tree) {
    match t
    case Leaf(v) => |v| == DIGEST_WIDTH
    case Node(l, r) => Wide(l) && Wide(r)
  }

  lemma {:induction false} GrowPerfect(ts: seq<Tree>, d: nat)
    requires ts != []
    requires forall i :: 0 <= i < |ts| ==> Perfect(ts[i], d)
    ensures Perfect(Grow(ts), d + Depth(|ts|))
    decreases |ts|
  {
    if |ts| > 1 {
      GrowPerfect(NextLevel(ts), d + 1);
    }
  }

  lemma {:induction false} GrowWide(ts: seq<Tree>)
    requires ts != []
    requires forall i :: 0 <= i < |ts| ==> Wide(ts[i])
    ensures Wide(Grow(ts))
    decreases |ts|
  {
    if |ts| > 1 {
      GrowWide(NextLevel(ts));
    }
  }

  /** A wide subtree always has a wide digest. */
  lemma DigestWide(h: Hasher, t: Tree)
    requires Wide(t)
    ensures |Digest(h, t)| == DIGEST_WIDTH
  {}

  // ---------------------------------------------------------------- padding

  /** The first k pairs of blocks, joined. */
  function JoinBlocks(blocks: seq<seq<string>>, k: nat): (up: seq<seq<string>>)
    requires 2 * k <= |blocks|
    ensures |up| == k
    ensures forall i :: 0 <= i < k ==> up[i] == blocks[2 * i] + blocks[2 * i + 1]
  {
    if k == 0 then [] else JoinBlocks(blocks, k - 1) + [blocks[2 * k - 2] + blocks[2 * k - 1]]
  }

  function PadBlocks(blocks: seq<seq<string>>): seq<string>
    requires blocks != []
    decreases |blocks|
  {
    if |blocks| == 1 then blocks[0]
    else
      var even := Evened(blocks);
      PadBlocks(JoinBlocks(even, |even| / 2))
  }

  /** The leaves padded to a power of two by repeating the last block of 1, 2, 4, ...
      leaves whenever the number of blocks is odd and greater than one. */
  function Padded(leaves: seq<string>): seq<string>
    requires leaves != []
  {
    PadBlocks(seq(|leaves|, i requires 0 <= i < |leaves| => [leaves[i]]))
  }

  /** The textbook root of a perfect tree, halving from the top. */
  function HalvingRoot(h: Hasher, xs: seq<string>): string
    requires xs != []
  {
    if |xs| == 1 then xs[0]
    else HashPair(h, HalvingRoot(h, xs[..|xs| / 2]), HalvingRoot(h, xs[|xs| / 2..]))
  }

  function Fringe(t: Tree): seq<string> {
    match t
    case Leaf(v) => [v]
    case Node(l, r) => Fringe(l) + Fringe(r)
  }

  function Fringes(ts: seq<Tree>): seq<seq<string>> {
    seq(|ts|, i requires 0 <= i < |ts| => Fringe(ts[i]))
  }

  lemma {:induction false} FringeOfGrow(ts: seq<Tree>)
    requires ts != []
    ensures Fringe(Grow(ts)) == PadBlocks(Fringes(ts))
    decreases |ts|
  {
    if |ts| > 1 {
      FringeOfGrow(NextLevel(ts));
      var even := Evened(ts);
      FringesOfEvened(ts);
      FringesOfPairs(even, |even| / 2);
    }
  }

  lemma FringesOfEvened(ts: seq<Tree>)
    ensures Fringes(Evened(ts)) == Evened(Fringes(ts))
  {
    if |ts| % 2 == 1 {
      var last := ts[|ts| - 1];
      assert Fringes(ts + [last]) == Fringes(ts) + [Fringe(last)];
    }
  }

  lemma {:induction false} FringesOfPairs(ts: seq<Tree>, k: nat)
    requires 2 * k <= |ts|
    ensures Fringes(PairUp(ts, k)) == JoinBlocks(Fringes(ts), k)
  {
    if k > 0 {
      FringesOfPairs(ts, k - 1);
    }
  }

  lemma FringeOfTree(leaves: seq<string>)
    requires leaves != []
    ensures Fringe(TreeOf(leaves)) == Padded(leaves)
  {
    FringeOfGrow(Leaves(leaves));
    assert Fringes(Leaves(leaves)) == seq(|leaves|, i requires 0 <= i < |leaves| => [leaves[i]]);
  }

  lemma {:induction false} FringeLength(t: Tree, d: nat)
    requires Perfect(t, d)
    ensures |Fringe(t)| == Pow2(d)
  {
    if d > 0 {
      FringeLength(t.left, d - 1);
      FringeLength(t.right, d - 1);
    }
  }

  lemma {:induction false} PerfectByHalving(h: Hasher, t: Tree, d: nat)
    requires Perfect(t, d)
    ensures |Fringe(t)| == Pow2(d) > 0
    ensures Digest(h, t) == HalvingRoot(h, Fringe(t))
  {
    match t
    case Leaf(_) =>
    case Node(l, r) =>
      PerfectByHalving(h, l, d - 1);
      PerfectByHalving(h, r, d - 1);
      var xs := Fringe(t);
      assert xs[..|xs| / 2] == Fringe(l) && xs[|xs| / 2..] == Fringe(r);
  }

  // ---------------------------------------------------------------- positions

  /** The leaf that position k of the padded list repeats. */
  function Source(n: nat, k: nat): (i: nat)
    requires n > 0
    ensures i < n
    ensures k < n ==> i == k
    decreases n
  {
    if n == 1 then 0
    else
      var c := 2 * Source((n + 1) / 2, k / 2) + k % 2;
      if c < n then c else n - 1
  }

  /** Directions, lowest first: true means "the right child". */
  function Index(bits: seq<bool>): nat {
    if bits == [] then 0 else (if bits[0] then 1 else 0) + 2 * Index(bits[1..])
  }

  function Bits(k: nat, d: nat): (bits: seq<bool>)
    ensures |bits| == d
  {
    if d == 0 then [] else [k % 2 == 1] + Bits(k / 2, d - 1)
  }

  lemma {:induction false} BitsAt(k: nat, d: nat, j: nat)
    requires j < d
    ensures Pow2(j) > 0 && Bits(k, d)[j] == (k / Pow2(j) % 2 == 1)
  {
    hide Pow2, Bits;
    BitsStep(k, d);
    if j == 0 {
      Pow2Step(0);
    } else {
      Pow2Step(j);
      BitsAt(k / 2, d - 1, j - 1);
      DivDiv(k, Pow2(j - 1));
    }
  }

  lemma BitsStep(k: nat, d: nat)
    requires d > 0
    ensures Bits(k, d) == [k % 2 == 1] + Bits(k / 2, d - 1)
  {}

  lemma Pow2Step(j: nat)
    ensures Pow2(j) == if j == 0 then 1 else 2 * Pow2(j - 1)
  {}

  lemma {:induction false} DivDiv(k: nat, p: nat)
    requires p > 0
    ensures k / 2 / p == k / (2 * p)
  {
    var q := k / 2 / p;
    var r := k / 2 % p;
    assert k / 2 == q * p + r;
    assert k == (2 * p) * q + (2 * r + k % 2);
    QuotientUnique(k, 2 * p, q, 2 * r + k % 2);
  }

  lemma {:induction false} QuotientUnique(k: nat, p: nat, q: nat, r: nat)
    requires r < p && k == p * q + r
    ensures k / p == q
  {
    var q', r' := k / p, k % p;
    assert p * (q' - q) == r - r' && p * (q - q') == r' - r;
    if q' > q {
      AtLeastOnce(p, q' - q);
    } else if q' < q {
      AtLeastOnce(p, q - q');
    }
  }

  lemma AtLeastOnce(p: nat, x: nat)
    requires x > 0
    ensures p * x >= p
  {}

  lemma {:induction false} IndexOfBits(k: nat, d: nat)
    requires k < Pow2(d)
    ensures Index(Bits(k, d)) == k
  {
    if d > 0 {
      IndexOfBits(k / 2, d - 1);
    }
  }

  lemma {:induction false} BitsOfIndex(bits: seq<bool>)
    ensures Bits(Index(bits), |bits|) == bits && Index(bits) < Pow2(|bits|)
  {
    if bits != [] {
      BitsOfIndex(bits[1..]);
    }
  }

  function Child(t: Tree, right: bool): Tree {
    match t
    case Leaf(_) => t
    case Node(l, r) => if right then r else l
  }

  /** The subtree reached from the root, highest direction first. */
  function Walk(t: Tree, bits: seq<bool>): Tree
    decreases |bits|
  {
    if bits == [] then t else Walk(Child(t, bits[|bits| - 1]), bits[..|bits| - 1])
  }

  lemma {:induction false} WalkLowest(t: Tree, bits: seq<bool>)
    requires bits != []
    ensures Walk(t, bits) == Child(Walk(t, bits[1..]), bits[0])
    decreases |bits|
  {
    if |bits| > 1 {
      var init := bits[..|bits| - 1];
      WalkLowest(Child(t, bits[|bits| - 1]), init);
      assert bits[1..][..|bits| - 2] == init[1..];
    }
  }

  lemma {:induction false} SourceStep(n: nat, bits: seq<bool>)
    requires n > 1 && |bits| == Depth(n)
    ensures bits != [] && |bits| == 1 + Depth((n + 1) / 2)
    ensures var c := 2 * Source((n + 1) / 2, Index(bits[1..])) + (if bits[0] then 1 else 0);
            Source(n, Index(bits)) == if c < n then c else n - 1
  {
    assert Index(bits) / 2 == Index(bits[1..]);
  }

  lemma ChildOfLevel(ts: seq<Tree>, p: nat, right: bool)
    requires 2 * p < |ts|
    ensures var c := 2 * p + (if right then 1 else 0);
            p < |NextLevel(ts)| && c < |Evened(ts)|
            && Child(NextLevel(ts)[p], right) == Evened(ts)[c] == ts[if c < |ts| then c else |ts| - 1]
  {}

  lemma WalkNowhere(t: Tree, bits: seq<bool>)
    requires |bits| == Depth(1)
    ensures Walk(t, bits) == t && Source(1, Index(bits)) == 0
  {}

  lemma {:induction false} WalkGrow(ts: seq<Tree>, bits: seq<bool>)
    requires ts != [] && |bits| == Depth(|ts|)
    ensures Walk(Grow(ts), bits) == ts[Source(|ts|, Index(bits))]
    decreases |ts|
  {
    hide *;
    GrowStep(ts);
    if |ts| == 1 {
      WalkNowhere(ts[0], bits);
    } else {
      SourceStep(|ts|, bits);
      var up := NextLevel(ts);
      WalkGrow(up, bits[1..]);
      WalkLowest(Grow(ts), bits);
      ChildOfLevel(ts, Source(|up|, Index(bits[1..])), bits[0]);
    }
  }

  lemma {:induction false} IndexSplit(bits: seq<bool>)
    requires bits != []
    ensures Index(bits) == Index(bits[..|bits| - 1]) + (if bits[|bits| - 1] then Pow2(|bits| - 1) else 0)
    decreases |bits|
  {
    if |bits| > 1 {
      IndexSplit(bits[1..]);
      assert bits[1..][..|bits| - 2] == bits[..|bits| - 1][1..];
    }
  }

  lemma FringeOfChild(t: Tree, d: nat, right: bool, k: nat)
    requires Perfect(t, d + 1) && k < Pow2(d)
    ensures Perfect(Child(t, right), d)
    ensures |Fringe(t)| == 2 * Pow2(d) && |Fringe(Child(t, right))| == Pow2(d)
    ensures Fringe(Child(t, right))[k] == Fringe(t)[k + (if right then Pow2(d) else 0)]
  {
    FringeLength(t.left, d);
    FringeLength(t.right, d);
  }

  /** Walking to a leaf reads the fringe at the index of the directions. */
  lemma {:induction false} WalkReadsFringe(t: Tree, bits: seq<bool>)
    requires Perfect(t, |bits|)
    ensures Index(bits) < |Fringe(t)|
    ensures Walk(t, bits) == Leaf(Fringe(t)[Index(bits)])
    decreases |bits|
  {
    if bits != [] {
      var last, init := bits[|bits| - 1], bits[..|bits| - 1];
      BitsOfIndex(init);
      FringeOfChild(t, |init|, last, Index(init));
      WalkReadsFringe(Child(t, last), init);
      IndexSplit(bits);
    }
  }

  /** The leaves are a prefix of the padded list, whose length is a power of two, and
      position k repeats leaf Source(n, k). */
  lemma PaddedShape(leaves: seq<string>)
    requires leaves != []
    ensures |Padded(leaves)| == Pow2(Depth(|leaves|)) > 0
    ensures leaves <= Padded(leaves)
    ensures forall k :: 0 <= k < |Padded(leaves)| ==> Padded(leaves)[k] == leaves[Source(|leaves|, k)]
  {
    hide Padded, TreeOf, Fringe, Pow2, Depth, Source, Perfect;
    var d := Depth(|leaves|);
    TreeOfPerfect(leaves);
    FringeOfTree(leaves);
    FringeLength(TreeOf(leaves), d);
    Pow2Positive(d);
    forall k | 0 <= k < Pow2(d)
      ensures Padded(leaves)[k] == leaves[Source(|leaves|, k)]
    {
      PaddedAt(leaves, k);
    }
    DepthIsLeast(|leaves|, d);
    assert forall k :: 0 <= k < |leaves| ==> Source(|leaves|, k) == k;
  }

  lemma PaddedAt(leaves: seq<string>, k: nat)
    requires leaves != [] && k < Pow2(Depth(|leaves|))
    ensures k < |Padded(leaves)| && Padded(leaves)[k] == leaves[Source(|leaves|, k)]
  {
    hide Padded, Fringe, Pow2, Depth, Source, Walk, Bits, Index, Grow;
    var d := Depth(|leaves|);
    TreeOfPerfect(leaves);
    FringeOfTree(leaves);
    IndexOfBits(k, d);
    WalkReadsFringe(TreeOf(leaves), Bits(k, d));
    WalkGrow(Leaves(leaves), Bits(k, d));
  }

  lemma TreeOfPerfect(leaves: seq<string>)
    requires leaves != []
    ensures Perfect(TreeOf(leaves), Depth(|leaves|))
  {
    GrowPerfect(Leaves(leaves), 0);
  }

  /** Loop refinement: the digest the layer loops compute is the root, halving from the
      top, of a perfect binary tree over the padded leaves. */
  lemma {:induction false} RootIsPerfectTreeRoot(h: Hasher, leaves: seq<string>)
    requires leaves != []
    ensures |Padded(leaves)| == Pow2(Depth(|leaves|)) > 0
    ensures RootOf(h, leaves) == HalvingRoot(h, Padded(leaves))
  {
    GrowPerfect(Leaves(leaves), 0);
    FringeOfTree(leaves);
    PerfectByHalving(h, TreeOf(leaves), Depth(|leaves|));
  }

  /** The padding repeats subtrees, not leaves: with PaddedShape, five leaves repeat the
      fifth three times and six leaves repeat the last pair. */
  lemma PaddingOfFiveAndSix()
    ensures Depth(5) == Depth(6) == 3 && Pow2(3) == 8
    ensures Source(5, 5) == Source(5, 6) == Source(5, 7) == 4
    ensures Source(6, 6) == 4 && Source(6, 7) == 5
  {
    assert Source(2, 1) == 1 && Source(3, 2) == 2 && Source(3, 3) == 2;
  }

  // ---------------------------------------------------------------- binding

  /** The digests of the layer d levels below the root, from left to right. */
  function Layer(h: Hasher, t: Tree, d: nat): seq<string>
    decreases t
  {
    if d == 0 || t.Leaf? then [Digest(h, t)] else Layer(h, t.left, d - 1) + Layer(h, t.right, d - 1)
  }

  lemma {:induction false} LayerLength(h: Hasher, t: Tree, n: nat, d: nat)
    requires Perfect(t, n) && d <= n
    ensures |Layer(h, t, d)| == Pow2(d)
  {
    if d > 0 {
      LayerLength(h, t.left, n - 1, d - 1);
      LayerLength(h, t.right, n - 1, d - 1);
    }
  }

  /** The lowest layer is the leaves. */
  lemma {:induction false} LowestLayer(h: Hasher, t: Tree, n: nat)
    requires Perfect(t, n)
    ensures Layer(h, t, n) == Fringe(t)
  {
    if n > 0 {
      LowestLayer(h, t.left, n - 1);
      LowestLayer(h, t.right, n - 1);
    }
  }

  /** The topmost place where a tree and an equally deep or deeper one hash different
      preimages: d is the depth of the first. */
  function LayerCollision(h: Hasher, s: Tree, t: Tree, d: nat): Pair
    decreases s
  {
    if d > 0 && s.Node? && t.Node? then
      var x := Digest(h, s.left) + Digest(h, s.right);
      var y := Digest(h, t.left) + Digest(h, t.right);
      if x != y then Pair(x, y)
      else if Fringe(s.left) != Layer(h, t.left, d - 1) then LayerCollision(h, s.left, t.left, d - 1)
      else LayerCollision(h, s.right, t.right, d - 1)
    else NO_PAIR
  }

  /** Equal digests: the leaves of the first tree are a layer of the second. */
  lemma {:induction false} LayerBinding(h: Hasher, s: Tree, t: Tree, d: nat, n: nat)
    requires Perfect(s, d) && Perfect(t, n) && d <= n && Wide(s) && Wide(t)
    requires Digest(h, s) == Digest(h, t)
    ensures Fringe(s) == Layer(h, t, d) || Collides(h, LayerCollision(h, s, t, d))
  {
    if d > 0 {
      var x := Digest(h, s.left) + Digest(h, s.right);
      var y := Digest(h, t.left) + Digest(h, t.right);
      if x == y {
        DigestWide(h, s.left);
        DigestWide(h, t.left);
        SplitEqual(Digest(h, s.left), Digest(h, s.right), Digest(h, t.left), Digest(h, t.right));
        LayerBinding(h, s.left, t.left, d - 1, n - 1);
        LayerBinding(h, s.right, t.right, d - 1, n - 1);
      }
    }
  }

  /** And conversely: a tree whose leaves are a layer of another has its digest. */
  lemma {:induction false} LayerDetermines(h: Hasher, s: Tree, t: Tree, d: nat, n: nat)
    requires Perfect(s, d) && Perfect(t, n) && d <= n && Fringe(s) == Layer(h, t, d)
    ensures Digest(h, s) == Digest(h, t)
  {
    if d > 0 {
      FringeLength(s.left, d - 1);
      LayerLength(h, t.left, n - 1, d - 1);
      var p := Pow2(d - 1);
      assert Fringe(s)[..p] == Fringe(s.left) && Fringe(s)[p..] == Fringe(s.right);
      assert Layer(h, t, d)[..p] == Layer(h, t.left, d - 1) && Layer(h, t, d)[p..] == Layer(h, t.right, d - 1);
      LayerDetermines(h, s.left, t.left, d - 1, n - 1);
      LayerDetermines(h, s.right, t.right, d - 1, n - 1);
    }
  }

  lemma {:induction false} TreeOfShape(leaves: seq<string>)
    requires leaves != [] && AllWide(leaves)
    ensures Perfect(TreeOf(leaves), Depth(|leaves|)) && Wide(TreeOf(leaves))
  {
    GrowPerfect(Leaves(leaves), 0);
    GrowWide(Leaves(leaves));
  }

  function RootCollision(h: Hasher, a: seq<string>, b: seq<string>): Pair
    requires a != [] && b != []
  {
    LayerCollision(h, TreeOf(a), TreeOf(b), Depth(|a|))
  }

  /** Binding, whatever the two lengths: lists of wide leaves, the first with the tree that
      is not deeper, have the same root exactly when the first list, padded, is the layer of
      the second's tree that many levels below the root, or a collision is exhibited. */
  lemma {:induction false} RootBinding(h: Hasher, a: seq<string>, b: seq<string>)
    requires a != [] && b != [] && Depth(|a|) <= Depth(|b|)
    ensures Padded(a) == Layer(h, TreeOf(b), Depth(|a|)) ==> RootOf(h, a) == RootOf(h, b)
    ensures AllWide(a) && AllWide(b) && RootOf(h, a) == RootOf(h, b) ==>
              Padded(a) == Layer(h, TreeOf(b), Depth(|a|)) || Collides(h, RootCollision(h, a, b))
  {
    GrowPerfect(Leaves(a), 0);
    GrowPerfect(Leaves(b), 0);
    FringeOfTree(a);
    if Padded(a) == Layer(h, TreeOf(b), Depth(|a|)) {
      LayerDetermines(h, TreeOf(a), TreeOf(b), Depth(|a|), Depth(|b|));
    }
    if AllWide(a) && AllWide(b) && RootOf(h, a) == RootOf(h, b) {
      TreeOfShape(a);
      TreeOfShape(b);
      LayerBinding(h, TreeOf(a), TreeOf(b), Depth(|a|), Depth(|b|));
    }
  }

  /** In trees of one depth that layer is the other list, padded. */
  lemma {:induction false} LowestLayerIsPadded(h: Hasher, b: seq<string>)
    requires b != []
    ensures Layer(h, TreeOf(b), Depth(|b|)) == Padded(b)
  {
    GrowPerfect(Leaves(b), 0);
    FringeOfTree(b);
    LowestLayer(h, TreeOf(b), Depth(|b|));
  }

  /** For lists of equal length the padding is no excuse: same root, same leaves. */
  lemma EqualLengthBinding(h: Hasher, a: seq<string>, b: seq<string>)
    requires |a| == |b| > 0 && AllWide(a) && AllWide(b) && RootOf(h, a) == RootOf(h, b)
    ensures a == b || Collides(h, RootCollision(h, a, b))
  {
    RootBinding(h, a, b);
    LowestLayerIsPadded(h, b);
    PaddedShape(a);
    PaddedShape(b);
    if Padded(a) == Padded(b) {
      assert a == Padded(a)[..|a|] == Padded(b)[..|b|] == b;
    }
  }

  /** So across depths binding fails for every hash function: any layer of the tree, taken
      for a list of leaves, has the same root. */
  lemma {:induction false} LayerHasSameRoot(h: Hasher, b: seq<string>, d: nat)
    requires b != [] && d <= Depth(|b|)
    ensures Layer(h, TreeOf(b), d) != [] && RootOf(h, Layer(h, TreeOf(b), d)) == RootOf(h, b)
  {
    hide Layer, Padded, RootOf, TreeOf;
    var a := Layer(h, TreeOf(b), d);
    TreeOfPerfect(b);
    LayerLength(h, TreeOf(b), Depth(|b|), d);
    Pow2Positive(d);
    DepthOfPow2(d);
    PaddedShape(a);
    RootBinding(h, a, b);
  }

  lemma {:induction false} DepthOfPow2(d: nat)
    ensures Depth(Pow2(d)) == d
  {
    if d > 0 {
      Pow2Positive(d - 1);
      DepthOfPow2(d - 1);
    }
  }

  /** And among trees of one depth it fails through the repetition: repeating the last leaf
      of a list of odd length above one never changes the root. */
  lemma RepeatedLastLeaf(h: Hasher, leaves: seq<string>)
    requires |leaves| % 2 == 1 && |leaves| > 1
    ensures RootOf(h, leaves + [leaves[|leaves| - 1]]) == RootOf(h, leaves)
  {
    var last := leaves[|leaves| - 1];
    assert Leaves(leaves + [last]) == Leaves(leaves) + [Leaf(last)];
    GrowRepeated(Leaves(leaves));
  }

  lemma GrowRepeated(ts: seq<Tree>)
    requires |ts| % 2 == 1 && |ts| > 1
    ensures Grow(ts + [ts[|ts| - 1]]) == Grow(ts)
  {
    assert Evened(ts + [ts[|ts| - 1]]) == Evened(ts);
  }
}
