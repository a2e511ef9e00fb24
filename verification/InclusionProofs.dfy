/**
 The loops of internal/merkle/tree.go, proved against the tree of module Merkle, and
 what an inclusion proof establishes.
 */
module InclusionProofs {
  import opened Hashing
  import opened Merkle

  datatype ProofNode = ProofNode(hash: string, isLeft: bool)

  function Join(h: Hasher, running: string, node: ProofNode): string {
    if node.isLeft then HashPair(h, node.hash, running) else HashPair(h, running, node.hash)
  }

  /** The running hash after a leaf has been joined with every node of a proof. */
  function Climb(h: Hasher, leaf: string, proof: seq<ProofNode>): string
    decreases |proof|
  {
    if proof == [] then leaf
    else Join(h, Climb(h, leaf, proof[..|proof| - 1]), proof[|proof| - 1])
  }

  /** The sibling digests met when walking down, listed from the leaf up. */
  function Siblings(h: Hasher, t: Tree, bits: seq<bool>): (proof: seq<ProofNode>)
    ensures |proof| == |bits|
    decreases |bits|
  {
    if bits == [] then []
    else
      var last := bits[|bits| - 1];
      Siblings(h, Child(t, last), bits[..|bits| - 1]) + [ProofNode(Digest(h, Child(t, !last)), last)]
  }

  function Flags(proof: seq<ProofNode>): seq<bool> {
    seq(|proof|, i requires 0 <= i < |proof| => proof[i].isLeft)
  }

  /** The honest proof for the leaf at an index. */
  function ProofOf(h: Hasher, leaves: seq<string>, index: int): seq<ProofNode> {
    if 0 <= index < |leaves| then Siblings(h, TreeOf(leaves), Bits(index, Depth(|leaves|))) else []
  }

  // ---------------------------------------------------------------- the loops

  ghost predicate DigestsOf(h: Hasher, layer: seq<string>, ts: seq<Tree>) {
    |layer| == |ts| && forall i :: 0 <= i < |ts| ==> layer[i] == Digest(h, ts[i])
  }

  /** One pass over an evened layer, the body shared by the loops of Root and Proof. */
  method HashLayer(h: Hasher, layer: seq<string>, ghost ts: seq<Tree>) returns (next: seq<string>)
    requires DigestsOf(h, layer, Evened(ts))
    ensures DigestsOf(h, next, NextLevel(ts))
  {
    ghost var even := Evened(ts);
    next := [];
    var i := 0;
    while i < |layer|
      invariant 0 <= i == 2 * |next| <= |layer|
      invariant DigestsOf(h, next, PairUp(even, |next|))
    {
      next := next + [HashPair(h, layer[i], layer[i + 1])];
      i := i + 2;
    }
  }

  lemma EvenedDigests(h: Hasher, layer: seq<string>, ts: seq<Tree>)
    requires ts != [] && DigestsOf(h, layer, ts)
    ensures |layer| == |ts| && |Evened(ts)| == |ts| + |ts| % 2
    ensures DigestsOf(h, if |layer| % 2 == 1 then layer + [layer[|layer| - 1]] else layer, Evened(ts))
  {}

  lemma Topmost(h: Hasher, layer: seq<string>, ts: seq<Tree>)
    requires ts != [] && DigestsOf(h, layer, ts)
    ensures |layer| == |ts| && (|ts| == 1 ==> layer[0] == Digest(h, Grow(ts)))
  {}

  method Root(h: Hasher, leaves: seq<string>) returns (root: string)
    ensures root == RootOf(h, leaves)
    ensures leaves == [] ==> root == ""
    ensures |leaves| == 1 ==> root == leaves[0]
  {
    if |leaves| == 0 {
      return "";
    }
    var layer := leaves;
    ghost var ts := Leaves(leaves);
    while |layer| > 1
      invariant ts != [] && DigestsOf(h, layer, ts)
      invariant Grow(ts) == TreeOf(leaves)
      decreases |layer|
    {
      if |layer| % 2 == 1 {
        layer := layer + [layer[|layer| - 1]];
      }
      layer := HashLayer(h, layer, ts);
      ts := NextLevel(ts);
    }
    return layer[0];
  }

  lemma {:induction false} SiblingsLowest(h: Hasher, t: Tree, bits: seq<bool>)
    requires bits != []
    ensures Siblings(h, t, bits)
         == [ProofNode(Digest(h, Child(Walk(t, bits[1..]), !bits[0])), bits[0])] + Siblings(h, t, bits[1..])
    decreases |bits|
  {
    if |bits| > 1 {
      var init := bits[..|bits| - 1];
      SiblingsLowest(h, Child(t, bits[|bits| - 1]), init);
      assert bits[1..][..|bits| - 2] == init[1..];
    }
  }

  lemma {:induction false} WalkToSource(ts: seq<Tree>, k: nat)
    requires k < |ts|
    ensures Walk(Grow(ts), Bits(k, Depth(|ts|))) == ts[k]
  {
    DepthIsLeast(|ts|, Depth(|ts|));
    IndexOfBits(k, Depth(|ts|));
    WalkGrow(ts, Bits(k, Depth(|ts|)));
  }

  function Sibling(idx: nat): nat {
    if idx % 2 == 0 then idx + 1 else idx - 1
  }

  /** The siblings met layer by layer, in the order the loop of Proof appends them. */
  ghost function LayerPath(h: Hasher, ts: seq<Tree>, idx: nat): seq<ProofNode>
    requires idx < |ts|
    decreases |ts|
  {
    if |ts| == 1 then []
    else
      var sibling := Evened(ts)[Sibling(idx)];
      [ProofNode(Digest(h, sibling), idx % 2 == 1)] + LayerPath(h, NextLevel(ts), idx / 2)
  }

  lemma LayerPathStep(h: Hasher, ts: seq<Tree>, idx: nat)
    requires idx < |ts|
    ensures |ts| == 1 ==> LayerPath(h, ts, idx) == []
    ensures |ts| > 1 ==>
      var sibling := Sibling(idx);
      && sibling < |Evened(ts)| && idx / 2 < |NextLevel(ts)|
      && LayerPath(h, ts, idx)
         == [ProofNode(Digest(h, Evened(ts)[sibling]), idx % 2 == 1)] + LayerPath(h, NextLevel(ts), idx / 2)
  {}

  lemma {:induction false} LayerPathIsSiblings(h: Hasher, ts: seq<Tree>, idx: nat)
    requires idx < |ts|
    ensures LayerPath(h, ts, idx) == Siblings(h, Grow(ts), Bits(idx, Depth(|ts|)))
    decreases |ts|
  {
    hide LayerPath, Grow, PairUp;
    LayerPathStep(h, ts, idx);
    GrowStep(ts);
    if |ts| > 1 {
      var up, right := NextLevel(ts), idx % 2 == 1;
      var rest := Bits(idx / 2, Depth(|up|));
      LayerPathIsSiblings(h, up, idx / 2);
      SiblingsOneUp(h, ts, idx / 2, right, rest);
      assert Bits(idx, Depth(|ts|)) == [right] + rest;
    }
  }

  lemma SiblingsOneUp(h: Hasher, ts: seq<Tree>, p: nat, right: bool, rest: seq<bool>)
    requires |ts| > 1 && 2 * p < |ts| && rest == Bits(p, Depth((|ts| + 1) / 2))
    ensures 2 * p + 1 < |Evened(ts)|
    ensures Siblings(h, Grow(ts), [right] + rest)
         == [ProofNode(Digest(h, Evened(ts)[if right then 2 * p else 2 * p + 1]), right)]
            + Siblings(h, Grow(NextLevel(ts)), rest)
  {
    var bits := [right] + rest;
    assert bits[1..] == rest;
    SiblingsLowest(h, Grow(ts), bits);
    WalkToSource(NextLevel(ts), p);
    ChildOfLevel(ts, p, !right);
  }

  method SiblingNode(h: Hasher, layer: seq<string>, idx: nat, ghost ts: seq<Tree>) returns (node: ProofNode)
    requires |layer| % 2 == 0 && idx < |layer| && DigestsOf(h, layer, ts)
    ensures Sibling(idx) < |ts| && node == ProofNode(Digest(h, ts[Sibling(idx)]), idx % 2 == 1)
  {
    if idx % 2 == 0 {
      node := ProofNode(layer[idx + 1], false);
    } else {
      node := ProofNode(layer[idx - 1], true);
    }
  }

  lemma ProofStart(h: Hasher, leaves: seq<string>, index: int)
    ensures !(0 <= index < |leaves|) ==> ProofOf(h, leaves, index) == []
    ensures 0 <= index < |leaves| ==>
      var ts := Leaves(leaves);
      && |ts| == |leaves| && DigestsOf(h, leaves, ts)
      && RootOf(h, leaves) == Digest(h, Grow(ts))
      && ProofOf(h, leaves, index) == LayerPath(h, ts, index)
  {
    if 0 <= index < |leaves| {
      LayerPathIsSiblings(h, Leaves(leaves), index);
    }
  }

  /** Proof returns the honest proof and the same root as Root; ("", none) out of range. */
  method Proof(h: Hasher, leaves: seq<string>, index: int) returns (proof: seq<ProofNode>, root: string)
    ensures 0 <= index < |leaves| ==> root == RootOf(h, leaves)
    ensures !(0 <= index < |leaves|) ==> root == "" && proof == []
    ensures proof == ProofOf(h, leaves, index)
  {
    hide *;
    ProofStart(h, leaves, index);
    if index < 0 || index >= |leaves| {
      return [], "";
    }
    var layer := leaves;
    ghost var ts := Leaves(leaves);
    ghost var tree, path := Grow(ts), LayerPath(h, ts, index);
    proof := [];
    var idx := index;
    Topmost(h, layer, ts);
    while |layer| > 1
      invariant |layer| == |ts| && DigestsOf(h, layer, ts) && 0 <= idx < |ts|
      invariant Grow(ts) == tree
      invariant proof + LayerPath(h, ts, idx) == path
      decreases |layer|
    {
      LayerPathStep(h, ts, idx);
      GrowStep(ts);
      EvenedDigests(h, layer, ts);
      if |layer| % 2 == 1 {
        layer := layer + [layer[|layer| - 1]];
      }
      var node := SiblingNode(h, layer, idx, Evened(ts));
      proof := proof + [node];
      layer := HashLayer(h, layer, ts);
      ts := NextLevel(ts);
      Topmost(h, layer, ts);
      idx := idx / 2;
    }
    LayerPathStep(h, ts, idx);
    Topmost(h, layer, ts);
    return proof, layer[0];
  }

  method VerifyProof(h: Hasher, leaf: string, proof: seq<ProofNode>, root: string) returns (ok: bool)
    ensures ok <==> Climb(h, leaf, proof) == root
  {
    var running := leaf;
    for i := 0 to |proof|
      invariant running == Climb(h, leaf, proof[..i])
    {
      var node := proof[i];
      assert proof[..i + 1][..i] == proof[..i];
      if node.isLeft {
        running := HashPair(h, node.hash, running);
      } else {
        running := HashPair(h, running, node.hash);
      }
    }
    assert proof[..|proof|] == proof;
    return running == root;
  }

  // ---------------------------------------------------------------- completeness

  lemma {:induction false} ClimbHonest(h: Hasher, t: Tree, bits: seq<bool>)
    requires Perfect(t, |bits|)
    ensures Climb(h, Digest(h, Walk(t, bits)), Siblings(h, t, bits)) == Digest(h, t)
    decreases |bits|
  {
    if bits != [] {
      var last, init := bits[|bits| - 1], bits[..|bits| - 1];
      ClimbHonest(h, Child(t, last), init);
      var s := Siblings(h, t, bits);
      assert s[..|s| - 1] == Siblings(h, Child(t, last), init);
    }
  }

  lemma {:induction false} SiblingFlags(h: Hasher, t: Tree, bits: seq<bool>)
    ensures Flags(Siblings(h, t, bits)) == bits
    decreases |bits|
  {
    if bits != [] {
      SiblingFlags(h, Child(t, bits[|bits| - 1]), bits[..|bits| - 1]);
    }
  }

  /** Completeness: the honest proof is accepted against the root, is as long as the
      least d with 2^d >= n, and its flags are the binary digits of the index. */
  lemma ProofComplete(h: Hasher, leaves: seq<string>, index: nat)
    requires index < |leaves|
    ensures Climb(h, leaves[index], ProofOf(h, leaves, index)) == RootOf(h, leaves)
    ensures |ProofOf(h, leaves, index)| == Depth(|leaves|)
    ensures Index(Flags(ProofOf(h, leaves, index))) == index
    ensures forall j :: 0 <= j < Depth(|leaves|) ==>
              Pow2(j) > 0 && ProofOf(h, leaves, index)[j].isLeft == (index / Pow2(j) % 2 == 1)
  {
    var d := Depth(|leaves|);
    var bits := Bits(index, d);
    DepthIsLeast(|leaves|, d);
    IndexOfBits(index, d);
    GrowPerfect(Leaves(leaves), 0);
    WalkGrow(Leaves(leaves), bits);
    ClimbHonest(h, TreeOf(leaves), bits);
    SiblingFlags(h, TreeOf(leaves), bits);
    var proof := ProofOf(h, leaves, index);
    assert forall j :: 0 <= j < d ==> Flags(proof)[j] == proof[j].isLeft;
    forall j | 0 <= j < d
      ensures Pow2(j) > 0 && proof[j].isLeft == (index / Pow2(j) % 2 == 1)
    {
      BitsAt(index, d, j);
    }
  }

  // ---------------------------------------------------------------- soundness

  ghost predicate WideProof(proof: seq<ProofNode>) {
    forall i :: 0 <= i < |proof| ==> |proof[i].hash| == DIGEST_WIDTH
  }

  lemma {:induction false} ClimbWide(h: Hasher, leaf: string, proof: seq<ProofNode>)
    requires |leaf| == DIGEST_WIDTH
    ensures |Climb(h, leaf, proof)| == DIGEST_WIDTH
  {}

  /** What the last step of a nonempty climb hashes. */
  function TopPreimage(h: Hasher, leaf: string, proof: seq<ProofNode>): string
    requires proof != []
  {
    var running, top := Climb(h, leaf, proof[..|proof| - 1]), proof[|proof| - 1];
    if top.isLeft then top.hash + running else running + top.hash
  }

  /** The topmost step at which a climbed proof hashes something the tree does not. */
  function ProofCollision(h: Hasher, t: Tree, leaf: string, proof: seq<ProofNode>): Pair
    decreases |proof|
  {
    if t.Leaf? || proof == [] then NO_PAIR
    else
      var x, y := Digest(h, t.left) + Digest(h, t.right), TopPreimage(h, leaf, proof);
      if x != y then Pair(x, y) else ProofCollision(h, Child(t, proof[|proof| - 1].isLeft), leaf, proof[..|proof| - 1])
  }

  lemma ClimbStep(h: Hasher, leaf: string, proof: seq<ProofNode>)
    requires proof != []
    ensures Climb(h, leaf, proof) == Sum(h, TopPreimage(h, leaf, proof))
  {}

  /** One level down an accepted proof: unless the two preimages differ, its top node is the
      sibling digest and the rest of it climbs to the other child. */
  lemma ClimbDown(h: Hasher, t: Tree, leaf: string, proof: seq<ProofNode>)
    requires t.Node? && Wide(t) && proof != [] && |leaf| == DIGEST_WIDTH && Climb(h, leaf, proof) == Digest(h, t)
    ensures var x, y := Digest(h, t.left) + Digest(h, t.right), TopPreimage(h, leaf, proof);
            var top := proof[|proof| - 1];
            && (x != y ==> Collides(h, Pair(x, y)))
            && (x == y ==>
                  && Climb(h, leaf, proof[..|proof| - 1]) == Digest(h, Child(t, top.isLeft))
                  && top.hash == Digest(h, Child(t, !top.isLeft)))
  {
    hide Climb;
    var running, top := Climb(h, leaf, proof[..|proof| - 1]), proof[|proof| - 1];
    ClimbStep(h, leaf, proof);
    ClimbWide(h, leaf, proof[..|proof| - 1]);
    DigestWide(h, t.left);
    DigestWide(h, t.right);
    if Digest(h, t.left) + Digest(h, t.right) == TopPreimage(h, leaf, proof) {
      if top.isLeft {
        SplitEqual(Digest(h, t.left), Digest(h, t.right), top.hash, running);
      } else {
        SplitEqual(Digest(h, t.left), Digest(h, t.right), running, top.hash);
      }
    }
  }

  lemma SiblingsStep(h: Hasher, t: Tree, proof: seq<ProofNode>)
    requires proof != []
    ensures var init, top := proof[..|proof| - 1], proof[|proof| - 1];
            && Siblings(h, t, Flags(proof)) == Siblings(h, Child(t, top.isLeft), Flags(init))
                                                 + [ProofNode(Digest(h, Child(t, !top.isLeft)), top.isLeft)]
            && Walk(t, Flags(proof)) == Walk(Child(t, top.isLeft), Flags(init))
  {
    assert Flags(proof)[..|proof| - 1] == Flags(proof[..|proof| - 1]);
  }

  lemma NothingClimbed(h: Hasher, t: Tree, leaf: string)
    ensures Climb(h, leaf, []) == leaf && Walk(t, Flags([])) == t && Siblings(h, t, Flags([])) == []
  {}

  lemma {:induction false} ClimbSound(h: Hasher, t: Tree, leaf: string, proof: seq<ProofNode>)
    requires Perfect(t, |proof|) && Wide(t)
    requires |leaf| == DIGEST_WIDTH && Climb(h, leaf, proof) == Digest(h, t)
    ensures || (Walk(t, Flags(proof)) == Leaf(leaf) && Siblings(h, t, Flags(proof)) == proof)
            || Collides(h, ProofCollision(h, t, leaf, proof))
    decreases |proof|
  {
    hide Climb, Siblings, Walk, Flags, TopPreimage;
    if proof == [] {
      NothingClimbed(h, t, leaf);
    } else {
      var init, top := proof[..|proof| - 1], proof[|proof| - 1];
      ClimbDown(h, t, leaf, proof);
      if Digest(h, t.left) + Digest(h, t.right) == TopPreimage(h, leaf, proof) {
        ClimbSound(h, Child(t, top.isLeft), leaf, init);
        SiblingsStep(h, t, proof);
        assert proof == init + [top];
      }
    }
  }

  /** Soundness: a wide leaf with any proof of exactly the tree's depth is accepted only if
      the leaf is the one the direction bits lead to, and the proof is the honest one for
      that position, or a collision is exhibited. The widths of the proof's nodes need no
      check: they are forced. */
  lemma {:induction false} InclusionSound(h: Hasher, leaves: seq<string>, leaf: string, proof: seq<ProofNode>)
    requires leaves != [] && AllWide(leaves)
    requires |leaf| == DIGEST_WIDTH && |proof| == Depth(|leaves|)
    requires Climb(h, leaf, proof) == RootOf(h, leaves)
    ensures || (leaf == leaves[Source(|leaves|, Index(Flags(proof)))]
                && proof == Siblings(h, TreeOf(leaves), Flags(proof)))
            || Collides(h, ProofCollision(h, TreeOf(leaves), leaf, proof))
  {
    TreeOfShape(leaves);
    ClimbSound(h, TreeOf(leaves), leaf, proof);
    WalkGrow(Leaves(leaves), Flags(proof));
  }

  /** And every such position is accepted, padding included: with InclusionSound, this
      says exactly which claims VerifyProof accepts short of a collision. */
  lemma {:induction false} InclusionAccepts(h: Hasher, leaves: seq<string>, bits: seq<bool>)
    requires leaves != [] && |bits| == Depth(|leaves|)
    ensures Climb(h, leaves[Source(|leaves|, Index(bits))], Siblings(h, TreeOf(leaves), bits)) == RootOf(h, leaves)
  {
    GrowPerfect(Leaves(leaves), 0);
    WalkGrow(Leaves(leaves), bits);
    ClimbHonest(h, TreeOf(leaves), bits);
  }

  /** VerifyProof checks neither the leaf's width nor the proof's length, and both matter.
      An empty leaf with the joined children as its sibling is accepted with a proof of the
      right length, and is a leaf only if one of the two was empty. An inner digest with a
      proof one step short is accepted too. */
  lemma WidthAndLengthMatter(h: Hasher, a: string, b: string, c: string, d: string)
    ensures Depth(2) == 1 && Depth(4) == 2
    ensures Climb(h, "", [ProofNode(a + b, true)]) == RootOf(h, [a, b])
    ensures "" in [a, b] <==> a == "" || b == ""
    ensures Climb(h, HashPair(h, a, b), [ProofNode(HashPair(h, c, d), false)]) == RootOf(h, [a, b, c, d])
  {
    RootOfTwoAndFour(h, a, b, c, d);
    assert a + b + "" == a + b;
    ClimbOne(h, "", ProofNode(a + b, true));
    ClimbOne(h, HashPair(h, a, b), ProofNode(HashPair(h, c, d), false));
  }

  function Repeated(c: char): (s: string)
    ensures |s| == DIGEST_WIDTH && s[0] == c
  {
    seq(DIGEST_WIDTH, _ => c)
  }

  /** Four wide leaves chosen for a hash function so that their first inner digest is none
      of them, unless that function collides. */
  function FoolableLeaves(h: Hasher): (leaves: seq<string>)
    ensures |leaves| == 4 && AllWide(leaves)
  {
    var u, v := Repeated('0'), Repeated('1');
    if HashPair(h, u, u) != u then [u, u, u, u]
    else if HashPair(h, v, v) != v then [v, v, v, v]
    else [u, v, u, v]
  }

  function FoolCollision(h: Hasher): Pair {
    var u, v := Repeated('0'), Repeated('1');
    if HashPair(h, u, v) == u then Pair(u + v, u + u) else Pair(u + v, v + v)
  }

  /** Under every hash function some wide list has a wide string that is none of its leaves
      accepted with a proof one step short, or a collision is exhibited. Without that way
      out it would be false: under a constant function an inner digest can be a leaf. */
  lemma ShortProofFools(h: Hasher)
    ensures var l := FoolableLeaves(h);
            var inner := HashPair(h, l[0], l[1]);
            && |inner| == DIGEST_WIDTH
            && Climb(h, inner, [ProofNode(HashPair(h, l[2], l[3]), false)]) == RootOf(h, l)
            && (inner !in l || Collides(h, FoolCollision(h)))
  {
    hide Climb, RootOf;
    var l := FoolableLeaves(h);
    assert l == [l[0], l[1], l[2], l[3]];
    WidthAndLengthMatter(h, l[0], l[1], l[2], l[3]);
    var u, v := Repeated('0'), Repeated('1');
    assert (u + v)[0] == '0' && (v + v)[0] == '1' && (u + v)[DIGEST_WIDTH] == '1' && (u + u)[DIGEST_WIDTH] == '0';
  }

  lemma RootOfTwoAndFour(h: Hasher, a: string, b: string, c: string, d: string)
    ensures RootOf(h, [a, b]) == HashPair(h, a, b)
    ensures RootOf(h, [a, b, c, d]) == HashPair(h, HashPair(h, a, b), HashPair(h, c, d))
  {
    var la, lb, lc, ld := Leaf(a), Leaf(b), Leaf(c), Leaf(d);
    assert Leaves([a, b]) == [la, lb] && Leaves([a, b, c, d]) == [la, lb, lc, ld];
    GrowTwo(la, lb);
    GrowTwo(Node(la, lb), Node(lc, ld));
    GrowFour(la, lb, lc, ld);
    hide Grow;
    assert TreeOf([a, b]) == Node(la, lb);
    assert TreeOf([a, b, c, d]) == Node(Node(la, lb), Node(lc, ld));
    assert Digest(h, Node(la, lb)) == HashPair(h, a, b) && Digest(h, Node(lc, ld)) == HashPair(h, c, d);
  }

  lemma GrowTwo(x: Tree, y: Tree)
    ensures Grow([x, y]) == Node(x, y)
  {
    assert NextLevel([x, y]) == [Node(x, y)];
  }

  lemma GrowFour(x: Tree, y: Tree, z: Tree, w: Tree)
    ensures Grow([x, y, z, w]) == Grow([Node(x, y), Node(z, w)])
  {
    GrowStep([x, y, z, w]);
    assert NextLevel([x, y, z, w]) == [Node(x, y), Node(z, w)];
  }

  lemma ClimbOne(h: Hasher, leaf: string, node: ProofNode)
    ensures Climb(h, leaf, [node]) == Join(h, leaf, node)
  {
    assert [node][..0] == [];
  }
}
