/**
 Inclusion proofs checked by someone who holds the entry itself. The hash of an entry and
 the hash of a pair have preimages of different lengths, so such a verifier needs no check
 of the proof's length: a proof too short or too long exhibits a collision.
 */
module EntryProofs {
  import opened Hashing
  import opened Merkle
  import opened InclusionProofs
  import opened Decimal
  import opened Models
  import opened Chain
  import opened Seals

  /** Where a proof read from the root down meets the end of the tree, or runs out: the
      subtree reached and the part of the proof left over. */
  function Meeting(t: Tree, proof: seq<ProofNode>): (Tree, seq<ProofNode>)
    decreases |proof|
  {
    if t.Leaf? || proof == [] then (t, proof)
    else Meeting(Child(t, proof[|proof| - 1].isLeft), proof[..|proof| - 1])
  }

  /** An accepted proof of any length: what is left of it climbs to the subtree it meets, or
      a collision is exhibited on the way down. */
  lemma {:induction false} MeetingClimbs(h: Hasher, t: Tree, d: nat, leaf: string, proof: seq<ProofNode>)
    requires Perfect(t, d) && Wide(t) && |leaf| == DIGEST_WIDTH && Climb(h, leaf, proof) == Digest(h, t)
    ensures || Climb(h, leaf, Meeting(t, proof).1) == Digest(h, Meeting(t, proof).0)
            || Collides(h, ProofCollision(h, t, leaf, proof))
    decreases |proof|
  {
    hide Climb, TopPreimage;
    if t.Node? && proof != [] {
      ClimbDown(h, t, leaf, proof);
      if Digest(h, t.left) + Digest(h, t.right) == TopPreimage(h, leaf, proof) {
        MeetingClimbs(h, Child(t, proof[|proof| - 1].isLeft), d - 1, leaf, proof[..|proof| - 1]);
      }
    }
  }

  /** A proof shorter than the tree is deep stops at an inner node. */
  lemma {:induction false} ShortMeets(t: Tree, d: nat, proof: seq<ProofNode>)
    requires Perfect(t, d) && Wide(t) && |proof| < d
    ensures Meeting(t, proof).0.Node? && Wide(Meeting(t, proof).0) && Meeting(t, proof).1 == []
    decreases |proof|
  {
    if proof != [] {
      ShortMeets(Child(t, proof[|proof| - 1].isLeft), d - 1, proof[..|proof| - 1]);
    }
  }

  /** One at least as long ends at the leaf its topmost flags lead to, and leaves the rest. */
  lemma {:induction false} LongMeets(t: Tree, d: nat, proof: seq<ProofNode>)
    requires Perfect(t, d) && d <= |proof|
    ensures Meeting(t, proof) == (Walk(t, Flags(proof[|proof| - d..])), proof[..|proof| - d])
    decreases d
  {
    var tops := proof[|proof| - d..];
    if d == 0 {
      assert Flags(tops) == [] && proof[..|proof|] == proof;
    } else {
      var init := proof[..|proof| - 1];
      LongMeets(Child(t, proof[|proof| - 1].isLeft), d - 1, init);
      assert init[|init| - (d - 1)..] == tops[..d - 1] && init[..|init| - (d - 1)] == proof[..|proof| - d];
      assert Flags(tops)[..d - 1] == Flags(tops[..d - 1]);
    }
  }

  lemma PreimageIsLong(h: Hasher, e: LogEntry)
    requires |e.prevHash| == DIGEST_WIDTH
    ensures |PreimageOf(h, e)| > 2 * DIGEST_WIDTH
  {
    PrintParses(e.sequence);
  }

  ghost predicate SameContent(e: LogEntry, f: LogEntry) {
    e.sequence == f.sequence && e.prevHash == f.prevHash && e.message == f.message
  }

  /** The position in a list of n leaves that the topmost flags of a proof lead to. */
  function Claimed(n: nat, proof: seq<ProofNode>): (i: nat)
    requires n > 0 && Depth(n) <= |proof|
    ensures i < n
  {
    Source(n, Index(Flags(proof[|proof| - Depth(n)..])))
  }

  /** The collision a proof for a foreign entry exhibits. */
  ghost function ForeignCollision(h: Hasher, window: seq<LogEntry>, e: LogEntry, proof: seq<ProofNode>): Pair
    requires window != []
  {
    var t, leaf := TreeOf(Hashes(window)), ComputeHash(h, e);
    var d, (sub, rest) := Depth(|window|), Meeting(t, proof);
    if Collides(h, ProofCollision(h, t, leaf, proof)) then ProofCollision(h, t, leaf, proof)
    else if |proof| < d then
      Pair(PreimageOf(h, e), if sub.Node? then Digest(h, sub.left) + Digest(h, sub.right) else "")
    else if rest != [] then Pair(PreimageOf(h, window[Claimed(|window|, proof)]), TopPreimage(h, leaf, rest))
    else EntryCollision(h, e, window[Claimed(|window|, proof)])
  }

  lemma TooShort(h: Hasher, window: seq<LogEntry>, e: LogEntry, proof: seq<ProofNode>)
    requires window != [] && AllWide(Hashes(window)) && |e.prevHash| == DIGEST_WIDTH && |proof| < Depth(|window|)
    requires Climb(h, ComputeHash(h, e), proof) == RootOf(h, Hashes(window))
    ensures Collides(h, ForeignCollision(h, window, e, proof))
  {
    hide Climb, Meeting, ProofCollision, PreimageOf;
    var t, leaf := TreeOf(Hashes(window)), ComputeHash(h, e);
    TreeOfShape(Hashes(window));
    MeetingClimbs(h, t, Depth(|window|), leaf, proof);
    ShortMeets(t, Depth(|window|), proof);
    var sub := Meeting(t, proof).0;
    NothingClimbed(h, t, leaf);
    DigestWide(h, sub.left);
    DigestWide(h, sub.right);
    PreimageIsLong(h, e);
    HashesItsPreimage(h, e);
  }

  lemma HashesItsPreimage(h: Hasher, e: LogEntry)
    ensures ComputeHash(h, e) == Sum(h, PreimageOf(h, e))
  {}

  lemma HashesIndexed(window: seq<LogEntry>)
    ensures |Hashes(window)| == |window| && forall i :: 0 <= i < |window| ==> Hashes(window)[i] == window[i].entryHash
  {}

  lemma ClaimedLeaf(h: Hasher, window: seq<LogEntry>, proof: seq<ProofNode>)
    requires window != [] && Depth(|window|) <= |proof|
    ensures |Hashes(window)| == |window|
    ensures Digest(h, Walk(TreeOf(Hashes(window)), Flags(proof[|proof| - Depth(|window|)..])))
         == window[Claimed(|window|, proof)].entryHash
  {
    hide Walk, Source, Index, Grow;
    WalkGrow(Leaves(Hashes(window)), Flags(proof[|proof| - Depth(|window|)..]));
  }

  lemma TooLong(h: Hasher, window: seq<LogEntry>, e: LogEntry, proof: seq<ProofNode>)
    requires window != [] && AllWide(Hashes(window)) && WideProof(proof) && |proof| > Depth(|window|)
    requires forall f :: f in window ==> f.entryHash == ComputeHash(h, f) && |f.prevHash| == DIGEST_WIDTH
    requires Climb(h, ComputeHash(h, e), proof) == RootOf(h, Hashes(window))
    ensures Collides(h, ForeignCollision(h, window, e, proof))
  {
    hide Climb, Meeting, ProofCollision, PreimageOf, ComputeHash, TreeOf, RootOf, Hashes, Walk, Flags,
         Source, Index, Digest;
    HashesIndexed(window);
    var t, leaf, d := TreeOf(Hashes(window)), ComputeHash(h, e), Depth(|window|);
    RootIsDigest(h, Hashes(window));
    HashesItsPreimage(h, e);
    TreeOfShape(Hashes(window));
    MeetingClimbs(h, t, d, leaf, proof);
    LongMeets(t, d, proof);
    ClaimedLeaf(h, window, proof);
    var rest, f := proof[..|proof| - d], window[Claimed(|window|, proof)];
    assert rest[|rest| - 1] == proof[|rest| - 1];
    ClimbStep(h, leaf, rest);
    ClimbWide(h, leaf, rest[..|rest| - 1]);
    PreimageIsLong(h, f);
    HashesItsPreimage(h, f);
  }

  lemma RootIsDigest(h: Hasher, leaves: seq<string>)
    requires leaves != []
    ensures RootOf(h, leaves) == Digest(h, TreeOf(leaves))
  {}

  lemma JustRight(h: Hasher, window: seq<LogEntry>, e: LogEntry, proof: seq<ProofNode>)
    requires window != [] && AllWide(Hashes(window)) && |proof| == Depth(|window|)
    requires forall f :: f in window ==> f.entryHash == ComputeHash(h, f) && |f.message.signature| == SIGNATURE_SIZE
    requires |e.message.signature| == SIGNATURE_SIZE
    requires Climb(h, ComputeHash(h, e), proof) == RootOf(h, Hashes(window))
    ensures SameContent(e, window[Claimed(|window|, proof)]) || Collides(h, ForeignCollision(h, window, e, proof))
  {
    hide Climb, ProofCollision, ComputeHash, EntryCollision, Meeting, PreimageOf, Siblings, TreeOf, Index,
         Source, Flags, Walk, RootOf, Hashes;
    HashesIndexed(window);
    var t, leaf, d := TreeOf(Hashes(window)), ComputeHash(h, e), Depth(|window|);
    HashesItsPreimage(h, e);
    assert proof[|proof| - d..] == proof;
    InclusionSound(h, Hashes(window), leaf, proof);
    TreeOfShape(Hashes(window));
    LongMeets(t, d, proof);
    var f := window[Claimed(|window|, proof)];
    if leaf == f.entryHash {
      EntryBinding(h, e, f);
    }
  }

  lemma WindowFacts(cr: Crypto, es: seq<LogEntry>, from: nat, to: nat, window: seq<LogEntry>)
    requires Chained(cr, es) && from <= to < |es| && window == es[from..to + 1]
    ensures AllWide(Hashes(window))
    ensures forall f :: f in window ==>
              && f.entryHash == ComputeHash(cr.sha, f)
              && |f.prevHash| == DIGEST_WIDTH && |f.message.signature| == SIGNATURE_SIZE
    ensures forall j :: 0 <= j < |window| ==> window[j].sequence == from + j
  {
    hide ComputeHash, SigningPayload;
    RootIsWide(cr, es, from, to);
    forall j | 0 <= j < |window|
      ensures window[j].sequence == from + j && window[j].entryHash == ComputeHash(cr.sha, window[j])
      ensures |window[j].prevHash| == DIGEST_WIDTH && |window[j].message.signature| == SIGNATURE_SIZE
    {
      assert FaultAt(cr, es, from + j).None?;
      if from + j > 0 {
        assert FaultAt(cr, es, from + j - 1).None?;
        HashesItsPreimage(cr.sha, es[from + j - 1]);
      }
    }
  }

  /** For a verifier who holds a snapshot and an entry with a signature and a previous hash
      of the right widths: whatever the length of a proof of wide nodes, if it is accepted
      for the hash the verifier computes, the log holds that very entry, inside the
      snapshot's window and at its own sequence, or a collision is exhibited. */
  lemma {:induction false} EntryProofSound(cr: Crypto, chatId: string, snaps: seq<Snapshot>, es: seq<LogEntry>, k: nat,
                        e: LogEntry, proof: seq<ProofNode>)
    requires Tiled(cr.sha, chatId, snaps, es) && Chained(cr, es) && k < |snaps|
    requires |e.prevHash| == DIGEST_WIDTH && |e.message.signature| == SIGNATURE_SIZE && WideProof(proof)
    requires Climb(cr.sha, ComputeHash(cr.sha, e), proof) == snaps[k].merkleRoot
    ensures var s := snaps[k];
            && s.fromSequence <= s.toSequence < |es|
            && (|| (s.fromSequence <= e.sequence <= s.toSequence && SameContent(e, es[e.sequence]))
                || Collides(cr.sha, ForeignCollision(cr.sha, es[s.fromSequence..s.toSequence + 1], e, proof)))
  {
    hide Climb, ComputeHash, ForeignCollision, Chained, Tiled, Claimed, Hashes;
    TileFacts(cr.sha, chatId, snaps, es, k);
    var from, to := snaps[k].fromSequence, snaps[k].toSequence;
    var window := es[from..to + 1];
    WindowFacts(cr, es, from, to, window);
    if |proof| < Depth(|window|) {
      TooShort(cr.sha, window, e, proof);
    } else if |proof| > Depth(|window|) {
      TooLong(cr.sha, window, e, proof);
    } else {
      JustRight(cr.sha, window, e, proof);
      assert window[Claimed(|window|, proof)] == es[from + Claimed(|window|, proof)];
    }
  }
}
