/**
 Snapshots and what can be proved from them: the window a snapshot seals, the way the
 snapshots of a chat tile its log, and the outcome of ProveInclusion
 (internal/chatlog/log.go) for whatever its two unlocked reads return.
 */
module Seals {
  import opened Hashing
  import opened Merkle
  import opened InclusionProofs
  import opened Decimal
  import opened Options
  import opened Models
  import opened Chain

  function Hashes(es: seq<LogEntry>): seq<string> {
    seq(|es|, i requires 0 <= i < |es| => es[i].entryHash)
  }

  /** EntriesSince. */
  function Since(es: seq<LogEntry>, from: nat): seq<LogEntry> {
    if from >= |es| then [] else es[from..]
  }

  /** The snapshot of entries from..to inclusive. */
  function SealOf(h: Hasher, chatId: string, index: nat, es: seq<LogEntry>, from: nat, to: nat): Snapshot
    requires from <= to < |es|
  {
    Snapshot(chatId, index, from, to, RootOf(h, Hashes(es[from..to + 1])), es[to].entryHash)
  }

  /** Where the snapshot after the first k of a chat must start. */
  function NextFrom(snaps: seq<Snapshot>, k: nat): nat
    requires k <= |snaps|
  {
    if k == 0 then 0 else snaps[k - 1].toSequence + 1
  }

  ghost predicate TileAt(h: Hasher, chatId: string, snaps: seq<Snapshot>, es: seq<LogEntry>, k: nat)
    requires k < |snaps|
  {
    var s := snaps[k];
    && s.fromSequence == NextFrom(snaps, k)
    && s.fromSequence <= s.toSequence < |es|
    && (s.toSequence + 1) % SNAPSHOT_INTERVAL == 0
    && s == SealOf(h, chatId, k, es, s.fromSequence, s.toSequence)
  }

  /** The snapshots tile a prefix of the log in order: the first starts at 0, each starts
      where its predecessor ended, each ends at a multiple of the interval, and each holds
      the root over exactly its window. */
  ghost predicate Tiled(h: Hasher, chatId: string, snaps: seq<Snapshot>, es: seq<LogEntry>) {
    forall k :: 0 <= k < |snaps| ==> TileAt(h, chatId, snaps, es, k)
  }

  /** Snapshot k covers exactly the k-th hundred. */
  ghost predicate Regular(snaps: seq<Snapshot>) {
    forall k :: 0 <= k < |snaps| ==>
      snaps[k].fromSequence == SNAPSHOT_INTERVAL * k && snaps[k].toSequence == SNAPSHOT_INTERVAL * k + SNAPSHOT_INTERVAL - 1
  }

  lemma {:induction false} NextFromAligned(h: Hasher, chatId: string, snaps: seq<Snapshot>, es: seq<LogEntry>, k: nat)
    requires Tiled(h, chatId, snaps, es) && k <= |snaps|
    ensures NextFrom(snaps, k) % SNAPSHOT_INTERVAL == 0
    ensures SNAPSHOT_INTERVAL * k <= NextFrom(snaps, k) <= |es|
  {
    hide SealOf;
    if k > 0 {
      NextFromAligned(h, chatId, snaps, es, k - 1);
      assert TileAt(h, chatId, snaps, es, k - 1);
    }
  }

  /** Windows are positive multiples of the interval, so snapshot k never starts before
      the k-th hundred. */
  lemma WindowsAligned(h: Hasher, chatId: string, snaps: seq<Snapshot>, es: seq<LogEntry>, k: nat)
    requires Tiled(h, chatId, snaps, es) && k < |snaps|
    ensures var s := snaps[k];
            && s.fromSequence % SNAPSHOT_INTERVAL == 0 && s.fromSequence >= SNAPSHOT_INTERVAL * k
            && s.toSequence >= s.fromSequence + SNAPSHOT_INTERVAL - 1
            && (s.toSequence + 1 - s.fromSequence) % SNAPSHOT_INTERVAL == 0
  {
    hide SealOf;
    NextFromAligned(h, chatId, snaps, es, k);
    assert TileAt(h, chatId, snaps, es, k);
  }

  /** Appending to the log never disturbs a sealed window. */
  lemma TiledExtends(h: Hasher, chatId: string, snaps: seq<Snapshot>, es: seq<LogEntry>, more: seq<LogEntry>)
    requires Tiled(h, chatId, snaps, es) && es <= more
    ensures Tiled(h, chatId, snaps, more)
  {
    hide RootOf, Hashes;
    forall k | 0 <= k < |snaps|
      ensures TileAt(h, chatId, snaps, more, k)
    {
      assert TileAt(h, chatId, snaps, es, k);
      var s := snaps[k];
      assert es[s.fromSequence..s.toSequence + 1] == more[s.fromSequence..s.toSequence + 1];
    }
  }

  /** The next snapshot, sealed at a boundary by the lock holder. */
  lemma TiledSeals(h: Hasher, chatId: string, snaps: seq<Snapshot>, es: seq<LogEntry>)
    requires Tiled(h, chatId, snaps, es)
    requires |es| % SNAPSHOT_INTERVAL == 0 && NextFrom(snaps, |snaps|) < |es|
    ensures Tiled(h, chatId, snaps + [SealOf(h, chatId, |snaps|, es, NextFrom(snaps, |snaps|), |es| - 1)], es)
  {
    hide RootOf, Hashes;
    var s := SealOf(h, chatId, |snaps|, es, NextFrom(snaps, |snaps|), |es| - 1);
    var more := snaps + [s];
    forall k | 0 <= k < |more|
      ensures TileAt(h, chatId, more, es, k)
    {
      assert NextFrom(more, k) == NextFrom(snaps, k);
      if k < |snaps| {
        assert TileAt(h, chatId, snaps, es, k);
      }
    }
  }

  // ---------------------------------------------------------------- ProveInclusion

  const INT64_LIMIT: nat := 0x8000_0000_0000_0000

  /** uint64 subtraction and addition wrap; int() keeps the bits. */
  function SubU64(a: nat, b: nat): nat {
    (a - b) % UINT64_LIMIT
  }

  function AddU64(a: nat, b: nat): nat {
    (a + b) % UINT64_LIMIT
  }

  function AsInt(u: nat): int {
    if u < INT64_LIMIT then u else u - UINT64_LIMIT
  }

  datatype InclusionProof = InclusionProof(
    chatId: string, sequence: nat, entryHash: string, snapshotIndex: nat, merkleRoot: string, proof: seq<ProofNode>)

  /** Panics stands for a run-time panic: a negative length or an index out of range. */
  datatype ProveOutcome =
    | Proved(proof: InclusionProof)
    | NotSnapshotted
    | WindowIncomplete
    | RootMismatch
    | Panics

  /** ProveInclusion as a function of what its two reads return. */
  function ProveFrom(h: Hasher, chatId: string, sequence: nat, snap: Option<Snapshot>,
                     window: seq<LogEntry>): ProveOutcome {
    if snap.None? then NotSnapshotted
    else
      var s := snap.value;
      var size := AsInt(AddU64(SubU64(s.toSequence, s.fromSequence), 1));
      if |window| < size then WindowIncomplete
      else if size < 0 then Panics
      else
        var leaves := Hashes(window[..size]);
        var localIdx := AsInt(SubU64(sequence, s.fromSequence));
        var root := if 0 <= localIdx < size then RootOf(h, leaves) else "";
        if root != s.merkleRoot then RootMismatch
        else if !(0 <= localIdx < size) then Panics
        else Proved(InclusionProof(chatId, sequence, leaves[localIdx], sequence / SNAPSHOT_INTERVAL, s.merkleRoot,
                                   ProofOf(h, leaves, localIdx)))
  }

  /** What ProveInclusion makes of any snapshot and any window that a store might return. Too
      short a window is reported as such; otherwise it proves what it was asked exactly if
      the sequence lies in the snapshot's window and the root recomputed over the entries
      returned is the snapshot's; and whatever it proves climbs to that root from the hash
      at that place. It would panic only on a snapshot with an empty root, for a sequence
      outside. */
  lemma {:induction false} ProveFromAnything(h: Hasher, chatId: string, sequence: nat, snap: Snapshot, window: seq<LogEntry>)
    requires snap.fromSequence <= snap.toSequence < INT64_LIMIT - 1 && sequence < UINT64_LIMIT
    ensures var r, size := ProveFrom(h, chatId, sequence, Some(snap), window), snap.toSequence + 1 - snap.fromSequence;
            var inside := snap.fromSequence <= sequence <= snap.toSequence;
            && (r.WindowIncomplete? <==> |window| < size)
            && (r.Proved? <==> |window| >= size && inside && RootOf(h, Hashes(window[..size])) == snap.merkleRoot)
            && (r.Panics? <==> |window| >= size && !inside && snap.merkleRoot == "")
            && !r.NotSnapshotted?
            && (r.Proved? ==>
                  && r.proof.chatId == chatId && r.proof.sequence == sequence && r.proof.snapshotIndex == sequence / 100
                  && r.proof.entryHash == window[sequence - snap.fromSequence].entryHash
                  && r.proof.merkleRoot == snap.merkleRoot
                  && Climb(h, r.proof.entryHash, r.proof.proof) == snap.merkleRoot)
  {
    hide RootOf, ProofOf, Climb, Depth, AsInt, AddU64, SubU64;
    var size := snap.toSequence + 1 - snap.fromSequence;
    WindowArithmetic(snap.fromSequence, snap.toSequence, sequence);
    PastTheWindow(snap.fromSequence, snap.toSequence, sequence);
    if |window| >= size && snap.fromSequence <= sequence <= snap.toSequence {
      ProofComplete(h, Hashes(window[..size]), sequence - snap.fromSequence);
    }
  }

  /** A sequence past the window is past it as an index too, or wraps to a negative one. */
  lemma PastTheWindow(from: nat, to: nat, sequence: nat)
    requires from <= to && sequence < UINT64_LIMIT
    ensures sequence > to ==> !(0 <= AsInt(SubU64(sequence, from)) < to + 1 - from)
  {}

  function SnapshotAt(snaps: seq<Snapshot>, index: nat): Option<Snapshot> {
    if index < |snaps| then Some(snaps[index]) else None
  }

  /** A proof that is right about a log and its snapshots: it names the entry stored at
      the sequence and climbs to the root of the snapshot whose window holds it. */
  ghost predicate ProofRight(h: Hasher, chatId: string, snaps: seq<Snapshot>, es: seq<LogEntry>, p: InclusionProof) {
    && p.chatId == chatId
    && p.snapshotIndex == p.sequence / SNAPSHOT_INTERVAL < |snaps|
    && snaps[p.snapshotIndex].fromSequence <= p.sequence <= snaps[p.snapshotIndex].toSequence
    && p.sequence < |es| && p.entryHash == es[p.sequence].entryHash
    && p.merkleRoot == snaps[p.snapshotIndex].merkleRoot
    && Climb(h, p.entryHash, p.proof) == p.merkleRoot
    && |p.proof| == Depth(snaps[p.snapshotIndex].toSequence + 1 - snaps[p.snapshotIndex].fromSequence)
  }

  /** A proof that is right stays right as the log and its snapshots grow. */
  lemma ProofStaysRight(h: Hasher, chatId: string, snaps: seq<Snapshot>, es: seq<LogEntry>,
                        snaps': seq<Snapshot>, es': seq<LogEntry>, p: InclusionProof)
    requires ProofRight(h, chatId, snaps, es, p) && snaps <= snaps' && es <= es'
    ensures ProofRight(h, chatId, snaps', es', p)
  {
    hide Climb, Depth;
    assert snaps'[p.snapshotIndex] == snaps[p.snapshotIndex] && es'[p.sequence] == es[p.sequence];
  }

  lemma HashesOfWindow(es: seq<LogEntry>, from: nat, to: nat)
    requires from <= to < |es|
    ensures |Since(es, from)| == |es| - from >= to + 1 - from
    ensures Hashes(Since(es, from)[..to + 1 - from]) == Hashes(es[from..to + 1])
  {
    assert Since(es, from)[..to + 1 - from] == es[from..to + 1];
  }

  /** The window arithmetic of ProveInclusion on a real snapshot of a real log. */
  lemma WindowArithmetic(from: nat, to: nat, sequence: nat)
    requires from <= to < INT64_LIMIT - 1 && sequence < UINT64_LIMIT
    ensures AsInt(AddU64(SubU64(to, from), 1)) == to + 1 - from
    ensures from <= sequence <= to ==> AsInt(SubU64(sequence, from)) == sequence - from
    ensures sequence < from ==> AsInt(SubU64(sequence, from)) == sequence - from < 0
  {
    assert SubU64(to, from) == to - from;
    if sequence < from {
      assert SubU64(sequence, from) == sequence - from + UINT64_LIMIT;
    }
  }

  /** ProveInclusion on any tiled snapshots and any log, however irregular the windows and
      whatever was appended between its two reads (the snapshot was read when the log was
      es0, the window when it was es). It succeeds exactly when the snapshot indexed by
      sequence / 100 exists and starts at the matching hundred, and then the proof is right;
      otherwise the wrapped index ends in an error. It never panics. */
  lemma ProveInclusionExact(cr: Crypto, chatId: string, snaps: seq<Snapshot>, es0: seq<LogEntry>, es: seq<LogEntry>,
                            sequence: nat)
    requires Tiled(cr.sha, chatId, snaps, es0) && es0 <= es && Chained(cr, es)
    requires |es| < INT64_LIMIT && sequence < UINT64_LIMIT
    ensures var k := sequence / SNAPSHOT_INTERVAL;
            var snap := SnapshotAt(snaps, k);
            var r := ProveFrom(cr.sha, chatId, sequence, snap, if snap.None? then [] else Since(es, snap.value.fromSequence));
            && (r.NotSnapshotted? <==> k >= |snaps|)
            && (r.Proved? <==> k < |snaps| && snaps[k].fromSequence == SNAPSHOT_INTERVAL * k)
            && (r.RootMismatch? <==> k < |snaps| && snaps[k].fromSequence != SNAPSHOT_INTERVAL * k)
            && (r.Proved? ==> r.proof.sequence == sequence && ProofRight(cr.sha, chatId, snaps, es, r.proof))
  {
    hide Since, SealOf, Tiled, ProofRight, Chained, SnapshotAt, ProveFrom;
    var k := sequence / SNAPSHOT_INTERVAL;
    ProveUnsealed(cr.sha, chatId, snaps, sequence);
    if k < |snaps| {
      TiledExtends(cr.sha, chatId, snaps, es0, es);
      WindowsAligned(cr.sha, chatId, snaps, es, k);
      TileFacts(cr.sha, chatId, snaps, es, k);
      HundredOfSequence(snaps[k].fromSequence, snaps[k].toSequence, sequence);
      ProveOnSeal(cr, chatId, snaps, k, es, sequence);
    }
  }

  lemma HundredOfSequence(from: nat, to: nat, sequence: nat)
    requires from % SNAPSHOT_INTERVAL == 0 && to >= from + SNAPSHOT_INTERVAL - 1
    requires from >= SNAPSHOT_INTERVAL * (sequence / SNAPSHOT_INTERVAL)
    ensures from == SNAPSHOT_INTERVAL * (sequence / SNAPSHOT_INTERVAL) ==> from <= sequence <= to
    ensures from != SNAPSHOT_INTERVAL * (sequence / SNAPSHOT_INTERVAL) ==> sequence < from
  {}

  lemma TileFacts(h: Hasher, chatId: string, snaps: seq<Snapshot>, es: seq<LogEntry>, k: nat)
    requires Tiled(h, chatId, snaps, es) && k < |snaps|
    ensures var s := snaps[k];
            s.fromSequence <= s.toSequence < |es| && s == SealOf(h, chatId, k, es, s.fromSequence, s.toSequence)
  {
    assert TileAt(h, chatId, snaps, es, k);
  }

  lemma ProveUnsealed(h: Hasher, chatId: string, snaps: seq<Snapshot>, sequence: nat)
    ensures var k := sequence / SNAPSHOT_INTERVAL;
            && SnapshotAt(snaps, k) == (if k < |snaps| then Some(snaps[k]) else None)
            && ProveFrom(h, chatId, sequence, None, []) == NotSnapshotted
  {}

  lemma {:induction false} ProveOnSeal(cr: Crypto, chatId: string, snaps: seq<Snapshot>, k: nat, es: seq<LogEntry>,
                                       sequence: nat)
    requires Chained(cr, es) && |es| < INT64_LIMIT && sequence < UINT64_LIMIT
    requires k == sequence / SNAPSHOT_INTERVAL < |snaps|
    requires var s := snaps[k];
             && s.fromSequence <= s.toSequence < |es|
             && s == SealOf(cr.sha, chatId, k, es, s.fromSequence, s.toSequence)
             && (sequence < s.fromSequence || s.fromSequence <= sequence <= s.toSequence)
    ensures var r := ProveFrom(cr.sha, chatId, sequence, Some(snaps[k]), Since(es, snaps[k].fromSequence));
            && (sequence < snaps[k].fromSequence ==> r == RootMismatch)
            && (sequence >= snaps[k].fromSequence ==>
                  r.Proved? && r.proof.sequence == sequence && ProofRight(cr.sha, chatId, snaps, es, r.proof))
  {
    hide RootOf, ProofOf, Climb, Depth, AsInt, AddU64, SubU64;
    var from, to := snaps[k].fromSequence, snaps[k].toSequence;
    var leaves := Hashes(es[from..to + 1]);
    WindowArithmetic(from, to, sequence);
    HashesOfWindow(es, from, to);
    RootIsWide(cr, es, from, to);
    if sequence >= from {
      ProofComplete(cr.sha, leaves, sequence - from);
    }
  }

  lemma HashesAt(es: seq<LogEntry>, from: nat, to: nat, i: nat)
    requires from <= to < |es| && i < to + 1 - from
    ensures |Hashes(es[from..to + 1])| == to + 1 - from && Hashes(es[from..to + 1])[i] == es[from + i].entryHash
  {}

  /** What an accepted proof establishes for someone who trusts only the snapshot: a wide
      leaf with any proof of the window's depth is the hash of an entry of the window, or a
      collision is exhibited. */
  lemma {:induction false} SnapshotProofSound(cr: Crypto, chatId: string, snaps: seq<Snapshot>, es: seq<LogEntry>, k: nat,
                           leaf: string, proof: seq<ProofNode>)
    requires Tiled(cr.sha, chatId, snaps, es) && Chained(cr, es) && k < |snaps|
    requires |leaf| == DIGEST_WIDTH && snaps[k].fromSequence <= snaps[k].toSequence
    requires |proof| == Depth(snaps[k].toSequence + 1 - snaps[k].fromSequence)
    requires Climb(cr.sha, leaf, proof) == snaps[k].merkleRoot
    ensures var s := snaps[k];
            var i := s.fromSequence + Source(s.toSequence + 1 - s.fromSequence, Index(Flags(proof)));
            && s.fromSequence <= i <= s.toSequence < |es|
            && (leaf == es[i].entryHash
                || Collides(cr.sha, ProofCollision(cr.sha, TreeOf(Hashes(es[s.fromSequence..s.toSequence + 1])), leaf, proof)))
  {
    hide Climb, Depth, Index, Flags, ProofCollision, TreeOf, RootOf, Siblings, Source, Collides, Chained, Tiled, Hashes;
    TileFacts(cr.sha, chatId, snaps, es, k);
    var from, to := snaps[k].fromSequence, snaps[k].toSequence;
    RootIsWide(cr, es, from, to);
    HashesAt(es, from, to, Source(to + 1 - from, Index(Flags(proof))));
    InclusionSound(cr.sha, Hashes(es[from..to + 1]), leaf, proof);
  }

  /** Entry hashes of an accepted log are digests, so no window has the empty root. */
  lemma RootIsWide(cr: Crypto, es: seq<LogEntry>, from: nat, to: nat)
    requires Chained(cr, es) && from <= to < |es|
    ensures AllWide(Hashes(es[from..to + 1]))
    ensures |RootOf(cr.sha, Hashes(es[from..to + 1]))| == DIGEST_WIDTH
  {
    hide Merkle.TreeOf, Digest, VerifyMessage, EntryPreimage;
    var leaves := Hashes(es[from..to + 1]);
    forall i | 0 <= i < |leaves|
      ensures |leaves[i]| == DIGEST_WIDTH
    {
      assert FaultAt(cr, es, from + i).None?;
    }
    TreeOfShape(leaves);
    DigestWide(cr.sha, TreeOf(leaves));
  }
}
