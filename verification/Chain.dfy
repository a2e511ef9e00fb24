/**
 The hash chain: what the two verifiers of internal/chatlog/log.go accept, that they
 agree, and that an accepted log is bound by its tip hash.
 */
module Chain {
  import opened Hashing
  import opened Options
  import opened Models

  datatype Fault = SequenceGap | BrokenChain | UnsupportedVersion | TamperedEntry | BadSignature

  predicate SupportedVersion(v: int) {
    v == CURRENT_SCHEMA_VERSION
  }

  function PrevHash(es: seq<LogEntry>, i: nat): string
    requires i <= |es|
  {
    if i == 0 then GENESIS_HASH else es[i - 1].entryHash
  }

  function TipHash(es: seq<LogEntry>): string {
    PrevHash(es, |es|)
  }

  /** The first check of the chain walk that entry i fails. */
  function FaultAt(cr: Crypto, es: seq<LogEntry>, i: nat): Option<Fault>
    requires i < |es|
  {
    var e := es[i];
    if e.sequence != i then Some(SequenceGap)
    else if e.prevHash != PrevHash(es, i) then Some(BrokenChain)
    else if !SupportedVersion(e.message.schemaVersion) then Some(UnsupportedVersion)
    else if ComputeHash(cr.sha, e) != e.entryHash then Some(TamperedEntry)
    else if !VerifyMessage(cr.ed, e.message) then Some(BadSignature)
    else None
  }

  /** A log whose every entry passes every check of the chain walk. */
  ghost predicate Chained(cr: Crypto, es: seq<LogEntry>) {
    forall i :: 0 <= i < |es| ==> FaultAt(cr, es, i).None?
  }

  /** The entry a writer builds on a given tip. */
  function NextEntry(cr: Crypto, es: seq<LogEntry>, m: SignedMessage): LogEntry {
    var e := LogEntry(|es|, m, TipHash(es), "");
    e.(entryHash := ComputeHash(cr.sha, e))
  }

  /** The entry Append builds from the tip it read. */
  function EntryAfter(cr: Crypto, last: Option<LogEntry>, m: SignedMessage): LogEntry {
    var e := if last.Some? then LogEntry(last.value.sequence + 1, m, last.value.entryHash, "")
             else LogEntry(0, m, GENESIS_HASH, "");
    e.(entryHash := ComputeHash(cr.sha, e))
  }

  ghost predicate Acceptable(cr: Crypto, m: SignedMessage) {
    SupportedVersion(m.schemaVersion) && VerifyMessage(cr.ed, m)
  }

  /** What a message must be to be appended. */
  lemma AcceptableMeans(cr: Crypto, m: SignedMessage)
    ensures Acceptable(cr, m) <==>
              && m.schemaVersion == 1 && |m.publicKey| == 32 && |m.signature| == 64
              && cr.ed(m.publicKey, SigningPayload(m), m.signature)
    ensures SupportedVersion(m.schemaVersion) <==> m.schemaVersion == 1
  {}

  /** At its own position, linked to the entry before it or to 64 zeros, of version 1, its
      hash recomputed, and its message signed by the key it carries. */
  ghost predicate LinkedAndSigned(cr: Crypto, es: seq<LogEntry>, i: nat)
    requires i < |es|
  {
    var e, m := es[i], es[i].message;
    && e.sequence == i && e.prevHash == (if i == 0 then GENESIS_HASH else es[i - 1].entryHash)
    && m.schemaVersion == 1 && e.entryHash == ComputeHash(cr.sha, e)
    && |m.publicKey| == 32 && |m.signature| == 64 && cr.ed(m.publicKey, SigningPayload(m), m.signature)
  }

  /** Signed, in the message's own name. */
  ghost predicate Signed(cr: Crypto, m: SignedMessage) {
    |m.publicKey| == 32 && |m.signature| == 64 && cr.ed(m.publicKey, SigningPayload(m), m.signature)
  }

  /** What each reason says of entry i: the first of the checks, in this order, that it fails. */
  ghost predicate FailsWith(cr: Crypto, es: seq<LogEntry>, i: nat, fault: Fault)
    requires i < |es|
  {
    var e, prev := es[i], if i == 0 then GENESIS_HASH else es[i - 1].entryHash;
    match fault
    case SequenceGap => e.sequence != i
    case BrokenChain => e.sequence == i && e.prevHash != prev
    case UnsupportedVersion => e.sequence == i && e.prevHash == prev && e.message.schemaVersion != 1
    case TamperedEntry =>
      && e.sequence == i && e.prevHash == prev && e.message.schemaVersion == 1
      && e.entryHash != ComputeHash(cr.sha, e)
    case BadSignature =>
      && e.sequence == i && e.prevHash == prev && e.message.schemaVersion == 1
      && e.entryHash == ComputeHash(cr.sha, e) && !Signed(cr, e.message)
  }

  /** The checks of the walk find exactly that. */
  lemma FaultMeans(cr: Crypto, es: seq<LogEntry>, i: nat)
    requires i < |es|
    ensures FaultAt(cr, es, i).Some? ==> FailsWith(cr, es, i, FaultAt(cr, es, i).value)
    ensures FaultAt(cr, es, i).None? <==> LinkedAndSigned(cr, es, i)
  {
    hide ComputeHash, SigningPayload;
  }

  /** What an accepted log is. */
  lemma ChainedMeans(cr: Crypto, es: seq<LogEntry>)
    ensures Chained(cr, es) <==> forall i :: 0 <= i < |es| ==> LinkedAndSigned(cr, es, i)
  {
    hide FaultAt, LinkedAndSigned;
    forall i | 0 <= i < |es|
      ensures FaultAt(cr, es, i).None? <==> LinkedAndSigned(cr, es, i)
    {
      FaultMeans(cr, es, i);
    }
  }

  /** No entry fails with two reasons, nor with any if nothing is wrong. */
  lemma OneReason(cr: Crypto, es: seq<LogEntry>, i: nat, a: Fault, b: Fault)
    requires i < |es| && FailsWith(cr, es, i, a)
    ensures FailsWith(cr, es, i, b) ==> a == b
    ensures !LinkedAndSigned(cr, es, i)
  {
    hide ComputeHash, SigningPayload;
  }

  lemma GenesisIsZeros()
    ensures |GENESIS_HASH| == 64 && forall i :: 0 <= i < 64 ==> GENESIS_HASH[i] == '0'
  {}

  lemma ChainedPrefix(cr: Crypto, es: seq<LogEntry>, n: nat)
    requires n <= |es| && Chained(cr, es)
    ensures Chained(cr, es[..n])
  {
    hide ComputeHash, VerifyMessage;
    forall i | 0 <= i < n
      ensures FaultAt(cr, es[..n], i).None?
    {
      assert FaultAt(cr, es, i).None?;
      assert PrevHash(es[..n], i) == PrevHash(es, i);
    }
  }

  lemma ChainedEntry(cr: Crypto, es: seq<LogEntry>, i: nat)
    requires Chained(cr, es) && i < |es|
    ensures es[i].sequence == i && es[i].prevHash == PrevHash(es, i) && ComputeHash(cr.sha, es[i]) == es[i].entryHash
    ensures Acceptable(cr, es[i].message) && |es[i].message.signature| == SIGNATURE_SIZE
  {
    hide ComputeHash, SigningPayload;
    assert FaultAt(cr, es, i).None?;
  }

  lemma NextEntryIsSound(cr: Crypto, es: seq<LogEntry>, m: SignedMessage)
    ensures var e := NextEntry(cr, es, m);
            && e.sequence == |es| && e.message == m && e.prevHash == TipHash(es)
            && ComputeHash(cr.sha, e) == e.entryHash
  {}

  lemma {:induction false} ChainedExtends(cr: Crypto, es: seq<LogEntry>, m: SignedMessage)
    requires Chained(cr, es) && Acceptable(cr, m)
    ensures Chained(cr, es + [NextEntry(cr, es, m)])
  {
    hide VerifyMessage, ComputeHash, NextEntry;
    NextEntryIsSound(cr, es, m);
    var more := es + [NextEntry(cr, es, m)];
    forall i | 0 <= i < |more|
      ensures FaultAt(cr, more, i).None?
    {
      assert PrevHash(more, i) == PrevHash(es, i);
      if i < |es| {
        assert FaultAt(cr, es, i).None?;
      }
    }
  }

  function LinkBefore(prev: string, es: seq<LogEntry>, i: nat): string
    requires i <= |es|
  {
    if i == 0 then prev else es[i - 1].entryHash
  }

  /** Entries that a newcomer can check starting from a position and a hash alone. */
  ghost predicate ContinuesFrom(cr: Crypto, from: nat, prev: string, es: seq<LogEntry>) {
    forall i :: 0 <= i < |es| ==>
      es[i].sequence == from + i && EntryFault(cr, es[i], LinkBefore(prev, es, i)).None?
  }

  lemma FaultsMatch(cr: Crypto, es: seq<LogEntry>, i: nat)
    requires i < |es|
    ensures FaultAt(cr, es, i).None? <==> es[i].sequence == i && EntryFault(cr, es[i], PrevHash(es, i)).None?
  {
    hide ComputeHash, VerifyMessage;
  }

  lemma TailContinues(cr: Crypto, sealed: seq<LogEntry>, tail: seq<LogEntry>)
    requires Chained(cr, sealed + tail)
    ensures ContinuesFrom(cr, |sealed|, TipHash(sealed), tail)
  {
    hide ComputeHash, VerifyMessage, EntryFault;
    var es := sealed + tail;
    forall i | 0 <= i < |tail|
      ensures tail[i].sequence == |sealed| + i
      ensures EntryFault(cr, tail[i], LinkBefore(TipHash(sealed), tail, i)).None?
    {
      assert FaultAt(cr, es, |sealed| + i).None?;
      FaultsMatch(cr, es, |sealed| + i);
      assert es[|sealed| + i] == tail[i];
      assert PrevHash(es, |sealed| + i) == LinkBefore(TipHash(sealed), tail, i);
    }
  }

  lemma TailCompletes(cr: Crypto, sealed: seq<LogEntry>, tail: seq<LogEntry>)
    requires Chained(cr, sealed) && ContinuesFrom(cr, |sealed|, TipHash(sealed), tail)
    ensures Chained(cr, sealed + tail)
  {
    hide ComputeHash, VerifyMessage, EntryFault;
    var es := sealed + tail;
    forall i | 0 <= i < |es|
      ensures FaultAt(cr, es, i).None?
    {
      if i < |sealed| {
        assert FaultAt(cr, sealed, i).None?;
        assert PrevHash(es, i) == PrevHash(sealed, i);
      } else {
        var j := i - |sealed|;
        assert tail[j].sequence == i && es[i] == tail[j];
        assert EntryFault(cr, tail[j], LinkBefore(TipHash(sealed), tail, j)).None?;
        assert PrevHash(es, i) == LinkBefore(TipHash(sealed), tail, j);
        FaultsMatch(cr, es, i);
      }
    }
  }

  /** Checking a tail from the tip of an accepted log is checking the whole log. */
  lemma ChainSplits(cr: Crypto, sealed: seq<LogEntry>, tail: seq<LogEntry>)
    ensures Chained(cr, sealed + tail) <==> Chained(cr, sealed) && ContinuesFrom(cr, |sealed|, TipHash(sealed), tail)
  {
    hide Chained, ContinuesFrom;
    if Chained(cr, sealed + tail) {
      ChainedPrefix(cr, sealed + tail, |sealed|);
      assert (sealed + tail)[..|sealed|] == sealed;
      TailContinues(cr, sealed, tail);
    }
    if Chained(cr, sealed) && ContinuesFrom(cr, |sealed|, TipHash(sealed), tail) {
      TailCompletes(cr, sealed, tail);
    }
  }

  // ---------------------------------------------------------------- what tampering looks like

  /** Exchanging one entry leaves everything before it accepted. */
  lemma ExchangedAt(cr: Crypto, es: seq<LogEntry>, i: nat, e: LogEntry)
    requires Chained(cr, es) && i < |es|
    ensures var bad := es[i := e]; Chained(cr, bad[..i]) && bad[i] == e && PrevHash(bad, i) == PrevHash(es, i)
  {
    hide Chained;
    ChainedPrefix(cr, es, i);
    assert es[i := e][..i] == es[..i];
  }

  /** An entry cut out of an accepted log shows as a gap where it was. */
  lemma {:induction false} CutShows(cr: Crypto, es: seq<LogEntry>, i: nat)
    requires Chained(cr, es) && i + 1 < |es|
    ensures var bad := es[..i] + es[i + 1..]; Chained(cr, bad[..i]) && FaultAt(cr, bad, i) == Some(SequenceGap)
  {
    hide Chained, ComputeHash, VerifyMessage;
    var bad := es[..i] + es[i + 1..];
    ChainedPrefix(cr, es, i);
    assert bad[..i] == es[..i] && bad[i] == es[i + 1];
    ChainedEntry(cr, es, i + 1);
  }

  /** An entry linked elsewhere shows as a broken chain. */
  lemma {:induction false} RelinkShows(cr: Crypto, es: seq<LogEntry>, i: nat, prev: string)
    requires Chained(cr, es) && i < |es| && prev != es[i].prevHash
    ensures var bad := es[i := es[i].(prevHash := prev)];
            Chained(cr, bad[..i]) && FaultAt(cr, bad, i) == Some(BrokenChain)
  {
    hide Chained, ComputeHash, VerifyMessage;
    ExchangedAt(cr, es, i, es[i].(prevHash := prev));
    ChainedEntry(cr, es, i);
  }

  /** A message given another version shows as an unsupported one. */
  lemma {:induction false} OtherVersionShows(cr: Crypto, es: seq<LogEntry>, i: nat, v: int)
    requires Chained(cr, es) && i < |es| && v != 1
    ensures var bad := es[i := es[i].(message := es[i].message.(schemaVersion := v))];
            Chained(cr, bad[..i]) && FaultAt(cr, bad, i) == Some(UnsupportedVersion)
  {
    hide Chained, ComputeHash, VerifyMessage;
    ExchangedAt(cr, es, i, es[i].(message := es[i].message.(schemaVersion := v)));
    ChainedEntry(cr, es, i);
  }

  /** A message exchanged under the same hash shows as tampered with, or a collision is
      exhibited. */
  lemma {:induction false} ExchangeShows(cr: Crypto, es: seq<LogEntry>, i: nat, m: SignedMessage)
    requires Chained(cr, es) && i < |es| && m != es[i].message && m.schemaVersion == 1 && |m.signature| == 64
    ensures var e := es[i].(message := m);
            && Chained(cr, es[i := e][..i])
            && (FaultAt(cr, es[i := e], i) == Some(TamperedEntry) || Collides(cr.sha, EntryCollision(cr.sha, es[i], e)))
  {
    hide Chained, ComputeHash, VerifyMessage, EntryCollision;
    var e := es[i].(message := m);
    ExchangedAt(cr, es, i, e);
    ChainedEntry(cr, es, i);
    if ComputeHash(cr.sha, e) == ComputeHash(cr.sha, es[i]) {
      EntryBinding(cr.sha, es[i], e);
    }
  }

  /** And with its hash recomputed, as a bad signature if its signature is not one. */
  lemma {:induction false} ForgeryShows(cr: Crypto, es: seq<LogEntry>, i: nat, m: SignedMessage)
    requires Chained(cr, es) && i < |es| && m.schemaVersion == 1
    requires !cr.ed(m.publicKey, SigningPayload(m), m.signature)
    ensures var e := LogEntry(i, m, es[i].prevHash, "");
            var bad := es[i := e.(entryHash := ComputeHash(cr.sha, e))];
            Chained(cr, bad[..i]) && FaultAt(cr, bad, i) == Some(BadSignature)
  {
    hide Chained, SigningPayload;
    var e := LogEntry(i, m, es[i].prevHash, "");
    ExchangedAt(cr, es, i, e.(entryHash := ComputeHash(cr.sha, e)));
    ChainedEntry(cr, es, i);
    assert ComputeHash(cr.sha, e.(entryHash := ComputeHash(cr.sha, e))) == ComputeHash(cr.sha, e);
  }

  // ---------------------------------------------------------------- one entry

  /** The first check that VerifyEntry fails, given the entry read at a sequence and the
      hash it should link to. It never compares the entry's own sequence. */
  function EntryFault(cr: Crypto, e: LogEntry, expectedPrev: string): Option<Fault> {
    if !SupportedVersion(e.message.schemaVersion) then Some(UnsupportedVersion)
    else if ComputeHash(cr.sha, e) != e.entryHash then Some(TamperedEntry)
    else if !VerifyMessage(cr.ed, e.message) then Some(BadSignature)
    else if e.prevHash != expectedPrev then Some(BrokenChain)
    else None
  }

  /** What each of its reasons says of an entry expected to link to prev. */
  ghost predicate EntryFailsWith(cr: Crypto, e: LogEntry, prev: string, fault: Fault) {
    match fault
    case SequenceGap => false
    case UnsupportedVersion => e.message.schemaVersion != 1
    case TamperedEntry => e.message.schemaVersion == 1 && e.entryHash != ComputeHash(cr.sha, e)
    case BadSignature =>
      e.message.schemaVersion == 1 && e.entryHash == ComputeHash(cr.sha, e) && !Signed(cr, e.message)
    case BrokenChain =>
      && e.message.schemaVersion == 1 && e.entryHash == ComputeHash(cr.sha, e) && Signed(cr, e.message)
      && e.prevHash != prev
  }

  lemma EntryFaultMeans(cr: Crypto, e: LogEntry, prev: string)
    ensures EntryFault(cr, e, prev).Some? ==> EntryFailsWith(cr, e, prev, EntryFault(cr, e, prev).value)
    ensures EntryFault(cr, e, prev).None? <==>
              && e.message.schemaVersion == 1 && e.entryHash == ComputeHash(cr.sha, e) && Signed(cr, e.message)
              && e.prevHash == prev
  {
    hide ComputeHash, SigningPayload;
  }

  ghost predicate EachVerifies(cr: Crypto, es: seq<LogEntry>) {
    forall i :: 0 <= i < |es| ==> EntryFault(cr, es[i], PrevHash(es, i)).None?
  }

  ghost predicate Positional(es: seq<LogEntry>) {
    forall i :: 0 <= i < |es| ==> es[i].sequence == i
  }

  /** Agreement of the verifiers: the walk accepts exactly the logs whose every entry
      verifies alone and whose sequences are their positions. */
  lemma VerifiersAgree(cr: Crypto, es: seq<LogEntry>)
    ensures Chained(cr, es) <==> Positional(es) && EachVerifies(cr, es)
  {
    hide FaultAt, EntryFault, PrevHash;
    forall i | 0 <= i < |es|
      ensures FaultAt(cr, es, i).None? <==> es[i].sequence == i && EntryFault(cr, es[i], PrevHash(es, i)).None?
    {
      FaultsMatch(cr, es, i);
    }
  }

  /** Alone, VerifyEntry says nothing about position: any acceptable message stored at
      the head of a log under a wrong sequence verifies, and the walk rejects it. Neither
      store of the repository gives such an entry: InMemoryStorage.AppendEntry refuses it, and
      a ScyllaDB row is selected by its sequence. So it is the store that VerifyEntry leaves
      the position to. */
  lemma VerifyEntryIgnoresPosition(cr: Crypto, m: SignedMessage, sequence: nat)
    requires Acceptable(cr, m) && sequence != 0
    ensures var e := LogEntry(sequence, m, GENESIS_HASH, "");
            var es := [e.(entryHash := ComputeHash(cr.sha, e))];
            EachVerifies(cr, es) && FaultAt(cr, es, 0) == Some(SequenceGap)
  {
    var e := LogEntry(sequence, m, GENESIS_HASH, "");
    assert ComputeHash(cr.sha, e) == ComputeHash(cr.sha, e.(entryHash := ComputeHash(cr.sha, e)));
  }

  // ---------------------------------------------------------------- tamper evidence

  /** Walking back from two tips of one hash: the preimages of the last entries that differ. */
  function ChainCollision(h: Hasher, a: seq<LogEntry>, b: seq<LogEntry>): Pair
    decreases |a|
  {
    if a == [] || b == [] then NO_PAIR
    else
      var e, f := a[|a| - 1], b[|b| - 1];
      if e.sequence == f.sequence && e.prevHash == f.prevHash && e.message == f.message then
        ChainCollision(h, a[..|a| - 1], b[..|b| - 1])
      else EntryCollision(h, e, f)
  }

  /** Tamper evidence: two accepted logs with the same tip hash are the same log, entry for
      entry and field for field, or a collision is exhibited. */
  lemma {:induction false} TipBindsLog(cr: Crypto, a: seq<LogEntry>, b: seq<LogEntry>)
    requires a != [] && b != [] && Chained(cr, a) && Chained(cr, b) && TipHash(a) == TipHash(b)
    ensures a == b || Collides(cr.sha, ChainCollision(cr.sha, a, b))
    decreases |a|
  {
    hide Chained, Acceptable, ComputeHash, EntryCollision;
    var e, f := a[|a| - 1], b[|b| - 1];
    ChainedEntry(cr, a, |a| - 1);
    ChainedEntry(cr, b, |b| - 1);
    EntryBinding(cr.sha, e, f);
    if e.sequence == f.sequence && e.prevHash == f.prevHash && e.message == f.message {
      assert e == f && |a| == |b|;
      var x, y := a[..|a| - 1], b[..|b| - 1];
      assert a == x + [e] && b == y + [f];
      if x != [] {
        ChainedPrefix(cr, a, |a| - 1);
        ChainedPrefix(cr, b, |b| - 1);
        TipBindsLog(cr, x, y);
      }
    }
  }

  /** Hence an accepted log that holds a given entry hash anywhere, such as a snapshot's
      last hash, agrees with every other accepted log that does, up to that entry. */
  lemma HashBindsPrefix(cr: Crypto, a: seq<LogEntry>, i: nat, b: seq<LogEntry>, j: nat)
    requires Chained(cr, a) && Chained(cr, b) && i < |a| && j < |b|
    requires a[i].entryHash == b[j].entryHash
    ensures || (i == j && a[..i + 1] == b[..j + 1])
            || Collides(cr.sha, ChainCollision(cr.sha, a[..i + 1], b[..j + 1]))
  {
    ChainedPrefix(cr, a, i + 1);
    ChainedPrefix(cr, b, j + 1);
    TipBindsLog(cr, a[..i + 1], b[..j + 1]);
    if a[..i + 1] == b[..j + 1] {
      assert |a[..i + 1]| == i + 1 && |b[..j + 1]| == j + 1;
    }
  }

  /** The tip hash of a growing log never comes back to an earlier value, or a collision is
      exhibited; coming back to genesis would exhibit a preimage of 64 zeros. */
  lemma TipNeverReturns(cr: Crypto, es: seq<LogEntry>, at: nat, end: nat)
    requires Chained(cr, es) && at < end <= |es| && PrevHash(es, at) == PrevHash(es, end)
    ensures at > 0 ==> Collides(cr.sha, ChainCollision(cr.sha, es[..at], es[..end]))
    ensures at == 0 ==> Sum(cr.sha, PreimageOf(cr.sha, es[end - 1])) == GENESIS_HASH
  {
    hide Chained, ChainCollision, PreimageOf, VerifyMessage;
    if at > 0 {
      HashBindsPrefix(cr, es, at - 1, es, end - 1);
    } else {
      ChainedEntry(cr, es, end - 1);
    }
  }
}
