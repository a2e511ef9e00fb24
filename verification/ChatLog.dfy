/**
 The log of internal/chatlog/log.go run by one thread at a time over the in-memory
 store: what every call keeps, and what every call returns.
 */
module ChatLog {
  import opened Hashing
  import opened Merkle
  import opened InclusionProofs
  import opened Decimal
  import opened Options
  import opened Models
  import opened Chain
  import opened Seals
  import opened Storage
  import opened Broker

  datatype AppendResult = Appended(entry: LogEntry) | ErrUnsupportedVersion | ErrInvalidSignature | ErrSequenceGap

  datatype MessageVerification = MessageVerification(sequence: nat, valid: bool, reason: Option<Fault>)

  /** reason names the failed check and the sequence it is reported at. */
  datatype VerifyResult = VerifyResult(valid: bool, entries: nat, reason: Option<(Fault, nat)>)

  datatype SyncBundle = SyncBundle(snapshot: Option<Snapshot>, newEntries: seq<LogEntry>, currentHash: string)

  /** What holds of one chat whenever no append is in progress. */
  ghost predicate ChatInv(cr: Crypto, chatId: string, es: seq<LogEntry>, snaps: seq<Snapshot>, root: Option<string>) {
    && Chained(cr, es)
    && (forall i :: 0 <= i < |es| ==> es[i].message.chatId == chatId)
    && Tiled(cr.sha, chatId, snaps, es)
    && Regular(snaps)
    && |snaps| == |es| / SNAPSHOT_INTERVAL
    && root == LatestRoot(snaps)
  }

  function LatestRoot(snaps: seq<Snapshot>): Option<string> {
    if snaps == [] then None else Some(snaps[|snaps| - 1].merkleRoot)
  }

  function RootCached(roots: map<string, string>, chatId: string): Option<string> {
    if chatId in roots then Some(roots[chatId]) else None
  }

  /** The snapshot of everything after the snapshots so far. */
  function NextSnapshot(h: Hasher, chatId: string, snaps: seq<Snapshot>, es: seq<LogEntry>): Snapshot
    requires es != []
  {
    var from := NextFrom(snaps, |snaps|);
    Snapshot(chatId, if snaps == [] then 0 else snaps[|snaps| - 1].index + 1, from, |es| - 1,
             RootOf(h, Hashes(Since(es, from))), TipHash(es))
  }

  // ---------------------------------------------------------------- whole states

  datatype State = State(
    entries: map<string, seq<LogEntry>>, snapshots: map<string, seq<Snapshot>>, roots: map<string, string>,
    published: seq<Event>)

  ghost predicate StateInv(cr: Crypto, s: State) {
    forall c :: ChatInv(cr, c, EntriesOf(s.entries, c), SnapshotsOf(s.snapshots, c), RootCached(s.roots, c))
  }

  /** What an append does: a rejected message changes nothing; an accepted one is stored as
      the next entry and announced, and at a boundary the window is sealed, cached and
      announced. */
  function AfterAppend(cr: Crypto, s: State, m: SignedMessage): (AppendResult, State) {
    if !SupportedVersion(m.schemaVersion) then (ErrUnsupportedVersion, s)
    else if !VerifyMessage(cr.ed, m) then (ErrInvalidSignature, s)
    else
      var c, es, snaps := m.chatId, EntriesOf(s.entries, m.chatId), SnapshotsOf(s.snapshots, m.chatId);
      var e := NextEntry(cr, es, m);
      var stored := s.(entries := s.entries[c := es + [e]],
                       published := s.published + [Event(EntryAppended, c, e.sequence, e.entryHash)]);
      (Appended(e), if |es + [e]| % SNAPSHOT_INTERVAL == 0 then AfterSnapshot(cr.sha, stored, c) else stored)
  }

  function AfterSnapshot(h: Hasher, s: State, c: string): State
    requires EntriesOf(s.entries, c) != []
  {
    var es, snaps := EntriesOf(s.entries, c), SnapshotsOf(s.snapshots, c);
    var snap := NextSnapshot(h, c, snaps, es);
    s.(snapshots := s.snapshots[c := snaps + [snap]], roots := s.roots[c := snap.merkleRoot],
       published := s.published + [Event(SnapshotCreated, c, es[|es| - 1].sequence, es[|es| - 1].entryHash)])
  }

  lemma NextSnapshotSeals(cr: Crypto, chatId: string, snaps: seq<Snapshot>, es: seq<LogEntry>)
    requires Tiled(cr.sha, chatId, snaps, es) && NextFrom(snaps, |snaps|) < |es|
    ensures NextSnapshot(cr.sha, chatId, snaps, es) == SealOf(cr.sha, chatId, |snaps|, es, NextFrom(snaps, |snaps|), |es| - 1)
  {
    hide RootOf, Hashes;
    var from := NextFrom(snaps, |snaps|);
    assert Since(es, from) == es[from..|es|];
    if snaps != [] {
      TileFacts(cr.sha, chatId, snaps, es, |snaps| - 1);
    }
  }

  /** One chat's invariant through an append, the snapshot at a boundary included. */
  lemma {:induction false} AppendKeepsChat(cr: Crypto, chatId: string, es: seq<LogEntry>, snaps: seq<Snapshot>,
                                           root: Option<string>, m: SignedMessage)
    requires ChatInv(cr, chatId, es, snaps, root) && Acceptable(cr, m) && m.chatId == chatId
    ensures var more := es + [NextEntry(cr, es, m)];
            && (|more| % SNAPSHOT_INTERVAL != 0 ==> ChatInv(cr, chatId, more, snaps, root))
            && (|more| % SNAPSHOT_INTERVAL == 0 ==>
                  var s := NextSnapshot(cr.sha, chatId, snaps, more);
                  ChatInv(cr, chatId, more, snaps + [s], Some(s.merkleRoot)))
  {
    hide VerifyMessage, ComputeHash, RootOf, Hashes, FaultAt;
    var more := es + [NextEntry(cr, es, m)];
    NextEntryIsSound(cr, es, m);
    ChainedExtends(cr, es, m);
    TiledExtends(cr.sha, chatId, snaps, es, more);
    if |more| % SNAPSHOT_INTERVAL == 0 {
      TiledSeals(cr.sha, chatId, snaps, more);
      NextSnapshotSeals(cr, chatId, snaps, more);
    }
  }

  /** Every append keeps the invariant of every chat. */
  lemma {:induction false} AppendKeepsInv(cr: Crypto, s: State, m: SignedMessage)
    requires StateInv(cr, s)
    ensures StateInv(cr, AfterAppend(cr, s, m).1)
  {
    hide ChatInv, VerifyMessage, NextEntry, NextSnapshot;
    var s' := AfterAppend(cr, s, m).1;
    if Acceptable(cr, m) {
      var c := m.chatId;
      ChatOf(cr, s, c);
      AppendKeepsChat(cr, c, EntriesOf(s.entries, c), SnapshotsOf(s.snapshots, c), RootCached(s.roots, c), m);
      forall d
        ensures ChatInv(cr, d, EntriesOf(s'.entries, d), SnapshotsOf(s'.snapshots, d), RootCached(s'.roots, d))
      {
        if d != c {
          ChatOf(cr, s, d);
        }
      }
    }
  }

  lemma RejectedChangesNothing(cr: Crypto, s: State, m: SignedMessage)
    ensures !SupportedVersion(m.schemaVersion) ==> AfterAppend(cr, s, m) == (ErrUnsupportedVersion, s)
    ensures SupportedVersion(m.schemaVersion) && !VerifyMessage(cr.ed, m) ==> AfterAppend(cr, s, m) == (ErrInvalidSignature, s)
  {}

  lemma ChatOf(cr: Crypto, s: State, c: string)
    requires StateInv(cr, s)
    ensures ChatInv(cr, c, EntriesOf(s.entries, c), SnapshotsOf(s.snapshots, c), RootCached(s.roots, c))
  {}

  /** What publishing some events does to the lives of the subscriptions. */
  function Told(lives: map<nat, seq<Op>>, events: seq<Event>): map<nat, seq<Op>> {
    map id | id in lives :: lives[id] + Publications(events)
  }

  function Publications(events: seq<Event>): seq<Op> {
    seq(|events|, i requires 0 <= i < |events| => Op.Publish(events[i]))
  }

  lemma ToldTwice(lives: map<nat, seq<Op>>, a: seq<Event>, b: seq<Event>)
    ensures Told(Told(lives, a), b) == Told(lives, a + b)
    ensures Told(lives, []) == lives
  {
    assert Publications(a + b) == Publications(a) + Publications(b);
    forall id | id in lives
      ensures Told(Told(lives, a), b)[id] == Told(lives, a + b)[id] && Told(lives, [])[id] == lives[id]
    {
      assert lives[id] + Publications(a) + Publications(b) == lives[id] + (Publications(a) + Publications(b));
    }
  }

  class Log {
    const cr: Crypto
    const store: InMemoryStorage
    const broker: InMemory
    /** The cached Merkle roots, and everything handed to the broker, in order. */
    var roots: map<string, string>
    ghost var published: seq<Event>

    ghost function View(): State
      reads this, store
    {
      State(store.entries, store.snapshots, roots, published)
    }

    ghost predicate Valid()
      reads this, store, broker, broker.subscribers.Values
    {
      StateInv(cr, View()) && broker.Valid()
    }

    constructor (cr: Crypto, broker: InMemory)
      requires broker.Valid()
      ensures Valid() && fresh(store) && this.broker == broker
      ensures this.cr == cr && View() == State(map[], map[], map[], [])
    {
      this.cr, this.broker := cr, broker;
      store := new InMemoryStorage();
      roots, published := map[], [];
    }

    /** Everything that has happened to each current subscription. */
    ghost function Lives(): map<nat, seq<Op>>
      reads broker, broker.subscribers.Values
    {
      map id | id in broker.subscribers :: broker.subscribers[id].ops
    }

    /** Append. The store never refuses the entry: ErrSequenceGap is not an outcome. What is
        published happens, in order, to every channel subscribed to the broker. */
    method Append(msg: SignedMessage) returns (r: AppendResult)
      requires Valid()
      modifies this, store, broker.subscribers.Values
      ensures Valid()
      ensures r.Appended? <==>
                && msg.schemaVersion == 1 && |msg.publicKey| == 32 && |msg.signature| == 64
                && cr.ed(msg.publicKey, SigningPayload(msg), msg.signature)
      ensures r.ErrUnsupportedVersion? <==> msg.schemaVersion != 1
      ensures !r.ErrSequenceGap?
      ensures (r, View()) == AfterAppend(cr, old(View()), msg)
      ensures old(published) <= published && Lives() == Told(old(Lives()), published[|old(published)|..])
    {
      hide VerifyMessage, SigningPayload, ChatInv, StateInv, AfterAppend, Told, Lives, broker.Valid;
      AcceptableMeans(cr, msg);
      AppendKeepsInv(cr, View(), msg);
      ToldTwice(Lives(), [], []);
      assert published[|published|..] == [];
      RejectedChangesNothing(cr, View(), msg);
      if !SupportedVersion(msg.schemaVersion) {
        return ErrUnsupportedVersion;
      }
      if !VerifyMessage(cr.ed, msg) {
        return ErrInvalidSignature;
      }
      ChatOf(cr, View(), msg.chatId);
      TipOfLog(cr, msg.chatId, EntriesOf(store.entries, msg.chatId), SnapshotsOf(store.snapshots, msg.chatId),
               RootCached(roots, msg.chatId));
      r := Accept(msg);
    }

    /** The part of Append under the chat's lock. */
    method Accept(msg: SignedMessage) returns (r: AppendResult)
      requires broker.Valid() && Acceptable(cr, msg)
      requires var es := EntriesOf(store.entries, msg.chatId); es != [] ==> es[|es| - 1].sequence == |es| - 1
      modifies this, store, broker.subscribers.Values
      ensures broker.Valid() && (r, View()) == AfterAppend(cr, old(View()), msg) && r.Appended?
      ensures old(published) <= published && Lives() == Told(old(Lives()), published[|old(published)|..])
    {
      hide VerifyMessage, ComputeHash, NextSnapshot, Told, Lives, broker.Valid;
      var stored := StoreNext(msg);
      if stored.None? {
        return ErrSequenceGap;
      }
      var entry := stored.value;
      var appended := Event(EntryAppended, msg.chatId, entry.sequence, entry.entryHash);
      Announce(appended);
      assert published[|old(published)|..] == [appended];
      if (entry.sequence + 1) % SNAPSHOT_INTERVAL == 0 {
        SnapshotWindow(msg.chatId, entry);
        var created := Event(SnapshotCreated, msg.chatId, entry.sequence, entry.entryHash);
        ToldTwice(old(Lives()), [appended], [created]);
        assert published[|old(published)|..] == [appended] + [created];
      }
      return Appended(entry);
    }

    /** The part of Append that reads the tip and stores the next entry. */
    method StoreNext(msg: SignedMessage) returns (stored: Option<LogEntry>)
      requires var es := EntriesOf(store.entries, msg.chatId); es != [] ==> es[|es| - 1].sequence == |es| - 1
      modifies store`entries
      ensures var es := old(EntriesOf(store.entries, msg.chatId));
              && stored == Some(NextEntry(cr, es, msg))
              && store.entries == old(store.entries)[msg.chatId := es + [NextEntry(cr, es, msg)]]
    {
      hide ComputeHash;
      var prevHash, nextSeq := GENESIS_HASH, 0;
      var last := store.LastEntry(msg.chatId);
      if last.Some? {
        prevHash := last.value.entryHash;
        nextSeq := last.value.sequence + 1;
      }
      var entry := LogEntry(nextSeq, msg, prevHash, "");
      entry := entry.(entryHash := ComputeHash(cr.sha, entry));
      var ok := store.AppendEntry(msg.chatId, entry);
      return if ok then Some(entry) else None;
    }

    /** Hands an event to the broker. */
    method Announce(event: Event)
      requires broker.Valid()
      modifies this`published, broker.subscribers.Values
      ensures broker.Valid() && published == old(published) + [event]
      ensures Lives() == Told(old(Lives()), [event])
    {
      hide broker.Valid;
      published := published + [event];
      broker.Publish(event);
      assert Publications([event]) == [Op.Publish(event)];
    }

    /** snapshot: seals every entry since the previous snapshot, caches its root and
        announces it. */
    method SnapshotWindow(chatId: string, tip: LogEntry)
      requires broker.Valid()
      requires var es := EntriesOf(store.entries, chatId);
               es != [] && tip == es[|es| - 1] && tip.sequence == |es| - 1
      modifies this, store`snapshots, broker.subscribers.Values
      ensures broker.Valid() && View() == AfterSnapshot(cr.sha, old(View()), chatId)
      ensures Lives() == Told(old(Lives()), [Event(SnapshotCreated, chatId, tip.sequence, tip.entryHash)])
    {
      hide RootOf, Hashes, Told, Lives, NextSnapshot, broker.Valid;
      var root := SaveWindow(chatId, tip);
      roots := roots[chatId := root];
      Announce(Event(SnapshotCreated, chatId, tip.sequence, tip.entryHash));
    }

    /** The part of snapshot that works on the store. */
    method SaveWindow(chatId: string, tip: LogEntry) returns (root: string)
      requires var es := EntriesOf(store.entries, chatId);
               es != [] && tip == es[|es| - 1] && tip.sequence == |es| - 1
      modifies store`snapshots
      ensures var snaps := old(SnapshotsOf(store.snapshots, chatId));
              var snap := NextSnapshot(cr.sha, chatId, snaps, EntriesOf(store.entries, chatId));
              root == snap.merkleRoot && store.snapshots == old(store.snapshots)[chatId := snaps + [snap]]
    {
      hide RootOf, Hashes;
      var from, index := 0, 0;
      var prev := store.LatestSnapshot(chatId);
      if prev.Some? {
        from := prev.value.toSequence + 1;
        index := prev.value.index + 1;
      }
      var window := store.EntriesSince(chatId, from);
      var leaves := LeafHashes(window);
      root := Root(cr.sha, leaves);
      store.SaveSnapshot(Snapshot(chatId, index, from, tip.sequence, root, tip.entryHash));
    }

    /** Verify: the walk stops at the first entry that fails a check and names it. */
    method Verify(chatId: string) returns (r: VerifyResult)
      ensures var es := EntriesOf(store.entries, chatId);
              && (r.valid <==> Chained(cr, es))
              && (r.valid ==> r.entries == |es| && r.reason.None?)
              && (!r.valid ==>
                    && r.entries == 0 && r.reason.Some?
                    && var (fault, i) := r.reason.value;
                    && i < |es| && FailsWith(cr, es, i, fault)
                    && forall j :: 0 <= j < i ==> LinkedAndSigned(cr, es, j))
      ensures Valid() ==> r.valid
    {
      hide VerifyMessage, ComputeHash, TileAt, FailsWith, LinkedAndSigned;
      if Valid() {
        ChatOf(cr, View(), chatId);
      }
      WalkMeans(cr, EntriesOf(store.entries, chatId));
      var entries := store.EntriesSince(chatId, 0);
      assert entries == EntriesOf(store.entries, chatId);
      var prevHash := GENESIS_HASH;
      for i := 0 to |entries|
        invariant prevHash == PrevHash(entries, i)
        invariant forall j :: 0 <= j < i ==> FaultAt(cr, entries, j).None?
      {
        var e := entries[i];
        assert FaultAt(cr, entries, i).None? <==> FaultAt(cr, EntriesOf(store.entries, chatId), i).None?;
        if e.sequence != i {
          return VerifyResult(false, 0, Some((SequenceGap, i)));
        }
        if e.prevHash != prevHash {
          return VerifyResult(false, 0, Some((BrokenChain, e.sequence)));
        }
        if !SupportedVersion(e.message.schemaVersion) {
          return VerifyResult(false, 0, Some((UnsupportedVersion, e.sequence)));
        }
        if ComputeHash(cr.sha, e) != e.entryHash {
          return VerifyResult(false, 0, Some((TamperedEntry, e.sequence)));
        }
        if !VerifyMessage(cr.ed, e.message) {
          return VerifyResult(false, 0, Some((BadSignature, e.sequence)));
        }
        prevHash := e.entryHash;
      }
      return VerifyResult(true, |entries|, None);
    }

    /** VerifyEntry: None is ErrNotFound. */
    method VerifyEntry(chatId: string, sequence: nat) returns (r: Option<MessageVerification>)
      ensures var es := EntriesOf(store.entries, chatId);
              && (r.None? <==> sequence >= |es|)
              && (r.Some? ==>
                    var e, prev := es[sequence], if sequence == 0 then GENESIS_HASH else es[sequence - 1].entryHash;
                    && r.value.sequence == sequence && (r.value.valid <==> r.value.reason.None?)
                    && (r.value.reason.Some? ==> EntryFailsWith(cr, e, prev, r.value.reason.value))
                    && (r.value.valid <==>
                          && e.message.schemaVersion == 1 && e.entryHash == ComputeHash(cr.sha, e)
                          && Signed(cr, e.message) && e.prevHash == prev)
                    && r.value.reason == EntryFault(cr, e, PrevHash(es, sequence)))
    {
      hide VerifyMessage, ComputeHash, EntryFailsWith, Signed;
      var found := store.Entry(chatId, sequence);
      if found.None? {
        return None;
      }
      var e := found.value;
      EntryFaultMeans(cr, e, PrevHash(EntriesOf(store.entries, chatId), sequence));
      if !SupportedVersion(e.message.schemaVersion) {
        return Some(MessageVerification(sequence, false, Some(UnsupportedVersion)));
      }
      if ComputeHash(cr.sha, e) != e.entryHash {
        return Some(MessageVerification(sequence, false, Some(TamperedEntry)));
      }
      if !VerifyMessage(cr.ed, e.message) {
        return Some(MessageVerification(sequence, false, Some(BadSignature)));
      }
      var expectedPrev := GENESIS_HASH;
      if sequence > 0 {
        var prev := store.Entry(chatId, sequence - 1);
        if prev.None? {
          return None;
        }
        expectedPrev := prev.value.entryHash;
      }
      if e.prevHash != expectedPrev {
        return Some(MessageVerification(sequence, false, Some(BrokenChain)));
      }
      return Some(MessageVerification(sequence, true, None));
    }

    /** ProveInclusion succeeds exactly below 100 times the number of snapshots, and then the
        proof is right; above, it reports that no snapshot covers the message yet. */
    method ProveInclusion(chatId: string, sequence: nat) returns (r: ProveOutcome)
      requires Valid() && sequence < UINT64_LIMIT && |EntriesOf(store.entries, chatId)| < INT64_LIMIT
      ensures var es, snaps := EntriesOf(store.entries, chatId), SnapshotsOf(store.snapshots, chatId);
              && (r.Proved? <==> sequence < SNAPSHOT_INTERVAL * |snaps|)
              && (!r.Proved? ==> r.NotSnapshotted?)
              && (r.Proved? ==> r.proof.sequence == sequence && ProofRight(cr.sha, chatId, snaps, es, r.proof))
    {
      hide RootOf, ProofOf, Hashes, ProofRight, Since, AsInt, AddU64, SubU64, Chained, Tiled;
      ghost var es, snaps := EntriesOf(store.entries, chatId), SnapshotsOf(store.snapshots, chatId);
      ChatOf(cr, View(), chatId);
      var snapIndex := sequence / SNAPSHOT_INTERVAL;
      ProveInclusionExact(cr, chatId, snaps, es, es, sequence);
      var found := store.SnapshotAtIndex(chatId, snapIndex);
      if found.None? {
        return NotSnapshotted;
      }
      var snap := found.value;
      TileFacts(cr.sha, chatId, snaps, es, snapIndex);
      WindowArithmetic(snap.fromSequence, snap.toSequence, sequence);
      var window := store.EntriesSince(chatId, snap.fromSequence);
      var size := AsInt(AddU64(SubU64(snap.toSequence, snap.fromSequence), 1));
      if |window| < size {
        return WindowIncomplete;
      }
      var leaves := LeafHashes(window[..size]);
      var localIdx := AsInt(SubU64(sequence, snap.fromSequence));
      var proof, root := Proof(cr.sha, leaves, localIdx);
      HashesLength(window[..size]);
      if root != snap.merkleRoot {
        return RootMismatch;
      }
      return Proved(InclusionProof(chatId, sequence, leaves[localIdx], snapIndex, snap.merkleRoot, proof));
    }

    /** Sync with no append in between: the sealed prefix and the new entries make up the
        whole log, the new entries continue the snapshot's last hash, and the current hash
        is that of the last entry. */
    method Sync(chatId: string) returns (b: SyncBundle)
      requires Valid()
      ensures var es, snaps := EntriesOf(store.entries, chatId), SnapshotsOf(store.snapshots, chatId);
              && b.snapshot == LastOf(snaps)
              && NextFrom(snaps, |snaps|) <= |es| < NextFrom(snaps, |snaps|) + SNAPSHOT_INTERVAL
              && es[..NextFrom(snaps, |snaps|)] + b.newEntries == es
              && (snaps != [] ==> snaps[|snaps| - 1].lastEntryHash == PrevHash(es, NextFrom(snaps, |snaps|)))
              && b.currentHash == TipHash(es)
    {
      hide VerifyMessage, ComputeHash, RootOf, Hashes;
      ghost var es, snaps := EntriesOf(store.entries, chatId), SnapshotsOf(store.snapshots, chatId);
      ChatOf(cr, View(), chatId);
      var from := 0;
      var snap := store.LatestSnapshot(chatId);
      if snap.Some? {
        TileFacts(cr.sha, chatId, snaps, es, |snaps| - 1);
        from := snap.value.toSequence + 1;
      }
      var entries := store.EntriesSince(chatId, from);
      assert es[..from] + entries == es;
      var current := GENESIS_HASH;
      var last := store.LastEntry(chatId);
      if last.Some? {
        current := last.value.entryHash;
      }
      return SyncBundle(snap, entries, current);
    }

    /** History: a limit of zero or less means no limit. */
    method History(chatId: string, from: nat, limit: int) returns (page: seq<LogEntry>)
      ensures var es := EntriesOf(store.entries, chatId);
              && (from >= |es| ==> page == [])
              && (from < |es| && (limit <= 0 || from + limit >= |es|) ==> page == es[from..])
              && (limit > 0 && from + limit < |es| ==> page == es[from..from + limit])
      ensures page == Page(EntriesOf(store.entries, chatId), from, limit)
    {
      page := store.EntriesSince(chatId, from);
      if limit > 0 && |page| > limit {
        page := page[..limit];
      }
    }
  }

  function Page(es: seq<LogEntry>, from: nat, limit: int): seq<LogEntry> {
    var rest := Since(es, from);
    if 0 < limit < |rest| then rest[..limit] else rest
  }

  lemma WalkMeans(cr: Crypto, es: seq<LogEntry>)
    ensures forall i :: 0 <= i < |es| ==>
              && (FaultAt(cr, es, i).Some? ==> FailsWith(cr, es, i, FaultAt(cr, es, i).value))
              && (FaultAt(cr, es, i).None? <==> LinkedAndSigned(cr, es, i))
  {
    hide FaultAt, FailsWith, LinkedAndSigned;
    forall i | 0 <= i < |es|
      ensures FaultAt(cr, es, i).Some? ==> FailsWith(cr, es, i, FaultAt(cr, es, i).value)
      ensures FaultAt(cr, es, i).None? <==> LinkedAndSigned(cr, es, i)
    {
      FaultMeans(cr, es, i);
    }
  }

  lemma HashesLength(es: seq<LogEntry>)
    ensures |Hashes(es)| == |es|
  {}

  /** The leaves of a Merkle tree over a window. */
  method LeafHashes(window: seq<LogEntry>) returns (leaves: seq<string>)
    ensures leaves == Hashes(window)
  {
    leaves := [];
    for i := 0 to |window|
      invariant leaves == Hashes(window[..i])
    {
      leaves := leaves + [window[i].entryHash];
    }
    assert window[..|window|] == window;
  }

  lemma TipOfLog(cr: Crypto, chatId: string, es: seq<LogEntry>, snaps: seq<Snapshot>, root: Option<string>)
    requires ChatInv(cr, chatId, es, snaps, root)
    ensures es == [] ==> TipHash(es) == GENESIS_HASH
    ensures es != [] ==> es[|es| - 1].sequence == |es| - 1 && TipHash(es) == es[|es| - 1].entryHash
  {
    if es != [] {
      assert FaultAt(cr, es, |es| - 1).None?;
    }
  }
}
