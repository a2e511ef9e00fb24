/**
 One node, run by any number of threads at once (internal/chatlog/log.go).

 Every storage call, cache write and publication is one atomic step; appenders of a chat
 serialise on its lock, and ProveInclusion and Sync read without it. Each step that
 touches storage may also fail, and a failed write may or may not have been applied.
 A run without faults is the in-memory node; a run with faults is a node over storage
 that can time out. The entries of a chat are those that were stored; what a storage with
 a coarser timestamp column gives back for them is the subject of module Columns.
 */
module NodeRuns {
  import opened Options
  import opened Hashing
  import opened Merkle
  import opened Decimal
  import opened Models
  import opened Chain
  import opened Seals
  import opened Storage
  import opened Broker
  import opened ChatLog

  datatype Outcome = Accepted(entry: LogEntry) | BadVersion | BadSender | StorageFailed | GapHit

  /** Where a thread stands. The readers also remember how much they had seen: seen
      snapshots, and log lengths at and end at their second and third reads. */
  datatype Task =
    | Checking(msg: SignedMessage)                                        // Append called
    | Waiting(msg: SignedMessage)                                         // wants the lock
    | Locked(msg: SignedMessage)                                          // has it, tip not read
    | Ready(entry: LogEntry)                                              // about to store
    | Stored(entry: LogEntry)                                             // about to announce
    | Announced(entry: LogEntry)                                          // about to seal or leave
    | Sealing(entry: LogEntry, from: nat, index: nat)                     // latest snapshot read
    | Rooted(entry: LogEntry, from: nat, index: nat, root: string)        // about to save
    | Sealed(entry: LogEntry, root: string)                               // about to cache
    | RootCached(entry: LogEntry)                                         // about to announce
    | Leaving(outcome: Outcome)                                           // about to unlock
    | Finished(outcome: Outcome)
    | ProveStart(sequence: nat)
    | ProveRead(sequence: nat, snap: Snapshot, seen: nat)
    | ProveDone(sequence: nat, seen: nat, result: ProveOutcome)
    | SyncStart
    | SyncRead(latest: Option<Snapshot>, seen: nat)
    | SyncFetched(latest: Option<Snapshot>, seen: nat, newEntries: seq<LogEntry>, at: nat)
    | SyncDone(bundle: SyncBundle, seen: nat, at: nat, end: nat)
    | ReadFailed

  /** What is shared about one chat: its rows in the store, its cached root, its events in
      the order they were published, and its lock. */
  datatype Chat = Chat(
    entries: seq<LogEntry>, snaps: seq<Snapshot>, root: Option<string>, events: seq<Event>, lock: Option<nat>)

  const EMPTY_CHAT := Chat([], [], None, [], None)

  predicate Holds(task: Task) {
    || task.Locked? || task.Ready? || task.Stored? || task.Announced? || task.Sealing? || task.Rooted?
    || task.Sealed? || task.RootCached? || task.Leaving?
  }

  // ---------------------------------------------------------------- steps

  /** What a step publishes. */
  function Announcement(c: string, task: Task, io: Io): (events: seq<Event>)
    ensures |events| <= 1
  {
    if io.FailedClean? then []
    else
      match task
      case Stored(e) => [Event(EntryAppended, c, e.sequence, e.entryHash)]
      case RootCached(e) => [Event(SnapshotCreated, c, e.sequence, e.entryHash)]
      case _ => []
  }

  function AppendStep(cr: Crypto, c: string, chat: Chat, t: nat, task: Task, io: Io): (Chat, Task) {
    match task
    case Checking(m) =>
      if !SupportedVersion(m.schemaVersion) then (chat, Finished(BadVersion))
      else if !VerifyMessage(cr.ed, m) then (chat, Finished(BadSender))
      else (chat, Waiting(m))
    case Waiting(m) =>
      if chat.lock.None? then (chat.(lock := Some(t)), Locked(m)) else (chat, task)
    case Locked(m) =>
      if !io.Done? then (chat, Leaving(StorageFailed)) else (chat, Ready(EntryAfter(cr, LastOf(chat.entries), m)))
    case Ready(e) =>
      if |chat.entries| != e.sequence then (chat, Leaving(GapHit))
      else if |chat.entries| + 1 >= INT64_LIMIT then (chat, task)
      else
        var stored := chat.(entries := chat.entries + [e]);
        (match io
         case Done => (stored, Stored(e))
         case FailedClean => (chat, Leaving(StorageFailed))
         case FailedApplied => (stored, Leaving(StorageFailed)))
    case Stored(e) =>
      (chat.(events := chat.events + Announcement(c, task, io)), Announced(e))
    case Announced(e) =>
      if (e.sequence + 1) % SNAPSHOT_INTERVAL != 0 then (chat, Leaving(Accepted(e)))
      else if !io.Done? then (chat, Leaving(StorageFailed))
      else
        var prev := LastOf(chat.snaps);
        (chat, if prev.Some? then Sealing(e, prev.value.toSequence + 1, prev.value.index + 1) else Sealing(e, 0, 0))
    case Sealing(e, from, index) =>
      if !io.Done? then (chat, Leaving(StorageFailed))
      else (chat, Rooted(e, from, index, RootOf(cr.sha, Hashes(Since(chat.entries, from)))))
    case Rooted(e, from, index, root) =>
      var saved := chat.(snaps := chat.snaps + [Snapshot(c, index, from, e.sequence, root, e.entryHash)]);
      (match io
       case Done => (saved, Sealed(e, root))
       case FailedClean => (chat, Leaving(StorageFailed))
       case FailedApplied => (saved, Leaving(StorageFailed)))
    case Sealed(e, root) =>
      (if io.FailedClean? then chat else chat.(root := Some(root)), RootCached(e))
    case RootCached(e) =>
      (chat.(events := chat.events + Announcement(c, task, io)), Leaving(Accepted(e)))
    case Leaving(outcome) =>
      (chat.(lock := None), Finished(outcome))
    case _ => (chat, task)
  }

  /** The unlocked readers change nothing shared. */
  function ReadStep(cr: Crypto, c: string, chat: Chat, task: Task, io: Io): Task {
    match task
    case ProveStart(sequence) =>
      if !io.Done? then ReadFailed
      else
        var snap := SnapshotAt(chat.snaps, sequence / SNAPSHOT_INTERVAL);
        if snap.None? then ProveDone(sequence, |chat.snaps|, NotSnapshotted)
        else ProveRead(sequence, snap.value, |chat.snaps|)
    case ProveRead(sequence, snap, seen) =>
      if !io.Done? then ReadFailed
      else ProveDone(sequence, seen, ProveFrom(cr.sha, c, sequence, Some(snap), Since(chat.entries, snap.fromSequence)))
    case SyncStart =>
      if !io.Done? then ReadFailed else SyncRead(LastOf(chat.snaps), |chat.snaps|)
    case SyncRead(latest, seen) =>
      var from := if latest.Some? then latest.value.toSequence + 1 else 0;
      if !io.Done? then ReadFailed else SyncFetched(latest, seen, Since(chat.entries, from), |chat.entries|)
    case SyncFetched(latest, seen, newEntries, at) =>
      var last := LastOf(chat.entries);
      var current := if last.Some? then last.value.entryHash else GENESIS_HASH;
      if !io.Done? then ReadFailed else SyncDone(SyncBundle(latest, newEntries, current), seen, at, |chat.entries|)
    case _ => task
  }

  predicate Reads(task: Task) {
    || task.ProveStart? || task.ProveRead? || task.ProveDone? || task.SyncStart? || task.SyncRead? || task.SyncFetched?
    || task.SyncDone? || task.ReadFailed?
  }

  function ChatStep(cr: Crypto, c: string, chat: Chat, t: nat, task: Task, io: Io): (Chat, Task) {
    if Reads(task) then (chat, ReadStep(cr, c, chat, task, io)) else AppendStep(cr, c, chat, t, task, io)
  }

  // ---------------------------------------------------------------- what holds of a chat

  ghost predicate Grows(chat: Chat, chat': Chat) {
    chat.entries <= chat'.entries && chat.snaps <= chat'.snaps && chat.events <= chat'.events
  }

  /** Contiguous, linked and signed entries of this chat alone; snapshots that tile them. */
  ghost predicate LogGood(cr: Crypto, c: string, entries: seq<LogEntry>, snaps: seq<Snapshot>) {
    && Chained(cr, entries)
    && |entries| < INT64_LIMIT
    && (forall i :: 0 <= i < |entries| ==> entries[i].message.chatId == c)
    && Tiled(cr.sha, c, snaps, entries)
  }

  /** Announcements of entries name stored entries below bound, in increasing order. */
  ghost predicate EventsGood(c: string, events: seq<Event>, entries: seq<LogEntry>, bound: nat) {
    && bound <= |entries|
    && (forall i :: 0 <= i < |events| && events[i].kind == EntryAppended ==>
          events[i].chatId == c && events[i].sequence < bound && events[i].entryHash == entries[events[i].sequence].entryHash)
    && (forall i, j :: 0 <= i < j < |events| && events[i].kind == events[j].kind == EntryAppended ==>
          events[i].sequence < events[j].sequence)
  }

  function Bound(entries: seq<LogEntry>, holder: Option<Task>): nat {
    if holder.Some? && holder.value.Stored? then holder.value.entry.sequence else |entries|
  }

  /** The lock holder is between storing a boundary entry and saving its snapshot. */
  predicate SealPending(holder: Option<Task>) {
    holder.Some? &&
    match holder.value
    case Stored(e) => (e.sequence + 1) % SNAPSHOT_INTERVAL == 0
    case Announced(e) => (e.sequence + 1) % SNAPSHOT_INTERVAL == 0
    case Sealing(_, _, _) => true
    case Rooted(_, _, _, _) => true
    case _ => false
  }

  /** Without faults snapshots and cached root lag only inside the holder's seal. */
  ghost predicate Settled(entries: seq<LogEntry>, snaps: seq<Snapshot>, root: Option<string>, holder: Option<Task>) {
    && Regular(snaps)
    && |snaps| + (if SealPending(holder) then 1 else 0) == |entries| / SNAPSHOT_INTERVAL
    && root == (if holder.Some? && holder.value.Sealed? && snaps != [] then LatestRoot(snaps[..|snaps| - 1]) else LatestRoot(snaps))
  }

  ghost predicate ChatGood(cr: Crypto, faults: bool, c: string, chat: Chat, holder: Option<Task>) {
    && LogGood(cr, c, chat.entries, chat.snaps)
    && EventsGood(c, chat.events, chat.entries, Bound(chat.entries, holder))
    && (!faults ==> Settled(chat.entries, chat.snaps, chat.root, holder))
  }

  // ---------------------------------------------------------------- what holds of a thread

  ghost predicate AtTip(entries: seq<LogEntry>, e: LogEntry) {
    entries != [] && e == entries[|entries| - 1] && e.sequence == |entries| - 1
  }

  ghost predicate ToSeal(chat: Chat, e: LogEntry) {
    AtTip(chat.entries, e) && NextFrom(chat.snaps, |chat.snaps|) < |chat.entries|
  }

  ghost predicate AppenderGood(cr: Crypto, c: string, chat: Chat, task: Task) {
    match task
    case Checking(m) => m.chatId == c
    case Waiting(m) => m.chatId == c && Acceptable(cr, m)
    case Locked(m) => m.chatId == c && Acceptable(cr, m)
    case Ready(e) => e.message.chatId == c && Acceptable(cr, e.message) && e == NextEntry(cr, chat.entries, e.message)
    case Stored(e) => ToSeal(chat, e)
    case Announced(e) => ToSeal(chat, e)
    case Sealing(e, from, index) =>
      && ToSeal(chat, e) && (e.sequence + 1) % SNAPSHOT_INTERVAL == 0
      && from == NextFrom(chat.snaps, |chat.snaps|) && index == |chat.snaps|
    case Rooted(e, from, index, root) =>
      && ToSeal(chat, e) && (e.sequence + 1) % SNAPSHOT_INTERVAL == 0
      && from == NextFrom(chat.snaps, |chat.snaps|) && index == |chat.snaps|
      && root == RootOf(cr.sha, Hashes(Since(chat.entries, from)))
    case Sealed(e, root) => AtTip(chat.entries, e) && chat.snaps != [] && LatestRoot(chat.snaps) == Some(root)
    case RootCached(e) => AtTip(chat.entries, e)
    case Leaving(outcome) => OutcomeGood(chat.entries, outcome)
    case Finished(outcome) => OutcomeGood(chat.entries, outcome)
    case _ => true
  }

  /** The store never reports a gap, and an accepted entry is in the log. */
  ghost predicate OutcomeGood(entries: seq<LogEntry>, outcome: Outcome) {
    && !outcome.GapHit?
    && (outcome.Accepted? ==> outcome.entry.sequence < |entries| && entries[outcome.entry.sequence] == outcome.entry)
  }

  /** A finished ProveInclusion, judged against the chat as it is now: whatever was appended
      meanwhile, it succeeded exactly when the snapshot it needed existed at its first read
      and starts at the matching hundred, and its proof is right. */
  ghost predicate ProveGood(h: Hasher, faults: bool, c: string, chat: Chat, sequence: nat, seen: nat, r: ProveOutcome) {
    var k := sequence / SNAPSHOT_INTERVAL;
    && seen <= |chat.snaps|
    && (r.NotSnapshotted? <==> k >= seen)
    && (r.Proved? <==> k < seen && chat.snaps[k].fromSequence == SNAPSHOT_INTERVAL * k)
    && (r.RootMismatch? <==> k < seen && chat.snaps[k].fromSequence != SNAPSHOT_INTERVAL * k)
    && (r.Proved? ==> r.proof.sequence == sequence && ProofRight(h, c, chat.snaps, chat.entries, r.proof))
    && (!faults ==> (r.Proved? <==> sequence < SNAPSHOT_INTERVAL * seen))
  }

  ghost predicate LatestGood(chat: Chat, latest: Option<Snapshot>, seen: nat) {
    seen <= |chat.snaps| && latest == LastOf(chat.snaps[..seen])
  }

  ghost predicate FetchedGood(chat: Chat, latest: Option<Snapshot>, seen: nat, newEntries: seq<LogEntry>, at: nat) {
    && LatestGood(chat, latest, seen)
    && NextFrom(chat.snaps, seen) <= at <= |chat.entries|
    && newEntries == chat.entries[NextFrom(chat.snaps, seen)..at]
  }

  ghost predicate ReaderGood(cr: Crypto, faults: bool, c: string, chat: Chat, task: Task) {
    match task
    case ProveStart(sequence) => sequence < UINT64_LIMIT
    case ProveRead(sequence, snap, seen) =>
      && sequence < UINT64_LIMIT && seen <= |chat.snaps|
      && sequence / SNAPSHOT_INTERVAL < seen && snap == chat.snaps[sequence / SNAPSHOT_INTERVAL]
    case ProveDone(sequence, seen, r) => ProveGood(cr.sha, faults, c, chat, sequence, seen, r)
    case SyncRead(latest, seen) => LatestGood(chat, latest, seen)
    case SyncFetched(latest, seen, newEntries, at) => FetchedGood(chat, latest, seen, newEntries, at)
    case SyncDone(bundle, seen, at, end) =>
      && FetchedGood(chat, bundle.snapshot, seen, bundle.newEntries, at)
      && at <= end <= |chat.entries| && bundle.currentHash == PrevHash(chat.entries, end)
    case _ => true
  }

  ghost predicate TaskGood(cr: Crypto, faults: bool, c: string, chat: Chat, task: Task) {
    if Reads(task) then ReaderGood(cr, faults, c, chat, task) else AppenderGood(cr, c, chat, task)
  }

  // ---------------------------------------------------------------- one step keeps it

  ghost predicate Before(cr: Crypto, faults: bool, c: string, chat: Chat, t: nat, task: Task, holder: Option<Task>) {
    && ChatGood(cr, faults, c, chat, holder)
    && TaskGood(cr, faults, c, chat, task)
    && (Holds(task) <==> chat.lock == Some(t))
    && (chat.lock == Some(t) ==> holder == Some(task))
    && (chat.lock.None? ==> holder.None?)
  }

  function HolderAfter(chat': Chat, t: nat, task': Task, holder: Option<Task>): Option<Task> {
    if chat'.lock == Some(t) then Some(task') else if chat'.lock.None? then None else holder
  }

  ghost predicate After(cr: Crypto, faults: bool, c: string, chat: Chat, t: nat, holder: Option<Task>, chat': Chat,
                        task': Task) {
    && Grows(chat, chat')
    && TaskGood(cr, faults, c, chat', task')
    && (Holds(task') <==> chat'.lock == Some(t))
    && (chat.lock.Some? && chat.lock != Some(t) ==> chat'.lock == chat.lock)
    && (chat.lock.None? ==> chat'.lock.None? || chat'.lock == Some(t))
    && (chat.lock == Some(t) ==> chat'.lock.None? || chat'.lock == Some(t))
    && ChatGood(cr, faults, c, chat', HolderAfter(chat', t, task', holder))
  }

  lemma {:induction false} KeepsEntering(cr: Crypto, faults: bool, c: string, chat: Chat, t: nat, task: Task,
                                         holder: Option<Task>, io: Io)
    requires Before(cr, faults, c, chat, t, task, holder) && (faults || io.Done?)
    requires task.Checking? || task.Waiting? || task.Leaving? || task.Finished?
    ensures var (chat', task') := AppendStep(cr, c, chat, t, task, io);
            After(cr, faults, c, chat, t, holder, chat', task')
  {
    hide LogGood, EventsGood, VerifyMessage, Regular;
  }

  lemma {:induction false} KeepsLocked(cr: Crypto, faults: bool, c: string, chat: Chat, t: nat, task: Task,
                                       holder: Option<Task>, io: Io)
    requires Before(cr, faults, c, chat, t, task, holder) && (faults || io.Done?)
    requires task.Locked?
    ensures var (chat', task') := AppendStep(cr, c, chat, t, task, io);
            After(cr, faults, c, chat, t, holder, chat', task')
  {
    hide EventsGood, VerifyMessage, Regular, Tiled, ComputeHash;
    if chat.entries != [] {
      assert FaultAt(cr, chat.entries, |chat.entries| - 1).None?;
    }
  }

  /** Under the lock the store never sees a sequence other than its length. */
  lemma {:induction false} KeepsReady(cr: Crypto, faults: bool, c: string, chat: Chat, t: nat, task: Task,
                                      holder: Option<Task>, io: Io)
    requires Before(cr, faults, c, chat, t, task, holder) && (faults || io.Done?)
    requires task.Ready?
    ensures var (chat', task') := AppendStep(cr, c, chat, t, task, io);
            After(cr, faults, c, chat, t, holder, chat', task')
  {
    hide VerifyMessage, Regular, TileAt, ComputeHash, Chained;
    var e, es := task.entry, chat.entries;
    NextEntryIsSound(cr, es, e.message);
    ChainedExtends(cr, es, e.message);
    TiledExtends(cr.sha, c, chat.snaps, es, es + [e]);
    NextFromAligned(cr.sha, c, chat.snaps, es, |chat.snaps|);
    assert EventsGood(c, chat.events, es + [e], |es|);
  }

  lemma KeepsStored(cr: Crypto, faults: bool, c: string, chat: Chat, t: nat, task: Task, holder: Option<Task>, io: Io)
    requires Before(cr, faults, c, chat, t, task, holder) && (faults || io.Done?)
    requires task.Stored?
    ensures var (chat', task') := AppendStep(cr, c, chat, t, task, io);
            After(cr, faults, c, chat, t, holder, chat', task')
  {
    hide LogGood, Regular, NextFrom;
  }

  /** The next snapshot starts after the latest and takes the next index. */
  lemma NextSeal(h: Hasher, c: string, snaps: seq<Snapshot>, es: seq<LogEntry>)
    requires Tiled(h, c, snaps, es)
    ensures LastOf(snaps).None? ==> NextFrom(snaps, |snaps|) == 0 && |snaps| == 0
    ensures LastOf(snaps).Some? ==>
              LastOf(snaps).value.toSequence + 1 == NextFrom(snaps, |snaps|) && LastOf(snaps).value.index + 1 == |snaps|
  {
    hide Tiled, RootOf, Hashes;
    if snaps != [] {
      TileFacts(h, c, snaps, es, |snaps| - 1);
    }
  }

  lemma KeepsAnnounced(cr: Crypto, faults: bool, c: string, chat: Chat, t: nat, task: Task, holder: Option<Task>,
                       io: Io)
    requires Before(cr, faults, c, chat, t, task, holder) && (faults || io.Done?)
    requires task.Announced?
    ensures var (chat', task') := AppendStep(cr, c, chat, t, task, io);
            After(cr, faults, c, chat, t, holder, chat', task')
  {
    hide EventsGood, Regular, Chained, Tiled, NextFrom, LastOf, LatestRoot;
    NextSeal(cr.sha, c, chat.snaps, chat.entries);
  }

  lemma KeepsSealing(cr: Crypto, faults: bool, c: string, chat: Chat, t: nat, task: Task, holder: Option<Task>, io: Io)
    requires Before(cr, faults, c, chat, t, task, holder) && (faults || io.Done?)
    requires task.Sealing?
    ensures var (chat', task') := AppendStep(cr, c, chat, t, task, io);
            After(cr, faults, c, chat, t, holder, chat', task')
  {
    hide LogGood, EventsGood, Regular, NextFrom, LatestRoot, RootOf, Hashes, Since;
  }

  /** Saving the snapshot completes the tiling. */
  lemma SavedTiles(cr: Crypto, c: string, chat: Chat, e: LogEntry, from: nat, index: nat, root: string)
    requires LogGood(cr, c, chat.entries, chat.snaps) && AppenderGood(cr, c, chat, Rooted(e, from, index, root))
    ensures var snaps := chat.snaps + [Snapshot(c, index, from, e.sequence, root, e.entryHash)];
            && LogGood(cr, c, chat.entries, snaps)
            && snaps[..|snaps| - 1] == chat.snaps && LatestRoot(snaps) == Some(root)
            && (Regular(chat.snaps) && |chat.snaps| + 1 == |chat.entries| / SNAPSHOT_INTERVAL ==> Regular(snaps))
  {
    hide Chained, RootOf, Hashes, TileAt;
    var es := chat.entries;
    TiledSeals(cr.sha, c, chat.snaps, es);
    assert Since(es, from) == es[from..|es|];
    var s := SealOf(cr.sha, c, |chat.snaps|, es, from, |es| - 1);
    assert s == Snapshot(c, index, from, e.sequence, root, e.entryHash);
    assert (chat.snaps + [s])[..|chat.snaps|] == chat.snaps;
  }

  lemma {:induction false} KeepsRooted(cr: Crypto, faults: bool, c: string, chat: Chat, t: nat, task: Task,
                                       holder: Option<Task>, io: Io)
    requires Before(cr, faults, c, chat, t, task, holder) && (faults || io.Done?)
    requires task.Rooted?
    ensures var (chat', task') := AppendStep(cr, c, chat, t, task, io);
            After(cr, faults, c, chat, t, holder, chat', task')
  {
    hide LogGood, EventsGood, Regular, LatestRoot, RootOf, Hashes, NextFrom;
    SavedTiles(cr, c, chat, task.entry, task.from, task.index, task.root);
  }

  lemma KeepsSealed(cr: Crypto, faults: bool, c: string, chat: Chat, t: nat, task: Task, holder: Option<Task>, io: Io)
    requires Before(cr, faults, c, chat, t, task, holder) && (faults || io.Done?)
    requires task.Sealed? || task.RootCached?
    ensures var (chat', task') := AppendStep(cr, c, chat, t, task, io);
            After(cr, faults, c, chat, t, holder, chat', task')
  {
    hide LogGood, Regular;
  }

  lemma KeepsReading(cr: Crypto, faults: bool, c: string, chat: Chat, t: nat, task: Task, holder: Option<Task>, io: Io)
    requires Before(cr, faults, c, chat, t, task, holder) && (faults || io.Done?) && Reads(task)
    ensures After(cr, faults, c, chat, t, holder, chat, ReadStep(cr, c, chat, task, io))
  {
    hide LogGood, EventsGood, Settled, ProveFrom, ReaderGood, SnapshotAt, LastOf;
    if task.ProveStart? || task.ProveRead? || task.ProveDone? {
      ProveReads(cr, faults, c, chat, task, io, holder);
    } else {
      SyncReads(cr, faults, c, chat, task, io);
    }
  }

  lemma ProveReads(cr: Crypto, faults: bool, c: string, chat: Chat, task: Task, io: Io, holder: Option<Task>)
    requires ReaderGood(cr, faults, c, chat, task) && ChatGood(cr, faults, c, chat, holder)
    requires task.ProveStart? || task.ProveRead? || task.ProveDone?
    ensures ReaderGood(cr, faults, c, chat, ReadStep(cr, c, chat, task, io)) && Reads(ReadStep(cr, c, chat, task, io))
  {
    hide EventsGood, ProveFrom, ProofRight, Chained, Tiled, Since;
    if task.ProveRead? {
      ProveInclusionExact(cr, c, chat.snaps, chat.entries, chat.entries, task.sequence);
    }
  }

  lemma SyncReads(cr: Crypto, faults: bool, c: string, chat: Chat, task: Task, io: Io)
    requires ReaderGood(cr, faults, c, chat, task) && LogGood(cr, c, chat.entries, chat.snaps)
    requires task.SyncStart? || task.SyncRead? || task.SyncFetched? || task.SyncDone? || task.ReadFailed?
    ensures ReaderGood(cr, faults, c, chat, ReadStep(cr, c, chat, task, io)) && Reads(ReadStep(cr, c, chat, task, io))
  {
    hide Chained, TileAt;
    if task.SyncStart? {
      assert chat.snaps[..|chat.snaps|] == chat.snaps;
    } else if task.SyncRead? {
      NextFromAligned(cr.sha, c, chat.snaps, chat.entries, task.seen);
    }
  }

  lemma {:induction false} ChatStepKeeps(cr: Crypto, faults: bool, c: string, chat: Chat, t: nat, task: Task,
                                         holder: Option<Task>, io: Io)
    requires Before(cr, faults, c, chat, t, task, holder) && (faults || io.Done?)
    ensures var (chat', task') := ChatStep(cr, c, chat, t, task, io);
            After(cr, faults, c, chat, t, holder, chat', task')
  {
    hide Before, After, AppendStep, ReadStep;
    match task
    case Locked(_) => KeepsLocked(cr, faults, c, chat, t, task, holder, io);
    case Ready(_) => KeepsReady(cr, faults, c, chat, t, task, holder, io);
    case Stored(_) => KeepsStored(cr, faults, c, chat, t, task, holder, io);
    case Announced(_) => KeepsAnnounced(cr, faults, c, chat, t, task, holder, io);
    case Sealing(_, _, _) => KeepsSealing(cr, faults, c, chat, t, task, holder, io);
    case Rooted(_, _, _, _) => KeepsRooted(cr, faults, c, chat, t, task, holder, io);
    case Sealed(_, _) => KeepsSealed(cr, faults, c, chat, t, task, holder, io);
    case RootCached(_) => KeepsSealed(cr, faults, c, chat, t, task, holder, io);
    case _ =>
      if Reads(task) {
        KeepsReading(cr, faults, c, chat, t, task, holder, io);
      } else {
        KeepsEntering(cr, faults, c, chat, t, task, holder, io);
      }
  }

  /** What a thread knows survives every other thread's step. */
  lemma OthersUnmoved(cr: Crypto, faults: bool, c: string, chat: Chat, chat': Chat, task: Task)
    requires TaskGood(cr, faults, c, chat, task) && Grows(chat, chat')
    requires Holds(task) ==> chat'.entries == chat.entries && chat'.snaps == chat.snaps
    ensures TaskGood(cr, faults, c, chat', task)
  {
    hide AppenderGood, ReaderGood;
    if Reads(task) {
      ReadersUnmoved(cr, faults, c, chat, chat', task);
    } else {
      AppendersUnmoved(cr, c, chat, chat', task);
    }
  }

  lemma AppendersUnmoved(cr: Crypto, c: string, chat: Chat, chat': Chat, task: Task)
    requires AppenderGood(cr, c, chat, task) && Grows(chat, chat')
    requires Holds(task) ==> chat'.entries == chat.entries && chat'.snaps == chat.snaps
    ensures AppenderGood(cr, c, chat', task)
  {
    hide Acceptable, NextEntry, RootOf, Hashes, Since, NextFrom, LatestRoot;
  }

  lemma ReadersUnmoved(cr: Crypto, faults: bool, c: string, chat: Chat, chat': Chat, task: Task)
    requires ReaderGood(cr, faults, c, chat, task) && Grows(chat, chat')
    ensures ReaderGood(cr, faults, c, chat', task)
  {
    hide ProofRight;
    match task
    case ProveDone(_, _, r) =>
      if r.Proved? {
        ProofStaysRight(cr.sha, c, chat.snaps, chat.entries, chat'.snaps, chat'.entries, r.proof);
      }
    case SyncRead(_, seen) => PrefixTakes(chat.snaps, chat'.snaps, seen);
    case SyncFetched(_, seen, _, _) => PrefixTakes(chat.snaps, chat'.snaps, seen);
    case SyncDone(_, seen, _, _) => PrefixTakes(chat.snaps, chat'.snaps, seen);
    case _ =>
  }

  lemma PrefixTakes(snaps: seq<Snapshot>, snaps': seq<Snapshot>, seen: nat)
    requires snaps <= snaps' && seen <= |snaps|
    ensures snaps'[..seen] == snaps[..seen] && NextFrom(snaps', seen) == NextFrom(snaps, seen)
  {}

  // ---------------------------------------------------------------- whole runs

  datatype Thread = Thread(chatId: string, task: Task)

  /** subs holds, for each subscription ever made, everything that has happened to it; what
      its reader sees is Broker.Run of that. */
  datatype World = World(chats: map<string, Chat>, threads: map<nat, Thread>, subs: map<nat, seq<Op>>)

  /** A thread appears with a call to make, or takes its next step; or a subscriber comes,
      takes an event or cancels. */
  datatype Action =
    | Spawn(id: nat, chatId: string, call: Task)
    | Run(id: nat, io: Io)
    | Subscribe(sub: nat)
    | TakeEvent(sub: nat)
    | Unsubscribe(sub: nat)

  /** One thing happens to every subscription. */
  function ToAll(subs: map<nat, seq<Op>>, op: Op): map<nat, seq<Op>> {
    map id | id in subs :: subs[id] + [op]
  }

  function Broadcast(subs: map<nat, seq<Op>>, events: seq<Event>): map<nat, seq<Op>>
    requires |events| <= 1
  {
    if events == [] then subs else ToAll(subs, Op.Publish(events[0]))
  }

  predicate Call(c: string, task: Task) {
    || (task.Checking? && task.msg.chatId == c)
    || (task.ProveStart? && task.sequence < UINT64_LIMIT)
    || task.SyncStart?
  }

  function Look(w: World, c: string): Chat {
    if c in w.chats then w.chats[c] else EMPTY_CHAT
  }

  function Apply(cr: Crypto, w: World, a: Action): World {
    match a
    case Spawn(t, c, task) =>
      if t in w.threads || !Call(c, task) then w else w.(threads := w.threads[t := Thread(c, task)])
    case Run(t, io) =>
      if t !in w.threads then w
      else
        var c := w.threads[t].chatId;
        var (chat', task') := ChatStep(cr, c, Look(w, c), t, w.threads[t].task, io);
        World(w.chats[c := chat'], w.threads[t := Thread(c, task')], Broadcast(w.subs, Announcement(c, w.threads[t].task, io)))
    case Subscribe(id) => if id in w.subs then w else w.(subs := w.subs[id := []])
    case TakeEvent(id) => if id !in w.subs then w else w.(subs := w.subs[id := w.subs[id] + [Op.Receive]])
    case Unsubscribe(id) => if id !in w.subs then w else w.(subs := w.subs[id := w.subs[id] + [Op.Cancel]])
  }

  function RunAll(cr: Crypto, actions: seq<Action>): World
    decreases |actions|
  {
    if actions == [] then World(map[], map[], map[])
    else Apply(cr, RunAll(cr, actions[..|actions| - 1]), actions[|actions| - 1])
  }

  ghost predicate Faultless(actions: seq<Action>) {
    forall i :: 0 <= i < |actions| && actions[i].Run? ==> actions[i].io.Done?
  }

  function Holder(w: World, chat: Chat): Option<Task> {
    if chat.lock.Some? && chat.lock.value in w.threads then Some(w.threads[chat.lock.value].task) else None
  }

  ghost predicate ThreadGood(cr: Crypto, faults: bool, w: World, t: nat)
    requires t in w.threads
  {
    var c, task := w.threads[t].chatId, w.threads[t].task;
    (Holds(task) <==> Look(w, c).lock == Some(t)) && TaskGood(cr, faults, c, Look(w, c), task)
  }

  /** The lock of a chat is held by a thread of that chat, inside its critical section. */
  ghost predicate SharedGood(cr: Crypto, faults: bool, w: World, c: string) {
    var chat := Look(w, c);
    && ChatGood(cr, faults, c, chat, Holder(w, chat))
    && (chat.lock.Some? ==>
          && chat.lock.value in w.threads && w.threads[chat.lock.value].chatId == c
          && Holds(w.threads[chat.lock.value].task))
  }

  ghost predicate Inv(cr: Crypto, faults: bool, w: World) {
    && (forall c :: SharedGood(cr, faults, w, c))
    && (forall t :: t in w.threads ==> ThreadGood(cr, faults, w, t))
  }

  lemma SpawnKeepsInv(cr: Crypto, faults: bool, w: World, a: Action)
    requires Inv(cr, faults, w) && a.Spawn?
    ensures Inv(cr, faults, Apply(cr, w, a))
  {
    hide ChatGood, AppenderGood, ReaderGood;
    var w' := Apply(cr, w, a);
    if w' != w {
      forall c
        ensures SharedGood(cr, faults, w', c)
      {
        assert SharedGood(cr, faults, w, c);
      }
      forall t | t in w'.threads
        ensures ThreadGood(cr, faults, w', t)
      {
        if t == a.id {
          assert SharedGood(cr, faults, w, a.chatId);
          CallIsGood(cr, faults, a.chatId, Look(w, a.chatId), a.call);
        } else {
          assert ThreadGood(cr, faults, w, t);
        }
      }
    }
  }

  lemma CallIsGood(cr: Crypto, faults: bool, c: string, chat: Chat, task: Task)
    requires Call(c, task)
    ensures TaskGood(cr, faults, c, chat, task) && !Holds(task)
  {}

  lemma {:induction false} RunKeepsInv(cr: Crypto, faults: bool, w: World, a: Action)
    requires Inv(cr, faults, w) && a.Run? && (faults || a.io.Done?)
    ensures Inv(cr, faults, Apply(cr, w, a))
  {
    hide ChatGood, TaskGood, ChatStep, Grows, Holds;
    if a.id in w.threads {
      var t, c, task := a.id, w.threads[a.id].chatId, w.threads[a.id].task;
      var chat := Look(w, c);
      var (chat', task') := ChatStep(cr, c, chat, t, task, a.io);
      var w' := Apply(cr, w, a);
      assert SharedGood(cr, faults, w, c) && ThreadGood(cr, faults, w, t);
      ChatStepKeeps(cr, faults, c, chat, t, task, Holder(w, chat), a.io);
      forall d
        ensures SharedGood(cr, faults, w', d)
      {
        assert SharedGood(cr, faults, w, d);
      }
      forall u | u in w'.threads
        ensures ThreadGood(cr, faults, w', u)
      {
        if u != t {
          assert ThreadGood(cr, faults, w, u);
          if w.threads[u].chatId == c {
            OnlyHolderWrites(cr, c, chat, t, task, a.io);
            OthersUnmoved(cr, faults, c, chat, chat', w.threads[u].task);
          }
        }
      }
    }
  }

  /** Log and snapshots change only by the step of the thread that holds the lock. */
  lemma OnlyHolderWrites(cr: Crypto, c: string, chat: Chat, t: nat, task: Task, io: Io)
    ensures !Holds(task) ==>
              ChatStep(cr, c, chat, t, task, io).0.entries == chat.entries
              && ChatStep(cr, c, chat, t, task, io).0.snaps == chat.snaps
  {
    hide EntryAfter, ReadStep;
  }

  lemma SubscribersOnlyRead(cr: Crypto, faults: bool, w: World, a: Action)
    requires Inv(cr, faults, w) && !a.Spawn? && !a.Run?
    ensures Inv(cr, faults, Apply(cr, w, a))
  {
    hide ChatGood, TaskGood, Holds;
    var w' := Apply(cr, w, a);
    forall c
      ensures SharedGood(cr, faults, w', c)
    {
      assert SharedGood(cr, faults, w, c);
    }
    forall t | t in w'.threads
      ensures ThreadGood(cr, faults, w', t)
    {
      assert ThreadGood(cr, faults, w, t);
    }
  }

  /** In every run, of any number of threads over any chats, the invariant holds after
      every step. */
  lemma {:induction false} EveryRunGood(cr: Crypto, actions: seq<Action>, faults: bool)
    requires faults || Faultless(actions)
    ensures Inv(cr, faults, RunAll(cr, actions))
    decreases |actions|
  {
    hide SharedGood, ThreadGood, Apply;
    if actions == [] {
      EmptyWorldGood(cr, faults);
    } else {
      var init, last := actions[..|actions| - 1], actions[|actions| - 1];
      EveryRunGood(cr, init, faults);
      if last.Spawn? {
        SpawnKeepsInv(cr, faults, RunAll(cr, init), last);
      } else if last.Run? {
        RunKeepsInv(cr, faults, RunAll(cr, init), last);
      } else {
        SubscribersOnlyRead(cr, faults, RunAll(cr, init), last);
      }
    }
  }

  lemma EmptyWorldGood(cr: Crypto, faults: bool)
    ensures Inv(cr, faults, World(map[], map[], map[]))
  {}

  // ---------------------------------------------------------------- what runs guarantee

  /** Interleaving safety of one node. After every step of every run without faults, each
      chat's log is contiguous, linked and signed, its snapshots cover the first hundreds
      exactly, one per hundred unless the lock holder is between storing a boundary entry
      and saving its snapshot, and the cached root is the latest unless the holder is
      between saving and caching. No append ever meets a sequence gap. */
  lemma NodeSafety(cr: Crypto, actions: seq<Action>, c: string)
    requires Faultless(actions)
    ensures var w := RunAll(cr, actions);
            var chat := Look(w, c);
            var holder := Holder(w, chat);
            && LogGood(cr, c, chat.entries, chat.snaps)
            && (forall i :: 0 <= i < |chat.entries| ==> LinkedAndSigned(cr, chat.entries, i))
            && Settled(chat.entries, chat.snaps, chat.root, holder)
            && (chat.lock.None? ==>
                  |chat.snaps| == |chat.entries| / SNAPSHOT_INTERVAL && chat.root == LatestRoot(chat.snaps))
            && (forall t :: t in w.threads && w.threads[t].task.Finished? ==> !w.threads[t].task.outcome.GapHit?)
  {
    hide TaskGood, LogGood, Regular, LinkedAndSigned;
    EveryRunGood(cr, actions, false);
    assert SharedGood(cr, false, RunAll(cr, actions), c);
    LogIsChained(cr, c, Look(RunAll(cr, actions), c));
    ChainedMeans(cr, Look(RunAll(cr, actions), c).entries);
    OutcomesGood(cr, actions, false);
  }

  /** In particular: a hundred entries have one snapshot, over 0..99, and ninety-nine none. */
  lemma {:induction false} HundredEntries(cr: Crypto, actions: seq<Action>, c: string)
    requires Faultless(actions) && Look(RunAll(cr, actions), c).lock.None?
    ensures var chat := Look(RunAll(cr, actions), c);
            && (|chat.entries| == 99 ==> chat.snaps == [] && chat.root == None)
            && (|chat.entries| == 100 ==>
                  && |chat.snaps| == 1 && chat.snaps[0].fromSequence == 0 && chat.snaps[0].toSequence == 99
                  && chat.snaps[0].chatId == c && chat.snaps[0].index == 0
                  && chat.snaps[0].merkleRoot == RootOf(cr.sha, Hashes(chat.entries))
                  && chat.snaps[0].lastEntryHash == chat.entries[99].entryHash
                  && chat.root == Some(chat.snaps[0].merkleRoot))
  {
    hide RunAll, Chained, Tiled, LinkedAndSigned, RootOf, Hashes;
    var chat := Look(RunAll(cr, actions), c);
    NodeSafety(cr, actions, c);
    if |chat.entries| == 100 {
      TileFacts(cr.sha, c, chat.snaps, chat.entries, 0);
      assert chat.entries[0..100] == chat.entries;
    }
  }

  lemma OutcomesGood(cr: Crypto, actions: seq<Action>, faults: bool)
    requires faults || Faultless(actions)
    ensures var w := RunAll(cr, actions);
            forall t :: t in w.threads && w.threads[t].task.Finished? ==>
              OutcomeGood(Look(w, w.threads[t].chatId).entries, w.threads[t].task.outcome)
  {
    hide SharedGood;
    EveryRunGood(cr, actions, faults);
    var w := RunAll(cr, actions);
    forall t | t in w.threads && w.threads[t].task.Finished?
      ensures OutcomeGood(Look(w, w.threads[t].chatId).entries, w.threads[t].task.outcome)
    {
      assert ThreadGood(cr, faults, w, t);
    }
  }

  /** Fault tolerance. However storage, cache and broker calls fail, applied or not, the log
      stays contiguous, linked and signed, the snapshots tile a prefix of it, every window
      is a positive multiple of the interval with the root over exactly that window, an
      accepted append is in the log, and no append meets a sequence gap. */
  lemma {:induction false} FaultTolerance(cr: Crypto, actions: seq<Action>, c: string)
    ensures var w := RunAll(cr, actions);
            var chat := Look(w, c);
            && LogGood(cr, c, chat.entries, chat.snaps)
            && (forall i :: 0 <= i < |chat.entries| ==> LinkedAndSigned(cr, chat.entries, i))
            && (forall k :: 0 <= k < |chat.snaps| ==>
                  && TileAt(cr.sha, c, chat.snaps, chat.entries, k)
                  && (chat.snaps[k].toSequence + 1 - chat.snaps[k].fromSequence) % SNAPSHOT_INTERVAL == 0)
            && (forall t :: t in w.threads && w.threads[t].task.Finished? ==>
                  OutcomeGood(Look(w, w.threads[t].chatId).entries, w.threads[t].task.outcome))
  {
    hide TaskGood, EventsGood, Chained, TileAt, LinkedAndSigned;
    EveryRunGood(cr, actions, true);
    var chat := Look(RunAll(cr, actions), c);
    ChainedMeans(cr, chat.entries);
    assert SharedGood(cr, true, RunAll(cr, actions), c);
    forall k | 0 <= k < |chat.snaps|
      ensures (chat.snaps[k].toSequence + 1 - chat.snaps[k].fromSequence) % SNAPSHOT_INTERVAL == 0
    {
      WindowsAligned(cr.sha, c, chat.snaps, chat.entries, k);
    }
    OutcomesGood(cr, actions, true);
  }

  /** Events of entries appear in increasing sequence, each naming an entry that is already
      stored under that sequence with that hash, in every run, faults or not. */
  lemma EventsOrdered(cr: Crypto, actions: seq<Action>, c: string)
    ensures var chat := Look(RunAll(cr, actions), c);
            EventsGood(c, chat.events, chat.entries, |chat.entries|)
  {
    hide TaskGood, LogGood;
    EveryRunGood(cr, actions, true);
    var w := RunAll(cr, actions);
    assert SharedGood(cr, true, w, c);
    var chat := Look(w, c);
    assert EventsGood(c, chat.events, chat.entries, Bound(chat.entries, Holder(w, chat)));
  }

  predicate Over(task: Task) {
    task.Finished? || task.ProveDone? || task.SyncDone? || task.ReadFailed?
  }

  /** A run only adds: logs, snapshots and events grow, and a result once returned stays. */
  lemma {:induction false} RunsGrow(cr: Crypto, actions: seq<Action>, more: seq<Action>, c: string)
    ensures Grows(Look(RunAll(cr, actions), c), Look(RunAll(cr, actions + more), c))
    ensures var w, w' := RunAll(cr, actions), RunAll(cr, actions + more);
            forall t :: t in w.threads && Over(w.threads[t].task) ==> t in w'.threads && w'.threads[t] == w.threads[t]
    decreases |more|
  {
    hide ChatStep, Grows;
    if more == [] {
      assert actions + more == actions;
      GrowsReflexive(Look(RunAll(cr, actions), c));
    } else {
      var init, last := more[..|more| - 1], more[|more| - 1];
      RunsGrow(cr, actions, init, c);
      assert (actions + more)[..|actions + more| - 1] == actions + init;
      assert (actions + more)[|actions + more| - 1] == last;
      var w := RunAll(cr, actions + init);
      var w' := Apply(cr, w, last);
      GrowsReflexive(Look(w, c));
      if last.Run? && last.id in w.threads {
        StepGrows(cr, w.threads[last.id].chatId, Look(w, w.threads[last.id].chatId), last.id,
                  w.threads[last.id].task, last.io);
      }
      GrowsTransitive(Look(RunAll(cr, actions), c), Look(w, c), Look(w', c));
    }
  }

  lemma GrowsReflexive(chat: Chat)
    ensures Grows(chat, chat)
  {}

  lemma GrowsTransitive(a: Chat, b: Chat, d: Chat)
    requires Grows(a, b) && Grows(b, d)
    ensures Grows(a, d)
  {}

  lemma StepGrows(cr: Crypto, c: string, chat: Chat, t: nat, task: Task, io: Io)
    ensures Grows(chat, ChatStep(cr, c, chat, t, task, io).0)
    ensures Over(task) ==> ChatStep(cr, c, chat, t, task, io) == (chat, task)
  {
    hide EntryAfter;
  }

  /** What a reader's reads returned is at least as long as that many snapshots and entries. */
  ghost predicate SeenSince(task: Task, snaps: nat, entries: nat) {
    match task
    case ProveRead(_, _, seen) => snaps <= seen
    case ProveDone(_, seen, _) => snaps <= seen
    case SyncRead(_, seen) => snaps <= seen
    case SyncFetched(_, seen, _, at) => snaps <= seen && entries <= at
    case SyncDone(_, seen, at, end) => snaps <= seen && entries <= at && entries <= end
    case _ => true
  }

  lemma ChatStepSees(cr: Crypto, c: string, chat: Chat, t: nat, task: Task, io: Io, snaps: nat, entries: nat)
    requires SeenSince(task, snaps, entries) && snaps <= |chat.snaps| && entries <= |chat.entries|
    ensures SeenSince(ChatStep(cr, c, chat, t, task, io).1, snaps, entries)
  {
    hide EntryAfter, ProveFrom, Since;
  }

  /** A reader sees everything that was there when it was called. */
  lemma {:induction false} ReadsAreFresh(cr: Crypto, before: seq<Action>, during: seq<Action>, t: nat)
    requires t !in RunAll(cr, before).threads
    ensures var w0, w := RunAll(cr, before), RunAll(cr, before + during);
            t in w.threads ==>
              var chat0 := Look(w0, w.threads[t].chatId);
              SeenSince(w.threads[t].task, |chat0.snaps|, |chat0.entries|)
    decreases |during|
  {
    hide Apply, SeenSince, RunAll;
    if during == [] {
      assert before + during == before;
    } else {
      var init, last := during[..|during| - 1], during[|during| - 1];
      assert before + during == (before + init) + [last];
      ReadsAreFresh(cr, before, init, t);
      RunOne(cr, before + init, last);
      var w := RunAll(cr, before + init);
      var w' := Apply(cr, w, last);
      if t in w'.threads {
        var c := w'.threads[t].chatId;
        var chat0 := Look(RunAll(cr, before), c);
        ThreadKeepsChat(cr, w, last, t);
        RunsGrow(cr, before, init, c);
        StepSees(cr, w, last, t, |chat0.snaps|, |chat0.entries|);
      }
    }
  }

  lemma ThreadKeepsChat(cr: Crypto, w: World, a: Action, t: nat)
    ensures t in w.threads ==> t in Apply(cr, w, a).threads && Apply(cr, w, a).threads[t].chatId == w.threads[t].chatId
  {
    hide ChatStep;
  }

  lemma StepSees(cr: Crypto, w: World, a: Action, t: nat, snaps: nat, entries: nat)
    requires t in Apply(cr, w, a).threads
    requires t in w.threads ==> SeenSince(w.threads[t].task, snaps, entries)
    requires var chat := Look(w, Apply(cr, w, a).threads[t].chatId); snaps <= |chat.snaps| && entries <= |chat.entries|
    ensures SeenSince(Apply(cr, w, a).threads[t].task, snaps, entries)
  {
    hide ChatStep, SeenSince;
    var w' := Apply(cr, w, a);
    if t !in w.threads {
      CallSeesNothing(w'.threads[t].chatId, w'.threads[t].task, snaps, entries);
    } else if a.Run? && a.id == t {
      var c := w.threads[t].chatId;
      ChatStepSees(cr, c, Look(w, c), t, w.threads[t].task, a.io, snaps, entries);
    }
  }

  lemma CallSeesNothing(c: string, task: Task, snaps: nat, entries: nat)
    requires Call(c, task)
    ensures SeenSince(task, snaps, entries)
  {}

  // ---------------------------------------------------------------- calls return

  /** How many steps of its own a thread takes. */
  function OwnSteps(actions: seq<Action>, t: nat): nat
    decreases |actions|
  {
    if actions == [] then 0
    else
      var init, last := actions[..|actions| - 1], actions[|actions| - 1];
      OwnSteps(init, t) + if last.Run? && last.id == t then 1 else 0
  }

  /** None of them fails; other threads may fail as they like. */
  ghost predicate OwnFaultless(actions: seq<Action>, t: nat) {
    forall i :: 0 <= i < |actions| && actions[i].Run? && actions[i].id == t ==> actions[i].io.Done?
  }

  /** A thread moves by its own steps only. */
  lemma ThreadMoves(cr: Crypto, w: World, a: Action, t: nat)
    requires t in w.threads
    ensures t in Apply(cr, w, a).threads
    ensures var c, task := w.threads[t].chatId, w.threads[t].task;
            Apply(cr, w, a).threads[t] ==
              if a.Run? && a.id == t then Thread(c, ChatStep(cr, c, Look(w, c), t, task, a.io).1) else Thread(c, task)
  {
    hide ChatStep;
  }

  lemma Spawned(cr: Crypto, before: seq<Action>, t: nat, c: string, call: Task)
    requires t !in RunAll(cr, before).threads && Call(c, call)
    ensures var w := RunAll(cr, before + [Spawn(t, c, call)]);
            t in w.threads && w.threads[t] == Thread(c, call)
  {
    hide RunAll;
    RunOne(cr, before, Spawn(t, c, call));
  }

  /** One more action after a call: what the induction over the rest of a run needs. */
  lemma OneMore(before: seq<Action>, call: Action, during: seq<Action>, t: nat)
    requires during != [] && OwnFaultless(during, t)
    ensures var init, last := during[..|during| - 1], during[|during| - 1];
            && before + [call] + during == (before + [call] + init) + [last]
            && OwnFaultless(init, t) && (last.Run? && last.id == t ==> last.io.Done?)
            && OwnSteps(during, t) == OwnSteps(init, t) + if last.Run? && last.id == t then 1 else 0
  {}

  /** Where a ProveInclusion stands after n steps of its own. */
  ghost predicate ProvePhase(task: Task, sequence: nat, n: nat) {
    || (n == 0 && task == ProveStart(sequence))
    || (n == 1 && task.ProveRead? && task.sequence == sequence)
    || (n >= 1 && task.ProveDone? && task.sequence == sequence)
  }

  lemma ProveMoves(cr: Crypto, c: string, chat: Chat, t: nat, task: Task, sequence: nat, n: nat)
    requires ProvePhase(task, sequence, n)
    ensures ProvePhase(ChatStep(cr, c, chat, t, task, Done).1, sequence, n + 1)
  {
    hide SnapshotAt, ProveFrom, Since, AppendStep;
  }

  /** A ProveInclusion returns, whatever the other threads do: it is done after two steps of
      its own, if neither fails. */
  lemma {:induction false} ProveReturns(cr: Crypto, before: seq<Action>, t: nat, c: string, sequence: nat, during: seq<Action>)
    requires t !in RunAll(cr, before).threads && sequence < UINT64_LIMIT && OwnFaultless(during, t)
    ensures var w := RunAll(cr, before + [Spawn(t, c, ProveStart(sequence))] + during);
            && t in w.threads && w.threads[t].chatId == c
            && ProvePhase(w.threads[t].task, sequence, OwnSteps(during, t))
            && (OwnSteps(during, t) >= 2 ==> w.threads[t].task.ProveDone? && w.threads[t].task.sequence == sequence)
    decreases |during|
  {
    hide RunAll, Apply, ChatStep, ProvePhase, OwnSteps;
    var call := Spawn(t, c, ProveStart(sequence));
    if during == [] {
      assert before + [call] + during == before + [call];
      Spawned(cr, before, t, c, ProveStart(sequence));
      NoStepsYet(t, sequence);
    } else {
      var init, last := during[..|during| - 1], during[|during| - 1];
      OneMore(before, call, during, t);
      ProveReturns(cr, before, t, c, sequence, init);
      var w := RunAll(cr, before + [call] + init);
      RunOne(cr, before + [call] + init, last);
      ThreadMoves(cr, w, last, t);
      ProveMoves(cr, c, Look(w, c), t, w.threads[t].task, sequence, OwnSteps(init, t));
    }
    PhaseTwo(RunAll(cr, before + [call] + during).threads[t].task, sequence, OwnSteps(during, t));
  }

  lemma NoStepsYet(t: nat, sequence: nat)
    ensures OwnSteps([], t) == 0 && ProvePhase(ProveStart(sequence), sequence, 0) && SyncPhase(SyncStart, 0)
  {}

  lemma PhaseTwo(task: Task, sequence: nat, n: nat)
    requires ProvePhase(task, sequence, n)
    ensures n >= 2 ==> task.ProveDone? && task.sequence == sequence
  {}

  /** Where a Sync stands after n steps of its own. */
  ghost predicate SyncPhase(task: Task, n: nat) {
    || (n == 0 && task.SyncStart?)
    || (n == 1 && task.SyncRead?)
    || (n == 2 && task.SyncFetched?)
    || (n >= 3 && task.SyncDone?)
  }

  lemma SyncMoves(cr: Crypto, c: string, chat: Chat, t: nat, task: Task, n: nat)
    requires SyncPhase(task, n)
    ensures SyncPhase(ChatStep(cr, c, chat, t, task, Done).1, n + 1)
  {
    hide LastOf, Since, AppendStep;
  }

  /** A Sync is done after three steps of its own, if none fails. */
  lemma {:induction false} SyncReturns(cr: Crypto, before: seq<Action>, t: nat, c: string, during: seq<Action>)
    requires t !in RunAll(cr, before).threads && OwnFaultless(during, t)
    ensures var w := RunAll(cr, before + [Spawn(t, c, SyncStart)] + during);
            && t in w.threads && w.threads[t].chatId == c
            && SyncPhase(w.threads[t].task, OwnSteps(during, t))
            && (OwnSteps(during, t) >= 3 ==> w.threads[t].task.SyncDone?)
    decreases |during|
  {
    hide RunAll, Apply, ChatStep, OwnSteps;
    var call := Spawn(t, c, SyncStart);
    if during == [] {
      assert before + [call] + during == before + [call];
      Spawned(cr, before, t, c, SyncStart);
      NoStepsYet(t, 0);
    } else {
      var init, last := during[..|during| - 1], during[|during| - 1];
      OneMore(before, call, during, t);
      SyncReturns(cr, before, t, c, init);
      var w := RunAll(cr, before + [call] + init);
      RunOne(cr, before + [call] + init, last);
      ThreadMoves(cr, w, last, t);
      SyncMoves(cr, c, Look(w, c), t, w.threads[t].task, OwnSteps(init, t));
    }
  }

  predicate Failed(task: Task) {
    || task.ReadFailed?
    || (task.Leaving? && task.outcome.StorageFailed?)
    || (task.Finished? && task.outcome.StorageFailed?)
  }

  lemma DoneNeverFails(cr: Crypto, c: string, chat: Chat, t: nat, task: Task)
    requires !Failed(task)
    ensures !Failed(ChatStep(cr, c, chat, t, task, Done).1)
  {
    hide EntryAfter, SnapshotAt, ProveFrom, Since, LastOf;
  }

  /** Without faults no call fails. */
  lemma {:induction false} NothingFails(cr: Crypto, actions: seq<Action>, t: nat)
    requires Faultless(actions)
    ensures var w := RunAll(cr, actions); t in w.threads ==> !Failed(w.threads[t].task)
    decreases |actions|
  {
    hide Apply, ChatStep, Failed;
    if actions != [] {
      var init, last := actions[..|actions| - 1], actions[|actions| - 1];
      var w := RunAll(cr, init);
      NothingFails(cr, init, t);
      if t in w.threads {
        ThreadMoves(cr, w, last, t);
        DoneNeverFails(cr, w.threads[t].chatId, Look(w, w.threads[t].chatId), t, w.threads[t].task);
      } else if t in Apply(cr, w, last).threads {
        NewThreadHasNotFailed(cr, w, last, t);
      }
    }
  }

  lemma NewThreadHasNotFailed(cr: Crypto, w: World, a: Action, t: nat)
    requires t !in w.threads && t in Apply(cr, w, a).threads
    ensures !Failed(Apply(cr, w, a).threads[t].task)
  {
    hide ChatStep;
  }

  // ---------------------------------------------------------------- appends return

  /** What an outcome says of the message the append was called with. */
  ghost predicate OutcomeFor(cr: Crypto, m: SignedMessage, outcome: Outcome, faults: bool) {
    match outcome
    case Accepted(e) => e.message == m && m.schemaVersion == 1 && Signed(cr, m)
    case BadVersion => m.schemaVersion != 1
    case BadSender => m.schemaVersion == 1 && !Signed(cr, m)
    case StorageFailed => faults && m.schemaVersion == 1 && Signed(cr, m)
    case GapHit => true
  }

  ghost predicate AppendPhase(cr: Crypto, task: Task, m: SignedMessage, faults: bool) {
    match task
    case Checking(msg) => msg == m
    case Waiting(msg) => msg == m && Acceptable(cr, m)
    case Locked(msg) => msg == m && Acceptable(cr, m)
    case Ready(e) => e.message == m && Acceptable(cr, m)
    case Stored(e) => e.message == m && Acceptable(cr, m)
    case Announced(e) => e.message == m && Acceptable(cr, m)
    case Sealing(e, _, _) => e.message == m && Acceptable(cr, m)
    case Rooted(e, _, _, _) => e.message == m && Acceptable(cr, m)
    case Sealed(e, _) => e.message == m && Acceptable(cr, m)
    case RootCached(e) => e.message == m && Acceptable(cr, m)
    case Leaving(outcome) => OutcomeFor(cr, m, outcome, faults)
    case Finished(outcome) => OutcomeFor(cr, m, outcome, faults)
    case _ => false
  }

  lemma AppendMoves(cr: Crypto, c: string, chat: Chat, t: nat, task: Task, m: SignedMessage, io: Io, faults: bool)
    requires AppendPhase(cr, task, m, faults) && (faults || io.Done?)
    ensures AppendPhase(cr, ChatStep(cr, c, chat, t, task, io).1, m, faults)
  {
    hide VerifyMessage, SigningPayload, ComputeHash, RootOf, Hashes, Since, LastOf, ReadStep;
    AcceptableMeans(cr, m);
    if task.Locked? {
      BuiltFrom(cr, LastOf(chat.entries), m);
    }
  }

  lemma BuiltFrom(cr: Crypto, last: Option<LogEntry>, m: SignedMessage)
    ensures EntryAfter(cr, last, m).message == m
  {}

  lemma {:induction false} AppendStands(cr: Crypto, before: seq<Action>, t: nat, c: string, m: SignedMessage, during: seq<Action>,
                                        faults: bool)
    requires t !in RunAll(cr, before).threads && m.chatId == c && (faults || OwnFaultless(during, t))
    ensures var w := RunAll(cr, before + [Spawn(t, c, Checking(m))] + during);
            t in w.threads && w.threads[t].chatId == c && AppendPhase(cr, w.threads[t].task, m, faults)
    decreases |during|
  {
    hide RunAll, Apply, ChatStep, AppendPhase;
    var call := Spawn(t, c, Checking(m));
    if during == [] {
      assert before + [call] + during == before + [call];
      Spawned(cr, before, t, c, Checking(m));
      CheckingStands(cr, m, faults);
    } else {
      var init, last := during[..|during| - 1], during[|during| - 1];
      assert before + [call] + during == (before + [call] + init) + [last];
      AppendStands(cr, before, t, c, m, init, faults);
      var w := RunAll(cr, before + [call] + init);
      RunOne(cr, before + [call] + init, last);
      ThreadMoves(cr, w, last, t);
      if last.Run? && last.id == t {
        AppendMoves(cr, c, Look(w, c), t, w.threads[t].task, m, last.io, faults);
      }
    }
  }

  lemma CheckingStands(cr: Crypto, m: SignedMessage, faults: bool)
    ensures AppendPhase(cr, Checking(m), m, faults)
  {}

  /** What an append that returned says, in every run: accepted, and then its own message is
      stored, only if the version is 1 and the message is signed; refused for its version or
      its signature exactly if that is wrong; failed only if one of its own calls did; and
      never for a gap. */
  lemma {:induction false} AppendOutcome(cr: Crypto, before: seq<Action>, t: nat, c: string, m: SignedMessage,
                                         during: seq<Action>, faults: bool)
    requires t !in RunAll(cr, before).threads && m.chatId == c && (faults || OwnFaultless(during, t))
    ensures var w := RunAll(cr, before + [Spawn(t, c, Checking(m))] + during);
            && t in w.threads && w.threads[t].chatId == c
            && (w.threads[t].task.Finished? ==>
                  var outcome := w.threads[t].task.outcome;
                  && !outcome.GapHit?
                  && (outcome.BadVersion? <==> m.schemaVersion != 1)
                  && (outcome.BadSender? <==> m.schemaVersion == 1 && !Signed(cr, m))
                  && (outcome.StorageFailed? ==> faults)
                  && (outcome.Accepted? ==>
                        var e, es := outcome.entry, Look(w, c).entries;
                        e.message == m && e.sequence < |es| && es[e.sequence] == e))
  {
    hide RunAll, Signed, Look;
    AppendStands(cr, before, t, c, m, during, faults);
    OutcomesGood(cr, before + [Spawn(t, c, Checking(m))] + during, true);
  }

  /** How many steps a thread inside the critical section still needs, at most. */
  function StepsLeft(task: Task): nat {
    match task
    case Locked(_) => 9
    case Ready(_) => 8
    case Stored(_) => 7
    case Announced(_) => 6
    case Sealing(_, _, _) => 5
    case Rooted(_, _, _, _) => 4
    case Sealed(_, _) => 3
    case RootCached(_) => 2
    case Leaving(_) => 1
    case _ => 0
  }

  /** An append waits for a busy lock, takes a free one, and inside every step is progress,
      failed or not. */
  lemma EntersWhenFree(cr: Crypto, c: string, chat: Chat, t: nat, m: SignedMessage, io: Io)
    ensures var (chat', task') := ChatStep(cr, c, chat, t, Waiting(m), io);
            && (chat.lock.Some? ==> chat' == chat && task' == Waiting(m))
            && (chat.lock.None? ==> chat' == chat.(lock := Some(t)) && task' == Locked(m))
  {}

  lemma StepIsProgress(cr: Crypto, c: string, chat: Chat, t: nat, task: Task, io: Io)
    requires (Holds(task) || task.Finished?) && |ChatStep(cr, c, chat, t, task, io).0.entries| + 1 < INT64_LIMIT
    ensures var task' := ChatStep(cr, c, chat, t, task, io).1;
            && (Holds(task') || task'.Finished?)
            && (Holds(task) ==> StepsLeft(task') < StepsLeft(task)) && (task.Finished? ==> task' == task)
  {
    hide EntryAfter, RootOf, Hashes, Since, LastOf, ReadStep;
  }

  /** So a thread that has the lock of a chat ends within nine steps of its own, whatever the
      other threads do, faults included. */
  lemma {:induction false} HolderFinishes(cr: Crypto, before: seq<Action>, during: seq<Action>, t: nat)
    requires var w := RunAll(cr, before); t in w.threads && Holds(w.threads[t].task)
    requires |Look(RunAll(cr, before + during), RunAll(cr, before).threads[t].chatId).entries| + 1 < INT64_LIMIT
    ensures var w0, w := RunAll(cr, before), RunAll(cr, before + during);
            && t in w.threads && w.threads[t].chatId == w0.threads[t].chatId
            && (Holds(w.threads[t].task) || w.threads[t].task.Finished?)
            && (Holds(w.threads[t].task) ==> StepsLeft(w.threads[t].task) + OwnSteps(during, t) <= StepsLeft(w0.threads[t].task))
            && (OwnSteps(during, t) >= 9 ==> w.threads[t].task.Finished?)
    decreases |during|
  {
    hide RunAll, Apply, ChatStep, Holds, Look, StepsLeft;
    var w0 := RunAll(cr, before);
    var c := w0.threads[t].chatId;
    AtMostNine(w0.threads[t].task);
    if during == [] {
      assert before + during == before;
    } else {
      var init, last := during[..|during| - 1], during[|during| - 1];
      assert before + during == (before + init) + [last];
      RunsGrow(cr, before + init, [last], c);
      HolderFinishes(cr, before, init, t);
      var w := RunAll(cr, before + init);
      RunOne(cr, before + init, last);
      ThreadMoves(cr, w, last, t);
      if last.Run? && last.id == t {
        ChatMoves(cr, w, last);
        StepIsProgress(cr, c, Look(w, c), t, w.threads[t].task, last.io);
      }
    }
    AtLeastOne(RunAll(cr, before + during).threads[t].task);
  }

  lemma ChatMoves(cr: Crypto, w: World, a: Action)
    requires a.Run? ==> a.id in w.threads
    ensures a.Run? ==>
              var c := w.threads[a.id].chatId;
              Look(Apply(cr, w, a), c) == ChatStep(cr, c, Look(w, c), a.id, w.threads[a.id].task, a.io).0
  {
    hide ChatStep;
  }

  lemma AtMostNine(task: Task)
    ensures StepsLeft(task) <= 9
  {}

  lemma AtLeastOne(task: Task)
    ensures Holds(task) ==> StepsLeft(task) >= 1
  {}

  // ---------------------------------------------------------------- end to end

  /** End-to-end provability. A ProveInclusion, called in any reachable state, that has taken
      two steps of its own without a fault has returned, whatever was appended between them
      and whatever failed elsewhere. It saw every snapshot there was when it was called; it
      succeeded exactly when the snapshot indexed by sequence / 100 existed at its first
      read and starts at the matching hundred, so whenever that held when it was called; and
      after any further run its proof is still right. If nothing failed anywhere, it
      succeeded exactly when the sequence was below 100 times the snapshots it saw. */
  lemma {:induction false} ProveEndToEnd(cr: Crypto, before: seq<Action>, t: nat, c: string, sequence: nat,
                                         during: seq<Action>, after: seq<Action>, faults: bool)
    requires faults || Faultless(before + [Spawn(t, c, ProveStart(sequence))] + during + after)
    requires t !in RunAll(cr, before).threads && sequence < UINT64_LIMIT
    requires OwnFaultless(during, t) && OwnSteps(during, t) >= 2
    ensures var w0, actions := RunAll(cr, before), before + [Spawn(t, c, ProveStart(sequence))] + during;
            var w, w' := RunAll(cr, actions), RunAll(cr, actions + after);
            var k := sequence / 100;
            && t in w.threads && w.threads[t].chatId == c && w.threads[t].task.ProveDone?
            && t in w'.threads && w'.threads[t] == w.threads[t]
            && var ProveDone(asked, seen, r) := w.threads[t].task;
            && asked == sequence && |Look(w0, c).snaps| <= seen <= |Look(w, c).snaps|
            && ProveGood(cr.sha, faults, c, Look(w', c), sequence, seen, r)
            && (k < |Look(w0, c).snaps| && Look(w0, c).snaps[k].fromSequence == 100 * k ==> r.Proved?)
            && (!faults && sequence < 100 * |Look(w0, c).snaps| ==> r.Proved?)
  {
    hide SharedGood, RunAll, Inv, Look, OwnSteps, OwnFaultless;
    var call := Spawn(t, c, ProveStart(sequence));
    var actions := before + [call] + during;
    var w, w' := RunAll(cr, actions), RunAll(cr, actions + after);
    ProveReturns(cr, before, t, c, sequence, during);
    RunsGrow(cr, actions, after, c);
    assert before + ([call] + during + after) == actions + after && before + ([call] + during) == actions;
    RunsGrow(cr, before, [call] + during + after, c);
    EveryRunGood(cr, actions + after, faults);
    EveryRunGood(cr, actions, true);
    ReadsAreFresh(cr, before, [call] + during, t);
    ProveDoneFacts(cr, faults, w', t);
    ThreadOfRun(cr, w, t);
    SeenBounded(cr, w, t);
  }

  lemma ThreadOfRun(cr: Crypto, w: World, t: nat)
    requires Inv(cr, true, w) && t in w.threads
    ensures ThreadGood(cr, true, w, t)
  {
    hide ThreadGood;
  }

  lemma ProveDoneFacts(cr: Crypto, faults: bool, w: World, t: nat)
    requires Inv(cr, faults, w) && t in w.threads && w.threads[t].task.ProveDone?
    ensures var ProveDone(sequence, seen, r) := w.threads[t].task;
            ProveGood(cr.sha, faults, w.threads[t].chatId, Look(w, w.threads[t].chatId), sequence, seen, r)
  {
    hide ProveGood, SharedGood;
    assert ThreadGood(cr, faults, w, t);
  }

  lemma SeenBounded(cr: Crypto, w: World, t: nat)
    requires t in w.threads && w.threads[t].task.ProveDone? && ThreadGood(cr, true, w, t)
    ensures w.threads[t].task.seen <= |Look(w, w.threads[t].chatId).snaps|
  {}

  /** Lock-free Sync. A Sync, called in any reachable state, that has taken three steps of its
      own without a fault has returned. Whatever was appended among its three reads, each of
      which saw all there was when it was called, and whatever failed elsewhere: the sealed prefix followed by the new entries is the log as of its second read; the
      new entries verify starting from the snapshot's last hash, or from genesis; and the
      current hash is the tip as of its third read. If nothing was appended in between it is
      the hash of the last of what it returned; if anything was, it is another hash, or a
      collision (a preimage of genesis, for an empty log) is exhibited. */
  lemma {:induction false} SyncEndToEnd(cr: Crypto, before: seq<Action>, t: nat, c: string, during: seq<Action>)
    requires t !in RunAll(cr, before).threads && OwnFaultless(during, t) && OwnSteps(during, t) >= 3
    ensures var w := RunAll(cr, before + [Spawn(t, c, SyncStart)] + during);
            var chat0, chat := Look(RunAll(cr, before), c), Look(w, c);
            && t in w.threads && w.threads[t].chatId == c && w.threads[t].task.SyncDone?
            && var SyncDone(b, seen, at, end) := w.threads[t].task;
            && |chat0.snaps| <= seen <= |chat.snaps| && |chat0.entries| <= at <= end <= |chat.entries|
            && b.snapshot == LastOf(chat.snaps[..seen])
            && var from := NextFrom(chat.snaps, seen);
            && from <= at
            && chat.entries[..from] + b.newEntries == chat.entries[..at]
            && var start := if b.snapshot.Some? then b.snapshot.value.lastEntryHash else GENESIS_HASH;
            && ContinuesFrom(cr, from, start, b.newEntries)
            && b.currentHash == PrevHash(chat.entries, end)
            && var returned := if b.newEntries == [] then start else b.newEntries[|b.newEntries| - 1].entryHash;
            && (end == at ==> b.currentHash == returned)
            && (end != at && at > 0 ==>
                  b.currentHash != returned
                  || Collides(cr.sha, ChainCollision(cr.sha, chat.entries[..at], chat.entries[..end])))
            && (end != at && at == 0 ==>
                  b.currentHash != returned || Sum(cr.sha, PreimageOf(cr.sha, chat.entries[end - 1])) == GENESIS_HASH)
  {
    hide RunAll, Inv, Look, FetchedGood, LogGood, ContinuesFrom, ChainCollision, PreimageOf, PrevHash, OwnSteps, OwnFaultless;
    var actions := before + [Spawn(t, c, SyncStart)] + during;
    var w := RunAll(cr, actions);
    SyncReturns(cr, before, t, c, during);
    EveryRunGood(cr, actions, true);
    assert before + ([Spawn(t, c, SyncStart)] + during) == actions;
    ReadsAreFresh(cr, before, [Spawn(t, c, SyncStart)] + during, t);
    SyncDoneFacts(cr, w, t);
    var task := w.threads[t].task;
    var chat := Look(w, c);
    BundleGood(cr, c, chat, task.bundle, task.seen, task.at, task.end);
    LogIsChained(cr, c, chat);
    if task.at < task.end && PrevHash(chat.entries, task.at) == PrevHash(chat.entries, task.end) {
      TipNeverReturns(cr, chat.entries, task.at, task.end);
    }
  }

  lemma LogIsChained(cr: Crypto, c: string, chat: Chat)
    requires LogGood(cr, c, chat.entries, chat.snaps)
    ensures Chained(cr, chat.entries)
  {
    hide Chained;
  }

  lemma SyncDoneFacts(cr: Crypto, w: World, t: nat)
    requires Inv(cr, true, w) && t in w.threads && w.threads[t].task.SyncDone?
    ensures var chat := Look(w, w.threads[t].chatId);
            var SyncDone(b, seen, at, end) := w.threads[t].task;
            && LogGood(cr, w.threads[t].chatId, chat.entries, chat.snaps)
            && FetchedGood(chat, b.snapshot, seen, b.newEntries, at)
            && at <= end <= |chat.entries| && b.currentHash == PrevHash(chat.entries, end)
  {
    hide LogGood, FetchedGood;
    assert SharedGood(cr, true, w, w.threads[t].chatId) && ThreadGood(cr, true, w, t);
  }

  lemma {:induction false} BundleGood(cr: Crypto, c: string, chat: Chat, b: SyncBundle, seen: nat, at: nat, end: nat)
    requires LogGood(cr, c, chat.entries, chat.snaps)
    requires FetchedGood(chat, b.snapshot, seen, b.newEntries, at)
    requires at <= end <= |chat.entries| && b.currentHash == PrevHash(chat.entries, end)
    ensures seen <= |chat.snaps| && b.snapshot == LastOf(chat.snaps[..seen])
    ensures var from := NextFrom(chat.snaps, seen);
            && from <= at
            && chat.entries[..from] + b.newEntries == chat.entries[..at]
            && var start := if b.snapshot.Some? then b.snapshot.value.lastEntryHash else GENESIS_HASH;
            && ContinuesFrom(cr, from, start, b.newEntries)
            && PrevHash(chat.entries, at) == (if b.newEntries == [] then start else b.newEntries[|b.newEntries| - 1].entryHash)
  {
    hide Chained, ContinuesFrom, Tiled, PrevHash, TipHash, NextFrom, LastOf;
    var es, from := chat.entries, NextFrom(chat.snaps, seen);
    ChainedPrefix(cr, es, at);
    assert es[..at] == es[..from] + b.newEntries;
    ChainSplits(cr, es[..from], b.newEntries);
    StartsAtTip(cr, c, chat.snaps, es, seen);
    PrevIsTip(es, from, at);
  }

  lemma StartsAtTip(cr: Crypto, c: string, snaps: seq<Snapshot>, es: seq<LogEntry>, seen: nat)
    requires Tiled(cr.sha, c, snaps, es) && seen <= |snaps|
    ensures NextFrom(snaps, seen) <= |es|
    ensures TipHash(es[..NextFrom(snaps, seen)])
         == (if LastOf(snaps[..seen]).Some? then LastOf(snaps[..seen]).value.lastEntryHash else GENESIS_HASH)
  {
    hide Tiled, RootOf, Hashes;
    if seen > 0 {
      TileFacts(cr.sha, c, snaps, es, seen - 1);
    }
  }

  lemma PrevIsTip(es: seq<LogEntry>, from: nat, at: nat)
    requires from <= at <= |es|
    ensures PrevHash(es, at) == (if from == at then TipHash(es[..from]) else es[from..at][at - from - 1].entryHash)
  {}

  // ---------------------------------------------------------------- Sync may lag

  lemma RunOne(cr: Crypto, actions: seq<Action>, a: Action)
    ensures RunAll(cr, actions + [a]) == Apply(cr, RunAll(cr, actions), a)
  {
    assert (actions + [a])[..|actions|] == actions;
  }

  /** Thread t is at a task on chat c, whose shared state is chat. */
  ghost predicate Stands(w: World, t: nat, c: string, task: Task, chat: Chat) {
    t in w.threads && w.threads[t] == Thread(c, task) && Look(w, c) == chat
  }

  lemma RunTo(cr: Crypto, actions: seq<Action>, t: nat, c: string, task: Task, chat: Chat, u: nat)
    requires Stands(RunAll(cr, actions), t, c, task, chat) && u != t
    ensures var w, w' := RunAll(cr, actions), RunAll(cr, actions + [Run(t, Done)]);
            var (chat', task') := ChatStep(cr, c, chat, t, task, Done);
            && Stands(w', t, c, task', chat')
            && (u in w'.threads <==> u in w.threads) && (u in w.threads ==> w'.threads[u] == w.threads[u])
  {
    hide ChatStep, RunAll;
    RunOne(cr, actions, Run(t, Done));
  }

  lemma SpawnTo(cr: Crypto, actions: seq<Action>, t: nat, c: string, task: Task, u: nat)
    requires t !in RunAll(cr, actions).threads && Call(c, task) && u != t
    ensures var w, w' := RunAll(cr, actions), RunAll(cr, actions + [Spawn(t, c, task)]);
            && Stands(w', t, c, task, Look(w, c))
            && (u in w'.threads <==> u in w.threads) && (u in w.threads ==> w'.threads[u] == w.threads[u])
  {
    hide RunAll;
    RunOne(cr, actions, Spawn(t, c, task));
  }

  /** A Sync that has read the entries of an empty chat when the first append stores its
      entry, and then reads the tip. */
  lemma {:induction false} SyncMayLag(cr: Crypto, m: SignedMessage)
    requires Acceptable(cr, m)
    ensures var sync, append := Run(0, Done), Run(1, Done);
            var w := RunAll(cr, [Spawn(0, m.chatId, SyncStart), sync, sync, Spawn(1, m.chatId, Checking(m)),
                                 append, append, append, append, sync]);
            0 in w.threads
            && w.threads[0].task == SyncDone(SyncBundle(None, [], NextEntry(cr, [], m).entryHash), 0, 0, 1)
  {
    hide ComputeHash, VerifyMessage, RunAll, Apply, AppendStep, NextEntry;
    var c, sync, append := m.chatId, Run(0, Done), Run(1, Done);
    var a3 := [Spawn(0, c, SyncStart)] + [sync] + [sync];
    var a4 := a3 + [Spawn(1, c, Checking(m))];
    SyncTwoReads(cr, c);
    SpawnTo(cr, a3, 1, c, Checking(m), 0);
    AppendFour(cr, a4, m);
    var a8 := a4 + [append] + [append] + [append] + [append];
    RunTo(cr, a8, 0, c, SyncFetched(None, 0, [], 0), Look(RunAll(cr, a8), c), 1);
    assert a8 + [sync] == [Spawn(0, c, SyncStart), sync, sync, Spawn(1, c, Checking(m)), append, append, append, append, sync];
  }

  /** A Sync of an empty chat after its first two reads. */
  lemma SyncTwoReads(cr: Crypto, c: string)
    ensures var w := RunAll(cr, [Spawn(0, c, SyncStart)] + [Run(0, Done)] + [Run(0, Done)]);
            Stands(w, 0, c, SyncFetched(None, 0, [], 0), EMPTY_CHAT) && 1 !in w.threads
  {
    hide RunAll, Apply, AppendStep;
    var sync := Run(0, Done);
    var a1 := [Spawn(0, c, SyncStart)];
    NothingRun(cr);
    SpawnTo(cr, [], 0, c, SyncStart, 1);
    assert [] + a1 == a1;
    RunTo(cr, a1, 0, c, SyncStart, EMPTY_CHAT, 1);
    RunTo(cr, a1 + [sync], 0, c, SyncRead(None, 0), EMPTY_CHAT, 1);
  }

  lemma NothingRun(cr: Crypto)
    ensures RunAll(cr, []) == World(map[], map[], map[])
  {}

  /** An append to an empty chat, four steps in. */
  lemma {:induction false} AppendFour(cr: Crypto, a: seq<Action>, m: SignedMessage)
    requires Acceptable(cr, m) && Stands(RunAll(cr, a), 1, m.chatId, Checking(m), EMPTY_CHAT)
    ensures var w := RunAll(cr, a + [Run(1, Done)] + [Run(1, Done)] + [Run(1, Done)] + [Run(1, Done)]);
            && (0 in w.threads <==> 0 in RunAll(cr, a).threads)
            && (0 in w.threads ==> w.threads[0] == RunAll(cr, a).threads[0])
            && Look(w, m.chatId).entries == [NextEntry(cr, [], m)]
  {
    hide ComputeHash, VerifyMessage, RunAll, Apply;
    var c, step := m.chatId, Run(1, Done);
    var locked := EMPTY_CHAT.(lock := Some(1));
    RunTo(cr, a, 1, c, Checking(m), EMPTY_CHAT, 0);
    RunTo(cr, a + [step], 1, c, Waiting(m), EMPTY_CHAT, 0);
    RunTo(cr, a + [step] + [step], 1, c, Locked(m), locked, 0);
    RunTo(cr, a + [step] + [step] + [step], 1, c, Ready(NextEntry(cr, [], m)), locked, 0);
  }
}
