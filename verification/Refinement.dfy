/**
 The two models of Append agree. The small steps of one thread that runs alone and meets no
 fault amount to the whole-call model of the log; and so do those of any number of threads
 in any interleaving, as if the calls whose messages were stored had been made one after
 another.
 */
module Refinement {
  import opened Options
  import opened Models
  import opened Chain
  import opened Seals
  import opened Storage
  import opened Broker
  import opened ChatLog
  import opened Notifications
  import opened Hashing
  import opened Merkle
  import Announcements
  import NodeRuns

  type Chat = NodeRuns.Chat
  type Task = NodeRuns.Task

  /** What a whole state of the log holds about one chat, its lock free. */
  function Project(s: State, c: string): Chat {
    NodeRuns.Chat(EntriesOf(s.entries, c), SnapshotsOf(s.snapshots, c), RootCached(s.roots, c), OfChat(s.published, c), None)
  }

  /** n fault-free steps of thread t with nothing in between. */
  function Alone(cr: Crypto, c: string, chat: Chat, t: nat, task: Task, n: nat): (Chat, Task)
    decreases n
  {
    if n == 0 then (chat, task)
    else
      var (chat', task') := NodeRuns.ChatStep(cr, c, chat, t, task, Done);
      Alone(cr, c, chat', t, task', n - 1)
  }

  function StoredChat(chat: Chat, c: string, e: LogEntry): Chat {
    chat.(entries := chat.entries + [e], events := chat.events + [Event(EntryAppended, c, e.sequence, e.entryHash)])
  }

  function SealedChat(cr: Crypto, chat: Chat, c: string, e: LogEntry): Chat
    requires chat.entries != []
  {
    var snap := NextSnapshot(cr.sha, c, chat.snaps, chat.entries);
    chat.(snaps := chat.snaps + [snap], root := Some(snap.merkleRoot),
          events := chat.events + [Event(SnapshotCreated, c, e.sequence, e.entryHash)])
  }

  function OutcomeOf(r: AppendResult): NodeRuns.Outcome {
    match r
    case Appended(e) => NodeRuns.Accepted(e)
    case ErrUnsupportedVersion => NodeRuns.BadVersion
    case ErrInvalidSignature => NodeRuns.BadSender
    case ErrSequenceGap => NodeRuns.GapHit
  }

  lemma AloneStep(cr: Crypto, c: string, chat: Chat, t: nat, task: Task, n: nat)
    requires n > 0
    ensures var (chat', task') := NodeRuns.ChatStep(cr, c, chat, t, task, Done);
            Alone(cr, c, chat, t, task, n) == Alone(cr, c, chat', t, task', n - 1)
  {}

  /** A finished thread stays where it is. */
  lemma {:induction false} AloneOver(cr: Crypto, c: string, chat: Chat, t: nat, outcome: NodeRuns.Outcome, n: nat)
    ensures Alone(cr, c, chat, t, NodeRuns.Finished(outcome), n) == (chat, NodeRuns.Finished(outcome))
    decreases n
  {
    if n > 0 {
      AloneOver(cr, c, chat, t, outcome, n - 1);
    }
  }

  /** From the lock to the announcement: five steps. */
  lemma {:induction false} AloneStores(cr: Crypto, c: string, chat: Chat, t: nat, m: SignedMessage, n: nat)
    requires chat.lock.None? && Acceptable(cr, m) && n >= 5 && |chat.entries| + 1 < INT64_LIMIT
    requires Chained(cr, chat.entries)
    ensures var e := NextEntry(cr, chat.entries, m);
            Alone(cr, c, chat, t, NodeRuns.Checking(m), n)
            == Alone(cr, c, StoredChat(chat, c, e).(lock := Some(t)), t, NodeRuns.Announced(e), n - 5)
  {
    hide Alone, VerifyMessage, ComputeHash;
    var e := NextEntry(cr, chat.entries, m);
    var locked := chat.(lock := Some(t));
    var stored := locked.(entries := chat.entries + [e]);
    if chat.entries != [] {
      assert FaultAt(cr, chat.entries, |chat.entries| - 1).None?;
    }
    AloneStep(cr, c, chat, t, NodeRuns.Checking(m), n);
    AloneStep(cr, c, chat, t, NodeRuns.Waiting(m), n - 1);
    AloneStep(cr, c, locked, t, NodeRuns.Locked(m), n - 2);
    AloneStep(cr, c, locked, t, NodeRuns.Ready(e), n - 3);
    AloneStep(cr, c, stored, t, NodeRuns.Stored(e), n - 4);
  }

  /** At a boundary: the window sealed, cached and announced, six steps to the end. */
  lemma {:induction false} AloneSeals(cr: Crypto, c: string, chat: Chat, t: nat, e: LogEntry)
    requires chat.entries != [] && e == chat.entries[|chat.entries| - 1] && e.sequence == |chat.entries| - 1
    requires |chat.entries| % SNAPSHOT_INTERVAL == 0
    ensures Alone(cr, c, chat, t, NodeRuns.Announced(e), 6)
         == (SealedChat(cr, chat, c, e).(lock := None), NodeRuns.Finished(NodeRuns.Accepted(e)))
  {
    hide Alone;
    var snap := NextSnapshot(cr.sha, c, chat.snaps, chat.entries);
    var saved := chat.(snaps := chat.snaps + [snap]);
    AloneStep(cr, c, chat, t, NodeRuns.Announced(e), 6);
    AloneStep(cr, c, chat, t, NodeRuns.Sealing(e, snap.fromSequence, snap.index), 5);
    AloneStep(cr, c, chat, t, NodeRuns.Rooted(e, snap.fromSequence, snap.index, snap.merkleRoot), 4);
    AloneTells(cr, c, saved, t, e, snap.merkleRoot);
  }

  lemma {:induction false} AloneTells(cr: Crypto, c: string, saved: Chat, t: nat, e: LogEntry, root: string)
    ensures Alone(cr, c, saved, t, NodeRuns.Sealed(e, root), 3)
         == (saved.(lock := None, root := Some(root), events := saved.events + [Event(SnapshotCreated, c, e.sequence, e.entryHash)]),
             NodeRuns.Finished(NodeRuns.Accepted(e)))
  {
    hide Alone;
    var cached := saved.(root := Some(root));
    var told := cached.(events := cached.events + [Event(SnapshotCreated, c, e.sequence, e.entryHash)]);
    AloneStep(cr, c, saved, t, NodeRuns.Sealed(e, root), 3);
    AloneStep(cr, c, cached, t, NodeRuns.RootCached(e), 2);
    AloneStep(cr, c, told, t, NodeRuns.Leaving(NodeRuns.Accepted(e)), 1);
    AloneOver(cr, c, told.(lock := None), t, NodeRuns.Accepted(e), 0);
  }

  /** Away from a boundary: two steps to the end. */
  lemma {:induction false} AloneLeaves(cr: Crypto, c: string, chat: Chat, t: nat, e: LogEntry)
    requires (e.sequence + 1) % SNAPSHOT_INTERVAL != 0
    ensures Alone(cr, c, chat, t, NodeRuns.Announced(e), 6) == (chat.(lock := None), NodeRuns.Finished(NodeRuns.Accepted(e)))
  {
    hide Alone;
    AloneStep(cr, c, chat, t, NodeRuns.Announced(e), 6);
    AloneStep(cr, c, chat, t, NodeRuns.Leaving(NodeRuns.Accepted(e)), 5);
    AloneOver(cr, c, chat.(lock := None), t, NodeRuns.Accepted(e), 4);
  }

  lemma {:induction false} OfChatGrows(events: seq<Event>, e: Event, c: string)
    requires e.chatId == c
    ensures OfChat(events + [e], c) == OfChat(events, c) + [e]
  {
    assert (events + [e])[..|events|] == events;
  }

  /** The whole-call model, seen from the chat of the message. */
  lemma {:induction false} ProjectAppend(cr: Crypto, s: State, m: SignedMessage)
    requires Acceptable(cr, m)
    ensures var c := m.chatId;
            var e := NextEntry(cr, EntriesOf(s.entries, c), m);
            var stored := StoredChat(Project(s, c), c, e);
            && AfterAppend(cr, s, m).0 == Appended(e)
            && Project(AfterAppend(cr, s, m).1, c)
               == if |stored.entries| % SNAPSHOT_INTERVAL == 0 then SealedChat(cr, stored, c, e) else stored
  {
    hide VerifyMessage, NextEntry, NextSnapshot, OfChat;
    var c := m.chatId;
    var e := NextEntry(cr, EntriesOf(s.entries, c), m);
    var appended := Event(EntryAppended, c, e.sequence, e.entryHash);
    OfChatGrows(s.published, appended, c);
    OfChatGrows(s.published + [appended], Event(SnapshotCreated, c, e.sequence, e.entryHash), c);
  }

  /** From any state that calls can leave behind, an append that runs alone without faults
      ends after at most eleven steps with the outcome and the state of the whole-call model. */
  lemma {:induction false} AloneIsAppend(cr: Crypto, s: State, m: SignedMessage, t: nat)
    requires StateInv(cr, s) && |EntriesOf(s.entries, m.chatId)| + 1 < INT64_LIMIT
    ensures var (r, s') := AfterAppend(cr, s, m);
            Alone(cr, m.chatId, Project(s, m.chatId), t, NodeRuns.Checking(m), 11)
            == (Project(s', m.chatId), NodeRuns.Finished(OutcomeOf(r)))
  {
    hide Alone, VerifyMessage, NextEntry, ChatInv, NextSnapshot, StateInv, OfChat;
    var c, chat := m.chatId, Project(s, m.chatId);
    if !Acceptable(cr, m) {
      AloneStep(cr, c, chat, t, NodeRuns.Checking(m), 11);
      AloneOver(cr, c, chat, t, OutcomeOf(AfterAppend(cr, s, m).0), 10);
    } else {
      ProjectAppend(cr, s, m);
      ChatIsChained(cr, s, c);
      AloneAccepts(cr, c, chat, m, t);
    }
  }

  lemma ChatIsChained(cr: Crypto, s: State, c: string)
    requires StateInv(cr, s)
    ensures Chained(cr, EntriesOf(s.entries, c))
  {
    hide Chained;
    ChatOf(cr, s, c);
  }

  lemma SealedUnlocks(cr: Crypto, chat: Chat, c: string, e: LogEntry, t: nat)
    requires chat.entries != [] && chat.lock.None?
    ensures SealedChat(cr, chat.(lock := Some(t)), c, e).(lock := None) == SealedChat(cr, chat, c, e)
  {}

  lemma {:induction false} AloneAccepts(cr: Crypto, c: string, chat: Chat, m: SignedMessage, t: nat)
    requires chat.lock.None? && Chained(cr, chat.entries) && |chat.entries| + 1 < INT64_LIMIT && Acceptable(cr, m)
    ensures var e := NextEntry(cr, chat.entries, m);
            var stored := StoredChat(chat, c, e);
            Alone(cr, c, chat, t, NodeRuns.Checking(m), 11)
            == (if |stored.entries| % SNAPSHOT_INTERVAL == 0 then SealedChat(cr, stored, c, e) else stored,
                NodeRuns.Finished(NodeRuns.Accepted(e)))
  {
    hide Alone, Acceptable, NextEntry, Chained, NextSnapshot, SealedChat;
    var e := NextEntry(cr, chat.entries, m);
    NextEntryIsSound(cr, chat.entries, m);
    AloneStores(cr, c, chat, t, m, 11);
    var locked := StoredChat(chat, c, e).(lock := Some(t));
    assert e == locked.entries[|locked.entries| - 1] && e.sequence + 1 == |locked.entries|;
    if |locked.entries| % SNAPSHOT_INTERVAL == 0 {
      AloneSeals(cr, c, locked, t, e);
      SealedUnlocks(cr, StoredChat(chat, c, e), c, e, t);
    } else {
      AloneLeaves(cr, c, locked, t, e);
    }
  }

  // ---------------------------------------------------------------- failed writes

  /** The steps of thread t with nothing in between, each ending as told. */
  function AloneWith(cr: Crypto, c: string, chat: Chat, t: nat, task: Task, ios: seq<Io>): (Chat, Task)
    decreases |ios|
  {
    if ios == [] then (chat, task)
    else
      var (chat', task') := NodeRuns.ChatStep(cr, c, chat, t, task, ios[0]);
      AloneWith(cr, c, chat', t, task', ios[1..])
  }

  lemma AloneWithStep(cr: Crypto, c: string, chat: Chat, t: nat, task: Task, io: Io, rest: seq<Io>)
    ensures var (chat', task') := NodeRuns.ChatStep(cr, c, chat, t, task, io);
            AloneWith(cr, c, chat, t, task, [io] + rest) == AloneWith(cr, c, chat', t, task', rest)
  {
    assert ([io] + rest)[1..] == rest;
  }

  lemma AloneWithNothing(cr: Crypto, c: string, chat: Chat, t: nat, task: Task)
    ensures AloneWith(cr, c, chat, t, task, []) == (chat, task)
  {}

  /** An append whose store call fails has stored its entry, unannounced, if the write took
      effect all the same, and changed nothing if not. */
  lemma {:induction false} FailedStore(cr: Crypto, c: string, chat: Chat, t: nat, m: SignedMessage, applied: bool)
    requires chat.lock.None? && Acceptable(cr, m) && Chained(cr, chat.entries) && |chat.entries| + 1 < INT64_LIMIT
    ensures var e := NextEntry(cr, chat.entries, m);
            var ios := [Done] + ([Done] + ([Done] + ([if applied then FailedApplied else FailedClean] + ([Done] + []))));
            AloneWith(cr, c, chat, t, NodeRuns.Checking(m), ios)
            == (if applied then chat.(entries := chat.entries + [e]) else chat, NodeRuns.Finished(NodeRuns.StorageFailed))
  {
    hide AloneWith, VerifyMessage, ComputeHash, NextEntry, EntryAfter;
    var e, io := NextEntry(cr, chat.entries, m), if applied then FailedApplied else FailedClean;
    var locked := chat.(lock := Some(t));
    var ended := if applied then locked.(entries := chat.entries + [e]) else locked;
    NextEntryIsSound(cr, chat.entries, m);
    TipGivesNext(cr, chat.entries, m);
    AloneWithStep(cr, c, chat, t, NodeRuns.Checking(m), Done, [Done] + ([Done] + ([io] + ([Done] + []))));
    AloneWithStep(cr, c, chat, t, NodeRuns.Waiting(m), Done, [Done] + ([io] + ([Done] + [])));
    AloneWithStep(cr, c, locked, t, NodeRuns.Locked(m), Done, [io] + ([Done] + []));
    AloneWithStep(cr, c, locked, t, NodeRuns.Ready(e), io, [Done] + []);
    AloneWithStep(cr, c, ended, t, NodeRuns.Leaving(NodeRuns.StorageFailed), Done, []);
    AloneWithNothing(cr, c, ended.(lock := None), t, NodeRuns.Finished(NodeRuns.StorageFailed));
  }

  lemma TipGivesNext(cr: Crypto, es: seq<LogEntry>, m: SignedMessage)
    requires Chained(cr, es)
    ensures EntryAfter(cr, LastOf(es), m) == NextEntry(cr, es, m)
  {
    hide Chained, Acceptable, ComputeHash;
    if es != [] {
      ChainedEntry(cr, es, |es| - 1);
    }
  }

  /** One whose snapshot fails to be saved has stored and announced its entry; the snapshot is
      there if the write took effect, but neither its root is cached nor it is announced. */
  lemma {:induction false} FailedSnapshot(cr: Crypto, c: string, chat: Chat, t: nat, e: LogEntry, applied: bool)
    requires chat.entries != [] && e == chat.entries[|chat.entries| - 1] && e.sequence == |chat.entries| - 1
    requires |chat.entries| % SNAPSHOT_INTERVAL == 0
    ensures var snap := NextSnapshot(cr.sha, c, chat.snaps, chat.entries);
            var ios := [Done] + ([Done] + ([if applied then FailedApplied else FailedClean] + ([Done] + [])));
            AloneWith(cr, c, chat, t, NodeRuns.Announced(e), ios)
            == (chat.(lock := None, snaps := if applied then chat.snaps + [snap] else chat.snaps),
                NodeRuns.Finished(NodeRuns.StorageFailed))
  {
    hide AloneWith, NextSnapshot;
    var snap, io := NextSnapshot(cr.sha, c, chat.snaps, chat.entries), if applied then FailedApplied else FailedClean;
    NextSnapshotIs(cr, c, chat, t, e);
    AloneWithStep(cr, c, chat, t, NodeRuns.Announced(e), Done, [Done] + ([io] + ([Done] + [])));
    AloneWithStep(cr, c, chat, t, NodeRuns.Sealing(e, snap.fromSequence, snap.index), Done, [io] + ([Done] + []));
    SaveFails(cr, c, chat, t, e, snap, applied);
  }

  lemma NextSnapshotIs(cr: Crypto, c: string, chat: Chat, t: nat, e: LogEntry)
    requires chat.entries != [] && e == chat.entries[|chat.entries| - 1] && e.sequence == |chat.entries| - 1
    requires |chat.entries| % SNAPSHOT_INTERVAL == 0
    ensures var snap := NextSnapshot(cr.sha, c, chat.snaps, chat.entries);
            && NodeRuns.ChatStep(cr, c, chat, t, NodeRuns.Announced(e), Done)
               == (chat, NodeRuns.Sealing(e, snap.fromSequence, snap.index))
            && NodeRuns.ChatStep(cr, c, chat, t, NodeRuns.Sealing(e, snap.fromSequence, snap.index), Done)
               == (chat, NodeRuns.Rooted(e, snap.fromSequence, snap.index, snap.merkleRoot))
            && snap == Snapshot(c, snap.index, snap.fromSequence, e.sequence, snap.merkleRoot, e.entryHash)
  {
    hide RootOf, Hashes, Since;
  }

  lemma {:induction false} SaveFails(cr: Crypto, c: string, chat: Chat, t: nat, e: LogEntry, snap: Snapshot, applied: bool)
    requires snap == Snapshot(c, snap.index, snap.fromSequence, e.sequence, snap.merkleRoot, e.entryHash)
    ensures var io := if applied then FailedApplied else FailedClean;
            AloneWith(cr, c, chat, t, NodeRuns.Rooted(e, snap.fromSequence, snap.index, snap.merkleRoot), [io] + ([Done] + []))
            == (chat.(lock := None, snaps := if applied then chat.snaps + [snap] else chat.snaps),
                NodeRuns.Finished(NodeRuns.StorageFailed))
  {
    hide AloneWith;
    var ended := chat.(snaps := if applied then chat.snaps + [snap] else chat.snaps);
    AloneWithStep(cr, c, chat, t, NodeRuns.Rooted(e, snap.fromSequence, snap.index, snap.merkleRoot),
                  if applied then FailedApplied else FailedClean, [Done] + []);
    AloneWithStep(cr, c, ended, t, NodeRuns.Leaving(NodeRuns.StorageFailed), Done, []);
    AloneWithNothing(cr, c, ended.(lock := None), t, NodeRuns.Finished(NodeRuns.StorageFailed));
  }

  /** Failures of the broker and the cache are ignored: an append that has stored its entry is
      accepted whatever they answer, and each event and the cached root are missing exactly
      if the failed call had no effect. */
  lemma {:induction false} IgnoredFailures(cr: Crypto, c: string, chat: Chat, t: nat, e: LogEntry, root: string,
                                           cache: Io, publish: Io)
    ensures AloneWith(cr, c, chat, t, NodeRuns.Stored(e), [publish] + [])
         == (if publish.FailedClean? then chat
             else chat.(events := chat.events + [Event(EntryAppended, c, e.sequence, e.entryHash)]), NodeRuns.Announced(e))
    ensures AloneWith(cr, c, chat, t, NodeRuns.Sealed(e, root), [cache] + ([publish] + ([Done] + [])))
         == (chat.(lock := None, root := if cache.FailedClean? then chat.root else Some(root),
                   events := if publish.FailedClean? then chat.events
                             else chat.events + [Event(SnapshotCreated, c, e.sequence, e.entryHash)]),
             NodeRuns.Finished(NodeRuns.Accepted(e)))
  {
    hide AloneWith;
    var told := if publish.FailedClean? then chat
                else chat.(events := chat.events + [Event(EntryAppended, c, e.sequence, e.entryHash)]);
    assert chat.events + [] == chat.events;
    AloneWithStep(cr, c, chat, t, NodeRuns.Stored(e), publish, []);
    AloneWithNothing(cr, c, told, t, NodeRuns.Announced(e));
    var cached := if cache.FailedClean? then chat else chat.(root := Some(root));
    var both := if publish.FailedClean? then cached
                else cached.(events := chat.events + [Event(SnapshotCreated, c, e.sequence, e.entryHash)]);
    AloneWithStep(cr, c, chat, t, NodeRuns.Sealed(e, root), cache, [publish] + ([Done] + []));
    AloneWithStep(cr, c, cached, t, NodeRuns.RootCached(e), publish, [Done] + []);
    AloneWithStep(cr, c, both, t, NodeRuns.Leaving(NodeRuns.Accepted(e)), Done, []);
    AloneWithNothing(cr, c, both.(lock := None), t, NodeRuns.Finished(NodeRuns.Accepted(e)));
  }

  // ---------------------------------------------------------------- every interleaving

  /** Whole calls of Append, one after another, on an empty node. */
  function Fold(cr: Crypto, msgs: seq<SignedMessage>): State
    decreases |msgs|
  {
    if msgs == [] then State(map[], map[], map[], [])
    else AfterAppend(cr, Fold(cr, msgs[..|msgs| - 1]), msgs[|msgs| - 1]).1
  }

  function Messages(es: seq<LogEntry>): seq<SignedMessage> {
    seq(|es|, i requires 0 <= i < |es| => es[i].message)
  }

  /** What the first n entries and the snapshots over them make of a chat. */
  function ChatAt(c: string, es: seq<LogEntry>, snaps: seq<Snapshot>): Chat {
    NodeRuns.Chat(es, snaps, LatestRoot(snaps), Announcements.EventsOf(c, es), None)
  }

  /** A stored entry is the one an append to the log before it builds. */
  lemma StoredIsNext(cr: Crypto, es: seq<LogEntry>, n: nat)
    requires Chained(cr, es) && n < |es|
    ensures NextEntry(cr, es[..n], es[n].message) == es[n] && Acceptable(cr, es[n].message)
  {
    hide Chained, Acceptable, ComputeHash;
    ChainedEntry(cr, es, n);
    var e := es[n];
    assert PrevHash(es, n) == TipHash(es[..n]);
    HashIgnoresItself(cr.sha, e, "");
    assert e.(entryHash := "") == LogEntry(n, e.message, TipHash(es[..n]), "");
  }

  /** A snapshot is the one an append at its boundary seals. */
  lemma {:induction false} SavedIsNext(h: Hasher, c: string, snaps: seq<Snapshot>, es: seq<LogEntry>, k: nat)
    requires Tiled(h, c, snaps, es) && Regular(snaps) && k < |snaps|
    ensures snaps[k].toSequence == SNAPSHOT_INTERVAL * k + SNAPSHOT_INTERVAL - 1 < |es|
    ensures NextSnapshot(h, c, snaps[..k], es[..snaps[k].toSequence + 1]) == snaps[k]
  {
    hide RootOf, Hashes, Tiled;
    TileFacts(h, c, snaps, es, k);
    if k > 0 {
      TileFacts(h, c, snaps, es, k - 1);
    }
    var from, to := snaps[k].fromSequence, snaps[k].toSequence;
    var window := es[..to + 1];
    assert from == SNAPSHOT_INTERVAL * k && NextFrom(snaps[..k], k) == from;
    assert Since(window, from) == es[from..to + 1];
  }

  lemma {:induction false} FoldProject(cr: Crypto, c: string, es: seq<LogEntry>, snaps: seq<Snapshot>, n: nat)
    requires NodeRuns.LogGood(cr, c, es, snaps) && Regular(snaps) && |snaps| == |es| / SNAPSHOT_INTERVAL && n <= |es|
    ensures n / SNAPSHOT_INTERVAL <= |snaps|
    ensures Project(Fold(cr, Messages(es[..n])), c) == ChatAt(c, es[..n], snaps[..n / SNAPSHOT_INTERVAL])
    decreases n
  {
    hide NodeRuns.LogGood, Fold, Chained, Tiled, Regular, Project, ChatAt, NextEntry, Acceptable;
    LogParts(cr, c, es, snaps);
    if n == 0 {
      FoldNothing(cr, c);
      assert es[..0] == [] && snaps[..0] == [];
    } else {
      FoldProject(cr, c, es, snaps, n - 1);
      var s := Fold(cr, Messages(es[..n - 1]));
      StoredIsNext(cr, es, n - 1);
      FoldOne(cr, es, n - 1);
      FoldStep(cr, c, s, es, snaps, n - 1);
    }
  }

  lemma LogParts(cr: Crypto, c: string, es: seq<LogEntry>, snaps: seq<Snapshot>)
    requires NodeRuns.LogGood(cr, c, es, snaps)
    ensures Chained(cr, es) && Tiled(cr.sha, c, snaps, es)
    ensures forall i :: 0 <= i < |es| ==> es[i].message.chatId == c
  {
    hide Chained, Tiled;
  }

  lemma FoldNothing(cr: Crypto, c: string)
    ensures Project(Fold(cr, Messages([])), c) == ChatAt(c, [], [])
  {}

  lemma FoldOne(cr: Crypto, es: seq<LogEntry>, n: nat)
    requires n < |es|
    ensures Fold(cr, Messages(es[..n + 1])) == AfterAppend(cr, Fold(cr, Messages(es[..n])), es[n].message).1
  {
    hide AfterAppend;
    var msgs := Messages(es[..n + 1]);
    assert msgs[..n] == Messages(es[..n]) && msgs[n] == es[n].message;
  }

  lemma {:induction false} FoldStep(cr: Crypto, c: string, s: State, es: seq<LogEntry>, snaps: seq<Snapshot>, n: nat)
    requires Tiled(cr.sha, c, snaps, es) && Regular(snaps) && |snaps| == |es| / SNAPSHOT_INTERVAL && n < |es|
    requires es[n].message.chatId == c && Acceptable(cr, es[n].message)
    requires NextEntry(cr, es[..n], es[n].message) == es[n]
    requires Project(s, c) == ChatAt(c, es[..n], snaps[..n / SNAPSHOT_INTERVAL])
    ensures Project(AfterAppend(cr, s, es[n].message).1, c)
         == ChatAt(c, es[..n + 1], snaps[..(n + 1) / SNAPSHOT_INTERVAL])
  {
    hide Acceptable, NextEntry, AfterAppend, Tiled, Regular, ChatAt, Project, StoredChat, SealedChat;
    var k := n / SNAPSHOT_INTERVAL;
    NextHundred(n, |es|);
    ProjectAppend(cr, s, es[n].message);
    ProjectedEntries(s, c, es[..n], snaps[..k], es[n]);
    if (n + 1) % SNAPSHOT_INTERVAL == 0 {
      SavedIsNext(cr.sha, c, snaps, es, k);
      StoredThenSealed(cr, c, es, snaps, n, k);
    } else {
      OnlyStored(c, es, snaps[..k], n);
    }
  }

  lemma NextHundred(n: nat, length: nat)
    requires n < length
    ensures n / SNAPSHOT_INTERVAL <= length / SNAPSHOT_INTERVAL
    ensures (n + 1) % SNAPSHOT_INTERVAL == 0 ==>
              && n == SNAPSHOT_INTERVAL * (n / SNAPSHOT_INTERVAL) + SNAPSHOT_INTERVAL - 1
              && (n + 1) / SNAPSHOT_INTERVAL == n / SNAPSHOT_INTERVAL + 1 <= length / SNAPSHOT_INTERVAL
    ensures (n + 1) % SNAPSHOT_INTERVAL != 0 ==> (n + 1) / SNAPSHOT_INTERVAL == n / SNAPSHOT_INTERVAL
  {}

  lemma ProjectedEntries(s: State, c: string, es: seq<LogEntry>, snaps: seq<Snapshot>, e: LogEntry)
    requires Project(s, c) == ChatAt(c, es, snaps)
    ensures EntriesOf(s.entries, c) == es && |StoredChat(Project(s, c), c, e).entries| == |es| + 1
  {}

  lemma OnlyStored(c: string, es: seq<LogEntry>, snaps: seq<Snapshot>, n: nat)
    requires n < |es| && (n + 1) % SNAPSHOT_INTERVAL != 0
    ensures StoredChat(ChatAt(c, es[..n], snaps), c, es[n]) == ChatAt(c, es[..n + 1], snaps)
  {
    hide Announcements.EventsOf;
    assert es[..n] + [es[n]] == es[..n + 1];
    Announcements.EventsOfMore(c, es[..n], es[n]);
    var events := Announcements.EventsOf(c, es[..n]) + [Announcements.EntryEvent(c, es[n])];
    assert events + [] == events;
  }

  lemma StoredThenSealed(cr: Crypto, c: string, es: seq<LogEntry>, snaps: seq<Snapshot>, n: nat, k: nat)
    requires n < |es| && (n + 1) % SNAPSHOT_INTERVAL == 0 && k < |snaps|
    requires NextSnapshot(cr.sha, c, snaps[..k], es[..n + 1]) == snaps[k]
    ensures SealedChat(cr, StoredChat(ChatAt(c, es[..n], snaps[..k]), c, es[n]), c, es[n]) == ChatAt(c, es[..n + 1], snaps[..k + 1])
  {
    hide Announcements.EventsOf, NextSnapshot;
    assert es[..n] + [es[n]] == es[..n + 1] && snaps[..k] + [snaps[k]] == snaps[..k + 1];
    Announcements.EventsOfMore(c, es[..n], es[n]);
  }

  /** Every interleaving is a sequence of whole calls. In every run without faults, of any
      number of threads, in every state in which the lock of a chat is free, all that the
      node holds about the chat is what whole calls of Append with the messages of its
      entries, one after another, leave: entries, snapshots, cached root and events. */
  lemma {:induction false} RunsAreWholeCalls(cr: Crypto, actions: seq<NodeRuns.Action>, c: string)
    requires NodeRuns.Faultless(actions)
    ensures var chat := NodeRuns.Look(NodeRuns.RunAll(cr, actions), c);
            chat.lock.None? ==> Project(Fold(cr, Messages(chat.entries)), c) == chat
  {
    hide NodeRuns.RunAll, Fold, Project, NodeRuns.LogGood;
    var chat := NodeRuns.Look(NodeRuns.RunAll(cr, actions), c);
    if chat.lock.None? {
      NodeRuns.NodeSafety(cr, actions, c);
      Announcements.EventsAreExact(cr, actions, c);
      var n := |chat.entries|;
      assert chat.entries[..n] == chat.entries && chat.snaps[..n / SNAPSHOT_INTERVAL] == chat.snaps;
      FoldProject(cr, c, chat.entries, chat.snaps, n);
    }
  }
}
