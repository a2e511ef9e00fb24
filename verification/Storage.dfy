/** The in-memory store of internal/storage/storage.go. */
module Storage {
  import opened Options
  import opened Models
  import opened Chain
  import opened Seals

  /** How a call on a store, a cache or a broker that can fail ends: with an answer, or with
      an error before or after it took effect. */
  datatype Io = Done | FailedClean | FailedApplied

  function EntriesOf(entries: map<string, seq<LogEntry>>, chatId: string): seq<LogEntry> {
    if chatId in entries then entries[chatId] else []
  }

  function SnapshotsOf(snapshots: map<string, seq<Snapshot>>, chatId: string): seq<Snapshot> {
    if chatId in snapshots then snapshots[chatId] else []
  }

  /** A missing key and an empty slice read the same. */
  class InMemoryStorage {
    var entries: map<string, seq<LogEntry>>
    var snapshots: map<string, seq<Snapshot>>

    /** Holds of every store that only AppendEntry has filled, forged entries included. */
    ghost predicate Valid()
      reads this
    {
      forall c :: c in entries ==> Positional(entries[c])
    }

    constructor ()
      ensures entries == map[] && snapshots == map[]
      ensures Valid()
    {
      entries, snapshots := map[], map[];
    }

    /** Accepts exactly the entry whose sequence is one past the tip; false is ErrSequenceGap. */
    method AppendEntry(chatId: string, entry: LogEntry) returns (ok: bool)
      modifies this`entries
      ensures ok <==> entry.sequence == |old(EntriesOf(entries, chatId))|
      ensures entries == if ok then old(entries)[chatId := old(EntriesOf(entries, chatId)) + [entry]] else old(entries)
      ensures old(Valid()) ==> Valid()
    {
      var existing := EntriesOf(entries, chatId);
      if |existing| != entry.sequence {
        return false;
      }
      entries := entries[chatId := existing + [entry]];
      return true;
    }

    method LastEntry(chatId: string) returns (last: Option<LogEntry>)
      ensures last == LastOf(EntriesOf(entries, chatId))
    {
      var existing := EntriesOf(entries, chatId);
      if |existing| == 0 {
        return None;
      }
      return Some(existing[|existing| - 1]);
    }

    method Entry(chatId: string, sequence: nat) returns (e: Option<LogEntry>)
      ensures e == EntryOf(EntriesOf(entries, chatId), sequence)
    {
      var existing := EntriesOf(entries, chatId);
      if sequence >= |existing| {
        return None;
      }
      return Some(existing[sequence]);
    }

    method EntriesSince(chatId: string, fromSequence: nat) returns (out: seq<LogEntry>)
      ensures out == Since(EntriesOf(entries, chatId), fromSequence)
    {
      var existing := EntriesOf(entries, chatId);
      if fromSequence >= |existing| {
        return [];
      }
      return existing[fromSequence..];
    }

    method SaveSnapshot(snap: Snapshot)
      modifies this`snapshots
      ensures snapshots == old(snapshots)[snap.chatId := old(SnapshotsOf(snapshots, snap.chatId)) + [snap]]
    {
      snapshots := snapshots[snap.chatId := SnapshotsOf(snapshots, snap.chatId) + [snap]];
    }

    method LatestSnapshot(chatId: string) returns (snap: Option<Snapshot>)
      ensures snap == LastOf(SnapshotsOf(snapshots, chatId))
    {
      var snaps := SnapshotsOf(snapshots, chatId);
      if |snaps| == 0 {
        return None;
      }
      return Some(snaps[|snaps| - 1]);
    }

    method SnapshotAtIndex(chatId: string, index: nat) returns (snap: Option<Snapshot>)
      ensures snap == SnapshotAt(SnapshotsOf(snapshots, chatId), index)
    {
      var snaps := SnapshotsOf(snapshots, chatId);
      if index >= |snaps| {
        return None;
      }
      return Some(snaps[index]);
    }
  }

  function LastOf<T>(xs: seq<T>): Option<T> {
    if xs == [] then None else Some(xs[|xs| - 1])
  }

  function EntryOf(es: seq<LogEntry>, sequence: nat): Option<LogEntry> {
    if sequence < |es| then Some(es[sequence]) else None
  }
}
