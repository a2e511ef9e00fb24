/**
 Several nodes appending to one ScyllaDB table (internal/storage/scylla.go under
 internal/chatlog/log.go). Each node has its own locks, so nothing orders appends of
 different nodes but the insert-if-absent of the table, and a tip read may be stale.

 Rows of different chats never meet, so the model follows the rows of one chat.
 */
module SharedTable {
  import opened Options
  import opened Models
  import opened Chain
  import opened Columns
  import opened Storage
  import opened Hashing

  type Rows = map<nat, LogEntry>

  ghost function MaxKey(keys: set<nat>): (k: nat)
    requires keys != {}
    ensures k in keys && forall j :: j in keys ==> j <= k
  {
    var x :| x in keys;
    if keys == {x} then x
    else
      assert keys - {x} != {} by { assert keys == (keys - {x}) + {x}; }
      var m := MaxKey(keys - {x});
      assert keys == (keys - {x}) + {x};
      if x > m then x else m
  }

  /** SELECT ... ORDER BY sequence DESC LIMIT 1. */
  ghost function LastRow(rows: Rows): Option<LogEntry> {
    if rows.Keys == {} then None else Some(rows[MaxKey(rows.Keys)])
  }

  /** The tip as it is read back. */
  ghost function Tip(ms: Column, rows: Rows): Option<LogEntry> {
    if LastRow(rows).None? then None else Some(Back(ms, LastRow(rows).value))
  }

  /** INSERT ... IF NOT EXISTS. */
  function Inserted(rows: Rows, entry: LogEntry): Rows {
    if entry.sequence in rows then rows else rows[entry.sequence := entry]
  }

  // ---------------------------------------------------------------- steps

  /** Where one append stands, on whatever node it runs. */
  datatype Appender =
    | Begun(msg: SignedMessage)
    | HasTip(msg: SignedMessage, last: Option<LogEntry>)
    | Won(entry: LogEntry)
    | Lost(entry: LogEntry)
    | Unknown(entry: LogEntry)

  /** The table now and at every earlier step, and the appends of all nodes. */
  datatype Cluster = Cluster(rows: Rows, past: seq<Rows>, appenders: map<nat, Appender>)

  /** ReadTip names the earlier table the read is served from. */
  datatype Action = Begin(id: nat, msg: SignedMessage) | ReadTip(id: nat, version: nat) | Insert(id: nat, io: Io)

  ghost function Apply(cr: Crypto, ms: Column, s: Cluster, a: Action): Cluster {
    match a
    case Begin(t, m) =>
      if t in s.appenders || !Acceptable(cr, m) then s else s.(appenders := s.appenders[t := Begun(m)])
    case ReadTip(t, version) =>
      if t !in s.appenders || !s.appenders[t].Begun? || version > |s.past| then s
      else
        var seen := if version < |s.past| then s.past[version] else s.rows;
        s.(appenders := s.appenders[t := HasTip(s.appenders[t].msg, Tip(ms, seen))])
    case Insert(t, io) =>
      if t !in s.appenders || !s.appenders[t].HasTip? then s
      else
        var e := EntryAfter(cr, s.appenders[t].last, s.appenders[t].msg);
        var free := e.sequence !in s.rows;
        var outcome := if !io.Done? then Unknown(e) else if free then Won(e) else Lost(e);
        Cluster(if io.FailedClean? then s.rows else Inserted(s.rows, e), s.past + [s.rows], s.appenders[t := outcome])
  }

  ghost function RunAll(cr: Crypto, ms: Column, actions: seq<Action>): Cluster
    decreases |actions|
  {
    if actions == [] then Cluster(map[], [], map[])
    else Apply(cr, ms, RunAll(cr, ms, actions[..|actions| - 1]), actions[|actions| - 1])
  }

  // ---------------------------------------------------------------- invariant

  /** Rows 0..n-1 and no others. */
  ghost predicate Contiguous(rows: Rows) {
    forall k: nat :: k in rows <==> k < |rows|
  }

  function Contents(rows: Rows): seq<LogEntry>
    requires Contiguous(rows)
  {
    seq(|rows|, i requires 0 <= i < |rows| => rows[i])
  }

  ghost predicate Within(old_: Rows, rows: Rows) {
    forall k :: k in old_ ==> k in rows && rows[k] == old_[k]
  }

  ghost predicate TableGood(cr: Crypto, rows: Rows) {
    Contiguous(rows) && Chained(cr, Contents(rows))
  }

  /** A tip, however stale and whatever its timestamp became, carries the hash of the row in
      its place. */
  ghost predicate NamesRow(rows: Rows, last: Option<LogEntry>) {
    last.Some? ==> last.value.sequence in rows && rows[last.value.sequence].entryHash == last.value.entryHash
  }

  /** A winner's entry is in the table. */
  ghost predicate AppenderGood(cr: Crypto, rows: Rows, a: Appender) {
    match a
    case Begun(m) => Acceptable(cr, m)
    case HasTip(m, last) => Acceptable(cr, m) && NamesRow(rows, last)
    case Won(e) => e.sequence in rows && rows[e.sequence] == e
    case Lost(e) => e.sequence in rows
    case Unknown(_) => true
  }

  ghost predicate Inv(cr: Crypto, s: Cluster) {
    && TableGood(cr, s.rows)
    && (forall i :: 0 <= i < |s.past| ==> Within(s.past[i], s.rows))
    && (forall t :: t in s.appenders ==> AppenderGood(cr, s.rows, s.appenders[t]))
    && (forall t, u :: t in s.appenders && u in s.appenders && t != u && s.appenders[t].Won? && s.appenders[u].Won? ==>
          s.appenders[t].entry.sequence != s.appenders[u].entry.sequence)
  }

  lemma RowsCarrySequence(cr: Crypto, rows: Rows, k: nat)
    requires TableGood(cr, rows) && k in rows
    ensures rows[k].sequence == k
  {
    assert FaultAt(cr, Contents(rows), k).None?;
  }

  /** Inserting after any row of the table either hits an occupied slot or extends the chain
      by exactly the entry that follows the tip. */
  lemma {:induction false} InsertExtends(cr: Crypto, rows: Rows, last: Option<LogEntry>, m: SignedMessage)
    requires TableGood(cr, rows) && Acceptable(cr, m)
    requires NamesRow(rows, last)
    ensures var e := EntryAfter(cr, last, m);
            && TableGood(cr, Inserted(rows, e)) && Within(rows, Inserted(rows, e))
            && (e.sequence in rows <==> e.sequence < |rows|)
            && (e.sequence !in rows ==>
                  && e.sequence == |rows| && e == NextEntry(cr, Contents(rows), m)
                  && Contents(Inserted(rows, e)) == Contents(rows) + [e])
  {
    hide ComputeHash, VerifyMessage, Chained;
    var e := EntryAfter(cr, last, m);
    var es := Contents(rows);
    if e.sequence !in rows {
      assert e.sequence == |rows|;
      var rows' := rows[e.sequence := e];
      assert |rows'| == |rows| + 1;
      assert Contents(rows') == es + [e];
      ChainedExtends(cr, es, m);
      assert e == NextEntry(cr, es, m);
    }
  }

  /** What the descending query returns is the tip of the chain. */
  lemma LastRowIsTip(rows: Rows)
    requires Contiguous(rows)
    ensures rows.Keys == {} <==> |rows| == 0
    ensures LastRow(rows) == if |rows| == 0 then None else Some(Contents(rows)[|rows| - 1])
  {
    if rows.Keys != {} {
      var k := MaxKey(rows.Keys);
      assert k in rows && k < |rows|;
      assert |rows| - 1 in rows.Keys;
    } else {
      assert 0 !in rows;
    }
  }

  /** An insert wins exactly when the tip its entry was built on is still the tip. */
  lemma {:induction false} WinsIffTipCurrent(cr: Crypto, ms: Column, rows: Rows, last: Option<LogEntry>,
                                             m: SignedMessage)
    requires TableGood(cr, rows)
    requires last.Some? ==> last.value.sequence in rows && Back(ms, rows[last.value.sequence]) == last.value
    ensures EntryAfter(cr, last, m).sequence !in rows <==> last == Tip(ms, rows)
  {
    hide Chained, ComputeHash, LastRow;
    LastRowIsTip(rows);
    if |rows| > 0 {
      RowsCarrySequence(cr, rows, |rows| - 1);
    }
  }

  lemma {:induction false} ReadKeepsInv(cr: Crypto, ms: Column, s: Cluster, a: Action)
    requires Inv(cr, s) && !a.Insert?
    ensures Inv(cr, Apply(cr, ms, s, a)) && Apply(cr, ms, s, a).rows == s.rows
  {
    hide TableGood, EntryAfter, Acceptable, Tip, NamesRow;
    if a.ReadTip? && a.id in s.appenders && s.appenders[a.id].Begun? && a.version <= |s.past| {
      TipOfPast(cr, ms, if a.version < |s.past| then s.past[a.version] else s.rows, s.rows);
    }
  }

  /** What is known about an append survives every growth of the table. */
  lemma GoodGrows(cr: Crypto, rows: Rows, rows': Rows, a: Appender)
    requires AppenderGood(cr, rows, a) && Within(rows, rows')
    ensures AppenderGood(cr, rows', a)
  {
    hide Acceptable;
  }

  lemma InsertShape(cr: Crypto, ms: Column, s: Cluster, a: Action)
    requires a.Insert? && a.id in s.appenders && s.appenders[a.id].HasTip?
    ensures var s', e := Apply(cr, ms, s, a), EntryAfter(cr, s.appenders[a.id].last, s.appenders[a.id].msg);
            && s'.past == s.past + [s.rows]
            && (s'.rows == s.rows || s'.rows == Inserted(s.rows, e))
            && a.id in s'.appenders && s'.appenders == s.appenders[a.id := s'.appenders[a.id]]
            && (s'.appenders[a.id].Won? ==> s'.appenders[a.id].entry == e && e.sequence !in s.rows)
  {
    hide EntryAfter;
  }

  lemma {:induction false} TipFacts(cr: Crypto, rows: Rows, a: Appender)
    requires AppenderGood(cr, rows, a) && a.HasTip?
    ensures Acceptable(cr, a.msg)
    ensures NamesRow(rows, a.last)
  {}

  lemma OutcomeGood(cr: Crypto, ms: Column, s: Cluster, a: Action)
    requires a.Insert? && a.id in s.appenders && s.appenders[a.id].HasTip?
    ensures var s' := Apply(cr, ms, s, a); a.id in s'.appenders && AppenderGood(cr, s'.rows, s'.appenders[a.id])
  {
    hide EntryAfter;
  }

  lemma WinnersStored(cr: Crypto, s: Cluster, t: nat)
    requires Inv(cr, s)
    ensures t in s.appenders && s.appenders[t].Won? ==> s.appenders[t].entry.sequence in s.rows
  {
    hide TableGood;
    if t in s.appenders {
      assert AppenderGood(cr, s.rows, s.appenders[t]);
    }
  }

  lemma {:induction false} InsertKeepsInv(cr: Crypto, ms: Column, s: Cluster, a: Action)
    requires Inv(cr, s) && a.Insert?
    ensures Inv(cr, Apply(cr, ms, s, a)) && Within(s.rows, Apply(cr, ms, s, a).rows)
  {
    hide TableGood, EntryAfter, AppenderGood, Inserted, Within;
    if a.id in s.appenders && s.appenders[a.id].HasTip? {
      InsertKeepsRows(cr, ms, s, a);
      InsertShape(cr, ms, s, a);
      var s' := Apply(cr, ms, s, a);
      forall t | t in s'.appenders
        ensures AppenderGood(cr, s'.rows, s'.appenders[t])
      {
        if t == a.id {
          OutcomeGood(cr, ms, s, a);
        } else {
          GoodGrows(cr, s.rows, s'.rows, s.appenders[t]);
        }
      }
      forall t, u | t in s'.appenders && u in s'.appenders && t != u && s'.appenders[t].Won? && s'.appenders[u].Won?
        ensures s'.appenders[t].entry.sequence != s'.appenders[u].entry.sequence
      {
        WinnersStored(cr, s, t);
        WinnersStored(cr, s, u);
      }
    } else {
      WithinReflexive(s.rows);
    }
  }

  lemma WithinReflexive(rows: Rows)
    ensures Within(rows, rows)
  {}

  lemma WithinTransitive(a: Rows, b: Rows, d: Rows)
    requires Within(a, b) && Within(b, d)
    ensures Within(a, d)
  {}

  lemma {:induction false} InsertKeepsRows(cr: Crypto, ms: Column, s: Cluster, a: Action)
    requires a.Insert? && a.id in s.appenders && s.appenders[a.id].HasTip?
    requires TableGood(cr, s.rows) && AppenderGood(cr, s.rows, s.appenders[a.id])
    requires forall i :: 0 <= i < |s.past| ==> Within(s.past[i], s.rows)
    ensures var s' := Apply(cr, ms, s, a);
            && TableGood(cr, s'.rows) && Within(s.rows, s'.rows)
            && forall i :: 0 <= i < |s'.past| ==> Within(s'.past[i], s'.rows)
  {
    hide Apply, TableGood, EntryAfter, Acceptable, AppenderGood, Inserted, Within;
    var s' := Apply(cr, ms, s, a);
    var last, m := s.appenders[a.id].last, s.appenders[a.id].msg;
    TipFacts(cr, s.rows, s.appenders[a.id]);
    InsertShape(cr, ms, s, a);
    InsertExtends(cr, s.rows, last, m);
    WithinReflexive(s.rows);
    PastStaysWithin(s.past, s.rows, s'.rows);
  }

  lemma PastStaysWithin(past: seq<Rows>, rows: Rows, rows': Rows)
    requires Within(rows, rows') && forall i :: 0 <= i < |past| ==> Within(past[i], rows)
    ensures forall i :: 0 <= i < |past + [rows]| ==> Within((past + [rows])[i], rows')
  {
    hide Within;
    forall i | 0 <= i < |past + [rows]|
      ensures Within((past + [rows])[i], rows')
    {
      if i < |past| {
        WithinTransitive(past[i], rows, rows');
      }
    }
  }

  lemma {:induction false} StepKeepsInv(cr: Crypto, ms: Column, s: Cluster, a: Action)
    requires Inv(cr, s)
    ensures Inv(cr, Apply(cr, ms, s, a)) && Within(s.rows, Apply(cr, ms, s, a).rows)
  {
    hide Inv, Apply;
    if a.Insert? {
      InsertKeepsInv(cr, ms, s, a);
    } else {
      ReadKeepsInv(cr, ms, s, a);
    }
  }

  lemma TipOfPast(cr: Crypto, ms: Column, seen: Rows, rows: Rows)
    requires TableGood(cr, rows) && Within(seen, rows)
    ensures NamesRow(rows, Tip(ms, seen))
  {
    if seen.Keys != {} {
      RowsCarrySequence(cr, rows, MaxKey(seen.Keys));
    }
  }

  lemma {:induction false} EveryRunGood(cr: Crypto, ms: Column, actions: seq<Action>)
    ensures Inv(cr, RunAll(cr, ms, actions))
    decreases |actions|
  {
    if actions != [] {
      EveryRunGood(cr, ms, actions[..|actions| - 1]);
      StepKeepsInv(cr, ms, RunAll(cr, ms, actions[..|actions| - 1]), actions[|actions| - 1]);
    }
  }

  // ---------------------------------------------------------------- what runs guarantee

  /** Cross-node safety. For any number of nodes, any interleaving, tip reads as stale as
      they may be and inserts that fail with or without effect: the table is always a
      contiguous chain of linked, signed entries, and of two appends that won, no two won
      the same slot. */
  lemma {:induction false} TableSafety(cr: Crypto, ms: Column, actions: seq<Action>)
    ensures var s := RunAll(cr, ms, actions);
            && Contiguous(s.rows) && Chained(cr, Contents(s.rows))
            && (forall i :: 0 <= i < |s.rows| ==> LinkedAndSigned(cr, Contents(s.rows), i))
            && (forall t :: t in s.appenders && s.appenders[t].Won? ==>
                  s.appenders[t].entry.sequence in s.rows && s.rows[s.appenders[t].entry.sequence] == s.appenders[t].entry)
            && (forall t, u :: t in s.appenders && u in s.appenders && t != u && s.appenders[t].Won? && s.appenders[u].Won? ==>
                  s.appenders[t].entry.sequence != s.appenders[u].entry.sequence)
  {
    hide Chained, LinkedAndSigned;
    EveryRunGood(cr, ms, actions);
    var s := RunAll(cr, ms, actions);
    ChainedMeans(cr, Contents(s.rows));
    assert forall t :: t in s.appenders ==> AppenderGood(cr, s.rows, s.appenders[t]);
  }

  /** No row is ever overwritten or removed: what a run holds, every longer run holds. */
  lemma {:induction false} RowsNeverChange(cr: Crypto, ms: Column, actions: seq<Action>, more: seq<Action>)
    ensures Within(RunAll(cr, ms, actions).rows, RunAll(cr, ms, actions + more).rows)
    decreases |more|
  {
    if more == [] {
      assert actions + more == actions;
    } else {
      var init := more[..|more| - 1];
      assert (actions + more)[..|actions + more| - 1] == actions + init;
      assert (actions + more)[|actions + more| - 1] == more[|more| - 1];
      RowsNeverChange(cr, ms, actions, init);
      EveryRunGood(cr, ms, actions + init);
      StepKeepsInv(cr, ms, RunAll(cr, ms, actions + init), more[|more| - 1]);
    }
  }

  /** The contract of the storage port, kept by insert-if-absent alone: a step either leaves
      the log as it is or appends to it the entry that follows exactly its tip. So the
      cluster refines one sequential log. */
  lemma {:induction false} EveryStepAppends(cr: Crypto, ms: Column, actions: seq<Action>, a: Action)
    ensures var before, after := RunAll(cr, ms, actions).rows, RunAll(cr, ms, actions + [a]).rows;
            && Contiguous(before) && Contiguous(after)
            && (after == before
                || exists m :: Acceptable(cr, m)
                     && Contents(after) == Contents(before) + [NextEntry(cr, Contents(before), m)])
  {
    hide EntryAfter, Chained, Acceptable, NextEntry;
    var s := RunAll(cr, ms, actions);
    EveryRunGood(cr, ms, actions);
    EveryRunGood(cr, ms, actions + [a]);
    assert (actions + [a])[..|actions|] == actions;
    if a.Insert? && a.id in s.appenders && s.appenders[a.id].HasTip? {
      assert AppenderGood(cr, s.rows, s.appenders[a.id]);
      InsertExtends(cr, s.rows, s.appenders[a.id].last, s.appenders[a.id].msg);
    }
  }

  // ---------------------------------------------------------------- how appends end

  /** In every reachable state, an append that has read a tip ends as that tip deserves. If it
      is still the tip of the table, the entry that follows it is appended and the append
      wins; if not, nothing changes and it loses. An insert that fails after it took effect
      leaves the table as one that was answered, and one that fails before as it was; either
      way its caller does not know. */
  lemma {:induction false} InsertEnds(cr: Crypto, ms: Column, actions: seq<Action>, t: nat, io: Io)
    requires t in RunAll(cr, ms, actions).appenders && RunAll(cr, ms, actions).appenders[t].HasTip?
    ensures var s, w := RunAll(cr, ms, actions), RunAll(cr, ms, actions + [Insert(t, io)]);
            && Contiguous(s.rows) && Contiguous(w.rows) && t in w.appenders
            && var current := s.appenders[t].last == Tip(ms, s.rows);
               var next := NextEntry(cr, Contents(s.rows), s.appenders[t].msg);
            && Contents(w.rows) == (if current && !io.FailedClean? then Contents(s.rows) + [next] else Contents(s.rows))
            && (w.appenders[t].Won? <==> io.Done? && current) && (w.appenders[t].Lost? <==> io.Done? && !current)
            && (w.appenders[t].Unknown? <==> !io.Done?) && (w.appenders[t].Won? ==> w.appenders[t].entry == next)
  {
    hide RunAll, EntryAfter, Chained, Acceptable, NextEntry, Tip;
    var s := RunAll(cr, ms, actions);
    EveryRunGood(cr, ms, actions);
    EveryRunGood(cr, ms, actions + [Insert(t, io)]);
    RunOne(cr, ms, actions, Insert(t, io));
    TipsAreRows(cr, ms, actions, t);
    assert AppenderGood(cr, s.rows, s.appenders[t]);
    InsertExtends(cr, s.rows, s.appenders[t].last, s.appenders[t].msg);
    WinsIffTipCurrent(cr, ms, s.rows, s.appenders[t].last, s.appenders[t].msg);
  }

  /** So an append that reads the table as it is, and whose insert comes before any other,
      wins the next slot, in every reachable state. */
  lemma {:induction false} FreshAppendWins(cr: Crypto, ms: Column, actions: seq<Action>, t: nat, m: SignedMessage)
    requires t !in RunAll(cr, ms, actions).appenders && Acceptable(cr, m)
    ensures var s := RunAll(cr, ms, actions);
            var w := RunAll(cr, ms, actions + [Begin(t, m)] + [ReadTip(t, |s.past|)] + [Insert(t, Done)]);
            && Contiguous(s.rows) && Contiguous(w.rows) && t in w.appenders
            && var next := NextEntry(cr, Contents(s.rows), m);
               w.appenders[t] == Won(next) && Contents(w.rows) == Contents(s.rows) + [next]
  {
    hide RunAll, Chained, Acceptable, NextEntry, EntryAfter, LastRow;
    var s := RunAll(cr, ms, actions);
    EveryRunGood(cr, ms, actions);
    RunOne(cr, ms, actions, Begin(t, m));
    var read := actions + [Begin(t, m)] + [ReadTip(t, |s.past|)];
    RunOne(cr, ms, actions + [Begin(t, m)], ReadTip(t, |s.past|));
    InsertEnds(cr, ms, read, t, Done);
  }

  /** A tip that was read is a row of the table, as the table gives it back. */
  ghost predicate BackOfRow(ms: Column, rows: Rows, last: Option<LogEntry>) {
    last.Some? ==> last.value.sequence in rows && Back(ms, rows[last.value.sequence]) == last.value
  }

  lemma TipIsARow(cr: Crypto, ms: Column, seen: Rows, rows: Rows)
    requires TableGood(cr, rows) && Within(seen, rows)
    ensures BackOfRow(ms, rows, Tip(ms, seen))
  {
    if seen.Keys != {} {
      RowsCarrySequence(cr, rows, MaxKey(seen.Keys));
    }
  }

  lemma {:induction false} TipsAreRows(cr: Crypto, ms: Column, actions: seq<Action>, t: nat)
    ensures var s := RunAll(cr, ms, actions);
            t in s.appenders && s.appenders[t].HasTip? ==> BackOfRow(ms, s.rows, s.appenders[t].last)
    decreases |actions|
  {
    hide Inv, BackOfRow, Apply;
    if actions != [] {
      var init, last := actions[..|actions| - 1], actions[|actions| - 1];
      TipsAreRows(cr, ms, init, t);
      EveryRunGood(cr, ms, init);
      StepKeepsInv(cr, ms, RunAll(cr, ms, init), last);
      StepKeepsTip(cr, ms, RunAll(cr, ms, init), last, t);
    }
  }

  lemma StepKeepsTip(cr: Crypto, ms: Column, s: Cluster, a: Action, t: nat)
    requires Inv(cr, s) && Within(s.rows, Apply(cr, ms, s, a).rows)
    requires t in s.appenders && s.appenders[t].HasTip? ==> BackOfRow(ms, s.rows, s.appenders[t].last)
    ensures var w := Apply(cr, ms, s, a);
            t in w.appenders && w.appenders[t].HasTip? ==> BackOfRow(ms, w.rows, w.appenders[t].last)
  {
    hide TableGood, EntryAfter, Acceptable, Tip, AppenderGood, Inserted;
    if a.ReadTip? && a.version <= |s.past| {
      var seen := if a.version < |s.past| then s.past[a.version] else s.rows;
      TipIsARow(cr, ms, seen, s.rows);
    }
  }

  /** A race on an empty table: both read no tip, the first insert wins and the second loses,
      as it does when its read is merely stale. */
  lemma {:induction false} RaceLoses(cr: Crypto, ms: Column, m: SignedMessage, n: SignedMessage)
    requires Acceptable(cr, m) && Acceptable(cr, n)
    ensures var race := [Begin(0, m), Begin(1, n), ReadTip(0, 0), ReadTip(1, 0), Insert(0, Done), Insert(1, Done)];
            var stale := [Begin(0, m), Begin(1, n), ReadTip(0, 0), Insert(0, Done), ReadTip(1, 0), Insert(1, Done)];
            var first, second := NextEntry(cr, [], m), NextEntry(cr, [], n);
            && RunAll(cr, ms, race).rows == map[0 := first] && RunAll(cr, ms, stale).rows == map[0 := first]
            && RunAll(cr, ms, race).appenders == map[0 := Won(first), 1 := Lost(second)]
            && RunAll(cr, ms, stale).appenders == map[0 := Won(first), 1 := Lost(second)]
  {
    hide RunAll, Apply, NextEntry, Acceptable;
    var first, second := NextEntry(cr, [], m), NextEntry(cr, [], n);
    RaceSteps(cr, ms, m, n);
    var begun := [Begin(0, m)] + [Begin(1, n)] + [ReadTip(0, 0)];
    RunNothing(cr, ms);
    RunOne(cr, ms, [], Begin(0, m));
    assert [] + [Begin(0, m)] == [Begin(0, m)];
    RunOne(cr, ms, [Begin(0, m)], Begin(1, n));
    RunOne(cr, ms, [Begin(0, m)] + [Begin(1, n)], ReadTip(0, 0));
    RunOne(cr, ms, begun, ReadTip(1, 0));
    RunOne(cr, ms, begun + [ReadTip(1, 0)], Insert(0, Done));
    RunOne(cr, ms, begun + [ReadTip(1, 0)] + [Insert(0, Done)], Insert(1, Done));
    RunOne(cr, ms, begun, Insert(0, Done));
    RunOne(cr, ms, begun + [Insert(0, Done)], ReadTip(1, 0));
    RunOne(cr, ms, begun + [Insert(0, Done)] + [ReadTip(1, 0)], Insert(1, Done));
    assert begun + [ReadTip(1, 0)] + [Insert(0, Done)] + [Insert(1, Done)]
        == [Begin(0, m), Begin(1, n), ReadTip(0, 0), ReadTip(1, 0), Insert(0, Done), Insert(1, Done)];
    assert begun + [Insert(0, Done)] + [ReadTip(1, 0)] + [Insert(1, Done)]
        == [Begin(0, m), Begin(1, n), ReadTip(0, 0), Insert(0, Done), ReadTip(1, 0), Insert(1, Done)];
  }

  lemma FirstOfTable(cr: Crypto, m: SignedMessage)
    ensures EntryAfter(cr, None, m) == NextEntry(cr, [], m) && NextEntry(cr, [], m).sequence == 0
  {
    hide ComputeHash;
  }

  /** The states of those two runs. */
  lemma RaceSteps(cr: Crypto, ms: Column, m: SignedMessage, n: SignedMessage)
    requires Acceptable(cr, m) && Acceptable(cr, n)
    ensures var first, second := NextEntry(cr, [], m), NextEntry(cr, [], n);
            var none: Rows := map[];
            var begun := Cluster(none, [], map[0 := HasTip(m, None), 1 := Begun(n)]);
            var both := Cluster(none, [], map[0 := HasTip(m, None), 1 := HasTip(n, None)]);
            var stored := Cluster(map[0 := first], [none], map[0 := Won(first), 1 := Begun(n)]);
            var stale := Cluster(map[0 := first], [none], map[0 := Won(first), 1 := HasTip(n, None)]);
            && Apply(cr, ms, Apply(cr, ms, Apply(cr, ms, Cluster(none, [], map[]), Begin(0, m)), Begin(1, n)), ReadTip(0, 0))
               == begun
            && Apply(cr, ms, begun, ReadTip(1, 0)) == both && Apply(cr, ms, both, Insert(0, Done)) == stale
            && Apply(cr, ms, begun, Insert(0, Done)) == stored && Apply(cr, ms, stored, ReadTip(1, 0)) == stale
            && Apply(cr, ms, stale, Insert(1, Done))
               == Cluster(map[0 := first], [none, map[0 := first]], map[0 := Won(first), 1 := Lost(second)])
  {
    hide Acceptable, EntryAfter, NextEntry, LastRow;
    var none: Rows := map[];
    var first, second := NextEntry(cr, [], m), NextEntry(cr, [], n);
    FirstOfTable(cr, m);
    FirstOfTable(cr, n);
    NothingRead(ms);
    var stale := Cluster(map[0 := first], [none], map[0 := Won(first), 1 := HasTip(n, None)]);
    assert Apply(cr, ms, stale, Insert(1, Done)).past == [none] + [map[0 := first]];
  }

  lemma NothingRead(ms: Column)
    ensures Tip(ms, map[]) == None
  {}

  // ---------------------------------------------------------------- reading back

  /** What the table gives back, in every run. A row verifies exactly if the timestamp column
      keeps its timestamp, which whoever sends the message can see before sending it. If
      not, it is reported as tampered with from then on, or a collision is exhibited. The
      chain above it is not touched: links are made of stored hashes. */
  lemma {:induction false} TableReadsBack(cr: Crypto, ms: Column, actions: seq<Action>, i: nat)
    requires i < |RunAll(cr, ms, actions).rows|
    ensures var rows := RunAll(cr, ms, actions).rows;
            && Contiguous(rows)
            && var es := Contents(rows);
               var back, ts := ReadBack(ms, es), es[i].message.timestamp;
            && back[i].sequence == i && back[i].prevHash == PrevHash(back, i)
            && (ms(ts) == ts ==>
                  FaultAt(cr, back, i).None? && EntryFault(cr, back[i], PrevHash(back, i)).None?)
            && (ms(ts) != ts ==>
                  || (FaultAt(cr, back, i) == Some(TamperedEntry)
                      && EntryFault(cr, back[i], PrevHash(back, i)) == Some(TamperedEntry))
                  || Collides(cr.sha, EntryCollision(cr.sha, es[i], back[i])))
  {
    hide Chained, FaultAt, EntryFault, EntryCollision, RunAll;
    EveryRunGood(cr, ms, actions);
    var es := Contents(RunAll(cr, ms, actions).rows);
    ReadBackFault(cr, ms, es, i);
    ChainedEntry(cr, es, i);
  }

  /** It happens: one signed message with a tenth of a millisecond, appended undisturbed. */
  lemma {:induction false} SubMillisecondRow(cr: Crypto, m: SignedMessage)
    requires Acceptable(cr, m) && m.timestamp == "2026-01-01T00:00:00" + "." + "0001" + "Z"
    ensures var s := RunAll(cr, Milliseconds, [Begin(0, m), ReadTip(0, 0), Insert(0, Done)]);
            var e := NextEntry(cr, [], m);
            && s.rows == map[0 := e] && s.appenders == map[0 := Won(e)]
            && Milliseconds(m.timestamp) != m.timestamp
            && (FaultAt(cr, [Back(Milliseconds, e)], 0) == Some(TamperedEntry)
                || Collides(cr.sha, EntryCollision(cr.sha, e, Back(Milliseconds, e))))
  {
    hide *;
    MillisecondsKeeps("2026-01-01T00:00:00", "0001");
    assert "0001"[3] == '1';
    ThreeSteps(cr, Milliseconds, m);
    FirstRowFails(cr, Milliseconds, m);
  }

  lemma FirstRowFails(cr: Crypto, ms: Column, m: SignedMessage)
    requires Acceptable(cr, m) && ms(m.timestamp) != m.timestamp
    ensures var e := NextEntry(cr, [], m);
            || FaultAt(cr, [Back(ms, e)], 0) == Some(TamperedEntry)
            || Collides(cr.sha, EntryCollision(cr.sha, e, Back(ms, e)))
  {
    hide Acceptable, NextEntry, Chained, FaultAt, EntryFault, EntryCollision;
    var e := NextEntry(cr, [], m);
    NextEntryIsSound(cr, [], m);
    NothingChained(cr);
    ChainedExtends(cr, [], m);
    assert [] + [e] == [e];
    ReadBackFault(cr, ms, [e], 0);
    assert ReadBack(ms, [e]) == [Back(ms, e)];
  }

  lemma NothingChained(cr: Crypto)
    ensures Chained(cr, [])
  {}

  lemma ThreeSteps(cr: Crypto, ms: Column, m: SignedMessage)
    requires Acceptable(cr, m)
    ensures var e := NextEntry(cr, [], m);
            RunAll(cr, ms, [Begin(0, m), ReadTip(0, 0), Insert(0, Done)]) == Cluster(map[0 := e], [map[]], map[0 := Won(e)])
  {
    hide Acceptable, ComputeHash, RunAll;
    var a1, a2 := [Begin(0, m)], [Begin(0, m), ReadTip(0, 0)];
    RunNothing(cr, ms);
    RunOne(cr, ms, [], Begin(0, m));
    assert [] + [Begin(0, m)] == a1;
    RunOne(cr, ms, a1, ReadTip(0, 0));
    assert a1 + [ReadTip(0, 0)] == a2;
    RunOne(cr, ms, a2, Insert(0, Done));
    assert a2 + [Insert(0, Done)] == [Begin(0, m), ReadTip(0, 0), Insert(0, Done)];
    assert RunAll(cr, ms, a1) == Cluster(map[], [], map[0 := Begun(m)]);
    assert RunAll(cr, ms, a2) == Cluster(map[], [], map[0 := HasTip(m, None)]);
  }

  lemma RunNothing(cr: Crypto, ms: Column)
    ensures RunAll(cr, ms, []) == Cluster(map[], [], map[])
  {}

  lemma RunOne(cr: Crypto, ms: Column, actions: seq<Action>, a: Action)
    ensures RunAll(cr, ms, actions + [a]) == Apply(cr, ms, RunAll(cr, ms, actions), a)
  {
    assert (actions + [a])[..|actions|] == actions;
  }

  // ---------------------------------------------------------------- one node's use of the table

  /** The table as a node sees it. */
  class Scylla {
    const ms: Column
    var rows: Rows

    constructor (ms: Column)
      ensures rows == map[] && this.ms == ms
    {
      rows, this.ms := map[], ms;
    }

    /** false is ErrSequenceGap: a row already occupies the slot, and it stays. */
    method AppendEntry(entry: LogEntry) returns (applied: bool)
      modifies this
      ensures applied <==> entry.sequence !in old(rows)
      ensures rows == Inserted(old(rows), entry)
    {
      applied := entry.sequence !in rows;
      if applied {
        rows := rows[entry.sequence := entry];
      }
    }

    method LastEntry() returns (last: Option<LogEntry>)
      ensures last == Tip(ms, rows)
    {
      if rows.Keys == {} {
        return None;
      }
      var k :| k in rows.Keys;
      var rest := rows.Keys - {k};
      while rest != {}
        invariant k in rows.Keys && rest <= rows.Keys
        invariant forall x :: x in rows.Keys && x !in rest ==> x <= k
        decreases rest
      {
        var j :| j in rest;
        if j > k {
          k := j;
        }
        rest := rest - {j};
      }
      assert MaxKey(rows.Keys) == k;
      return Some(Back(ms, rows[k]));
    }

    /** One Append of the log that no other node disturbs: it reads the tip, builds the entry
        and inserts it, and on a good table it wins the next slot. */
    method UndisturbedAppend(cr: Crypto, msg: SignedMessage) returns (stored: Option<LogEntry>)
      requires TableGood(cr, rows) && Acceptable(cr, msg)
      modifies this
      ensures TableGood(cr, rows)
      ensures stored == Some(NextEntry(cr, Contents(old(rows)), msg))
      ensures Contents(rows) == Contents(old(rows)) + [NextEntry(cr, Contents(old(rows)), msg)]
    {
      hide Chained, ComputeHash, LastRow, Acceptable;
      LastRowIsTip(rows);
      if |rows| > 0 {
        RowsCarrySequence(cr, rows, |rows| - 1);
      }
      var last := LastEntry();
      WinsIffTipCurrent(cr, ms, rows, last, msg);
      InsertExtends(cr, rows, last, msg);
      var entry := EntryAfter(cr, last, msg);
      var applied := AppendEntry(entry);
      return if applied then Some(entry) else None;
    }
  }
}
