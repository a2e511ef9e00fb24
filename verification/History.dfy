/** The cursor of GET /chats/{chatID}/messages (internal/api/server.go), and following it. */
module History {
  import opened Options
  import opened Models
  import opened Chain
  import opened Storage
  import opened ChatLog
  import Merkle

  const DEFAULT_LIMIT: nat := 50
  const MAX_LIMIT: nat := 200

  datatype Response = Response(messages: seq<LogEntry>, nextFrom: Option<nat>)

  /** The page size the handler settles on for a limit it accepts. */
  function Effective(limit: nat): nat {
    if limit > MAX_LIMIT then MAX_LIMIT else limit
  }

  /** A page of L entries and the cursor a full page carries. */
  function Respond(es: seq<LogEntry>, from: nat, L: nat): Response
    requires L > 0
  {
    var page := Page(es, from, L);
    Response(page, if |page| == L then Some(page[L - 1].sequence + 1) else None)
  }

  /** handleHistory; None is the bad-request answer to a limit of zero, and an absent limit
      is the default. */
  method HandleHistory(log: Log, chatId: string, from: nat, requested: Option<nat>) returns (r: Option<Response>)
    ensures requested == Some(0) <==> r == None
    ensures r.Some? ==>
              var es, asked := EntriesOf(log.store.entries, chatId), if requested.Some? then requested.value else 50;
              var size := if asked > 200 then 200 else asked;
              var n := if from >= |es| then 0 else if from + size > |es| then |es| - from else size;
              && |r.value.messages| == n && (n > 0 ==> r.value.messages == es[from..from + n])
              && r.value.nextFrom == (if n == size then Some(es[from + n - 1].sequence + 1) else None)
    ensures requested != Some(0) ==>
              var limit := if requested.Some? then requested.value else DEFAULT_LIMIT;
              r == Some(Respond(EntriesOf(log.store.entries, chatId), from, Effective(limit)))
  {
    var limit := if requested.Some? then requested.value else DEFAULT_LIMIT;
    if limit == 0 {
      return None;
    }
    if limit > MAX_LIMIT {
      limit := MAX_LIMIT;
    }
    var entries := log.History(chatId, from, limit);
    var resp := Response(entries, None);
    if |entries| == limit && |entries| > 0 {
      var next := entries[|entries| - 1].sequence + 1;
      resp := resp.(nextFrom := Some(next));
    }
    return Some(resp);
  }

  /** On a positional log a page is the slice at the cursor, and the cursor moves by a full
      page exactly when a full page was there. */
  lemma RespondSlices(es: seq<LogEntry>, from: nat, L: nat)
    requires L > 0 && Positional(es) && from <= |es|
    ensures var r := Respond(es, from, L);
            && (from + L <= |es| ==> r == Response(es[from..from + L], Some(from + L)))
            && (from + L > |es| ==> r == Response(es[from..], None))
  {
    if from == |es| {
      assert es[from..] == [];
    } else if from + L <= |es| {
      assert es[from..][..L] == es[from..from + L];
    }
  }

  // ---------------------------------------------------------------- following next_from

  /** Everything collected, the number of requests made, and the cursor left over. */
  datatype Walk = Walk(messages: seq<LogEntry>, requests: nat, next: Option<nat>)

  /** Following next_from until it is null; request i sees the log logs[i]. */
  function Follow(logs: seq<seq<LogEntry>>, from: nat, L: nat): Walk
    requires L > 0
    decreases |logs|
  {
    if logs == [] then Walk([], 0, Some(from))
    else
      var r := Respond(logs[0], from, L);
      if r.nextFrom.None? then Walk(r.messages, 1, None)
      else
        var rest := Follow(logs[1..], r.nextFrom.value, L);
        Walk(r.messages + rest.messages, 1 + rest.requests, rest.next)
  }

  lemma {:induction false} FollowStep(logs: seq<seq<LogEntry>>, from: nat, L: nat)
    requires L > 0 && logs != [] && Positional(logs[0]) && from <= |logs[0]|
    ensures from + L > |logs[0]| ==> Follow(logs, from, L) == Walk(logs[0][from..], 1, None)
    ensures from + L <= |logs[0]| ==>
              var rest := Follow(logs[1..], from + L, L);
              Follow(logs, from, L) == Walk(logs[0][from..from + L] + rest.messages, 1 + rest.requests, rest.next)
  {
    hide Respond;
    RespondSlices(logs[0], from, L);
  }

  lemma FollowNothing(from: nat, L: nat)
    requires L > 0
    ensures Follow([], from, L) == Walk([], 0, Some(from))
  {}

  ghost predicate Growing(logs: seq<seq<LogEntry>>) {
    && (forall i :: 0 <= i < |logs| ==> Positional(logs[i]))
    && (forall i, j :: 0 <= i <= j < |logs| ==> logs[i] <= logs[j])
  }

  /** While the log grows between requests, the pages so far are a gapless, repeat-free
      stretch of the log as of the last request made, and when the cursor ends they reach
      its end. */
  lemma {:induction false} FollowCollects(logs: seq<seq<LogEntry>>, from: nat, L: nat)
    requires L > 0 && logs != [] && Growing(logs) && from <= |logs[0]|
    ensures var w := Follow(logs, from, L);
            && 0 < w.requests <= |logs|
            && var last := logs[w.requests - 1];
            && from + |w.messages| <= |last|
            && w.messages == last[from..from + |w.messages|]
            && (w.next.None? ==> from + |w.messages| == |last|)
            && (w.next.Some? ==> w.next.value == from + |w.messages| && w.requests == |logs|)
    decreases |logs|
  {
    hide Follow, Positional;
    FollowStep(logs, from, L);
    if from + L <= |logs[0]| {
      if |logs| == 1 {
        assert logs[1..] == [];
        FollowNothing(from + L, L);
      } else {
        assert logs[0] <= logs[1];
        FollowCollects(logs[1..], from + L, L);
        var rest := Follow(logs[1..], from + L, L);
        var last := logs[rest.requests];
        assert logs[0] <= last;
        SlicesJoin(logs[0], last, from, from + L, from + L + |rest.messages|);
      }
    }
  }

  lemma SlicesJoin(early: seq<LogEntry>, late: seq<LogEntry>, from: nat, mid: nat, to: nat)
    requires early <= late && from <= mid <= |early| && mid <= to <= |late|
    ensures early[from..mid] + late[mid..to] == late[from..to]
  {
    assert early[from..mid] == late[from..mid];
  }

  /** On a log of n entries that does not change, following next_from from a cursor takes
      exactly (n - from) / L + 1 requests, the empty last page included. */
  lemma {:induction false} FollowCount(es: seq<LogEntry>, logs: seq<seq<LogEntry>>, from: nat, L: nat)
    requires L > 0 && Positional(es) && from <= |es|
    requires forall i :: 0 <= i < |logs| ==> logs[i] == es
    requires |logs| > (|es| - from) / L
    ensures var w := Follow(logs, from, L);
            w.next.None? && w.requests == (|es| - from) / L + 1 && w.messages == es[from..]
    decreases |logs|
  {
    hide Follow, Positional;
    QuotientNonNegative(|es| - from, L);
    FollowStep(logs, from, L);
    if from + L <= |es| {
      OneLessPage(|es| - from, L);
      FollowCount(es, logs[1..], from + L, L);
      SlicesJoin(es, es, from, from + L, |es|);
    } else {
      NoFullPage(|es| - from, L);
    }
  }

  lemma QuotientNonNegative(m: nat, L: nat)
    requires L > 0
    ensures m / L >= 0
  {}

  lemma {:induction false} OneLessPage(m: nat, L: nat)
    requires 0 < L <= m
    ensures m / L == (m - L) / L + 1
  {
    var q, r := (m - L) / L, (m - L) % L;
    assert m == L * (q + 1) + r;
    Merkle.QuotientUnique(m, L, q + 1, r);
  }

  lemma NoFullPage(m: nat, L: nat)
    requires m < L
    ensures m / L == 0
  {
    Merkle.QuotientUnique(m, L, 0, m);
  }
}
