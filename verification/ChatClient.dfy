/**
 The client's list of one chat (web/src/chat/useChat.ts): pages asked for at the cursor,
 answered from whatever the log is by then, and delivered in any order.
 */
module ChatClient {
  import opened Options
  import opened Models
  import opened Chain
  import opened History

  const PAGE_SIZE: nat := 50

  /** What the hook shows, and nextSeqRef. */
  datatype View = View(messages: seq<LogEntry>, nextSeq: nat)

  function Sequences(es: seq<LogEntry>): set<nat> {
    set i | 0 <= i < |es| :: es[i].sequence
  }

  /** entries.filter(e => !seen.has(e.sequence)). */
  function Fresh(seen: set<nat>, entries: seq<LogEntry>): seq<LogEntry> {
    if entries == [] then []
    else (if entries[0].sequence in seen then [] else [entries[0]]) + Fresh(seen, entries[1..])
  }

  function Max(a: nat, b: nat): nat {
    if a > b then a else b
  }

  function Extend(v: View, entries: seq<LogEntry>): View {
    if entries == [] then v
    else View(v.messages + Fresh(Sequences(v.messages), entries), Max(v.nextSeq, entries[|entries| - 1].sequence + 1))
  }

  /** The hook's own state. */
  class ChatHook {
    var messages: seq<LogEntry>
    var nextSeqRef: nat
    var caughtUp: bool

    ghost function State(): View
      reads this
    {
      View(messages, nextSeqRef)
    }

    constructor ()
      ensures State() == View([], 0) && !caughtUp
    {
      messages, nextSeqRef, caughtUp := [], 0, false;
    }

    method AppendEntries(entries: seq<LogEntry>)
      modifies this`messages, this`nextSeqRef
      ensures State() == Extend(old(State()), entries)
    {
      if |entries| == 0 {
        return;
      }
      var seen := set i | 0 <= i < |messages| :: messages[i].sequence;
      var unseen := Fresh(seen, entries);
      if |unseen| > 0 {
        messages := messages + unseen;
      }
      nextSeqRef := Max(nextSeqRef, entries[|entries| - 1].sequence + 1);
    }

    /** The end of loadMore, once its page has arrived. */
    method PageArrived(page: Response)
      modifies this
      ensures State() == Extend(old(State()), page.messages)
      ensures caughtUp <==> page.nextFrom.None?
    {
      AppendEntries(page.messages);
      caughtUp := page.nextFrom.None?;
    }
  }

  // ---------------------------------------------------------------- client and server

  /** A request on its way: a page asked for, a page answered, a message being sent, the
      stored entry coming back. */
  datatype Flight =
    | Asked(from: nat, loadMore: bool)
    | Answered(from: nat, loadMore: bool, page: Response)
    | Sending
    | Sent(entry: LogEntry)

  /** streaming tells whether the live stream is open: it follows caughtUp at each render. */
  datatype System = System(log: seq<LogEntry>, view: View, caughtUp: bool, streaming: bool, flights: map<nat, Flight>)

  datatype Action =
    | ServerAppends(entry: LogEntry)     // anyone's message is stored
    | LoadMore(id: nat)
    | Render                             // the stream is opened or closed
    | LiveEvent(id: nat)                 // entry_appended on the open stream
    | Answer(id: nat)                    // the server reads the log now
    | Deliver(id: nat)
    | Fail(id: nat)
    | Send(id: nat)
    | StoreSent(id: nat, entry: LogEntry)

  function Apply(s: System, a: Action): System {
    match a
    case ServerAppends(e) => if e.sequence != |s.log| then s else s.(log := s.log + [e])
    case LoadMore(id) =>
      if id in s.flights then s else s.(flights := s.flights[id := Asked(s.view.nextSeq, true)])
    case Render => s.(streaming := s.caughtUp)
    case LiveEvent(id) =>
      if id in s.flights || !s.streaming then s else s.(flights := s.flights[id := Asked(s.view.nextSeq, false)])
    case Answer(id) =>
      if id !in s.flights || !s.flights[id].Asked? then s
      else
        var Asked(from, loadMore) := s.flights[id];
        s.(flights := s.flights[id := Answered(from, loadMore, Respond(s.log, from, PAGE_SIZE))])
    case Deliver(id) =>
      if id !in s.flights then s
      else (match s.flights[id]
            case Answered(_, loadMore, page) =>
              s.(view := Extend(s.view, page.messages), flights := s.flights - {id},
                 caughtUp := if loadMore then page.nextFrom.None? else s.caughtUp)
            case Sent(e) => s.(view := Extend(s.view, [e]), flights := s.flights - {id})
            case _ => s)
    case Fail(id) => s.(flights := s.flights - {id})
    case Send(id) => if id in s.flights then s else s.(flights := s.flights[id := Sending])
    case StoreSent(id, e) =>
      if id !in s.flights || !s.flights[id].Sending? || e.sequence != |s.log| then s
      else s.(log := s.log + [e], flights := s.flights[id := Sent(e)])
  }

  function RunAll(actions: seq<Action>): System
    decreases |actions|
  {
    if actions == [] then System([], View([], 0), false, false, map[])
    else Apply(RunAll(actions[..|actions| - 1]), actions[|actions| - 1])
  }

  // ---------------------------------------------------------------- the list is the log

  ghost predicate Shows(log: seq<LogEntry>, v: View) {
    v.nextSeq <= |log| && v.messages == log[..v.nextSeq]
  }

  lemma HeldIffBelow(log: seq<LogEntry>, n: nat, k: nat)
    requires Positional(log) && n <= |log| && k < |log|
    ensures log[k].sequence in Sequences(log[..n]) <==> k < n
  {
    if k < n {
      assert log[..n][k].sequence == k;
    }
  }

  lemma FreshStep(log: seq<LogEntry>, seen: set<nat>, from: nat, upto: nat)
    requires from < upto <= |log|
    ensures Fresh(seen, log[from..upto])
         == (if log[from].sequence in seen then [] else [log[from]]) + Fresh(seen, log[from + 1..upto])
  {
    assert log[from..upto][1..] == log[from + 1..upto];
  }

  /** Of a stretch of the log, the part above what is held is fresh. */
  lemma {:induction false} FreshOfStretch(log: seq<LogEntry>, n: nat, from: nat, upto: nat)
    requires Positional(log) && n <= |log| && from <= upto <= |log|
    ensures Fresh(Sequences(log[..n]), log[from..upto]) == (if upto <= n then [] else log[Max(from, n)..upto])
    decreases upto - from
  {
    hide Fresh, Sequences, Positional;
    if from < upto {
      FreshStep(log, Sequences(log[..n]), from, upto);
      HeldIffBelow(log, n, from);
      FreshOfStretch(log, n, from + 1, upto);
      assert [log[from]] + log[from + 1..upto] == log[from..upto];
    } else {
      FreshOfNothing(Sequences(log[..n]), log[from..upto]);
    }
  }

  lemma FreshOfNothing(seen: set<nat>, entries: seq<LogEntry>)
    requires entries == []
    ensures Fresh(seen, entries) == []
  {}

  lemma LastOfStretch(log: seq<LogEntry>, from: nat, upto: nat)
    requires Positional(log) && from < upto <= |log|
    ensures log[from..upto] != [] && log[from..upto][|log[from..upto]| - 1].sequence == upto - 1
  {
    assert log[from..upto][upto - from - 1] == log[upto - 1];
  }

  /** A page from the cursor or below it, however late, keeps the list equal to the log. */
  lemma ExtendShows(log: seq<LogEntry>, v: View, from: nat, upto: nat)
    requires Positional(log) && Shows(log, v) && from <= v.nextSeq && from <= upto <= |log|
    ensures Shows(log, Extend(v, log[from..upto])) && Extend(v, log[from..upto]).nextSeq == Max(v.nextSeq, upto)
  {
    hide Positional, Sequences, Fresh;
    if from < upto {
      FreshOfStretch(log, v.nextSeq, from, upto);
      LastOfStretch(log, from, upto);
      assert log[..v.nextSeq] + [] == log[..v.nextSeq];
      if upto > v.nextSeq {
        assert log[..v.nextSeq] + log[v.nextSeq..upto] == log[..upto];
      }
    }
  }

  /** A page answered from some state of the log is a stretch of every later one. */
  ghost predicate PageOf(log: seq<LogEntry>, from: nat, page: Response) {
    from + |page.messages| <= |log| && page.messages == log[from..from + |page.messages|]
  }

  lemma RespondIsPage(log: seq<LogEntry>, from: nat)
    requires Positional(log) && from <= |log|
    ensures PageOf(log, from, Respond(log, from, PAGE_SIZE))
  {
    RespondSlices(log, from, PAGE_SIZE);
  }

  // ---------------------------------------------------------------- what every run keeps

  /** No sequence twice, and every entry shown is the log's entry at its sequence. */
  ghost predicate Faithful(log: seq<LogEntry>, v: View) {
    && v.nextSeq <= |log|
    && (forall i :: 0 <= i < |v.messages| ==>
          v.messages[i].sequence < v.nextSeq && v.messages[i] == log[v.messages[i].sequence])
    && (forall i, j :: 0 <= i < j < |v.messages| ==> v.messages[i].sequence != v.messages[j].sequence)
  }

  ghost predicate FlightGood(log: seq<LogEntry>, cursor: nat, f: Flight) {
    match f
    case Asked(from, _) => from <= cursor
    case Answered(from, _, page) => from <= cursor && PageOf(log, from, page)
    case Sending => true
    case Sent(e) => e.sequence < |log| && log[e.sequence] == e
  }

  ghost predicate Inv(s: System) {
    && Positional(s.log)
    && Faithful(s.log, s.view)
    && (forall id :: id in s.flights ==> FlightGood(s.log, s.view.nextSeq, s.flights[id]))
  }

  /** Entries of the stretch from..upto of the log, none in seen, in increasing order. */
  ghost predicate Picked(log: seq<LogEntry>, seen: set<nat>, from: nat, upto: nat, r: seq<LogEntry>)
    requires upto <= |log|
  {
    && (forall i :: 0 <= i < |r| ==> from <= r[i].sequence < upto && r[i] == log[r[i].sequence] && r[i].sequence !in seen)
    && (forall i, j :: 0 <= i < j < |r| ==> r[i].sequence < r[j].sequence)
  }

  lemma {:induction false} FreshPicks(log: seq<LogEntry>, seen: set<nat>, from: nat, upto: nat)
    requires Positional(log) && from <= upto <= |log|
    ensures Picked(log, seen, from, upto, Fresh(seen, log[from..upto]))
    decreases upto - from
  {
    hide Picked;
    if from < upto {
      FreshStep(log, seen, from, upto);
      FreshPicks(log, seen, from + 1, upto);
      PickedMore(log, seen, from, upto, Fresh(seen, log[from + 1..upto]));
    } else {
      PickedNone(log, seen, from, upto);
    }
  }

  lemma PickedNone(log: seq<LogEntry>, seen: set<nat>, from: nat, upto: nat)
    requires upto <= |log|
    ensures Picked(log, seen, from, upto, [])
  {}

  lemma PickedMore(log: seq<LogEntry>, seen: set<nat>, from: nat, upto: nat, r: seq<LogEntry>)
    requires Positional(log) && from < upto <= |log| && Picked(log, seen, from + 1, upto, r)
    ensures Picked(log, seen, from, upto, if log[from].sequence in seen then [] + r else [log[from]] + r)
  {
    if log[from].sequence in seen {
      assert [] + r == r;
    } else {
      var more := [log[from]] + r;
      assert more[0].sequence == from;
      assert forall i :: 0 < i < |more| ==> more[i] == r[i - 1];
      forall i, j | 0 <= i < j < |more|
        ensures more[i].sequence < more[j].sequence
      {
        assert more[j] == r[j - 1];
        if i > 0 {
          assert more[i] == r[i - 1];
        }
      }
    }
  }

  lemma ExtendPicks(log: seq<LogEntry>, v: View, from: nat, upto: nat)
    requires Positional(log) && from <= upto <= |log|
    ensures var w := Extend(v, log[from..upto]);
            && v.messages <= w.messages && v.nextSeq <= w.nextSeq
            && w.nextSeq == (if from < upto then Max(v.nextSeq, upto) else v.nextSeq)
            && Picked(log, Sequences(v.messages), from, upto, w.messages[|v.messages|..])
  {
    if from < upto {
      var seen := Sequences(v.messages);
      FreshPicks(log, seen, from, upto);
      LastOfStretch(log, from, upto);
      assert (v.messages + Fresh(seen, log[from..upto]))[|v.messages|..] == Fresh(seen, log[from..upto]);
    }
  }

  lemma ExtendFaithful(log: seq<LogEntry>, v: View, from: nat, upto: nat)
    requires Positional(log) && Faithful(log, v) && from <= upto <= |log|
    ensures Faithful(log, Extend(v, log[from..upto]))
    ensures v.nextSeq <= Extend(v, log[from..upto]).nextSeq && v.messages <= Extend(v, log[from..upto]).messages
  {
    hide Extend, Positional;
    ExtendPicks(log, v, from, upto);
    var w := Extend(v, log[from..upto]);
    var n, tail := |v.messages|, w.messages[|v.messages|..];
    assert forall i :: 0 <= i < n ==> w.messages[i] == v.messages[i] && v.messages[i].sequence in Sequences(v.messages);
    assert forall i :: n <= i < |w.messages| ==> w.messages[i] == tail[i - n];
  }

  lemma FaithfulGrows(log: seq<LogEntry>, log': seq<LogEntry>, v: View)
    requires Faithful(log, v) && log <= log'
    ensures Faithful(log', v)
  {}

  lemma FlightGrows(log: seq<LogEntry>, cursor: nat, log': seq<LogEntry>, cursor': nat, f: Flight)
    requires FlightGood(log, cursor, f) && log <= log' && cursor <= cursor'
    ensures FlightGood(log', cursor', f)
  {}

  lemma SentIsStretch(log: seq<LogEntry>, cursor: nat, e: LogEntry)
    requires FlightGood(log, cursor, Sent(e))
    ensures e.sequence < |log| && log[e.sequence..e.sequence + 1] == [e]
  {}

  lemma FaithfulBound(log: seq<LogEntry>, v: View)
    requires Faithful(log, v)
    ensures v.nextSeq <= |log|
  {}

  lemma DeliverKeepsView(s: System, id: nat)
    requires Inv(s) && id in s.flights
    ensures Faithful(s.log, Apply(s, Deliver(id)).view)
    ensures s.view.nextSeq <= Apply(s, Deliver(id)).view.nextSeq && s.view.messages <= Apply(s, Deliver(id)).view.messages
  {
    hide Extend, Faithful, Positional;
    assert FlightGood(s.log, s.view.nextSeq, s.flights[id]);
    FaithfulBound(s.log, s.view);
    match s.flights[id]
    case Answered(from, _, page) => ExtendFaithful(s.log, s.view, from, from + |page.messages|);
    case Sent(e) =>
      SentIsStretch(s.log, s.view.nextSeq, e);
      ExtendFaithful(s.log, s.view, e.sequence, e.sequence + 1);
    case _ =>
  }

  lemma NewFlight(s: System, a: Action, id: nat)
    requires Inv(s) && id in Apply(s, a).flights
    requires id !in s.flights || Apply(s, a).flights[id] != s.flights[id]
    ensures FlightGood(Apply(s, a).log, Apply(s, a).view.nextSeq, Apply(s, a).flights[id])
  {
    hide Respond, Extend;
    if a.Answer? && a.id in s.flights && s.flights[a.id].Asked? {
      assert FlightGood(s.log, s.view.nextSeq, s.flights[a.id]);
      RespondIsPage(s.log, s.flights[a.id].from);
    }
  }

  lemma StepKeepsInv(s: System, a: Action)
    requires Inv(s)
    ensures Inv(Apply(s, a))
    ensures s.view.nextSeq <= Apply(s, a).view.nextSeq && s.view.messages <= Apply(s, a).view.messages
  {
    hide Respond, Extend, Faithful, FlightGood;
    var s' := Apply(s, a);
    if a.Deliver? && a.id in s.flights {
      DeliverKeepsView(s, a.id);
    } else {
      FaithfulGrows(s.log, s'.log, s.view);
    }
    forall id | id in s'.flights
      ensures FlightGood(s'.log, s'.view.nextSeq, s'.flights[id])
    {
      if id in s.flights && s'.flights[id] == s.flights[id] {
        FlightGrows(s.log, s.view.nextSeq, s'.log, s'.view.nextSeq, s.flights[id]);
      } else {
        NewFlight(s, a, id);
      }
    }
  }

  /** In every run, sends included: no sequence repeats, every entry shown is the log's, the
      cursor never goes back and nothing shown disappears. */
  lemma {:induction false} ListStaysFaithful(actions: seq<Action>)
    ensures Inv(RunAll(actions))
    ensures actions != [] ==>
              var before := RunAll(actions[..|actions| - 1]);
              before.view.nextSeq <= RunAll(actions).view.nextSeq && before.view.messages <= RunAll(actions).view.messages
    decreases |actions|
  {
    if actions != [] {
      ListStaysFaithful(actions[..|actions| - 1]);
      StepKeepsInv(RunAll(actions[..|actions| - 1]), actions[|actions| - 1]);
    }
  }

  // ---------------------------------------------------------------- when the list is the log

  /** When a send keeps the list equal to the log: exactly when its entry is not beyond the
      cursor at the moment it comes back. */
  lemma SendKeepsListIff(log: seq<LogEntry>, v: View, k: nat)
    requires Positional(log) && Shows(log, v) && k < |log|
    ensures Shows(log, Extend(v, [log[k]])) <==> k <= v.nextSeq
  {
    assert [log[k]] == log[k..k + 1];
    FreshOfStretch(log, v.nextSeq, k, k + 1);
    if k <= v.nextSeq {
      ExtendShows(log, v, k, k + 1);
    } else {
      var w := Extend(v, [log[k]]);
      assert w.messages == v.messages + [log[k]] && w.nextSeq == k + 1;
      assert |w.messages| == v.nextSeq + 1 < w.nextSeq;
    }
  }

  /** The step does not bring back a sent message from beyond the cursor. */
  ghost predicate InOrder(s: System, a: Action) {
    a.Deliver? && a.id in s.flights && s.flights[a.id].Sent? ==> s.flights[a.id].entry.sequence <= s.view.nextSeq
  }

  /** Every sent message came back when the cursor had reached it. */
  ghost predicate SendsInOrder(actions: seq<Action>) {
    forall i :: 0 <= i < |actions| ==> InOrder(RunAll(actions[..i]), actions[i])
  }

  /** Some place of the list shows another sequence than its own. */
  ghost predicate Displaced(v: View) {
    exists i :: 0 <= i < |v.messages| && v.messages[i].sequence != i
  }

  lemma DisplacedShowsNot(log: seq<LogEntry>, v: View)
    requires Positional(log) && Displaced(v)
    ensures !Shows(log, v)
  {}

  lemma DisplacedStays(v: View, w: View)
    requires Displaced(v) && v.messages <= w.messages
    ensures Displaced(w)
  {
    var i :| 0 <= i < |v.messages| && v.messages[i].sequence != i;
    assert w.messages[i] == v.messages[i];
  }

  lemma SendDisplaces(log: seq<LogEntry>, v: View, k: nat)
    requires Positional(log) && Shows(log, v) && v.nextSeq < k < |log|
    ensures Displaced(Extend(v, [log[k]]))
  {
    assert [log[k]] == log[k..k + 1];
    FreshOfStretch(log, v.nextSeq, k, k + 1);
    var w := Extend(v, [log[k]]);
    assert w.messages == v.messages + [log[k]];
    assert w.messages[v.nextSeq].sequence == k;
  }

  /** One step from a list that is the log. */
  lemma StepShows(s: System, a: Action)
    requires Inv(s) && Shows(s.log, s.view)
    ensures InOrder(s, a) ==> Shows(Apply(s, a).log, Apply(s, a).view)
    ensures !InOrder(s, a) ==> Displaced(Apply(s, a).view)
  {
    hide Respond, Extend, Positional, Faithful, Displaced;
    if a.Deliver? && a.id in s.flights {
      assert FlightGood(s.log, s.view.nextSeq, s.flights[a.id]);
      match s.flights[a.id]
      case Answered(from, _, page) => ExtendShows(s.log, s.view, from, from + |page.messages|);
      case Sent(e) =>
        if e.sequence <= s.view.nextSeq {
          SendKeepsListIff(s.log, s.view, e.sequence);
        } else {
          SendDisplaces(s.log, s.view, e.sequence);
        }
      case _ =>
    }
  }

  lemma SendsInOrderStep(actions: seq<Action>)
    requires actions != []
    ensures var init := actions[..|actions| - 1];
            SendsInOrder(actions) <==> SendsInOrder(init) && InOrder(RunAll(init), actions[|actions| - 1])
  {
    hide InOrder, RunAll;
    var init := actions[..|actions| - 1];
    assert forall i :: 0 <= i < |init| ==> init[i] == actions[i] && init[..i] == actions[..i];
    assert forall i :: 0 <= i < |actions| ==> i < |init| || (actions[..i] == init && actions[i] == actions[|actions| - 1]);
    if SendsInOrder(actions) {
      assert InOrder(RunAll(actions[..|init|]), actions[|init|]);
      forall i | 0 <= i < |init|
        ensures InOrder(RunAll(init[..i]), init[i])
      {
        assert InOrder(RunAll(actions[..i]), actions[i]);
      }
    }
  }

  /** The list is the log, exactly when. In every run of page loads, live refetches and sends
      of one chat, with any number of requests overlapping, answered from a growing log,
      delivered in any order or lost, the list is the log up to the cursor, in order, if
      and only if no sent message came back from beyond the cursor. */
  lemma {:induction false} ListIsLogIff(actions: seq<Action>)
    ensures Shows(RunAll(actions).log, RunAll(actions).view) <==> SendsInOrder(actions)
    ensures !SendsInOrder(actions) ==> Displaced(RunAll(actions).view)
    decreases |actions|
  {
    hide Shows, Displaced, InOrder, SendsInOrder, Apply, Faithful, FlightGood;
    if actions == [] {
      NothingDelivered();
    } else {
      var init, last := actions[..|actions| - 1], actions[|actions| - 1];
      var s := RunAll(init);
      ListIsLogIff(init);
      ListStaysFaithful(init);
      ListStaysFaithful(actions);
      SendsInOrderStep(actions);
      if SendsInOrder(init) {
        StepShows(s, last);
      } else {
        DisplacedStays(s.view, RunAll(actions).view);
      }
      if Displaced(RunAll(actions).view) {
        DisplacedShowsNot(RunAll(actions).log, RunAll(actions).view);
      }
    }
  }

  lemma NothingDelivered()
    ensures Shows(RunAll([]).log, RunAll([]).view) && SendsInOrder([])
  {}

  /** In particular without sends, whatever the order of the answers. */
  lemma {:induction false} ListIsLog(actions: seq<Action>)
    requires forall i :: 0 <= i < |actions| ==> !actions[i].Send?
    ensures Shows(RunAll(actions).log, RunAll(actions).view)
  {
    forall i | 0 <= i < |actions|
      ensures InOrder(RunAll(actions[..i]), actions[i])
    {
      NothingSent(actions[..i]);
    }
    ListIsLogIff(actions);
  }

  ghost predicate NoneSent(flights: map<nat, Flight>) {
    forall id :: id in flights ==> !flights[id].Sending? && !flights[id].Sent?
  }

  lemma StepSendsNothing(s: System, a: Action)
    requires NoneSent(s.flights) && !a.Send?
    ensures NoneSent(Apply(s, a).flights)
  {
    hide Respond, Extend;
    match a
    case StoreSent(id, _) => if id in s.flights { assert !s.flights[id].Sending?; }
    case _ =>
  }

  lemma {:induction false} NothingSent(actions: seq<Action>)
    requires forall i :: 0 <= i < |actions| ==> !actions[i].Send?
    ensures NoneSent(RunAll(actions).flights)
    decreases |actions|
  {
    hide Apply;
    if actions != [] {
      NothingSent(actions[..|actions| - 1]);
      StepSendsNothing(RunAll(actions[..|actions| - 1]), actions[|actions| - 1]);
    }
  }

  // ---------------------------------------------------------------- the list catches up

  lemma StepGrowsLog(s: System, a: Action)
    ensures s.log <= Apply(s, a).log
  {
    hide Respond, Extend;
  }

  lemma {:induction false} LogOnlyGrows(actions: seq<Action>, more: seq<Action>)
    ensures RunAll(actions).log <= RunAll(actions + more).log
    decreases |more|
  {
    hide Apply;
    if more == [] {
      assert actions + more == actions;
    } else {
      var init, last := more[..|more| - 1], more[|more| - 1];
      assert actions + more == (actions + init) + [last];
      LogOnlyGrows(actions, init);
      RunOne(actions + init, last);
      StepGrowsLog(RunAll(actions + init), last);
    }
  }

  /** A page without a cursor reaches the end of the log it was answered from. */
  lemma LastPageReaches(log: seq<LogEntry>, later: seq<LogEntry>, v: View, from: nat)
    requires Positional(log) && Positional(later) && log <= later && from <= v.nextSeq && from <= |log|
    requires Respond(log, from, PAGE_SIZE).nextFrom.None?
    ensures |log| <= Extend(v, Respond(log, from, PAGE_SIZE).messages).nextSeq
  {
    RespondSlices(log, from, PAGE_SIZE);
    if from < |log| {
      LastOfStretch(log, from, |log|);
      assert log[from..] == log[from..|log|];
    }
  }

  /** A load that ends caught up has caught up: when its page comes without a cursor, however
      late, the cursor of the hook is at least at the end of the log as it was when the
      page was answered. And unless a send came back out of order, the list then shows all
      of that log. */
  lemma {:induction false} LoadCatchesUp(before: seq<Action>, between: seq<Action>, id: nat)
    requires var s := RunAll(before); id in s.flights && s.flights[id].Asked? && s.flights[id].loadMore
    requires var answered := RunAll(before + [Answer(id)]).flights;
             && id in answered && answered[id].Answered? && answered[id].page.nextFrom.None?
             && var w := RunAll(before + [Answer(id)] + between);
                id in w.flights && w.flights[id] == answered[id]
    ensures var log := RunAll(before).log;
            var actions := before + [Answer(id)] + between + [Deliver(id)];
            && RunAll(actions).caughtUp
            && |log| <= RunAll(actions).view.nextSeq
            && (SendsInOrder(actions) ==> log <= RunAll(actions).view.messages)
  {
    hide RunAll, Respond, Extend, Faithful, FlightGood, SendsInOrder;
    var s := RunAll(before);
    var asked := s.flights[id];
    ListStaysFaithful(before);
    RunOne(before, Answer(id));
    var answered := before + [Answer(id)];
    assert RunAll(answered).flights[id] == Answered(asked.from, true, Respond(s.log, asked.from, PAGE_SIZE));
    var held := answered + between;
    var w := RunAll(held);
    ListStaysFaithful(held);
    LogOnlyGrows(answered, between);
    AskedBelow(s, w, id, asked.from, w.flights[id].page);
    LastPageReaches(s.log, w.log, w.view, asked.from);
    RunOne(held, Deliver(id));
    ListIsLogIff(held + [Deliver(id)]);
  }

  lemma AskedBelow(s: System, w: System, id: nat, from: nat, page: Response)
    requires Inv(s) && Inv(w) && id in s.flights && id in w.flights
    requires s.flights[id] == Asked(from, true) && w.flights[id] == Answered(from, true, page)
    ensures from <= |s.log| && from <= w.view.nextSeq
  {
    hide Faithful;
    FaithfulBound(s.log, s.view);
    assert FlightGood(s.log, s.view.nextSeq, s.flights[id]) && FlightGood(w.log, w.view.nextSeq, w.flights[id]);
  }

  // ---------------------------------------------------------------- progress

  function Least(a: nat, b: nat): nat {
    if a < b then a else b
  }

  /** What a state has become after a page of the log from the cursor was fetched. */
  ghost predicate Fetched(s: System, w: System, upto: nat) {
    && w.log == s.log && w.flights == s.flights && w.streaming == s.streaming
    && w.view.nextSeq == upto && s.view.messages <= w.view.messages
    && (forall k :: s.view.nextSeq <= k < upto ==> !NotShown(w.view, k))
    && (Shows(s.log, s.view) ==> Shows(w.log, w.view))
  }

  lemma {:induction false} PageFetched(s: System, id: nat, asked: Flight, w: System)
    requires Inv(s) && id !in s.flights && asked.Asked? && asked.from == s.view.nextSeq
    requires var page := Respond(s.log, asked.from, PAGE_SIZE);
             w == s.(view := Extend(s.view, page.messages),
                     caughtUp := if asked.loadMore then page.nextFrom.None? else s.caughtUp)
    ensures Fetched(s, w, Least(s.view.nextSeq + 50, |s.log|))
    ensures asked.loadMore ==> (w.caughtUp <==> s.view.nextSeq + 50 > |s.log|)
    ensures !asked.loadMore ==> w.caughtUp == s.caughtUp
  {
    hide Respond, Extend, Faithful, FlightGood, Positional, NotShown, Shows;
    FaithfulBound(s.log, s.view);
    var from, upto := s.view.nextSeq, Least(s.view.nextSeq + 50, |s.log|);
    RespondSlices(s.log, from, PAGE_SIZE);
    assert Respond(s.log, from, PAGE_SIZE).messages == s.log[from..upto];
    ExtendPicks(s.log, s.view, from, upto);
    forall k | from <= k < upto
      ensures !NotShown(w.view, k)
    {
      ExtendBrings(s.log, s.view, from, upto, k);
    }
    if Shows(s.log, s.view) {
      ExtendShows(s.log, s.view, from, upto);
    }
  }

  lemma AskAnswerDeliver(s: System, id: nat, asked: Flight, ask: Action)
    requires id !in s.flights && asked.Asked? && Apply(s, ask) == s.(flights := s.flights[id := asked])
    ensures var page := Respond(s.log, asked.from, PAGE_SIZE);
            Apply(Apply(Apply(s, ask), Answer(id)), Deliver(id))
            == s.(view := Extend(s.view, page.messages),
                  caughtUp := if asked.loadMore then page.nextFrom.None? else s.caughtUp)
  {
    hide Respond, Extend;
    var answered := Answered(asked.from, asked.loadMore, Respond(s.log, asked.from, PAGE_SIZE));
    assert s.flights[id := asked][id := answered] == s.flights[id := answered];
    assert s.flights[id := answered] - {id} == s.flights;
  }

  function Round(ask: Action, id: nat): seq<Action> {
    [ask, Answer(id), Deliver(id)]
  }

  lemma RoundSteps(actions: seq<Action>, ask: Action, id: nat)
    ensures RunAll(actions + Round(ask, id)) == Apply(Apply(Apply(RunAll(actions), ask), Answer(id)), Deliver(id))
  {
    hide Apply, RunAll;
    RunOne(actions, ask);
    RunOne(actions + [ask], Answer(id));
    RunOne(actions + [ask] + [Answer(id)], Deliver(id));
    assert actions + [ask] + [Answer(id)] + [Deliver(id)] == actions + Round(ask, id);
  }

  /** In every reachable state, an event on the open stream fetches: once its page has come,
      the cursor is 50 further, or at the end of the log, and everything from the old
      cursor up to there is shown. */
  lemma {:induction false} LiveEventFetches(actions: seq<Action>, id: nat)
    requires id !in RunAll(actions).flights && RunAll(actions).streaming
    ensures var s, w := RunAll(actions), RunAll(actions + [LiveEvent(id), Answer(id), Deliver(id)]);
            Fetched(s, w, Least(s.view.nextSeq + 50, |s.log|)) && w.caughtUp == s.caughtUp
  {
    hide Respond, Extend, Fetched;
    var s := RunAll(actions);
    ListStaysFaithful(actions);
    RoundSteps(actions, LiveEvent(id), id);
    AskAnswerDeliver(s, id, Asked(s.view.nextSeq, false), LiveEvent(id));
    PageFetched(s, id, Asked(s.view.nextSeq, false), RunAll(actions + Round(LiveEvent(id), id)));
  }

  /** So does a load, which moreover is caught up exactly if less than a page was left. */
  lemma {:induction false} LoadMoreFetches(actions: seq<Action>, id: nat)
    requires id !in RunAll(actions).flights
    ensures var s, w := RunAll(actions), RunAll(actions + [LoadMore(id), Answer(id), Deliver(id)]);
            && Fetched(s, w, Least(s.view.nextSeq + 50, |s.log|))
            && (w.caughtUp <==> s.view.nextSeq + 50 > |s.log|)
  {
    hide Respond, Extend, Fetched;
    var s := RunAll(actions);
    ListStaysFaithful(actions);
    RoundSteps(actions, LoadMore(id), id);
    AskAnswerDeliver(s, id, Asked(s.view.nextSeq, true), LoadMore(id));
    PageFetched(s, id, Asked(s.view.nextSeq, true), RunAll(actions + Round(LoadMore(id), id)));
  }

  /** n loads, one after another. */
  function Rounds(id: nat, n: nat): seq<Action> {
    if n == 0 then [] else Rounds(id, n - 1) + Round(LoadMore(id), id)
  }

  lemma FetchedTwice(s: System, v: System, w: System, mid: nat, upto: nat)
    requires Fetched(s, v, mid) && Fetched(v, w, upto)
    ensures Fetched(s, w, upto)
  {
    forall k | s.view.nextSeq <= k < upto
      ensures !NotShown(w.view, k)
    {
      if k < mid {
        assert !NotShown(v.view, k);
        var i :| 0 <= i < |v.view.messages| && v.view.messages[i].sequence == k;
        assert w.view.messages[i] == v.view.messages[i];
      }
    }
  }

  lemma {:induction false} RoundsFetch(actions: seq<Action>, id: nat, n: nat)
    requires id !in RunAll(actions).flights
    ensures var s, w := RunAll(actions), RunAll(actions + Rounds(id, n));
            && s.view.nextSeq <= |s.log|
            && Fetched(s, w, Least(s.view.nextSeq + 50 * n, |s.log|))
            && (n > 0 ==> (w.caughtUp <==> s.view.nextSeq + 50 * n > |s.log|))
  {
    hide RunAll, Fetched, Faithful;
    var s := RunAll(actions);
    ListStaysFaithful(actions);
    FaithfulBound(s.log, s.view);
    if n == 0 {
      assert actions + Rounds(id, 0) == actions;
      FetchedNothing(s);
    } else {
      RoundsFetch(actions, id, n - 1);
      var v := RunAll(actions + Rounds(id, n - 1));
      FetchedKeeps(s, v, Least(s.view.nextSeq + 50 * (n - 1), |s.log|));
      LoadMoreFetches(actions + Rounds(id, n - 1), id);
      assert actions + Rounds(id, n) == actions + Rounds(id, n - 1) + [LoadMore(id), Answer(id), Deliver(id)];
      FetchedTwice(s, v, RunAll(actions + Rounds(id, n)), v.view.nextSeq, Least(v.view.nextSeq + 50, |s.log|));
    }
  }

  lemma FetchedNothing(s: System)
    ensures Fetched(s, s, s.view.nextSeq)
  {}

  lemma FetchedKeeps(s: System, w: System, upto: nat)
    requires Fetched(s, w, upto)
    ensures w.log == s.log && w.flights == s.flights && w.view.nextSeq == upto
  {}

  /** Loading ends. From every reachable state, as many undisturbed loads as there are pages
      left, the last one perhaps empty, end caught up with everything from the old cursor to
      the end of the log shown; if the list was the log up to its cursor, it is the log. */
  lemma {:induction false} LoadingEnds(actions: seq<Action>, id: nat)
    requires id !in RunAll(actions).flights
    ensures var s := RunAll(actions);
            && s.view.nextSeq <= |s.log|
            && var w := RunAll(actions + Rounds(id, (|s.log| - s.view.nextSeq) / 50 + 1));
            && w.log == s.log && w.caughtUp && w.view.nextSeq == |s.log|
            && (forall k :: s.view.nextSeq <= k < |s.log| ==> !NotShown(w.view, k))
            && (Shows(s.log, s.view) ==> w.view.messages == s.log)
  {
    hide RunAll, Rounds;
    var s := RunAll(actions);
    RoundsFetch(actions, id, 0);
    var n := (|s.log| - s.view.nextSeq) / 50 + 1;
    RoundsFetch(actions, id, n);
    assert s.log[..|s.log|] == s.log;
  }

  /** A message that another member sends while the hook is caught up is shown. */
  lemma {:induction false} LiveMessageShown(e: LogEntry)
    requires e.sequence == 0
    ensures var actions := [LoadMore(9), Answer(9), Deliver(9), Render, ServerAppends(e), LiveEvent(1), Answer(1), Deliver(1)];
            RunAll(actions).view == View([e], 1)
  {
    hide RunAll, Apply;
    var loaded := [LoadMore(9), Answer(9), Deliver(9)];
    EmptyLoad();
    RunOne(loaded, Render);
    RunOne(loaded + [Render], ServerAppends(e));
    RenderAndAppend(e);
    var heard := loaded + [Render] + [ServerAppends(e)];
    LiveEventFetches(heard, 1);
    assert heard + [LiveEvent(1), Answer(1), Deliver(1)]
        == [LoadMore(9), Answer(9), Deliver(9), Render, ServerAppends(e), LiveEvent(1), Answer(1), Deliver(1)];
    assert [e][..1] == [e];
  }

  /** The stream is open after a render exactly if the hook was caught up. */
  lemma RenderAndAppend(e: LogEntry)
    requires e.sequence == 0
    ensures Apply(Apply(System([], View([], 0), true, false, map[]), Render), ServerAppends(e))
         == System([e], View([], 0), true, true, map[])
    ensures forall s: System :: Apply(s, Render).streaming == s.caughtUp
  {
    assert [] + [e] == [e];
  }

  /** One's own message is shown as soon as its reply is there. */
  lemma {:induction false} OwnMessageShown(actions: seq<Action>, id: nat, e: LogEntry)
    requires id !in RunAll(actions).flights && e.sequence == |RunAll(actions).log|
    ensures var s, w := RunAll(actions), RunAll(actions + [Send(id)] + [StoreSent(id, e)] + [Deliver(id)]);
            w.log == s.log + [e] && e in w.view.messages && w.view.nextSeq == |w.log|
  {
    hide RunAll, Extend, Faithful, FlightGood;
    var s := RunAll(actions);
    RunOne(actions, Send(id));
    RunOne(actions + [Send(id)], StoreSent(id, e));
    RunOne(actions + [Send(id)] + [StoreSent(id, e)], Deliver(id));
    var stored := RunAll(actions + [Send(id)] + [StoreSent(id, e)]);
    ListStaysFaithful(actions);
    ListStaysFaithful(actions + [Send(id)] + [StoreSent(id, e)]);
    FaithfulBound(s.log, s.view);
    var log, k := stored.log, |s.log|;
    assert log == s.log + [e] && stored.view == s.view && log[k] == e;
    assert log[k..k + 1] == [log[k]];
    ExtendPicks(log, s.view, k, k + 1);
    ExtendBrings(log, s.view, k, k + 1, k);
    ListStaysFaithful(actions + [Send(id)] + [StoreSent(id, e)] + [Deliver(id)]);
    ShownIsLogs(log, RunAll(actions + [Send(id)] + [StoreSent(id, e)] + [Deliver(id)]).view, k);
  }

  lemma ShownIsLogs(log: seq<LogEntry>, v: View, k: nat)
    requires Faithful(log, v) && !NotShown(v, k)
    ensures k < |log| && log[k] in v.messages
  {
    var i :| 0 <= i < |v.messages| && v.messages[i].sequence == k;
    assert v.messages[i] == log[k];
  }

  /** A lost request changes nothing and can be made again. */
  lemma LostRequestFrees(actions: seq<Action>, id: nat)
    ensures var s, w := RunAll(actions), RunAll(actions + [Fail(id)]);
            id !in w.flights && w.view == s.view && w.log == s.log && w.caughtUp == s.caughtUp
  {
    RunOne(actions, Fail(id));
  }

  // ---------------------------------------------------------------- gaps

  ghost predicate NotShown(v: View, k: nat) {
    forall i :: 0 <= i < |v.messages| ==> v.messages[i].sequence != k
  }

  /** A request in flight that can still bring entry k of the log. */
  predicate CouldBring(f: Flight, k: nat) {
    match f
    case Asked(from, _) => from <= k < from + PAGE_SIZE
    case Answered(from, _, page) => from <= k < from + |page.messages|
    case Sending => false
    case Sent(e) => e.sequence == k
  }

  ghost predicate Recoverable(s: System, k: nat) {
    exists id :: id in s.flights && CouldBring(s.flights[id], k)
  }

  /** The cursor is past k, k is not shown, and nothing in flight can bring it. */
  ghost predicate Lost(s: System, k: nat) {
    k < s.view.nextSeq && NotShown(s.view, k) && !Recoverable(s, k)
  }

  lemma ExtendAvoids(log: seq<LogEntry>, v: View, from: nat, upto: nat, k: nat)
    requires Positional(log) && from <= upto <= |log| && (k < from || upto <= k)
    requires NotShown(v, k)
    ensures NotShown(Extend(v, log[from..upto]), k)
  {
    hide Extend, Positional;
    ExtendPicks(log, v, from, upto);
    var w := Extend(v, log[from..upto]);
    var n, tail := |v.messages|, w.messages[|v.messages|..];
    assert forall i :: 0 <= i < n ==> w.messages[i] == v.messages[i];
    assert forall i :: n <= i < |w.messages| ==> w.messages[i] == tail[i - n];
  }

  lemma NewFlightBringsNothing(s: System, a: Action, k: nat, id: nat)
    requires Inv(s) && Lost(s, k) && id in Apply(s, a).flights
    requires id !in s.flights || Apply(s, a).flights[id] != s.flights[id]
    ensures !CouldBring(Apply(s, a).flights[id], k)
  {
    hide Respond, Extend, Faithful;
    FaithfulBound(s.log, s.view);
    if a.Answer? && a.id in s.flights && s.flights[a.id].Asked? {
      assert FlightGood(s.log, s.view.nextSeq, s.flights[a.id]) && !CouldBring(s.flights[a.id], k);
      RespondSlices(s.log, s.flights[a.id].from, PAGE_SIZE);
    }
  }

  lemma LostStaysLost(s: System, a: Action, k: nat)
    requires Inv(s) && Lost(s, k)
    ensures Lost(Apply(s, a), k)
  {
    hide Respond, Extend, Faithful, CouldBring;
    var s' := Apply(s, a);
    StepKeepsInv(s, a);
    forall id | id in s'.flights
      ensures !CouldBring(s'.flights[id], k)
    {
      if id !in s.flights || s'.flights[id] != s.flights[id] {
        NewFlightBringsNothing(s, a, k, id);
      }
    }
    if a.Deliver? && a.id in s.flights {
      DeliveryAvoids(s, a.id, k);
    }
  }

  lemma DeliveryAvoids(s: System, id: nat, k: nat)
    requires Inv(s) && NotShown(s.view, k) && id in s.flights && !CouldBring(s.flights[id], k)
    ensures NotShown(Apply(s, Deliver(id)).view, k)
  {
    hide Extend, Faithful, Positional, NotShown;
    assert FlightGood(s.log, s.view.nextSeq, s.flights[id]);
    match s.flights[id]
    case Answered(from, _, page) => ExtendAvoids(s.log, s.view, from, from + |page.messages|, k);
    case Sent(e) =>
      SentIsStretch(s.log, s.view.nextSeq, e);
      ExtendAvoids(s.log, s.view, e.sequence, e.sequence + 1, k);
    case _ =>
  }

  lemma {:induction false} FreshHas(log: seq<LogEntry>, seen: set<nat>, from: nat, upto: nat, k: nat)
    requires Positional(log) && from <= k < upto <= |log| && k !in seen
    ensures log[k] in Fresh(seen, log[from..upto])
    decreases upto - from
  {
    hide Fresh;
    FreshStep(log, seen, from, upto);
    if from < k {
      FreshHas(log, seen, from + 1, upto, k);
    }
  }

  /** A stretch of the log that holds k brings k. */
  lemma ExtendBrings(log: seq<LogEntry>, v: View, from: nat, upto: nat, k: nat)
    requires Positional(log) && from <= k < upto <= |log|
    ensures !NotShown(Extend(v, log[from..upto]), k)
  {
    var seen, w := Sequences(v.messages), Extend(v, log[from..upto]);
    if k in seen {
      var i :| 0 <= i < |v.messages| && v.messages[i].sequence == k;
      assert w.messages[i].sequence == k;
    } else {
      FreshHas(log, seen, from, upto, k);
      var unseen := Fresh(seen, log[from..upto]);
      var i :| 0 <= i < |unseen| && unseen[i] == log[k];
      assert w.messages[|v.messages| + i].sequence == k;
    }
  }

  lemma DeliveryBrings(s: System, id: nat, k: nat)
    requires Inv(s) && id in s.flights && !s.flights[id].Asked? && CouldBring(s.flights[id], k)
    ensures !NotShown(Apply(s, Deliver(id)).view, k)
  {
    hide Extend, Faithful, Positional, NotShown;
    assert FlightGood(s.log, s.view.nextSeq, s.flights[id]);
    match s.flights[id]
    case Answered(from, _, page) => ExtendBrings(s.log, s.view, from, from + |page.messages|, k);
    case Sent(e) =>
      SentIsStretch(s.log, s.view.nextSeq, e);
      ExtendBrings(s.log, s.view, k, k + 1, k);
  }

  /** An answered request still brings what it was asked for. */
  lemma AnswerStillBrings(s: System, id: nat, k: nat)
    requires Inv(s) && k < |s.log| && id in s.flights && s.flights[id].Asked? && CouldBring(s.flights[id], k)
    ensures var s' := Apply(s, Answer(id)); id in s'.flights && s'.flights[id].Answered? && CouldBring(s'.flights[id], k)
  {
    hide Respond, Faithful;
    assert FlightGood(s.log, s.view.nextSeq, s.flights[id]);
    FaithfulBound(s.log, s.view);
    RespondSlices(s.log, s.flights[id].from, PAGE_SIZE);
  }

  ghost function After(actions: seq<Action>, more: seq<Action>): System {
    RunAll(actions + more)
  }

  ghost predicate NeverShown(actions: seq<Action>, k: nat) {
    forall more :: NotShown(After(actions, more).view, k)
  }

  lemma {:induction false} LostForGood(actions: seq<Action>, more: seq<Action>, k: nat)
    requires Lost(RunAll(actions), k)
    ensures Lost(After(actions, more), k)
    decreases |more|
  {
    hide Lost, Apply, Inv;
    if more == [] {
      assert actions + more == actions;
    } else {
      var init, last := more[..|more| - 1], more[|more| - 1];
      assert actions + more == (actions + init) + [last];
      LostForGood(actions, init, k);
      ListStaysFaithful(actions + init);
      RunOne(actions + init, last);
      LostStaysLost(RunAll(actions + init), last, k);
    }
  }

  /** From a request that can bring k, one or two steps show it. */
  lemma {:induction false} BroughtBack(actions: seq<Action>, id: nat, k: nat)
    requires var s := RunAll(actions); k < s.view.nextSeq && id in s.flights && CouldBring(s.flights[id], k)
    ensures !NeverShown(actions, k)
  {
    hide Apply, Faithful, Positional, CouldBring, NotShown, FlightGood;
    var s := RunAll(actions);
    ListStaysFaithful(actions);
    FaithfulBound(s.log, s.view);
    if s.flights[id].Asked? {
      AnswerStillBrings(s, id, k);
      RunOne(actions, Answer(id));
      ListStaysFaithful(actions + [Answer(id)]);
      DeliveryBrings(RunAll(actions + [Answer(id)]), id, k);
      RunOne(actions + [Answer(id)], Deliver(id));
      assert actions + [Answer(id)] + [Deliver(id)] == actions + [Answer(id), Deliver(id)];
      assert !NotShown(After(actions, [Answer(id), Deliver(id)]).view, k);
    } else {
      DeliveryBrings(s, id, k);
      RunOne(actions, Deliver(id));
      assert !NotShown(After(actions, [Deliver(id)]).view, k);
    }
  }

  /** When a gap is for good. An entry that the cursor has passed without its being shown is
      not shown in any continuation, whatever is loaded or sent, if and only if nothing in
      flight can still bring it. */
  lemma {:induction false} GapIsPermanent(actions: seq<Action>, k: nat)
    requires k < RunAll(actions).view.nextSeq && NotShown(RunAll(actions).view, k)
    ensures NeverShown(actions, k) <==> !Recoverable(RunAll(actions), k)
  {
    hide RunAll, CouldBring, NotShown, After;
    var s := RunAll(actions);
    if Recoverable(s, k) {
      var id :| id in s.flights && CouldBring(s.flights[id], k);
      BroughtBack(actions, id, k);
    } else {
      forall more
        ensures NotShown(After(actions, more).view, k)
      {
        LostForGood(actions, more, k);
      }
    }
  }

  /** It happens. The hook has loaded an empty chat; then another member's message is stored,
      one's own after it, and the reply to one's own arrives before any page does. */
  lemma {:induction false} GapHappens(theirs: LogEntry, ours: LogEntry)
    requires theirs.sequence == 0 && ours.sequence == 1
    ensures var actions := [LoadMore(9), Answer(9), Deliver(9), Send(0), ServerAppends(theirs), StoreSent(0, ours), Deliver(0)];
            var s := RunAll(actions);
            s.log == [theirs, ours] && s.view == View([ours], 2) && NeverShown(actions, 0)
  {
    hide RunAll, Apply, NeverShown;
    var loaded := [LoadMore(9), Answer(9), Deliver(9)];
    var actions := loaded + [Send(0)] + [ServerAppends(theirs)] + [StoreSent(0, ours)] + [Deliver(0)];
    assert actions == [LoadMore(9), Answer(9), Deliver(9), Send(0), ServerAppends(theirs), StoreSent(0, ours), Deliver(0)];
    EmptyLoad();
    GapSteps(true, map[], theirs, ours);
    RunOne(loaded, Send(0));
    RunOne(loaded + [Send(0)], ServerAppends(theirs));
    RunOne(loaded + [Send(0)] + [ServerAppends(theirs)], StoreSent(0, ours));
    RunOne(loaded + [Send(0)] + [ServerAppends(theirs)] + [StoreSent(0, ours)], Deliver(0));
    GapIsPermanent(actions, 0);
  }

  lemma {:induction false} EmptyLoad()
    ensures RunAll([LoadMore(9), Answer(9), Deliver(9)]) == System([], View([], 0), true, false, map[])
  {
    hide RunAll;
    RunNothing();
    RunOne([], LoadMore(9));
    assert [] + [LoadMore(9)] == [LoadMore(9)];
    RunOne([LoadMore(9)], Answer(9));
    assert [LoadMore(9)] + [Answer(9)] == [LoadMore(9), Answer(9)];
    RunOne([LoadMore(9), Answer(9)], Deliver(9));
    assert [LoadMore(9), Answer(9)] + [Deliver(9)] == [LoadMore(9), Answer(9), Deliver(9)];
    var page := Respond([], 0, PAGE_SIZE);
    assert page == Response([], None);
    assert map[9 := Asked(0, true)][9 := Answered(0, true, page)] == map[9 := Answered(0, true, page)];
    assert map[9 := Answered(0, true, page)] - {9} == map[];
  }

  /** It need not last. If the first page was still to be answered, it brings the entry, after
      the one it should have preceded. */
  lemma {:induction false} GapFilledLate(theirs: LogEntry, ours: LogEntry)
    requires theirs.sequence == 0 && ours.sequence == 1
    ensures var actions := [LoadMore(9), Send(0), ServerAppends(theirs), StoreSent(0, ours), Deliver(0)];
            && RunAll(actions).view == View([ours], 2)
            && RunAll(actions + [Answer(9)] + [Deliver(9)]).view == View([ours, theirs], 2)
  {
    hide RunAll, Apply;
    var asked := map[9 := Asked(0, true)];
    var start := [LoadMore(9)];
    var actions := start + [Send(0)] + [ServerAppends(theirs)] + [StoreSent(0, ours)] + [Deliver(0)];
    assert actions == [LoadMore(9), Send(0), ServerAppends(theirs), StoreSent(0, ours), Deliver(0)];
    RunNothing();
    RunOne([], LoadMore(9));
    assert [] + start == start;
    GapSteps(false, asked, theirs, ours);
    RunOne(start, Send(0));
    RunOne(start + [Send(0)], ServerAppends(theirs));
    RunOne(start + [Send(0)] + [ServerAppends(theirs)], StoreSent(0, ours));
    RunOne(start + [Send(0)] + [ServerAppends(theirs)] + [StoreSent(0, ours)], Deliver(0));
    LateSteps(asked, theirs, ours);
    RunOne(actions, Answer(9));
    RunOne(actions + [Answer(9)], Deliver(9));
  }

  /** The states of a send that overtakes, whatever else is in flight. */
  lemma GapSteps(caughtUp: bool, others: map<nat, Flight>, theirs: LogEntry, ours: LogEntry)
    requires theirs.sequence == 0 && ours.sequence == 1 && 0 !in others
    ensures Apply(RunAll([]), LoadMore(9)) == System([], View([], 0), false, false, map[9 := Asked(0, true)])
    ensures Apply(System([], View([], 0), caughtUp, false, others), Send(0))
         == System([], View([], 0), caughtUp, false, others[0 := Sending])
    ensures Apply(System([], View([], 0), caughtUp, false, others[0 := Sending]), ServerAppends(theirs))
         == System([theirs], View([], 0), caughtUp, false, others[0 := Sending])
    ensures Apply(System([theirs], View([], 0), caughtUp, false, others[0 := Sending]), StoreSent(0, ours))
         == System([theirs, ours], View([], 0), caughtUp, false, others[0 := Sent(ours)])
    ensures Apply(System([theirs, ours], View([], 0), caughtUp, false, others[0 := Sent(ours)]), Deliver(0))
         == System([theirs, ours], View([ours], 2), caughtUp, false, others)
  {
    RunNothing();
    FreshOfOne(ours);
    assert [theirs] + [ours] == [theirs, ours];
    assert others[0 := Sending][0 := Sent(ours)] == others[0 := Sent(ours)];
    assert others[0 := Sent(ours)] - {0} == others;
  }

  lemma LateSteps(asked: map<nat, Flight>, theirs: LogEntry, ours: LogEntry)
    requires theirs.sequence == 0 && ours.sequence == 1 && asked == map[9 := Asked(0, true)]
    ensures var s := Apply(System([theirs, ours], View([ours], 2), false, false, asked), Answer(9));
            Apply(s, Deliver(9)).view == View([ours, theirs], 2)
  {
    var log, page := [theirs, ours], Respond([theirs, ours], 0, PAGE_SIZE);
    RespondSlices(log, 0, PAGE_SIZE);
    assert log[0..] == log;
    var seen := Sequences([ours]);
    assert [ours][0].sequence in seen && theirs.sequence !in seen;
    FreshStep(log, seen, 0, 2);
    FreshStep(log, seen, 1, 2);
    FreshOfNothing(seen, log[2..2]);
    assert log[0..2] == log && Fresh(seen, log) == [theirs];
  }

  lemma FreshOfOne(e: LogEntry)
    ensures Fresh(Sequences([]), [e]) == [e]
  {
    assert [e][1..] == [];
  }

  lemma RunNothing()
    ensures RunAll([]) == System([], View([], 0), false, false, map[])
  {}

  lemma RunOne(actions: seq<Action>, a: Action)
    ensures RunAll(actions + [a]) == Apply(RunAll(actions), a)
  {
    assert (actions + [a])[..|actions|] == actions;
  }
}
