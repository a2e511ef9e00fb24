/**
 From the append to the subscriber: what one subscription of the in-memory broker shows of
 a chat, in any run of the node.
 */
module Notifications {
  import opened Broker
  import opened Models
  import opened Chain
  import opened NodeRuns
  import opened Storage
  import Announcements

  /** The events of one chat; a broker carries those of all chats. */
  function OfChat(events: seq<Event>, c: string): seq<Event>
    decreases |events|
  {
    if events == [] then []
    else
      var init, last := events[..|events| - 1], events[|events| - 1];
      if last.chatId == c then OfChat(init, c) + [last] else OfChat(init, c)
  }

  lemma {:induction false} OfChatKeepsSubsequence(a: seq<Event>, b: seq<Event>, c: string)
    requires Subsequence(a, b)
    ensures Subsequence(OfChat(a, c), OfChat(b, c))
    decreases |b|
  {
    if a != [] {
      var init, last := b[..|b| - 1], b[|b| - 1];
      if a[|a| - 1] == last && Subsequence(a[..|a| - 1], init) {
        OfChatKeepsSubsequence(a[..|a| - 1], init, c);
        SubsequenceGrows(OfChat(a[..|a| - 1], c), OfChat(init, c), last);
      } else {
        OfChatKeepsSubsequence(a, init, c);
        SubsequenceGrows(OfChat(a, c), OfChat(init, c), last);
      }
    }
  }

  lemma {:induction false} SubsequenceMembers(a: seq<Event>, b: seq<Event>)
    requires Subsequence(a, b)
    ensures forall e :: e in a ==> e in b
    decreases |b|
  {
    if a != [] {
      if a[|a| - 1] == b[|b| - 1] && Subsequence(a[..|a| - 1], b[..|b| - 1]) {
        SubsequenceMembers(a[..|a| - 1], b[..|b| - 1]);
        assert a == a[..|a| - 1] + [a[|a| - 1]];
      } else {
        SubsequenceMembers(a, b[..|b| - 1]);
      }
    }
  }

  /** Losing events disturbs neither the order nor the truth of the others. */
  lemma {:induction false} LossKeepsGood(c: string, a: seq<Event>, b: seq<Event>, entries: seq<LogEntry>, bound: nat)
    requires Subsequence(a, b) && EventsGood(c, b, entries, bound)
    ensures EventsGood(c, a, entries, bound)
    decreases |b|
  {
    hide EventsGood;
    if a == [] {
      NothingIsGood(c, b, entries, bound);
    } else {
      var init, last := b[..|b| - 1], b[|b| - 1];
      InitIsGood(c, b, entries, bound);
      if a[|a| - 1] == last && Subsequence(a[..|a| - 1], init) {
        LossKeepsGood(c, a[..|a| - 1], init, entries, bound);
        SubsequenceMembers(a[..|a| - 1], init);
        assert a == a[..|a| - 1] + [last] && b == init + [last];
        LastIsGood(c, a[..|a| - 1], init, last, entries, bound);
      } else {
        LossKeepsGood(c, a, init, entries, bound);
      }
    }
  }

  lemma NothingIsGood(c: string, b: seq<Event>, entries: seq<LogEntry>, bound: nat)
    requires EventsGood(c, b, entries, bound)
    ensures EventsGood(c, [], entries, bound)
  {}

  lemma InitIsGood(c: string, b: seq<Event>, entries: seq<LogEntry>, bound: nat)
    requires b != [] && EventsGood(c, b, entries, bound)
    ensures EventsGood(c, b[..|b| - 1], entries, bound)
  {}

  lemma LastIsGood(c: string, a: seq<Event>, b: seq<Event>, e: Event, entries: seq<LogEntry>, bound: nat)
    requires EventsGood(c, a, entries, bound) && EventsGood(c, b + [e], entries, bound)
    requires forall x :: x in a ==> x in b
    ensures EventsGood(c, a + [e], entries, bound)
  {
    var more := a + [e];
    assert (b + [e])[|b|] == e && forall j :: 0 <= j < |b| ==> (b + [e])[j] == b[j];
    assert forall i :: 0 <= i < |a| ==> more[i] == a[i] && a[i] in b;
  }

  lemma OfChatStep(events: seq<Event>, e: Event, c: string)
    ensures OfChat(events + [e], c) == OfChat(events, c) + (if e.chatId == c then [e] else [])
  {
    assert (events + [e])[..|events|] == events;
    assert OfChat(events, c) + [] == OfChat(events, c);
  }

  lemma PublishedStep(ops: seq<Op>, op: Op)
    ensures Published(ops + [op])
         == Published(ops) + (if op.Publish? && Broker.Run(ops).open then [op.event] else [])
    ensures Broker.Run(ops + [op]).open <==> Broker.Run(ops).open && !op.Cancel?
  {
    RunStep(ops, op);
    assert (ops + [op])[..|ops|] == ops;
    assert Published(ops) + [] == Published(ops);
  }

  /** What has been published to a subscription for chat c is the stretch of the chat's
      events that starts at n, and still reaches their end while it is open. */
  ghost predicate Follows(ops: seq<Op>, c: string, events: seq<Event>, n: nat) {
    var seen := OfChat(Published(ops), c);
    && n + |seen| <= |events|
    && seen == events[n..n + |seen|]
    && (Broker.Run(ops).open ==> n + |seen| == |events|)
  }

  /** An event reaches the chat's events and every subscription in one step. */
  lemma PublishFollows(ops: seq<Op>, c: string, events: seq<Event>, n: nat, e: Event)
    requires Follows(ops, c, events, n)
    ensures Follows(ops + [Op.Publish(e)], c, events + (if e.chatId == c then [e] else []), n)
  {
    hide OfChat, Published, Broker.Run;
    PublishedStep(ops, Op.Publish(e));
    OfChatStep(Published(ops), e, c);
    assert Published(ops) + [] == Published(ops);
    assert OfChat(Published(ops), c) + [] == OfChat(Published(ops), c) && events + [] == events;
    var seen := OfChat(Published(ops), c);
    var more := events + (if e.chatId == c then [e] else []);
    assert more[n..n + |seen|] == events[n..n + |seen|];
  }

  /** Taking an event or cancelling publishes nothing. */
  lemma ReaderFollows(ops: seq<Op>, c: string, events: seq<Event>, n: nat, op: Op)
    requires Follows(ops, c, events, n) && !op.Publish?
    ensures Follows(ops + [op], c, events, n)
  {
    PublishedStep(ops, op);
    assert Published(ops) + [] == Published(ops);
  }

  lemma StepFollows(cr: Crypto, w: World, a: Action, id: nat, c: string, n: nat)
    requires id in w.subs && Follows(w.subs[id], c, Look(w, c).events, n)
    ensures id in Apply(cr, w, a).subs && Follows(Apply(cr, w, a).subs[id], c, Look(Apply(cr, w, a), c).events, n)
  {
    hide Follows;
    match a
    case Run(t, io) =>
      if t in w.threads {
        var d, task := w.threads[t].chatId, w.threads[t].task;
        var e := Announcement(d, task, io);
        StepAnnounces(cr, d, Look(w, d), t, task, io);
        if e != [] {
          PublishFollows(w.subs[id], c, Look(w, c).events, n, e[0]);
        }
        assert Look(w, c).events + [] == Look(w, c).events;
      }
    case TakeEvent(_) => ReaderFollows(w.subs[id], c, Look(w, c).events, n, Op.Receive);
    case Unsubscribe(_) => ReaderFollows(w.subs[id], c, Look(w, c).events, n, Op.Cancel);
    case _ =>
  }

  /** A chat's events grow by what is published, and only then. */
  lemma StepAnnounces(cr: Crypto, c: string, chat: Chat, t: nat, task: Task, io: Io)
    ensures ChatStep(cr, c, chat, t, task, io).0.events == chat.events + Announcement(c, task, io)
    ensures forall e :: e in Announcement(c, task, io) ==> e.chatId == c
  {
    hide EntryAfter, ReadStep;
  }

  /** A subscriber who takes an event gets the oldest one waiting, and a cancelled one is
      closed; the other subscriptions and the chats are as they were. */
  lemma {:induction false} SubscribersAct(cr: Crypto, w: World, id: nat)
    requires id in w.subs
    ensures var sub := Broker.Run(w.subs[id]);
            var taken, left := Apply(cr, w, TakeEvent(id)), Apply(cr, w, Unsubscribe(id));
            && taken == w.(subs := w.subs[id := taken.subs[id]]) && left == w.(subs := w.subs[id := left.subs[id]])
            && Broker.Run(left.subs[id]) == Sub(sub.received, sub.buffer, false)
            && (sub.buffer == [] ==> Broker.Run(taken.subs[id]) == sub)
            && (sub.buffer != [] ==>
                  Broker.Run(taken.subs[id]) == Sub(sub.received + [sub.buffer[0]], sub.buffer[1..], sub.open))
  {
    RunStep(w.subs[id], Op.Receive);
    RunStep(w.subs[id], Op.Cancel);
  }

  lemma {:induction false} SubscriptionFollows(cr: Crypto, before: seq<Action>, after: seq<Action>, id: nat, c: string)
    requires id !in RunAll(cr, before).subs
    ensures var w := RunAll(cr, before + [Subscribe(id)] + after);
            id in w.subs && Follows(w.subs[id], c, Look(w, c).events, |Look(RunAll(cr, before), c).events|)
    decreases |after|
  {
    hide Follows;
    var w0 := RunAll(cr, before);
    if after == [] {
      assert before + [Subscribe(id)] + after == before + [Subscribe(id)];
      NodeRuns.RunOne(cr, before, Subscribe(id));
      NewFollows(c, Look(w0, c).events);
    } else {
      var init, last := after[..|after| - 1], after[|after| - 1];
      assert before + [Subscribe(id)] + after == (before + [Subscribe(id)] + init) + [last];
      SubscriptionFollows(cr, before, init, id, c);
      NodeRuns.RunOne(cr, before + [Subscribe(id)] + init, last);
      StepFollows(cr, RunAll(cr, before + [Subscribe(id)] + init), last, id, c, |Look(w0, c).events|);
    }
  }

  lemma NewFollows(c: string, events: seq<Event>)
    ensures Follows([], c, events, |events|)
  {}

  /** End to end: in every run of the node, faults included, for every subscription and every
      chat. Whatever was dropped, the subscriber's announcements of entries come in strictly
      increasing sequence, each naming a stored entry with that hash. And a subscriber who
      is not cancelled and was never 64 events behind has every event of the chat since the
      subscription, in order. */
  lemma {:induction false} SubscriberSeesOrder(cr: Crypto, before: seq<Action>, after: seq<Action>, id: nat, c: string)
    requires id !in RunAll(cr, before).subs
    ensures var w := RunAll(cr, before + [Subscribe(id)] + after);
            var chat, n := Look(w, c), |Look(RunAll(cr, before), c).events|;
            && id in w.subs
            && var ops := w.subs[id];
            && EventsGood(c, OfChat(Stream(Broker.Run(ops)), c), chat.entries, |chat.entries|)
            && (Prompt(ops) && Broker.Run(ops).open ==>
                  n <= |chat.events| && OfChat(Stream(Broker.Run(ops)), c) == chat.events[n..])
  {
    hide RunAll, EventsGood, OfChat, Prompt, Broker.Run, Published, Subsequence, Stream;
    var actions := before + [Subscribe(id)] + after;
    var n := |Look(RunAll(cr, before), c).events|;
    var w := RunAll(cr, actions);
    var chat := Look(w, c);
    SubscriptionFollows(cr, before, after, id, c);
    var ops := w.subs[id];
    EventsOrdered(cr, actions, c);
    StreamIsKept(ops);
    KeptIsOrdered(ops);
    OfChatKeepsSubsequence(Kept(ops), Published(ops), c);
    PromptReaderMissesNothing(ops);
    var seen := OfChat(Published(ops), c);
    StretchIsGood(c, chat.events, n, n + |seen|, chat.entries);
    LossKeepsGood(c, OfChat(Kept(ops), c), seen, chat.entries, |chat.entries|);
  }

  /** Without faults that is everything: a subscriber who is not cancelled and was never 64
      events behind has, whenever no append is under way, one announcement for every entry
      stored since the subscription, in order, each hundredth followed by its snapshot's. */
  lemma {:induction false} PromptSubscriberHasAll(cr: Crypto, before: seq<Action>, after: seq<Action>, id: nat,
                                                  c: string)
    requires id !in RunAll(cr, before).subs && Faultless(before + [Subscribe(id)] + after)
    requires Look(RunAll(cr, before), c).lock.None? && Look(RunAll(cr, before + [Subscribe(id)] + after), c).lock.None?
    ensures var chat0, w := Look(RunAll(cr, before), c), RunAll(cr, before + [Subscribe(id)] + after);
            && id in w.subs
            && var ops, n := w.subs[id], |Announcements.EventsOf(c, chat0.entries)|;
               Prompt(ops) && Broker.Run(ops).open ==>
                 n <= |Announcements.EventsOf(c, Look(w, c).entries)|
                 && OfChat(Stream(Broker.Run(ops)), c) == Announcements.EventsOf(c, Look(w, c).entries)[n..]
  {
    hide RunAll, EventsGood, OfChat, Prompt, Broker.Run, Stream;
    SubscriberSeesOrder(cr, before, after, id, c);
    assert before + ([Subscribe(id)] + after) == before + [Subscribe(id)] + after;
    FaultlessPrefix(before, [Subscribe(id)] + after);
    Announcements.EventsAreExact(cr, before, c);
    Announcements.EventsAreExact(cr, before + [Subscribe(id)] + after, c);
  }

  lemma FaultlessPrefix(a: seq<Action>, b: seq<Action>)
    requires Faultless(a + b)
    ensures Faultless(a)
  {
    assert forall i :: 0 <= i < |a| ==> a[i] == (a + b)[i];
  }

  lemma StretchIsGood(c: string, events: seq<Event>, n: nat, m: nat, entries: seq<LogEntry>)
    requires n <= m <= |events| && EventsGood(c, events, entries, |entries|)
    ensures EventsGood(c, events[n..m], entries, |entries|)
  {}
}
