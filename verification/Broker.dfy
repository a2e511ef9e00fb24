/**
 The in-memory broker of internal/broker/broker.go: bounded per-subscriber buffers that
 drop what does not fit, and what a subscriber can nevertheless rely on.
 */
module Broker {

  datatype EventKind = EntryAppended | SnapshotCreated

  datatype Event = Event(kind: EventKind, chatId: string, sequence: nat, entryHash: string)

  const BUFFER_SIZE: nat := 64

  /** One subscription: what its reader has taken, what waits in the channel, and whether
      the channel is still open. */
  datatype Sub = Sub(received: seq<Event>, buffer: seq<Event>, open: bool)

  datatype Op = Publish(event: Event) | Receive | Cancel

  function Offer(sub: Sub, event: Event): Sub {
    if sub.open && |sub.buffer| < BUFFER_SIZE then sub.(buffer := sub.buffer + [event]) else sub
  }

  function Take(sub: Sub): Sub {
    if sub.buffer == [] then sub else sub.(received := sub.received + [sub.buffer[0]], buffer := sub.buffer[1..])
  }

  function Step(sub: Sub, op: Op): Sub {
    match op
    case Publish(event) => Offer(sub, event)
    case Receive => Take(sub)
    case Cancel => sub.(open := false)
  }

  // ---------------------------------------------------------------- one subscription's life

  function Run(ops: seq<Op>): Sub
    decreases |ops|
  {
    if ops == [] then Sub([], [], true) else Step(Run(ops[..|ops| - 1]), ops[|ops| - 1])
  }

  /** Everything published while the subscription was open. */
  function Published(ops: seq<Op>): seq<Event>
    decreases |ops|
  {
    if ops == [] then []
    else
      var init, last := ops[..|ops| - 1], ops[|ops| - 1];
      if last.Publish? && Run(init).open then Published(init) + [last.event] else Published(init)
  }

  /** The publications that met fewer than 64 waiting events while it was open. */
  function Kept(ops: seq<Op>): seq<Event>
    decreases |ops|
  {
    if ops == [] then []
    else
      var init, last := ops[..|ops| - 1], ops[|ops| - 1];
      if last.Publish? && Run(init).open && |Run(init).buffer| < BUFFER_SIZE then Kept(init) + [last.event] else Kept(init)
  }

  function Stream(sub: Sub): seq<Event> {
    sub.received + sub.buffer
  }

  predicate Subsequence(a: seq<Event>, b: seq<Event>)
    decreases |b|
  {
    if a == [] then true
    else if b == [] then false
    else if a[|a| - 1] == b[|b| - 1] && Subsequence(a[..|a| - 1], b[..|b| - 1]) then true
    else Subsequence(a, b[..|b| - 1])
  }

  lemma SubsequenceGrows(a: seq<Event>, b: seq<Event>, e: Event)
    requires Subsequence(a, b)
    ensures Subsequence(a, b + [e]) && Subsequence(a + [e], b + [e])
  {
    assert (b + [e])[..|b|] == b && (a + [e])[..|a|] == a;
  }

  lemma TakeKeepsStream(sub: Sub)
    ensures Stream(Take(sub)) == Stream(sub) && |Take(sub).buffer| <= |sub.buffer|
  {
    if sub.buffer != [] {
      assert sub.buffer == [sub.buffer[0]] + sub.buffer[1..];
    }
  }

  /** A subscription is open until its first cancel. */
  lemma {:induction false} OpenUntilCancel(ops: seq<Op>)
    ensures Run(ops).open <==> Cancel !in ops
    decreases |ops|
  {
    if ops != [] {
      var init, last := ops[..|ops| - 1], ops[|ops| - 1];
      OpenUntilCancel(init);
      assert ops == init + [last];
    }
  }

  /** Over any run of publications, receives and cancels, what a subscriber has received or
      still has waiting is, in order, exactly the publications that met fewer than 64 waiting
      events while it was subscribed. */
  lemma {:induction false} StreamIsKept(ops: seq<Op>)
    ensures |Run(ops).buffer| <= BUFFER_SIZE
    ensures Stream(Run(ops)) == Kept(ops)
    decreases |ops|
  {
    hide Stream, Offer, Take;
    if ops == [] {
      NothingIsSubsequence();
    } else {
      var init, last := ops[..|ops| - 1], ops[|ops| - 1];
      var sub := Run(init);
      StreamIsKept(init);
      if last.Publish? {
        OfferExtends(sub, last.event);
      } else {
        TakeKeepsStream(sub);
        CloseKeepsStream(sub);
      }
    }
  }

  /** Which is an order-preserving subsequence of all that was published. */
  lemma {:induction false} KeptIsOrdered(ops: seq<Op>)
    ensures Subsequence(Kept(ops), Published(ops))
    decreases |ops|
  {
    hide Subsequence;
    if ops == [] {
      NothingIsSubsequence();
    } else {
      var init, last := ops[..|ops| - 1], ops[|ops| - 1];
      KeptIsOrdered(init);
      if last.Publish? {
        SubsequenceGrows(Kept(init), Published(init), last.event);
      }
    }
  }

  function Publishing(events: seq<Event>): seq<Op> {
    seq(|events|, i requires 0 <= i < |events| => Publish(events[i]))
  }

  /** A subscriber who takes nothing keeps the first 64 events; the 65th and all after it are
      lost. */
  lemma {:induction false} SixtyFourAreKept(events: seq<Event>)
    ensures var sub := Run(Publishing(events));
            sub.open && sub.received == [] && sub.buffer == (if |events| > 64 then events[..64] else events)
    decreases |events|
  {
    if events != [] {
      var init := events[..|events| - 1];
      assert Publishing(events)[..|events| - 1] == Publishing(init);
      SixtyFourAreKept(init);
    }
  }

  lemma CloseKeepsStream(sub: Sub)
    ensures Stream(sub.(open := false)) == Stream(sub)
  {}

  lemma NothingIsSubsequence()
    ensures Subsequence([], []) && Stream(Sub([], [], true)) == []
  {}

  lemma OfferExtends(sub: Sub, event: Event)
    ensures |Offer(sub, event).buffer| <= if |sub.buffer| < BUFFER_SIZE then BUFFER_SIZE else |sub.buffer|
    ensures Stream(Offer(sub, event)) ==
              if sub.open && |sub.buffer| < BUFFER_SIZE then Stream(sub) + [event] else Stream(sub)
  {
    assert sub.received + (sub.buffer + [event]) == Stream(sub) + [event];
  }

  /** The reader was never 64 events behind when something was published. */
  ghost predicate Prompt(ops: seq<Op>) {
    forall i :: 0 <= i < |ops| && ops[i].Publish? && Run(ops[..i]).open ==> |Run(ops[..i]).buffer| < BUFFER_SIZE
  }

  /** Such a reader, and no other, misses nothing. */
  lemma {:induction false} PromptReaderMissesNothing(ops: seq<Op>)
    ensures |Kept(ops)| <= |Published(ops)|
    ensures Prompt(ops) <==> |Kept(ops)| == |Published(ops)|
    ensures Prompt(ops) ==> Stream(Run(ops)) == Published(ops)
    decreases |ops|
  {
    StreamIsKept(ops);
    if ops != [] {
      var init := ops[..|ops| - 1];
      PromptReaderMissesNothing(init);
      StreamIsKept(init);
      PromptStep(ops);
    }
  }

  lemma PromptStep(ops: seq<Op>)
    requires ops != []
    ensures var init, last := ops[..|ops| - 1], ops[|ops| - 1];
            Prompt(ops) <==> Prompt(init) && (last.Publish? && Run(init).open ==> |Run(init).buffer| < BUFFER_SIZE)
  {
    hide Run;
    var init, last := ops[..|ops| - 1], ops[|ops| - 1];
    assert forall i :: 0 <= i < |init| ==> init[i] == ops[i] && init[..i] == ops[..i];
    if Prompt(ops) {
      assert ops[|init|] == last && ops[..|init|] == init;
      forall i | 0 <= i < |init| && init[i].Publish? && Run(init[..i]).open
        ensures |Run(init[..i]).buffer| < BUFFER_SIZE
      {
        assert ops[i].Publish? && Run(ops[..i]).open;
      }
    }
  }

  lemma {:induction false} NothingAfterCancel(ops: seq<Op>, more: seq<Op>)
    requires Cancel in ops
    ensures Stream(Run(ops + more)) == Stream(Run(ops)) && !Run(ops + more).open
    decreases |more|
  {
    if more == [] {
      assert ops + more == ops;
      OpenUntilCancel(ops);
    } else {
      var init := more[..|more| - 1];
      assert (ops + more)[..|ops + more| - 1] == ops + init;
      NothingAfterCancel(ops, init);
      TakeKeepsStream(Run(ops + init));
    }
  }

  // ---------------------------------------------------------------- the broker

  lemma RunStep(ops: seq<Op>, op: Op)
    ensures Run(ops + [op]) == Step(Run(ops), op)
  {
    assert (ops + [op])[..|ops|] == ops;
  }

  /** A channel as the broker and its reader share it; received is what was taken out, and
      ops is everything that has happened to the channel. */
  class Channel {
    var buffer: seq<Event>
    var open: bool
    ghost var received: seq<Event>
    ghost var ops: seq<Op>

    ghost function View(): Sub
      reads this
    {
      Sub(received, buffer, open)
    }

    /** The channel is what its life has made of it. */
    ghost predicate Valid()
      reads this
    {
      View() == Run(ops)
    }

    constructor ()
      ensures Valid() && ops == []
    {
      buffer, open, received, ops := [], true, [], [];
    }

    /** The reader's side; false means nothing was waiting. */
    method Receive() returns (ok: bool, event: Event)
      requires Valid()
      modifies this
      ensures Valid() && ops == old(ops) + [Op.Receive]
      ensures ok <==> old(buffer) != []
      ensures ok ==> event == old(buffer)[0] && received == old(received) + [event]
    {
      RunStep(ops, Op.Receive);
      ops := ops + [Op.Receive];
      if buffer == [] {
        return false, Event(EntryAppended, "", 0, "");
      }
      event := buffer[0];
      received := received + [event];
      buffer := buffer[1..];
      return true, event;
    }

    /** The broker's side of one event: a send that gives up when the buffer is full. */
    method Send(event: Event)
      requires Valid() && open
      modifies this
      ensures Valid() && open && ops == old(ops) + [Op.Publish(event)]
    {
      RunStep(ops, Op.Publish(event));
      ops := ops + [Op.Publish(event)];
      if |buffer| < BUFFER_SIZE {
        buffer := buffer + [event];
      }
    }

    method Close()
      requires Valid()
      modifies this
      ensures Valid() && !open && ops == old(ops) + [Op.Cancel]
    {
      RunStep(ops, Op.Cancel);
      ops := ops + [Op.Cancel];
      open := false;
    }
  }

  class InMemory {
    var nextId: nat
    var subscribers: map<nat, Channel>

    /** Registered channels are open, and no two registrations share one. */
    ghost predicate Valid()
      reads this, subscribers.Values
    {
      && (forall id :: id in subscribers ==> id < nextId && subscribers[id].open && subscribers[id].Valid())
      && (forall i, j :: i in subscribers && j in subscribers && i != j ==> subscribers[i] != subscribers[j])
    }

    constructor ()
      ensures Valid() && subscribers == map[]
    {
      nextId, subscribers := 0, map[];
    }

    method Subscribe() returns (id: nat, ch: Channel)
      requires Valid()
      modifies this
      ensures Valid() && fresh(ch) && ch.ops == []
      ensures id !in old(subscribers) && subscribers == old(subscribers)[id := ch]
    {
      id := nextId;
      nextId := nextId + 1;
      ch := new Channel();
      subscribers := subscribers[id := ch];
    }

    /** The cancel func of a subscription: idempotent, and it closes only its own channel. */
    method Cancel(id: nat)
      requires Valid()
      modifies this, subscribers.Values
      ensures Valid() && subscribers == old(subscribers) - {id}
      ensures forall i :: i in old(subscribers) ==>
                var ch := old(subscribers[i]);
                ch.Valid() && ch.ops == old(ch.ops) + (if i == id then [Op.Cancel] else [])
    {
      if id in subscribers {
        var existing := subscribers[id];
        subscribers := subscribers - {id};
        existing.Close();
      }
    }

    /** The event happens to every registered channel, and to no other. */
    method Publish(event: Event)
      requires Valid()
      modifies subscribers.Values
      ensures Valid()
      ensures forall i :: i in subscribers ==> subscribers[i].ops == old(subscribers[i].ops) + [Op.Publish(event)]
    {
      var pending := subscribers.Keys;
      while pending != {}
        invariant pending <= subscribers.Keys && Valid()
        invariant forall i :: i in subscribers ==>
                    subscribers[i].ops == old(subscribers[i].ops) + (if i in pending then [] else [Op.Publish(event)])
        decreases pending
      {
        var id :| id in pending;
        subscribers[id].Send(event);
        pending := pending - {id};
      }
    }
  }
}
