/**
 What a node announces when nothing fails: one event for every entry and one for every
 hundredth, in order, in every interleaving of its threads.
 */
module Announcements {
  import opened Broker
  import opened Options
  import opened Models
  import opened Chain
  import opened Seals
  import opened Storage
  import opened NodeRuns

  function EntryEvent(c: string, e: LogEntry): Event {
    Event(EntryAppended, c, e.sequence, e.entryHash)
  }

  function SealEvent(c: string, e: LogEntry): Event {
    Event(SnapshotCreated, c, e.sequence, e.entryHash)
  }

  /** The events of a log: each entry announced, and after each hundredth its snapshot. */
  function EventsOf(c: string, es: seq<LogEntry>): seq<Event>
    decreases |es|
  {
    if es == [] then []
    else
      var init, e := es[..|es| - 1], es[|es| - 1];
      EventsOf(c, init) + [EntryEvent(c, e)] + (if |es| % SNAPSHOT_INTERVAL == 0 then [SealEvent(c, e)] else [])
  }

  lemma EventsOfMore(c: string, es: seq<LogEntry>, e: LogEntry)
    ensures EventsOf(c, es + [e])
         == EventsOf(c, es) + [EntryEvent(c, e)]
              + (if (|es| + 1) % SNAPSHOT_INTERVAL == 0 then [SealEvent(c, e)] else [])
  {
    assert (es + [e])[..|es|] == es;
  }

  /** All but the last entry are announced, and perhaps the last one too. */
  ghost predicate LastPending(c: string, chat: Chat, announced: bool) {
    var es := chat.entries;
    && es != []
    && chat.events == EventsOf(c, es[..|es| - 1]) + (if announced then [EntryEvent(c, es[|es| - 1])] else [])
  }

  /** The events of a chat while a thread may be inside its critical section. */
  ghost predicate EventsExact(c: string, chat: Chat, holder: Option<Task>) {
    match holder
    case Some(Stored(_)) => LastPending(c, chat, false)
    case Some(Announced(_)) => LastPending(c, chat, true)
    case Some(Sealing(_, _, _)) => LastPending(c, chat, true) && |chat.entries| % SNAPSHOT_INTERVAL == 0
    case Some(Rooted(_, _, _, _)) => LastPending(c, chat, true) && |chat.entries| % SNAPSHOT_INTERVAL == 0
    case Some(Sealed(_, _)) => LastPending(c, chat, true) && |chat.entries| % SNAPSHOT_INTERVAL == 0
    case Some(RootCached(_)) => LastPending(c, chat, true) && |chat.entries| % SNAPSHOT_INTERVAL == 0
    case _ => chat.events == EventsOf(c, chat.entries)
  }

  /** The last entry settled: what was pending has been announced. */
  lemma NothingPending(c: string, chat: Chat)
    requires LastPending(c, chat, true)
    ensures var e := chat.entries[|chat.entries| - 1];
            EventsOf(c, chat.entries)
            == chat.events + (if |chat.entries| % SNAPSHOT_INTERVAL == 0 then [SealEvent(c, e)] else [])
  {}

  /** What a step of the lock holder knows of the entry it is about. */
  lemma HolderAtTip(cr: Crypto, c: string, chat: Chat, task: Task)
    requires AppenderGood(cr, c, chat, task)
    requires task.Stored? || task.Announced? || task.Sealing? || task.Rooted? || task.Sealed? || task.RootCached?
    ensures AtTip(chat.entries, task.entry)
  {}

  lemma ReadyIsNext(cr: Crypto, c: string, chat: Chat, task: Task)
    requires AppenderGood(cr, c, chat, task) && task.Ready?
    ensures task.entry.sequence == |chat.entries|
  {
    NextEntryIsSound(cr, chat.entries, task.entry.message);
  }

  lemma HolderStepExact(cr: Crypto, c: string, chat: Chat, t: nat, task: Task)
    requires Holds(task) && AppenderGood(cr, c, chat, task) && EventsExact(c, chat, Some(task))
    ensures var (chat', task') := AppendStep(cr, c, chat, t, task, Done);
            EventsExact(c, chat', if Holds(task') then Some(task') else None)
  {
    hide AppenderGood, EventsOf, EntryAfter;
    match task
    case Ready(e) =>
      ReadyIsNext(cr, c, chat, task);
      assert (chat.entries + [e])[..|chat.entries|] == chat.entries;
      assert EventsOf(c, chat.entries) + [] == EventsOf(c, chat.entries);
    case Stored(e) =>
      HolderAtTip(cr, c, chat, task);
      assert EventsOf(c, chat.entries[..|chat.entries| - 1]) + [] == chat.events;
    case Announced(e) =>
      HolderAtTip(cr, c, chat, task);
      NothingPending(c, chat);
      assert chat.events + [] == chat.events;
    case RootCached(e) =>
      HolderAtTip(cr, c, chat, task);
      NothingPending(c, chat);
    case _ =>
  }

  lemma HoldersAreAppenders(task: Task)
    requires Holds(task)
    ensures !Reads(task)
  {}

  /** A thread outside the critical section publishes nothing. */
  lemma OthersAnnounceNothing(cr: Crypto, c: string, chat: Chat, t: nat, task: Task)
    requires !Holds(task)
    ensures var (chat', task') := ChatStep(cr, c, chat, t, task, Done);
            && chat'.entries == chat.entries && chat'.events == chat.events
            && (Holds(task') ==> chat.lock.None? && chat'.lock == Some(t) && task'.Locked?)
            && (!Holds(task') ==> chat' == chat)
  {
    hide ReadStep;
    if Reads(task) {
      ReadersStayReaders(cr, c, chat, task);
    }
  }

  lemma ReadersStayReaders(cr: Crypto, c: string, chat: Chat, task: Task)
    requires Reads(task)
    ensures !Holds(ReadStep(cr, c, chat, task, Done))
  {
    hide SnapshotAt, ProveFrom, Since, LastOf;
  }

  ghost predicate AllExact(w: World) {
    forall c :: EventsExact(c, Look(w, c), Holder(w, Look(w, c)))
  }

  /** The chat that a thread steps on. */
  lemma StepExact(cr: Crypto, w: World, t: nat)
    requires Inv(cr, false, w) && AllExact(w) && t in w.threads
    ensures var c := w.threads[t].chatId;
            var w' := Apply(cr, w, Run(t, Done));
            EventsExact(c, Look(w', c), Holder(w', Look(w', c)))
  {
    hide EventsExact, ChatStep, AppenderGood, ReaderGood, ChatGood, Holds, Reads;
    var c, task := w.threads[t].chatId, w.threads[t].task;
    var chat := Look(w, c);
    var w' := Apply(cr, w, Run(t, Done));
    assert EventsExact(c, chat, Holder(w, chat)) && SharedGood(cr, false, w, c) && ThreadGood(cr, false, w, t);
    if Holds(task) {
      HoldersAreAppenders(task);
      StepOfThread(cr, c, chat, t, task);
      HolderStepExact(cr, c, chat, t, task);
    } else {
      OthersAnnounceNothing(cr, c, chat, t, task);
      if Holds(w'.threads[t].task) {
        FreeIsExact(c, chat, Look(w', c), w'.threads[t].task);
      }
    }
  }

  /** The lock is held after a step of its holder exactly if the holder is still inside. */
  lemma StepOfThread(cr: Crypto, c: string, chat: Chat, t: nat, task: Task)
    requires Holds(task) && chat.lock == Some(t)
    ensures var (chat', task') := ChatStep(cr, c, chat, t, task, Done);
            && chat'.lock == (if Holds(task') then Some(t) else None)
            && (chat', task') == AppendStep(cr, c, chat, t, task, Done)
  {
    hide EntryAfter;
  }

  /** Entering the critical section changes no event and no entry. */
  lemma FreeIsExact(c: string, chat: Chat, chat': Chat, task': Task)
    requires chat'.entries == chat.entries && chat'.events == chat.events && task'.Locked?
    ensures EventsExact(c, chat, None) ==> EventsExact(c, chat', Some(task'))
  {}

  lemma RunKeepsExact(cr: Crypto, w: World, t: nat)
    requires Inv(cr, false, w) && AllExact(w)
    ensures AllExact(Apply(cr, w, Run(t, Done)))
  {
    hide EventsExact, ChatStep, TaskGood, ChatGood, Holds;
    var w' := Apply(cr, w, Run(t, Done));
    if t in w.threads {
      forall d
        ensures EventsExact(d, Look(w', d), Holder(w', Look(w', d)))
      {
        assert EventsExact(d, Look(w, d), Holder(w, Look(w, d)));
        if d == w.threads[t].chatId {
          StepExact(cr, w, t);
        } else {
          assert SharedGood(cr, false, w, d);
        }
      }
    }
  }

  lemma OtherKeepsExact(cr: Crypto, w: World, a: Action)
    requires Inv(cr, false, w) && AllExact(w) && !a.Run?
    ensures AllExact(Apply(cr, w, a))
  {
    hide EventsExact, TaskGood, ChatGood, Holds;
    var w' := Apply(cr, w, a);
    forall d
      ensures EventsExact(d, Look(w', d), Holder(w', Look(w', d)))
    {
      assert EventsExact(d, Look(w, d), Holder(w, Look(w, d))) && SharedGood(cr, false, w, d);
    }
  }

  lemma {:induction false} AllRunsExact(cr: Crypto, actions: seq<Action>)
    requires Faultless(actions)
    ensures AllExact(RunAll(cr, actions))
    decreases |actions|
  {
    hide Inv, AllExact, Apply;
    if actions == [] {
      NothingExact(cr);
    } else {
      var init, last := actions[..|actions| - 1], actions[|actions| - 1];
      AllRunsExact(cr, init);
      EveryRunGood(cr, init, false);
      if last.Run? {
        RunKeepsExact(cr, RunAll(cr, init), last.id);
      } else {
        OtherKeepsExact(cr, RunAll(cr, init), last);
      }
    }
  }

  lemma NothingExact(cr: Crypto)
    ensures AllExact(RunAll(cr, []))
  {}

  /** Nothing is left out. In every run without faults, in every state in which the lock of a
      chat is free, the chat's events are exactly one announcement for each entry, in order,
      each hundredth followed by the announcement of its snapshot. While a thread holds the
      lock only the announcements for the last entry may be missing. */
  lemma {:induction false} EventsAreExact(cr: Crypto, actions: seq<Action>, c: string)
    requires Faultless(actions)
    ensures var chat := Look(RunAll(cr, actions), c);
            && (chat.lock.None? ==> chat.events == EventsOf(c, chat.entries))
            && EventsExact(c, chat, Holder(RunAll(cr, actions), chat))
  {
    hide RunAll, EventsExact;
    AllRunsExact(cr, actions);
    var chat := Look(RunAll(cr, actions), c);
    assert EventsExact(c, chat, Holder(RunAll(cr, actions), chat));
    if chat.lock.None? {
      UnlockedIsExact(c, chat);
    }
  }

  lemma UnlockedIsExact(c: string, chat: Chat)
    requires EventsExact(c, chat, None)
    ensures chat.events == EventsOf(c, chat.entries)
  {}
}
