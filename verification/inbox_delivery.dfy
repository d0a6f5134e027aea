/**
 * Webhook calls as concurrent processes over the inbox tables: one database statement (or one
 * transaction) a step, any number of calls, retries and crashes, while the owner opens conversations.
 */
module InboxDelivery {
  import opened Wrappers
  import opened Inbox

  /** Where a webhook call stands with its current message.  `Failed` and `Lost` are calls that ended early:
      `Lost` after it stored a message and before it queued it. */
  datatype Pc =
    | Checking
    | FindingContact
    | AddingContact
    | FindingConversation(contact: nat)
    | AddingConversation(contact: nat)
    | Storing(contact: nat, conversation: nat)
    | LookingUp
    | Queuing(message: nat)
    | Finished
    | Failed
    | Lost(message: nat)

  datatype Call = Call(userId: nat, batch: seq<Inbound>, at: nat, pc: Pc)

  /** `resetAt[c]` is how many messages the table held when conversation `c` was created or last opened. */
  datatype Sys = Sys(db: Db, calls: seq<Call>, resetAt: seq<nat>)

  datatype Event =
    | Deliver(userId: nat, batch: seq<Inbound>)
    | Step(call: nat)
    | Crash(call: nat)
    | Open(conversation: nat)

  predicate Running(c: Call) { c.at < |c.batch| && !c.pc.Finished? && !c.pc.Failed? && !c.pc.Lost? }

  function Begin(c: Call, at: nat): Call { c.(at := at, pc := if at < |c.batch| then Checking else Finished) }

  /** One statement of one call. */
  function Advance(db: Db, c: Call): (Db, Call)
    requires Running(c)
  {
    var item := c.batch[c.at];
    match c.pc
    case Checking =>
      if FindMessage(db.messages, c.userId, item.key).Some? then (db, Begin(c, c.at + 1))
      else (db, c.(pc := FindingContact))
    case FindingContact =>
      var found := ContactOf(db.contacts, c.userId, item.from);
      (db, c.(pc := if found.Some? then FindingConversation(found.value) else AddingContact))
    case AddingContact =>
      if ContactOf(db.contacts, c.userId, item.from).Some? then (db, c.(pc := Failed))
      else
        (db.(contacts := db.contacts + [NewContact(c.userId, item)]), c.(pc := FindingConversation(|db.contacts|)))
    case FindingConversation(contact) =>
      var found := ConversationOf(db.conversations, contact);
      (db, c.(pc := if found.Some? then Storing(contact, found.value) else AddingConversation(contact)))
    case AddingConversation(contact) =>
      if ConversationOf(db.conversations, contact).Some? then (db, c.(pc := Failed))
      else
        (db.(conversations := db.conversations + [Conversation(c.userId, contact, 0)]),
         c.(pc := Storing(contact, |db.conversations|)))
    case Storing(contact, conversation) =>
      if Holder(db.messages, c.userId, item.key).Some? then (db, c.(pc := LookingUp))
      else if conversation < |db.conversations| then
        (Insert(db, Message(c.userId, contact, conversation, item.content, item.key)),
         c.(pc := Queuing(|db.messages|)))
      else
        (db, c.(pc := Failed))
    case LookingUp =>
      if FindMessage(db.messages, c.userId, item.key).Some? then (db, Begin(c, c.at + 1))
      else (db, c.(pc := Failed))
    case Queuing(message) => (db.(queue := db.queue + [message]), Begin(c, c.at + 1))
  }

  function Next(s: Sys, e: Event): Sys {
    match e
    case Deliver(userId, batch) => s.(calls := s.calls + [Begin(Call(userId, batch, 0, Checking), 0)])
    case Step(k) =>
      if k < |s.calls| && Running(s.calls[k]) then
        var (db, c) := Advance(s.db, s.calls[k]);
        Sys(db, s.calls[k := c],
            if |db.conversations| > |s.db.conversations| then s.resetAt + [|db.messages|] else s.resetAt)
      else
        s
    case Crash(k) =>
      if k < |s.calls| && Running(s.calls[k]) then
        var c := s.calls[k];
        s.(calls := s.calls[k := c.(pc := if c.pc.Queuing? then Lost(c.pc.message) else Failed)])
      else
        s
    case Open(c) =>
      if c < |s.db.conversations| && c < |s.resetAt| then
        s.(db := s.db.(conversations := s.db.conversations[c := s.db.conversations[c].(unread := 0)]),
           resetAt := s.resetAt[c := |s.db.messages|])
      else
        s
  }

  function Exec(s: Sys, events: seq<Event>): Sys
    decreases events
  {
    if events == [] then s else Exec(Next(s, events[0]), events[1..])
  }

  const EMPTY := Sys(Db([], [], [], []), [], [])

  // ----- what every run keeps -----

  /** The messages of conversation `c` among the rows from `from` on. */
  function StoredSince(messages: seq<Message>, c: nat, from: nat): nat {
    if |messages| <= from then 0
    else
      var n := |messages| - 1;
      StoredSince(messages[..n], c, from) + if messages[n].conversationId == c then 1 else 0
  }

  /** No key and no sender is stored twice, and no contact has two conversations. */
  ghost predicate Unique(db: Db) {
    && (forall i, j | 0 <= i < j < |db.messages| && db.messages[i].key.Some? ::
      !(db.messages[i].userId == db.messages[j].userId && db.messages[i].key == db.messages[j].key))
    && (forall i, j | 0 <= i < j < |db.contacts| ::
      !(db.contacts[i].userId == db.contacts[j].userId && db.contacts[i].handle == db.contacts[j].handle))
    && (forall i, j | 0 <= i < j < |db.conversations| ::
      db.conversations[i].contactId != db.conversations[j].contactId)
  }

  /** Every row belongs where its parents say. */
  ghost predicate Linked(db: Db) {
    && (forall v | 0 <= v < |db.conversations| ::
      db.conversations[v].contactId < |db.contacts|
      && db.conversations[v].userId == db.contacts[db.conversations[v].contactId].userId)
    && (forall m | 0 <= m < |db.messages| ::
      db.messages[m].conversationId < |db.conversations|
      && db.conversations[db.messages[m].conversationId].contactId == db.messages[m].contactId
      && db.conversations[db.messages[m].conversationId].userId == db.messages[m].userId)
  }

  /** A call knows the rows it has found: they are the sender's. */
  ghost predicate CallInv(db: Db, c: Call) {
    && c.at <= |c.batch| && (Running(c) || c.pc.Finished? || c.pc.Failed? || c.pc.Lost?)
    && (c.pc.FindingConversation? || c.pc.AddingConversation? || c.pc.Storing? ==>
      c.pc.contact < |db.contacts| && db.contacts[c.pc.contact].userId == c.userId
      && c.at < |c.batch| && db.contacts[c.pc.contact].handle == c.batch[c.at].from)
    && (c.pc.Storing? ==>
      c.pc.conversation < |db.conversations| && db.conversations[c.pc.conversation].contactId == c.pc.contact)
    && (c.pc.LookingUp? ==> StoredIn(db, c.userId, c.batch[c.at].key))
    && (c.pc.Finished? ==> c.at == |c.batch|)
    && (forall i | 0 <= i < c.at && c.batch[i].key.Some? :: StoredIn(db, c.userId, c.batch[i].key))
    && (c.pc.Queuing? && c.batch[c.at].key.Some? ==> StoredIn(db, c.userId, c.batch[c.at].key))
  }

  /** Whether a call is the one that answers for message `m` not being queued yet. */
  predicate Holds(c: Call, m: nat) { (c.pc.Queuing? || c.pc.Lost?) && c.pc.message == m }

  function Holders(calls: seq<Call>, m: nat): nat {
    if calls == [] then 0
    else Holders(calls[..|calls| - 1], m) + if Holds(calls[|calls| - 1], m) then 1 else 0
  }

  /** Each stored message is in the queue once, or is held by one call and not in the queue. */
  ghost predicate Accounted(s: Sys) {
    forall m: nat ::
      Holders(s.calls, m) + multiset(s.db.queue)[m] == if m < |s.db.messages| then 1 else 0
  }

  ghost predicate Counted(s: Sys) {
    && |s.resetAt| == |s.db.conversations|
    && forall c | 0 <= c < |s.resetAt| ::
      s.resetAt[c] <= |s.db.messages|
      && s.db.conversations[c].unread == StoredSince(s.db.messages, c, s.resetAt[c])
  }

  ghost predicate Inv(s: Sys) {
    && Unique(s.db) && Linked(s.db) && Accounted(s) && Counted(s)
    && forall k | 0 <= k < |s.calls| :: CallInv(s.db, s.calls[k])
  }

  lemma {:induction false} HoldersUpdate(calls: seq<Call>, k: nat, c: Call, m: nat)
    requires k < |calls|
    ensures Holders(calls[k := c], m)
         == Holders(calls, m) - (if Holds(calls[k], m) then 1 else 0) + if Holds(c, m) then 1 else 0
    decreases calls
  {
    var n := |calls| - 1;
    var after := calls[k := c];
    if k == n {
      assert after[..n] == calls[..n];
    } else {
      assert after[..n] == calls[..n][k := c];
      HoldersUpdate(calls[..n], k, c, m);
    }
  }

  lemma NothingSince(messages: seq<Message>, c: nat)
    ensures StoredSince(messages, c, |messages|) == 0
  {
  }

  /** Rows are only added, and added rows carry on where the table ended. */
  ghost predicate Grows(a: Db, b: Db) {
    && a.contacts <= b.contacts && a.messages <= b.messages
    && |a.conversations| <= |b.conversations|
    && forall v | 0 <= v < |a.conversations| :: b.conversations[v].contactId == a.conversations[v].contactId
  }

  lemma GrowthKeepsCalls(a: Db, b: Db, c: Call)
    requires Grows(a, b) && CallInv(a, c)
    ensures CallInv(b, c)
  {
    forall key | StoredIn(a, c.userId, key) ensures StoredIn(b, c.userId, key) {
      var m := Holder(a.messages, c.userId, key).value;
      assert b.messages[m] == a.messages[m];
    }
  }

  lemma AdvanceGrows(db: Db, c: Call)
    requires Running(c) && CallInv(db, c)
    ensures Grows(db, Advance(db, c).0)
  {
  }

  lemma AdvanceKeepsCall(db: Db, c: Call)
    requires Running(c) && CallInv(db, c)
    ensures CallInv(Advance(db, c).0, Advance(db, c).1)
  {
    var (after, d) := Advance(db, c);
    AdvanceGrows(db, c);
    GrowthKeepsCalls(db, after, c);
    if c.pc.Storing? && d.pc.Queuing? {
      assert after.messages[|db.messages|].key == c.batch[c.at].key;
    }
  }

  lemma AdvanceKeepsTables(db: Db, c: Call)
    requires Running(c) && CallInv(db, c) && Unique(db) && Linked(db)
    ensures Unique(Advance(db, c).0) && Linked(Advance(db, c).0)
  {
    AdvanceKeepsUnique(db, c);
    AdvanceKeepsLinked(db, c);
  }

  lemma AdvanceKeepsUnique(db: Db, c: Call)
    requires Running(c) && CallInv(db, c) && Unique(db)
    ensures Unique(Advance(db, c).0)
  {
  }

  lemma AdvanceKeepsLinked(db: Db, c: Call)
    requires Running(c) && CallInv(db, c) && Linked(db)
    ensures Linked(Advance(db, c).0)
  {
  }

  lemma StepKeepsCounted(s: Sys, k: nat)
    requires k < |s.calls| && Running(s.calls[k]) && Inv(s)
    ensures Counted(Next(s, Step(k)))
  {
    var c := s.calls[k];
    var (db, d) := Advance(s.db, c);
    assert CallInv(s.db, c);
    if |db.messages| > |s.db.messages| {
      assert db.messages[..|s.db.messages|] == s.db.messages;
    } else {
      assert db.messages == s.db.messages;
      NothingSince(db.messages, |s.db.conversations|);
    }
  }

  lemma StepKeepsAccounted(s: Sys, k: nat)
    requires k < |s.calls| && Running(s.calls[k]) && Inv(s)
    ensures Accounted(Next(s, Step(k)))
  {
    var c := s.calls[k];
    var (db, d) := Advance(s.db, c);
    assert CallInv(s.db, c);
    forall m: nat
      ensures Holders(s.calls[k := d], m) + multiset(db.queue)[m] == if m < |db.messages| then 1 else 0
    {
      HoldersUpdate(s.calls, k, d, m);
      AdvanceHandsOn(s.db, c, m);
    }
  }

  /** A message is held by the call that stores it until that call queues it. */
  lemma AdvanceHandsOn(db: Db, c: Call, m: nat)
    requires Running(c) && CallInv(db, c)
    ensures
      var (after, d) := Advance(db, c);
      (if Holds(d, m) then 1 else 0) + multiset(after.queue)[m] + (if m < |db.messages| then 1 else 0)
        == (if Holds(c, m) then 1 else 0) + multiset(db.queue)[m] + (if m < |after.messages| then 1 else 0)
  {
    if c.pc.Queuing? { assert multiset(db.queue + [c.pc.message]) == multiset(db.queue) + multiset{c.pc.message}; }
  }

  lemma StepKeepsInv(s: Sys, k: nat)
    requires k < |s.calls| && Running(s.calls[k]) && Inv(s)
    ensures Inv(Next(s, Step(k)))
  {
    var c, t := s.calls[k], Next(s, Step(k));
    assert CallInv(s.db, c);
    StepKeepsCounted(s, k);
    StepKeepsAccounted(s, k);
    AdvanceKeepsTables(s.db, c);
    AdvanceGrows(s.db, c);
    forall j | 0 <= j < |t.calls| ensures CallInv(t.db, t.calls[j]) {
      if j == k { AdvanceKeepsCall(s.db, c); } else { GrowthKeepsCalls(s.db, t.db, s.calls[j]); }
    }
  }

  lemma CrashKeepsInv(s: Sys, k: nat)
    requires k < |s.calls| && Running(s.calls[k]) && Inv(s)
    ensures Inv(Next(s, Crash(k)))
  {
    var t := Next(s, Crash(k));
    forall m: nat ensures Holders(t.calls, m) == Holders(s.calls, m) { HoldersUpdate(s.calls, k, t.calls[k], m); }
    assert CallInv(s.db, s.calls[k]);
  }

  lemma OpenKeepsInv(s: Sys, v: nat)
    requires Inv(s)
    ensures Inv(Next(s, Open(v)))
  {
    var t := Next(s, Open(v));
    if v < |s.db.conversations| {
      NothingSince(s.db.messages, v);
      forall k | 0 <= k < |t.calls| ensures CallInv(t.db, t.calls[k]) { GrowthKeepsCalls(s.db, t.db, s.calls[k]); }
    }
  }

  lemma DeliverKeepsInv(s: Sys, userId: nat, batch: seq<Inbound>)
    requires Inv(s)
    ensures Inv(Next(s, Deliver(userId, batch)))
  {
    var t := Next(s, Deliver(userId, batch));
    assert t.calls[..|s.calls|] == s.calls;
  }

  lemma NextKeepsInv(s: Sys, e: Event)
    requires Inv(s)
    ensures Inv(Next(s, e))
  {
    match e
    case Deliver(userId, batch) => DeliverKeepsInv(s, userId, batch);
    case Step(k) => if k < |s.calls| && Running(s.calls[k]) { StepKeepsInv(s, k); }
    case Crash(k) => if k < |s.calls| && Running(s.calls[k]) { CrashKeepsInv(s, k); }
    case Open(v) => OpenKeepsInv(s, v);
  }

  lemma {:induction false} ExecKeepsInv(s: Sys, events: seq<Event>)
    requires Inv(s)
    ensures Inv(Exec(s, events))
    decreases events
  {
    if events != [] {
      NextKeepsInv(s, events[0]);
      ExecKeepsInv(Next(s, events[0]), events[1..]);
    }
  }

  lemma EmptyIsGood()
    ensures Inv(EMPTY)
  {
  }

  // ----- at most once, exactly once -----

  /** However often a message is delivered, retried and raced, its id is stored at most once. */
  lemma EachIdIsStoredOnce(events: seq<Event>, i: nat, j: nat)
    requires i < j < |Exec(EMPTY, events).db.messages|
    ensures
      var messages := Exec(EMPTY, events).db.messages;
      messages[i].key.Some? ==> (messages[i].userId, messages[i].key) != (messages[j].userId, messages[j].key)
  {
    EmptyIsGood();
    ExecKeepsInv(EMPTY, events);
  }

  /** No message is queued twice, only stored messages are queued, and a stored one is queued unless some
      call is about to queue it or crashed before it could. */
  lemma QueuedOnceIff(events: seq<Event>, m: nat)
    ensures
      var s := Exec(EMPTY, events);
      && multiset(s.db.queue)[m] <= 1
      && (multiset(s.db.queue)[m] == 1 <==> m < |s.db.messages| && forall c | c in s.calls :: !Holds(c, m))
  {
    EmptyIsGood();
    ExecKeepsInv(EMPTY, events);
    NoHoldersIff(Exec(EMPTY, events).calls, m);
  }

  lemma {:induction false} NoHoldersIff(calls: seq<Call>, m: nat)
    ensures Holders(calls, m) == 0 <==> forall c | c in calls :: !Holds(c, m)
    decreases calls
  {
    if calls != [] {
      var n := |calls| - 1;
      NoHoldersIff(calls[..n], m);
      assert calls == calls[..n] + [calls[n]];
    }
  }

  /** Once no call is under way and none crashed between storing and queueing, every id of a call that went
      through is stored in one row, and that row is in the queue once. */
  lemma ExactlyOnce(events: seq<Event>, call: Call, i: nat) returns (m: nat)
    requires call in Exec(EMPTY, events).calls && call.pc.Finished? && i < |call.batch| && call.batch[i].key.Some?
    requires forall c | c in Exec(EMPTY, events).calls :: !Running(c) && !c.pc.Lost?
    ensures
      var s := Exec(EMPTY, events);
      && m < |s.db.messages|
      && (forall j | 0 <= j < |s.db.messages| ::
           j == m <==> s.db.messages[j].userId == call.userId && s.db.messages[j].key == call.batch[i].key)
      && multiset(s.db.queue)[m] == 1
  {
    EmptyIsGood();
    ExecKeepsInv(EMPTY, events);
    var s := Exec(EMPTY, events);
    assert CallInv(s.db, call);
    assert StoredIn(s.db, call.userId, call.batch[i].key);
    m := Holder(s.db.messages, call.userId, call.batch[i].key).value;
    QueuedOnceIff(events, m);
    forall c | c in s.calls ensures !Holds(c, m) {
      assert CallInv(s.db, c);
    }
  }

  /** A message whose call crashed between storing and queueing is never queued, whatever is retried. */
  lemma {:induction false} LostStaysLost(s: Sys, k: nat, events: seq<Event>)
    requires Inv(s) && k < |s.calls| && s.calls[k].pc.Lost?
    ensures
      var t := Exec(s, events);
      k < |t.calls| && t.calls[k] == s.calls[k] && s.calls[k].pc.message !in t.db.queue
    decreases events
  {
    if events == [] {
      var m := s.calls[k].pc.message;
      NoHoldersIff(s.calls, m);
      assert s.calls[k] in s.calls && Holds(s.calls[k], m);
      assert multiset(s.db.queue)[m] == 0;
    } else {
      NextKeepsInv(s, events[0]);
      LostStaysLost(Next(s, events[0]), k, events[1..]);
    }
  }

  // ----- the unread counter -----

  lemma {:induction false} ResetStays(s: Sys, v: nat, events: seq<Event>)
    requires Inv(s) && v < |s.resetAt| && Open(v) !in events
    ensures v < |Exec(s, events).resetAt| && Exec(s, events).resetAt[v] == s.resetAt[v]
    decreases events
  {
    if events != [] {
      assert events[0] in events;
      NextKeepsInv(s, events[0]);
      ResetStays(Next(s, events[0]), v, events[1..]);
    }
  }

  /** From the moment the owner opens a conversation until the next time, its unread count is the number of
      messages stored for it in between. */
  lemma UnreadSinceOpen(s: Sys, v: nat, events: seq<Event>)
    requires Inv(s) && v < |s.db.conversations| && Open(v) !in events
    ensures
      var t := Exec(Next(s, Open(v)), events);
      && v < |t.db.conversations|
      && t.db.conversations[v].unread == StoredSince(t.db.messages, v, |s.db.messages|)
  {
    var after := Next(s, Open(v));
    NextKeepsInv(s, Open(v));
    ExecKeepsInv(after, events);
    ResetStays(after, v, events);
  }

  /** A conversation nobody has opened counts all its messages. */
  lemma UnreadWhenNeverOpened(events: seq<Event>, v: nat)
    requires v < |Exec(EMPTY, events).db.conversations| && Open(v) !in events
    ensures
      var t := Exec(EMPTY, events);
      t.db.conversations[v].unread == StoredSince(t.db.messages, v, 0)
  {
    EmptyIsGood();
    ExecKeepsInv(EMPTY, events);
    CreatedEmpty(EMPTY, events, v);
  }

  lemma {:induction false} NoneBefore(messages: seq<Message>, v: nat, from: nat)
    requires from <= |messages| && forall i | 0 <= i < from :: messages[i].conversationId != v
    ensures StoredSince(messages, v, 0) == StoredSince(messages, v, from)
    decreases messages
  {
    if messages != [] {
      var n := |messages| - 1;
      if from <= n {
        NoneBefore(messages[..n], v, from);
      } else {
        NoneBefore(messages[..n], v, n);
        NothingSince(messages[..n], v);
      }
    }
  }

  lemma {:induction false} CreatedEmpty(s: Sys, events: seq<Event>, v: nat)
    requires Inv(s) && Open(v) !in events && v < |Exec(s, events).db.conversations|
    requires v < |s.resetAt| ==> StoredSince(s.db.messages, v, 0) == StoredSince(s.db.messages, v, s.resetAt[v])
    ensures Inv(Exec(s, events))
    ensures
      var t := Exec(s, events);
      StoredSince(t.db.messages, v, 0) == StoredSince(t.db.messages, v, t.resetAt[v])
    decreases events
  {
    if events != [] {
      assert events[0] in events;
      NextKeepsInv(s, events[0]);
      CreatedEmptyStep(s, events[0], v);
      CreatedEmpty(Next(s, events[0]), events[1..], v);
    }
  }

  lemma CreatedEmptyStep(s: Sys, e: Event, v: nat)
    requires Inv(s) && Inv(Next(s, e)) && e != Open(v)
    requires v < |s.resetAt| ==> StoredSince(s.db.messages, v, 0) == StoredSince(s.db.messages, v, s.resetAt[v])
    ensures
      var t := Next(s, e);
      v < |t.resetAt| ==> StoredSince(t.db.messages, v, 0) == StoredSince(t.db.messages, v, t.resetAt[v])
  {
    if e.Step? && e.call < |s.calls| && Running(s.calls[e.call]) {
      AdvanceCreatesEmpty(s, e.call, v);
    }
  }

  lemma AdvanceCreatesEmpty(s: Sys, k: nat, v: nat)
    requires k < |s.calls| && Running(s.calls[k]) && Inv(s)
    requires v < |s.resetAt| ==> StoredSince(s.db.messages, v, 0) == StoredSince(s.db.messages, v, s.resetAt[v])
    ensures
      var t := Next(s, Step(k));
      v < |t.resetAt| ==> StoredSince(t.db.messages, v, 0) == StoredSince(t.db.messages, v, t.resetAt[v])
  {
    var db := Advance(s.db, s.calls[k]).0;
    assert CallInv(s.db, s.calls[k]);
    if |db.messages| > |s.db.messages| {
      assert db.messages[..|s.db.messages|] == s.db.messages;
      if v < |s.resetAt| {
        OneMoreSince(db.messages, v, 0);
        OneMoreSince(db.messages, v, s.resetAt[v]);
      }
    } else {
      assert db.messages == s.db.messages;
      if v == |s.resetAt| { NoneBefore(db.messages, v, |db.messages|); }
    }
  }

  lemma OneMoreSince(messages: seq<Message>, v: nat, from: nat)
    requires from < |messages|
    ensures
      var n := |messages| - 1;
      StoredSince(messages, v, from)
        == StoredSince(messages[..n], v, from) + if messages[n].conversationId == v then 1 else 0
  {
  }

  // ----- when a call fails -----

  /** A step ends a call early exactly when another call has added the sender's contact or conversation since
      this one looked, or its message has an empty id under which one was stored before. */
  lemma FailsIff(db: Db, c: Call)
    requires Running(c) && CallInv(db, c)
    ensures Advance(db, c).1.pc.Failed? <==>
      || (c.pc.AddingContact? && ContactOf(db.contacts, c.userId, c.batch[c.at].from).Some?)
      || (c.pc.AddingConversation? && ConversationOf(db.conversations, c.pc.contact).Some?)
      || (c.pc.LookingUp? && Holder(db.messages, c.userId, c.batch[c.at].key).Some?
          && !Identifies(c.batch[c.at].key))
  {
  }

  /** The sender has written to this owner before. */
  predicate Known(db: Db, userId: nat, handle: Handle) {
    var contact := ContactOf(db.contacts, userId, handle);
    contact.Some? && ConversationOf(db.conversations, contact.value).Some?
  }

  /** What remains of the payload carries ids and comes from known senders. */
  predicate Safe(db: Db, c: Call) {
    && c.at <= |c.batch|
    && (forall i | c.at <= i < |c.batch| :: Identifies(c.batch[i].key) && Known(db, c.userId, c.batch[i].from))
    && !c.pc.AddingContact? && !c.pc.AddingConversation? && !c.pc.Failed? && !c.pc.Lost?
    && (c.pc.FindingConversation? || c.pc.Storing? ==>
      c.at < |c.batch| && Some(c.pc.contact) == ContactOf(db.contacts, c.userId, c.batch[c.at].from))
    && (c.pc.LookingUp? ==> c.at < |c.batch| && StoredIn(db, c.userId, c.batch[c.at].key))
  }

  lemma GrowthKeepsSafe(a: Db, b: Db, c: Call)
    requires Grows(a, b) && Safe(a, c)
    ensures Safe(b, c)
  {
    forall handle | ContactOf(a.contacts, c.userId, handle).Some?
      ensures ContactOf(b.contacts, c.userId, handle) == ContactOf(a.contacts, c.userId, handle)
    {
      SameFirstContact(a.contacts, b.contacts, c.userId, handle);
    }
    forall contact | ConversationOf(a.conversations, contact).Some?
      ensures ConversationOf(b.conversations, contact).Some?
    {
      var v := ConversationOf(a.conversations, contact).value;
      assert b.conversations[v].contactId == contact;
    }
    if c.pc.LookingUp? {
      var m := Holder(a.messages, c.userId, c.batch[c.at].key).value;
      assert b.messages[m] == a.messages[m];
    }
  }

  lemma SameFirstContact(a: seq<Contact>, b: seq<Contact>, userId: nat, handle: Handle)
    requires a <= b && ContactOf(a, userId, handle).Some?
    ensures ContactOf(b, userId, handle) == ContactOf(a, userId, handle)
  {
    FirstOfPrefix(a, b, (c: Contact) => c.userId == userId && c.handle == handle);
  }

  lemma {:induction false} FirstOfPrefix<T>(a: seq<T>, b: seq<T>, p: T -> bool)
    requires a <= b && First(a, p).Some?
    ensures First(b, p) == First(a, p)
    decreases a
  {
    if a != [] {
      assert a[0] == b[0];
      if !p(a[0]) {
        assert a[1..] <= b[1..];
        FirstOfPrefix(a[1..], b[1..], p);
      }
    }
  }

  /** A payload of identified messages from known senders never fails, whoever races it. */
  lemma SafeStepStaysSafe(db: Db, c: Call)
    requires Running(c) && CallInv(db, c) && Safe(db, c)
    ensures Safe(Advance(db, c).0, Advance(db, c).1)
  {
    AdvanceGrows(db, c);
    GrowthKeepsSafe(db, Advance(db, c).0, c);
    SafeGoesOn(Advance(db, c).0, c);
    assert Known(db, c.userId, c.batch[c.at].from);
  }

  lemma SafeGoesOn(db: Db, c: Call)
    requires Safe(db, c) && c.at < |c.batch|
    ensures Safe(db, Begin(c, c.at + 1))
  {
  }

  /** Over any run in which it does not crash itself, such a call stays on its way or finishes. */
  lemma {:induction false} SafeCallsNeverFail(s: Sys, k: nat, events: seq<Event>)
    requires Inv(s) && k < |s.calls| && Safe(s.db, s.calls[k]) && Crash(k) !in events
    ensures k < |Exec(s, events).calls| && Safe(Exec(s, events).db, Exec(s, events).calls[k])
    decreases events
  {
    if events != [] {
      var e, t := events[0], Next(s, events[0]);
      assert e in events;
      NextKeepsInv(s, e);
      SafeThroughStep(s, k, e);
      SafeCallsNeverFail(t, k, events[1..]);
    }
  }

  lemma SafeThroughStep(s: Sys, k: nat, e: Event)
    requires Inv(s) && k < |s.calls| && Safe(s.db, s.calls[k]) && e != Crash(k)
    ensures k < |Next(s, e).calls| && Safe(Next(s, e).db, Next(s, e).calls[k])
  {
    if e == Step(k) {
      assert CallInv(s.db, s.calls[k]);
      if Running(s.calls[k]) { SafeStepStaysSafe(s.db, s.calls[k]); }
    } else {
      NextGrows(s, e, k);
      GrowthKeepsSafe(s.db, Next(s, e).db, s.calls[k]);
    }
  }

  lemma NextGrows(s: Sys, e: Event, k: nat)
    requires Inv(s) && k < |s.calls|
    ensures Grows(s.db, Next(s, e).db) && k < |Next(s, e).calls|
    ensures e != Step(k) && e != Crash(k) ==> Next(s, e).calls[k] == s.calls[k]
  {
    if e.Step? && e.call < |s.calls| && Running(s.calls[e.call]) {
      assert CallInv(s.db, s.calls[e.call]);
      AdvanceGrows(s.db, s.calls[e.call]);
    }
  }

  /** How many steps a call has left at most. */
  function Rank(c: Call): nat {
    if !Running(c) then 0
    else 7 * (|c.batch| - c.at - 1) + match c.pc
      case Checking => 7
      case FindingContact => 6
      case AddingContact => 5
      case FindingConversation(_) => 4
      case AddingConversation(_) => 3
      case Storing(_, _) => 2
      case _ => 1
  }

  /** A call takes at most seven statements a message. */
  lemma EveryStepCounts(db: Db, c: Call)
    requires Running(c)
    ensures Rank(Advance(db, c).1) < Rank(c) <= 7 * (|c.batch| - c.at)
  {
  }

  // ----- a call that runs alone -----

  function RunAlone(db: Db, c: Call): (Db, Call)
    decreases Rank(c)
  {
    if !Running(c) then (db, c)
    else
      EveryStepCounts(db, c);
      RunAlone(Advance(db, c).0, Advance(db, c).1)
  }

  lemma AloneOnce(db: Db, c: Call)
    requires Running(c)
    ensures RunAlone(db, c) == RunAlone(Advance(db, c).0, Advance(db, c).1)
  {
  }

  lemma AloneToStoring(db: Db, c: Call)
    requires Running(c) && c.pc.FindingContact?
    ensures
      var item := c.batch[c.at];
      var db1 := WithContact(db, c.userId, item);
      var contact := ContactOf(db1.contacts, c.userId, item.from).value;
      var db2 := WithConversation(db1, c.userId, contact);
      RunAlone(db, c) == RunAlone(db2, c.(pc := Storing(contact, ConversationOf(db2.conversations, contact).value)))
  {
    AloneToContact(db, c);
    var db1 := WithContact(db, c.userId, c.batch[c.at]);
    var contact := ContactOf(db1.contacts, c.userId, c.batch[c.at].from).value;
    AloneToConversation(db1, c.(pc := FindingConversation(contact)));
  }

  lemma AloneToContact(db: Db, c: Call)
    requires Running(c) && c.pc.FindingContact?
    ensures
      var db1 := WithContact(db, c.userId, c.batch[c.at]);
      var contact := ContactOf(db1.contacts, c.userId, c.batch[c.at].from).value;
      RunAlone(db, c) == RunAlone(db1, c.(pc := FindingConversation(contact)))
  {
    AloneOnce(db, c);
    var next := Advance(db, c).1;
    if next.pc.AddingContact? { AloneOnce(db, next); }
  }

  lemma AloneToConversation(db: Db, c: Call)
    requires Running(c) && c.pc.FindingConversation?
    ensures
      var contact := c.pc.contact;
      var db2 := WithConversation(db, c.userId, contact);
      RunAlone(db, c) == RunAlone(db2, c.(pc := Storing(contact, ConversationOf(db2.conversations, contact).value)))
  {
    AloneOnce(db, c);
    var next := Advance(db, c).1;
    if next.pc.AddingConversation? { AloneOnce(db, next); }
  }

  lemma AloneOneMessage(db: Db, c: Call)
    requires Running(c) && c.pc.Checking?
    ensures
      var one := ReceiveOne(db, c.userId, c.batch[c.at]);
      RunAlone(db, c) == if one.ok then RunAlone(one.db, Begin(c, c.at + 1)) else (one.db, c.(pc := Failed))
  {
    var item := c.batch[c.at];
    AloneOnce(db, c);
    if FindMessage(db.messages, c.userId, item.key).None? {
      AloneToStoring(db, c.(pc := FindingContact));
      var db1 := WithContact(db, c.userId, item);
      var contact := ContactOf(db1.contacts, c.userId, item.from).value;
      var db2 := WithConversation(db1, c.userId, contact);
      var c3 := c.(pc := Storing(contact, ConversationOf(db2.conversations, contact).value));
      AloneFromStoring(db2, c3);
    }
  }

  lemma AloneFromStoring(db: Db, c: Call)
    requires Running(c) && c.pc.Storing? && c.pc.conversation < |db.conversations|
    requires FindMessage(db.messages, c.userId, c.batch[c.at].key).None?
    ensures
      var item := c.batch[c.at];
      RunAlone(db, c) ==
        if Holder(db.messages, c.userId, item.key).Some? then (db, c.(pc := Failed))
        else
          var db3 := Insert(db, Message(c.userId, c.pc.contact, c.pc.conversation, item.content, item.key));
          RunAlone(db3.(queue := db3.queue + [|db.messages|]), Begin(c, c.at + 1))
  {
    AloneOnce(db, c);
    AloneOnce(Advance(db, c).0, Advance(db, c).1);
  }

  /** A call that runs alone does to the tables what the webhook loop does, and fails when it does. */
  lemma {:induction false} AloneIsReceive(db: Db, c: Call)
    requires c.at <= |c.batch| && c == Begin(c, c.at)
    ensures RunAlone(db, c).0 == Receive(db, c.userId, c.batch[c.at..]).db
    ensures RunAlone(db, c).1.pc == if Receive(db, c.userId, c.batch[c.at..]).ok then Finished else Failed
    decreases |c.batch| - c.at
  {
    if c.at < |c.batch| {
      AloneOneMessage(db, c);
      var one := ReceiveOne(db, c.userId, c.batch[c.at]);
      assert c.batch[c.at..][0] == c.batch[c.at] && c.batch[c.at..][1..] == c.batch[c.at + 1..];
      if one.ok { AloneIsReceive(one.db, Begin(c, c.at + 1)); }
    }
  }

  // ----- two first messages -----

  lemma ExecHead(s: Sys, e: Event, events: seq<Event>)
    ensures Exec(s, [e] + events) == Exec(Next(s, e), events)
  {
    assert ([e] + events)[1..] == events;
  }

  function Race(userId: nat, a: Inbound, b: Inbound): seq<Event> {
    [Deliver(userId, [a])] + ([Deliver(userId, [b])] + BothLook())
  }

  /** Both calls look for the contact before either adds it; then each tries, and the first runs on. */
  function BothLook(): seq<Event> {
    [Step(0)] + ([Step(1)] + ([Step(0)] + ([Step(1)] + BothAdd())))
  }

  function FirstRunsOn(): seq<Event> { [Step(0)] + ([Step(0)] + ([Step(0)] + ([Step(0)] + []))) }

  /** Two different messages from a new sender, delivered at the same time: the second call fails on the contact
      the first has just added, and when all is done only the first message is stored. */
  lemma FirstMessagesRace(userId: nat, a: Inbound, b: Inbound)
    requires a.from == b.from && Identifies(a.key) && Identifies(b.key) && a.key != b.key
    ensures
      var t := Exec(EMPTY, Race(userId, a, b));
      && t.calls == [Call(userId, [a], 1, Finished), Call(userId, [b], 0, Failed)]
      && t.db.messages == [Message(userId, 0, 0, a.content, a.key)] && t.db.queue == [0]
  {
    var none, one := Db([], [], [], []), Db([NewContact(userId, a)], [], [], []);
    var c0, c1 := Call(userId, [a], 0, Checking), Call(userId, [b], 0, Checking);
    assert EMPTY.calls + [c0] == [c0] && [c0] + [c1] == [c0, c1];
    ExecHead(EMPTY, Deliver(userId, [a]), [Deliver(userId, [b])] + BothLook());
    ExecHead(Sys(none, [c0], []), Deliver(userId, [b]), BothLook());
    RaceLooks(userId, a, b);
    RaceAdds(userId, a, b, FirstRunsOn());
    RaceRunsOn(userId, a, b);
  }

  function BothAdd(): seq<Event> { [Step(0)] + ([Step(1)] + FirstRunsOn()) }

  lemma RaceLooks(userId: nat, a: Inbound, b: Inbound)
    requires Identifies(a.key) && Identifies(b.key)
    ensures
      var c0, c1 := Call(userId, [a], 0, Checking), Call(userId, [b], 0, Checking);
      Exec(Sys(EMPTY.db, [c0, c1], []), BothLook())
        == Exec(Sys(EMPTY.db, [c0.(pc := AddingContact), c1.(pc := AddingContact)], []), BothAdd())
  {
    var none := Db([], [], [], []);
    var c0, c1 := Call(userId, [a], 0, Checking), Call(userId, [b], 0, Checking);
    var d0, d1 := c0.(pc := FindingContact), c1.(pc := FindingContact);
    FirstSteps(none, c0, c1, [Step(1)] + ([Step(0)] + ([Step(1)] + BothAdd())));
    SecondSteps(none, d0, c1, [Step(0)] + ([Step(1)] + BothAdd()));
    FirstSteps(none, d0, d1, [Step(1)] + BothAdd());
    SecondSteps(none, c0.(pc := AddingContact), d1, BothAdd());
  }

  lemma RaceAdds(userId: nat, a: Inbound, b: Inbound, rest: seq<Event>)
    requires a.from == b.from
    ensures
      var c0, c1 := Call(userId, [a], 0, AddingContact), Call(userId, [b], 0, AddingContact);
      var one := Db([NewContact(userId, a)], [], [], []);
      Exec(Sys(EMPTY.db, [c0, c1], []), [Step(0)] + ([Step(1)] + rest))
        == Exec(Sys(one, [c0.(pc := FindingConversation(0)), c1.(pc := Failed)], []), rest)
  {
    var none, one := Db([], [], [], []), Db([NewContact(userId, a)], [], [], []);
    var c0, c1 := Call(userId, [a], 0, AddingContact), Call(userId, [b], 0, AddingContact);
    FirstSteps(none, c0, c1, [Step(1)] + rest);
    assert none.contacts + [NewContact(userId, a)] == one.contacts;
    SecondIsRefused(userId, a, b);
    SecondSteps(one, c0.(pc := FindingConversation(0)), c1, rest);
  }

  lemma SecondIsRefused(userId: nat, a: Inbound, b: Inbound)
    requires a.from == b.from
    ensures
      var c1, one := Call(userId, [b], 0, AddingContact), Db([NewContact(userId, a)], [], [], []);
      Advance(one, c1) == (one, c1.(pc := Failed))
  {
    assert [NewContact(userId, a)][0].handle == b.from;
  }

  lemma FirstSteps(db: Db, c: Call, d: Call, events: seq<Event>)
    requires Running(c) && Advance(db, c).0.conversations == db.conversations
    ensures Exec(Sys(db, [c, d], []), [Step(0)] + events)
         == Exec(Sys(Advance(db, c).0, [Advance(db, c).1, d], []), events)
  {
    ExecHead(Sys(db, [c, d], []), Step(0), events);
    assert [c, d][0 := Advance(db, c).1] == [Advance(db, c).1, d];
  }

  lemma SecondSteps(db: Db, c: Call, d: Call, events: seq<Event>)
    requires Running(d) && Advance(db, d).0.conversations == db.conversations
    ensures Exec(Sys(db, [c, d], []), [Step(1)] + events)
         == Exec(Sys(Advance(db, d).0, [c, Advance(db, d).1], []), events)
  {
    ExecHead(Sys(db, [c, d], []), Step(1), events);
    assert [c, d][1 := Advance(db, d).1] == [c, Advance(db, d).1];
  }

  /** The tables with the first sender's conversation, and then with the message in it. */
  function WithThread(userId: nat, a: Inbound): Db { Db([NewContact(userId, a)], [Conversation(userId, 0, 0)], [], []) }

  function WithMessage(userId: nat, a: Inbound): Db {
    Db([NewContact(userId, a)], [Conversation(userId, 0, 1)], [Message(userId, 0, 0, a.content, a.key)], [])
  }

  lemma LooksForConversation(userId: nat, a: Inbound, d: Call, rest: seq<Event>)
    ensures
      var c, one := Call(userId, [a], 0, FindingConversation(0)), Db([NewContact(userId, a)], [], [], []);
      Exec(Sys(one, [c, d], []), [Step(0)] + rest) == Exec(Sys(one, [c.(pc := AddingConversation(0)), d], []), rest)
  {
    var c, one := Call(userId, [a], 0, FindingConversation(0)), Db([NewContact(userId, a)], [], [], []);
    assert Advance(one, c) == (one, c.(pc := AddingConversation(0)));
    FirstSteps(one, c, d, rest);
  }

  lemma AddsConversation(userId: nat, a: Inbound, d: Call, rest: seq<Event>)
    ensures
      var c, one := Call(userId, [a], 0, AddingConversation(0)), Db([NewContact(userId, a)], [], [], []);
      Exec(Sys(one, [c, d], []), [Step(0)] + rest)
        == Exec(Sys(WithThread(userId, a), [c.(pc := Storing(0, 0)), d], [0]), rest)
  {
    var c, one := Call(userId, [a], 0, AddingConversation(0)), Db([NewContact(userId, a)], [], [], []);
    var next := c.(pc := Storing(0, 0));
    assert one.conversations + [Conversation(userId, 0, 0)] == WithThread(userId, a).conversations;
    assert Advance(one, c) == (WithThread(userId, a), next);
    assert [c, d][0 := next] == [next, d] && [] + [0] == [0];
    assert Next(Sys(one, [c, d], []), Step(0)) == Sys(WithThread(userId, a), [next, d], [0]);
    ExecHead(Sys(one, [c, d], []), Step(0), rest);
  }

  lemma StoresMessage(userId: nat, a: Inbound, d: Call, rest: seq<Event>)
    ensures
      var c := Call(userId, [a], 0, Storing(0, 0));
      Exec(Sys(WithThread(userId, a), [c, d], [0]), [Step(0)] + rest)
        == Exec(Sys(WithMessage(userId, a), [c.(pc := Queuing(0)), d], [0]), rest)
  {
    var c := Call(userId, [a], 0, Storing(0, 0));
    var next := c.(pc := Queuing(0));
    var before, after := WithThread(userId, a), WithMessage(userId, a);
    assert before.conversations[0 := Conversation(userId, 0, 1)] == after.conversations;
    assert before.messages + [Message(userId, 0, 0, a.content, a.key)] == after.messages;
    assert Advance(before, c) == (after, next);
    assert [c, d][0 := next] == [next, d];
    ExecHead(Sys(WithThread(userId, a), [c, d], [0]), Step(0), rest);
  }

  lemma QueuesMessage(userId: nat, a: Inbound, d: Call, rest: seq<Event>)
    ensures
      var c := Call(userId, [a], 0, Queuing(0));
      Exec(Sys(WithMessage(userId, a), [c, d], [0]), [Step(0)] + rest)
        == Exec(Sys(WithMessage(userId, a).(queue := [0]), [Call(userId, [a], 1, Finished), d], [0]), rest)
  {
    var c, next := Call(userId, [a], 0, Queuing(0)), Call(userId, [a], 1, Finished);
    assert WithMessage(userId, a).queue + [0] == [0];
    assert Advance(WithMessage(userId, a), c) == (WithMessage(userId, a).(queue := [0]), next);
    assert [c, d][0 := next] == [next, d];
    ExecHead(Sys(WithMessage(userId, a), [c, d], [0]), Step(0), rest);
  }

  lemma RaceRunsOn(userId: nat, a: Inbound, b: Inbound)
    ensures
      var c, failed := Call(userId, [a], 0, FindingConversation(0)), Call(userId, [b], 0, Failed);
      var t := Exec(Sys(Db([NewContact(userId, a)], [], [], []), [c, failed], []), FirstRunsOn());
      && t.calls == [Call(userId, [a], 1, Finished), failed]
      && t.db.messages == [Message(userId, 0, 0, a.content, a.key)] && t.db.queue == [0]
  {
    var failed := Call(userId, [b], 0, Failed);
    LooksForConversation(userId, a, failed, [Step(0)] + ([Step(0)] + ([Step(0)] + [])));
    AddsConversation(userId, a, failed, [Step(0)] + ([Step(0)] + []));
    StoresMessage(userId, a, failed, [Step(0)] + []);
    QueuesMessage(userId, a, failed, []);
  }
}
