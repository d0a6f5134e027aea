/**
 * The inbox tables and what a webhook call does to them when it runs alone.  Row ids are the
 * autoincrement ids, so the row with id `i` is element `i` of its table.
 */
module Inbox {
  import opened Wrappers

  /** What identifies a sender to the owner: the digits of a phone number, or an Instagram scoped id. */
  datatype Handle = Phone(digits: string) | Instagram(scopedId: string)

  /** The provider's message id, in the column of its channel. */
  datatype Key = Wa(text: string) | External(text: string)

  datatype Contact = Contact(userId: nat, handle: Handle, name: Option<string>)

  datatype Conversation = Conversation(userId: nat, contactId: nat, unread: nat)

  datatype Message = Message(userId: nat, contactId: nat, conversationId: nat, content: string, key: Option<Key>)

  /** One message of a webhook payload. */
  datatype Inbound = Inbound(from: Handle, name: Option<string>, content: string, key: Option<Key>)

  datatype Db = Db(
    contacts: seq<Contact>, conversations: seq<Conversation>, messages: seq<Message>, queue: seq<nat>)

  datatype Stored = Stored(message: nat, isNew: bool)

  datatype Error = DuplicateKey

  // ----- lookups and unique keys -----

  /** The first row that satisfies `p`. */
  function First<T>(rows: seq<T>, p: T -> bool): (r: Option<nat>)
    ensures r.Some? ==> r.value < |rows| && p(rows[r.value]) && forall i | 0 <= i < r.value :: !p(rows[i])
    ensures r.None? ==> forall i | 0 <= i < |rows| :: !p(rows[i])
  {
    if rows == [] then None
    else if p(rows[0]) then Some(0)
    else
      var r := First(rows[1..], p);
      if r.None? then None else Some(r.value + 1)
  }

  function ContactOf(contacts: seq<Contact>, userId: nat, handle: Handle): (r: Option<nat>)
    ensures r.Some? ==> r.value < |contacts| && contacts[r.value].userId == userId && contacts[r.value].handle == handle
    ensures r.None? <==>
      forall i | 0 <= i < |contacts| :: !(contacts[i].userId == userId && contacts[i].handle == handle)
  {
    First(contacts, (c: Contact) => c.userId == userId && c.handle == handle)
  }

  function ConversationOf(conversations: seq<Conversation>, contactId: nat): (r: Option<nat>)
    ensures r.Some? ==> r.value < |conversations| && conversations[r.value].contactId == contactId
    ensures r.None? <==> forall i | 0 <= i < |conversations| :: conversations[i].contactId != contactId
  {
    First(conversations, (c: Conversation) => c.contactId == contactId)
  }

  /** The unique index on (userId, key); rows without a key never clash. */
  function Holder(messages: seq<Message>, userId: nat, key: Option<Key>): (r: Option<nat>)
    ensures r.Some? ==>
      key.Some? && r.value < |messages| && messages[r.value].userId == userId && messages[r.value].key == key
    ensures r.None? <==>
      key.None? || forall i | 0 <= i < |messages| :: !(messages[i].userId == userId && messages[i].key == key)
  {
    if key.None? then None else First(messages, (m: Message) => m.userId == userId && m.key == key)
  }

  /** A key the lookups accept: they answer nothing for a missing or an empty id. */
  predicate Identifies(key: Option<Key>) { key.Some? && key.value.text != "" }

  /** `findMessageByWaId` and `findMessageByExternalId`. */
  function FindMessage(messages: seq<Message>, userId: nat, key: Option<Key>): (r: Option<nat>)
    ensures r.Some? <==> Identifies(key) && Holder(messages, userId, key).Some?
    ensures r.Some? ==>
      r.value < |messages| && messages[r.value].userId == userId && messages[r.value].key == key
  {
    if Identifies(key) then Holder(messages, userId, key) else None
  }

  // ----- one message, one payload -----

  function NewContact(userId: nat, item: Inbound): Contact {
    Contact(userId, item.from,
      if item.name.Some? || item.from.Instagram? then item.name else Some(item.from.digits))
  }

  /** The row `storeIncomingMessage` creates, and its conversation with one more unread. */
  function Insert(db: Db, m: Message): Db
    requires m.conversationId < |db.conversations|
  {
    var c := db.conversations[m.conversationId];
    db.(messages := db.messages + [m],
        conversations := db.conversations[m.conversationId := c.(unread := c.unread + 1)])
  }

  function WithContact(db: Db, userId: nat, item: Inbound): (r: Db)
    ensures ContactOf(r.contacts, userId, item.from).Some?
  {
    if ContactOf(db.contacts, userId, item.from).Some? then db
    else
      var r := db.(contacts := db.contacts + [NewContact(userId, item)]);
      assert r.contacts[|db.contacts|] == NewContact(userId, item);
      r
  }

  function WithConversation(db: Db, userId: nat, contactId: nat): (r: Db)
    ensures ConversationOf(r.conversations, contactId).Some?
  {
    if ConversationOf(db.conversations, contactId).Some? then db
    else
      var r := db.(conversations := db.conversations + [Conversation(userId, contactId, 0)]);
      assert r.conversations[|db.conversations|].contactId == contactId;
      r
  }

  datatype Outcome = Outcome(db: Db, ok: bool)

  /** One message of a payload, from the duplicate check to the queue. */
  function ReceiveOne(db: Db, userId: nat, item: Inbound): Outcome {
    if FindMessage(db.messages, userId, item.key).Some? then Outcome(db, true)
    else
      var db1 := WithContact(db, userId, item);
      var contact := ContactOf(db1.contacts, userId, item.from).value;
      var db2 := WithConversation(db1, userId, contact);
      var conversation := ConversationOf(db2.conversations, contact).value;
      if Holder(db2.messages, userId, item.key).Some? then Outcome(db2, false)
      else
        var db3 := Insert(db2, Message(userId, contact, conversation, item.content, item.key));
        Outcome(db3.(queue := db3.queue + [|db2.messages|]), true)
  }

  /** A whole payload: an error abandons the messages after it. */
  function Receive(db: Db, userId: nat, batch: seq<Inbound>): Outcome
    decreases batch
  {
    if batch == [] then Outcome(db, true)
    else
      var one := ReceiveOne(db, userId, batch[0]);
      if one.ok then Receive(one.db, userId, batch[1..]) else one
  }

  /** Every message carries an id the duplicate check can find. */
  predicate AllIdentified(batch: seq<Inbound>) { forall i | 0 <= i < |batch| :: Identifies(batch[i].key) }

  predicate StoredIn(db: Db, userId: nat, key: Option<Key>) { Holder(db.messages, userId, key).Some? }

  lemma OneOnlyAdds(db: Db, userId: nat, item: Inbound, key: Option<Key>)
    ensures StoredIn(db, userId, key) ==> StoredIn(ReceiveOne(db, userId, item).db, userId, key)
    ensures |db.messages| <= |ReceiveOne(db, userId, item).db.messages|
    ensures Identifies(item.key) ==>
      ReceiveOne(db, userId, item).ok && StoredIn(ReceiveOne(db, userId, item).db, userId, item.key)
  {
    var after := ReceiveOne(db, userId, item).db;
    assert forall i | 0 <= i < |db.messages| :: after.messages[i] == db.messages[i];
    if |after.messages| > |db.messages| { assert after.messages[|db.messages|].key == item.key; }
    if StoredIn(db, userId, key) {
      assert after.messages[Holder(db.messages, userId, key).value].key == key;
    }
  }

  lemma {:induction false} ReceiveOnlyAdds(db: Db, userId: nat, batch: seq<Inbound>, key: Option<Key>)
    ensures StoredIn(db, userId, key) ==> StoredIn(Receive(db, userId, batch).db, userId, key)
    ensures |db.messages| <= |Receive(db, userId, batch).db.messages|
    decreases batch
  {
    if batch != [] {
      OneOnlyAdds(db, userId, batch[0], key);
      var one := ReceiveOne(db, userId, batch[0]);
      if one.ok { ReceiveOnlyAdds(one.db, userId, batch[1..], key); }
    }
  }

  /** A payload that is processed to its end leaves every one of its ids stored. */
  lemma {:induction false} ReceiveStoresAll(db: Db, userId: nat, batch: seq<Inbound>, i: nat)
    requires Receive(db, userId, batch).ok && i < |batch| && batch[i].key.Some?
    ensures StoredIn(Receive(db, userId, batch).db, userId, batch[i].key)
    decreases batch
  {
    var one := ReceiveOne(db, userId, batch[0]);
    if i == 0 {
      assert StoredIn(one.db, userId, batch[0].key) by {
        OneOnlyAdds(db, userId, batch[0], batch[0].key);
        if |one.db.messages| > |db.messages| { assert one.db.messages[|db.messages|].key == batch[0].key; }
      }
      ReceiveOnlyAdds(one.db, userId, batch[1..], batch[0].key);
    } else {
      ReceiveStoresAll(one.db, userId, batch[1..], i - 1);
    }
  }

  lemma {:induction false} KnownPayloadIsSilentIff(db: Db, userId: nat, batch: seq<Inbound>)
    requires forall i | 0 <= i < |batch| && batch[i].key.Some? :: StoredIn(db, userId, batch[i].key)
    ensures Receive(db, userId, batch) == Outcome(db, true) <==> AllIdentified(batch)
    decreases batch
  {
    if batch != [] {
      var one := ReceiveOne(db, userId, batch[0]);
      if Identifies(batch[0].key) {
        assert one == Outcome(db, true);
        KnownPayloadIsSilentIff(db, userId, batch[1..]);
        assert AllIdentified(batch) <==> AllIdentified(batch[1..]);
      } else if one.ok {
        assert |one.db.messages| > |db.messages|;
        ReceiveOnlyAdds(one.db, userId, batch[1..], None);
      }
    }
  }

  /** A retry of a payload that went through changes nothing and queues nothing exactly when every message
      carries a non-empty id: one without an id is stored again, and one with an empty id fails the retry. */
  lemma RetryIsSilentIff(db: Db, userId: nat, batch: seq<Inbound>)
    requires Receive(db, userId, batch).ok
    ensures
      var after := Receive(db, userId, batch).db;
      Receive(after, userId, batch) == Outcome(after, true) <==> AllIdentified(batch)
  {
    var after := Receive(db, userId, batch).db;
    forall i | 0 <= i < |batch| && batch[i].key.Some? ensures StoredIn(after, userId, batch[i].key) {
      ReceiveStoresAll(db, userId, batch, i);
    }
    KnownPayloadIsSilentIff(after, userId, batch);
  }

  // ----- the rows of one message -----

  /** Conversations are of contacts that are there. */
  predicate Linked(db: Db) {
    forall i | 0 <= i < |db.conversations| :: db.conversations[i].contactId < |db.contacts|
  }

  /** The first message of a sender leaves one row in each table: a contact with the sender's name, or the phone number
      where there is none, a conversation with one unread message, the message, and its place in the queue. */
  lemma NewSenderLeaves(db: Db, userId: nat, item: Inbound)
    requires Linked(db) && ContactOf(db.contacts, userId, item.from).None?
    requires item.key.Some? ==> item.key.value.text != "" && Holder(db.messages, userId, item.key).None?
    ensures
      var one := ReceiveOne(db, userId, item);
      var name := if item.name.None? && item.from.Phone? then Some(item.from.digits) else item.name;
      && one.ok
      && one.db.contacts == db.contacts + [Contact(userId, item.from, name)]
      && one.db.conversations == db.conversations + [Conversation(userId, |db.contacts|, 1)]
      && one.db.messages
         == db.messages + [Message(userId, |db.contacts|, |db.conversations|, item.content, item.key)]
      && one.db.queue == db.queue + [|db.messages|]
  {
    var db1 := WithContact(db, userId, item);
    assert forall i | 0 <= i < |db.contacts| :: db1.contacts[i] == db.contacts[i];
    assert ContactOf(db1.contacts, userId, item.from) == Some(|db.contacts|);
    var db2 := WithConversation(db1, userId, |db.contacts|);
    assert forall i | 0 <= i < |db.conversations| :: db2.conversations[i] == db.conversations[i];
    assert ConversationOf(db2.conversations, |db.contacts|) == Some(|db.conversations|);
  }

  /** A later message of the sender adds itself, its place in the queue and one unread, and nothing else. */
  lemma KnownSenderAdds(db: Db, userId: nat, item: Inbound, contact: nat, conversation: nat)
    requires ContactOf(db.contacts, userId, item.from) == Some(contact)
    requires ConversationOf(db.conversations, contact) == Some(conversation)
    requires item.key.Some? ==> item.key.value.text != "" && Holder(db.messages, userId, item.key).None?
    ensures
      var one := ReceiveOne(db, userId, item);
      && one.ok && one.db.contacts == db.contacts && |one.db.conversations| == |db.conversations|
      && (forall i | 0 <= i < |db.conversations| :: one.db.conversations[i] ==
            db.conversations[i].(unread := db.conversations[i].unread + if i == conversation then 1 else 0))
      && one.db.messages == db.messages + [Message(userId, contact, conversation, item.content, item.key)]
      && one.db.queue == db.queue + [|db.messages|]
  {
  }

  // ----- the service -----

  class InboxService {
    var contacts: seq<Contact>
    var conversations: seq<Conversation>
    var messages: seq<Message>
    var queue: seq<nat>

    function Tables(): Db
      reads this
    {
      Db(contacts, conversations, messages, queue)
    }

    method FindOrCreateContact(userId: nat, item: Inbound) returns (contact: nat)
      modifies this`contacts
      ensures Tables() == WithContact(old(Tables()), userId, item)
      ensures Some(contact) == ContactOf(contacts, userId, item.from)
    {
      var existing := ContactOf(contacts, userId, item.from);
      if existing.Some? { return existing.value; }
      contacts := contacts + [NewContact(userId, item)];
      contact := |contacts| - 1;
      assert contacts[contact] == NewContact(userId, item);
    }

    method FindOrCreateConversation(userId: nat, contact: nat) returns (conversation: nat)
      modifies this`conversations
      ensures Tables() == WithConversation(old(Tables()), userId, contact)
      ensures Some(conversation) == ConversationOf(conversations, contact)
    {
      var existing := ConversationOf(conversations, contact);
      if existing.Some? { return existing.value; }
      conversations := conversations + [Conversation(userId, contact, 0)];
      conversation := |conversations| - 1;
      assert conversations[conversation].contactId == contact;
    }

    /** Stores the message unless its key is taken; a taken key answers with the row that holds it. */
    method StoreIncomingMessage(userId: nat, contact: nat, conversation: nat, content: string, key: Option<Key>)
      returns (r: Result<Stored, Error>)
      requires conversation < |conversations|
      modifies this`messages, this`conversations
      ensures Holder(old(messages), userId, key).None? ==>
        r == Ok(Stored(|old(messages)|, true))
        && Tables() == Insert(old(Tables()), Message(userId, contact, conversation, content, key))
      ensures Holder(old(messages), userId, key).Some? ==>
        Tables() == old(Tables())
        && (r == if Identifies(key) then Ok(Stored(Holder(messages, userId, key).value, false)) else Err(DuplicateKey))
    {
      if Holder(messages, userId, key).Some? {
        var existing := FindMessage(messages, userId, key);
        return if existing.Some? then Ok(Stored(existing.value, false)) else Err(DuplicateKey);
      }
      messages := messages + [Message(userId, contact, conversation, content, key)];
      var c := conversations[conversation];
      conversations := conversations[conversation := c.(unread := c.unread + 1)];
      r := Ok(Stored(|messages| - 1, true));
    }

    /** The loop of a webhook call over its messages. */
    method ReceivePayload(userId: nat, batch: seq<Inbound>) returns (ok: bool)
      modifies this
      ensures Outcome(Tables(), ok) == Receive(old(Tables()), userId, batch)
    {
      var i := 0;
      while i < |batch|
        invariant 0 <= i <= |batch|
        invariant Receive(Tables(), userId, batch[i..]) == Receive(old(Tables()), userId, batch)
      {
        var item := batch[i];
        ghost var before := Tables();
        assert batch[i..][0] == item && batch[i..][1..] == batch[i + 1..];
        var duplicate := FindMessage(messages, userId, item.key);
        if duplicate.None? {
          var contact := FindOrCreateContact(userId, item);
          var conversation := FindOrCreateConversation(userId, contact);
          var stored := StoreIncomingMessage(userId, contact, conversation, item.content, item.key);
          if stored.Err? { return false; }
          if stored.value.isNew { queue := queue + [stored.value.message]; }
        }
        assert ReceiveOne(before, userId, item) == Outcome(Tables(), true);
        i := i + 1;
      }
      ok := true;
    }
  }
}
