/** Conversations and their messages (conversations/models.py): creating a
    thread, stamping its `modified_at`, and the `post_save` receiver
    `touch_conversation_modified_at`, which stamps the parent conversation
    whenever a message row is created (not when one is re-saved). */
module ConversationModels {
  import opened Seqs
  import opened Models

  /** One row after stamping conversation `cid` with time `now`. */
  function Touched(c: Conversation, cid: nat, now: nat): (c': Conversation)
    ensures c'.id == c.id && c'.listing == c.listing && c'.members == c.members && c'.createdAt == c.createdAt
    ensures c.id != cid ==> c' == c
    ensures c.id == cid ==> c'.modifiedAt == now
  {
    if c.id == cid then c.(modifiedAt := now) else c
  }

  /** `conversation.save()` or `save(update_fields=['modified_at'])`: only
      `modified_at` is written (`auto_now`), and only on that conversation. */
  function Touch(st: Store, cid: nat): (r: Store)
    ensures r.clock == st.clock + 1
    ensures r == st.(conversations := r.conversations, clock := r.clock)
    ensures |r.conversations| == |st.conversations|
    ensures forall i :: 0 <= i < |st.conversations| ==>
      r.conversations[i] == Touched(st.conversations[i], cid, r.clock)
  {
    var now := st.clock + 1;
    st.(conversations := Map(st.conversations, (c: Conversation) => Touched(c, cid, now)), clock := now)
  }

  lemma TouchIds(st: Store, cid: nat)
    ensures ConversationIds(Touch(st, cid)) == ConversationIds(st)
  {
    var r := Touch(st, cid);
    forall x | x in ConversationIds(r) ensures x in ConversationIds(st) {
      var c' :| c' in r.conversations && c'.id == x;
      var i :| 0 <= i < |r.conversations| && r.conversations[i] == c';
      assert st.conversations[i] in st.conversations;
    }
    forall x | x in ConversationIds(st) ensures x in ConversationIds(r) {
      var c :| c in st.conversations && c.id == x;
      var i :| 0 <= i < |st.conversations| && st.conversations[i] == c;
      assert r.conversations[i] in r.conversations;
    }
  }

  lemma TouchConversationsOk(st: Store, cid: nat)
    requires ConversationsOk(st)
    ensures ConversationsOk(Touch(st, cid))
  {
    var r := Touch(st, cid);
    TouchIds(st, cid);
    forall c', d' | c' in r.conversations && d' in r.conversations && c'.id == d'.id
      ensures c' == d'
    {
      var i :| 0 <= i < |r.conversations| && r.conversations[i] == c';
      var j :| 0 <= j < |r.conversations| && r.conversations[j] == d';
      assert st.conversations[i] in st.conversations && st.conversations[j] in st.conversations;
    }
    forall c' | c' in r.conversations
      ensures c'.id < r.nextId && c'.createdAt <= c'.modifiedAt <= r.clock
      ensures c'.listing in ListingIds(r) && c'.members <= UserIds(r)
    {
      var i :| 0 <= i < |r.conversations| && r.conversations[i] == c';
      assert st.conversations[i] in st.conversations;
    }
  }

  lemma TouchOneThread(st: Store, cid: nat)
    requires OneThreadPerBuyer(st)
    ensures OneThreadPerBuyer(Touch(st, cid))
  {
    var r := Touch(st, cid);
    forall c', d' | c' in r.conversations && d' in r.conversations && c'.id != d'.id && c'.listing == d'.listing
      ensures c'.members * d'.members <= SellersOf(r, c'.listing)
    {
      var i :| 0 <= i < |r.conversations| && r.conversations[i] == c';
      var j :| 0 <= j < |r.conversations| && r.conversations[j] == d';
      assert st.conversations[i] in st.conversations && st.conversations[j] in st.conversations;
    }
  }

  /** After a touch, no thread is later than the new clock, and a thread
      carries that time exactly when it is the touched one. */
  lemma TouchLatest(st: Store, cid: nat)
    requires ConversationsOk(st)
    ensures forall c :: c in Touch(st, cid).conversations ==>
      && c.modifiedAt <= Touch(st, cid).clock
      && (c.id == cid <==> c.modifiedAt == Touch(st, cid).clock)
  {
    var r := Touch(st, cid);
    forall c | c in r.conversations
      ensures c.modifiedAt <= r.clock && (c.id == cid <==> c.modifiedAt == r.clock)
    {
      var i :| 0 <= i < |r.conversations| && r.conversations[i] == c;
      assert st.conversations[i] in st.conversations;
    }
  }

  lemma TouchKeepsValid(st: Store, cid: nat)
    requires Valid(st)
    ensures Valid(Touch(st, cid))
  {
    var r := Touch(st, cid);
    TouchIds(st, cid);
    UsersFrame(st, r);
    CategoriesFrame(st, r);
    ListingsFrame(st, r);
    TouchConversationsOk(st, cid);
    MessagesFrame(st, r);
    TouchOneThread(st, cid);
  }

  /** `Conversation.objects.create(listing=...)` followed by
      `members.add(...)`: a new thread stamped with the current time. */
  function CreateConversation(st: Store, listing: nat, members: set<nat>): (r: Store)
    ensures r.clock == st.clock + 1
    ensures r.nextId == st.nextId + 1
    ensures r.conversations == st.conversations + [Conversation(st.nextId, listing, members, r.clock, r.clock)]
    ensures r == st.(conversations := r.conversations, clock := r.clock, nextId := r.nextId)
  {
    var now := st.clock + 1;
    st.(conversations := st.conversations + [Conversation(st.nextId, listing, members, now, now)],
        clock := now, nextId := st.nextId + 1)
  }

  lemma AppendConversationOk(st: Store, st': Store, n: Conversation)
    requires ConversationsOk(st)
    requires st'.conversations == st.conversations + [n]
    requires st.nextId <= n.id < st'.nextId && n.createdAt <= n.modifiedAt <= st'.clock && st.clock <= st'.clock
    requires ListingIds(st) <= ListingIds(st') && UserIds(st) <= UserIds(st')
    requires n.listing in ListingIds(st') && n.members <= UserIds(st')
    ensures ConversationsOk(st')
  {
    assert forall c :: c in st'.conversations ==> c in st.conversations || c == n;
  }

  lemma AppendConversationThreads(st: Store, st': Store, n: Conversation)
    requires ConversationsOk(st) && OneThreadPerBuyer(st)
    requires st'.conversations == st.conversations + [n] && st'.listings == st.listings
    requires n.id >= st.nextId
    requires forall c :: c in st.conversations && c.listing == n.listing ==> c.members * n.members <= SellersOf(st, n.listing)
    ensures OneThreadPerBuyer(st')
  {
    assert forall c :: c in st'.conversations ==> c in st.conversations || c == n;
    assert forall pk :: SellersOf(st', pk) == SellersOf(st, pk);
  }

  /** A new thread keeps the store consistent when its listing exists, its
      members are users, and no other thread on that listing shares a member
      with it other than the seller. */
  lemma CreateConversationKeepsValid(st: Store, listing: nat, members: set<nat>)
    requires Valid(st)
    requires listing in ListingIds(st)
    requires members <= UserIds(st)
    requires forall c :: c in st.conversations && c.listing == listing ==> c.members * members <= SellersOf(st, listing)
    ensures Valid(CreateConversation(st, listing, members))
  {
    var r := CreateConversation(st, listing, members);
    var n := Conversation(st.nextId, listing, members, r.clock, r.clock);
    assert ConversationIds(r) == ConversationIds(st) + {st.nextId};
    UsersFrame(st, r);
    CategoriesFrame(st, r);
    ListingsFrame(st, r);
    MessagesFrame(st, r);
    AppendConversationOk(st, r, n);
    AppendConversationThreads(st, r, n);
  }

  /** The `post_save` receiver: only a newly created message touches its
      conversation, giving it a fresh time; a re-save changes nothing. */
  function OnMessageSaved(st: Store, m: Message, created: bool): (r: Store)
    ensures !created ==> r == st
    ensures created ==>
      && r.clock > st.clock
      && r == st.(conversations := r.conversations, clock := r.clock)
      && |r.conversations| == |st.conversations|
      && forall i :: 0 <= i < |st.conversations| ==>
           var (c, c') := (st.conversations[i], r.conversations[i]);
           && (c.id != m.conversation ==> c' == c)
           && (c.id == m.conversation ==> c' == c.(modifiedAt := r.clock))
  {
    if created then Touch(st, m.conversation) else st
  }

  /** The receiver, run after any message save, keeps the store consistent. */
  lemma OnMessageSavedKeepsValid(st: Store, m: Message, created: bool)
    requires Valid(st)
    ensures Valid(OnMessageSaved(st, m, created))
  {
    if created {
      TouchKeepsValid(st, m.conversation);
    }
  }

  /** `ConversationMessage(...).save()` for a new message: the row is
      inserted with the current time, then the receiver touches its
      conversation, so the conversation's `modified_at` ends up strictly later
      than before, and than the message itself. */
  function CreateMessage(st: Store, cid: nat, content: string, author: nat): (r: Store)
    ensures r.messages == st.messages + [Message(st.nextId, cid, content, st.clock + 1, author)]
    ensures r.nextId == st.nextId + 1
    ensures r.clock == st.clock + 2
    ensures r.users == st.users && r.categories == st.categories && r.listings == st.listings
    ensures |r.conversations| == |st.conversations|
    ensures forall i :: 0 <= i < |st.conversations| ==>
      r.conversations[i] == Touched(st.conversations[i], cid, r.clock)
  {
    var m := Message(st.nextId, cid, content, st.clock + 1, author);
    var inserted := st.(messages := st.messages + [m], clock := st.clock + 1, nextId := st.nextId + 1);
    OnMessageSaved(inserted, m, true)
  }

  /** conversations/tests.py, `test_message_updates_conversation_timestamp`:
      posting a message makes the parent's `modified_at` strictly later. */
  lemma CreateMessageAdvancesParent(st: Store, cid: nat, content: string, author: nat)
    requires Valid(st)
    ensures forall c, c' ::
      (c in st.conversations && c' in CreateMessage(st, cid, content, author).conversations &&
       c.id == cid && c'.id == cid) ==> c'.modifiedAt > c.modifiedAt
  {
    var r := CreateMessage(st, cid, content, author);
    forall c, c' | c in st.conversations && c' in r.conversations && c.id == cid && c'.id == cid
      ensures c'.modifiedAt > c.modifiedAt
    {
      var i :| 0 <= i < |r.conversations| && r.conversations[i] == c';
      assert st.conversations[i].id == cid;
      assert c'.modifiedAt == r.clock;
    }
  }

  lemma InsertMessageOk(st: Store, st': Store, m: Message)
    requires MessagesOk(st)
    requires st'.messages == st.messages + [m]
    requires st.nextId <= st'.nextId && st.clock <= st'.clock
    requires ConversationIds(st) <= ConversationIds(st') && UserIds(st) <= UserIds(st')
    requires m.id !in (set x | x in st.messages :: x.id) && m.id < st'.nextId && m.createdAt <= st'.clock
    requires m.conversation in ConversationIds(st') && m.createdBy in UserIds(st')
    ensures MessagesOk(st')
  {
    assert forall x :: x in st'.messages ==> x in st.messages || x == m;
  }

  lemma CreateMessageKeepsValid(st: Store, cid: nat, content: string, author: nat)
    requires Valid(st)
    requires cid in ConversationIds(st)
    requires author in UserIds(st)
    ensures Valid(CreateMessage(st, cid, content, author))
  {
    var m := Message(st.nextId, cid, content, st.clock + 1, author);
    var inserted := st.(messages := st.messages + [m], clock := st.clock + 1, nextId := st.nextId + 1);
    UsersFrame(st, inserted);
    CategoriesFrame(st, inserted);
    ListingsFrame(st, inserted);
    ConversationsFrame(st, inserted);
    OneThreadFrame(st, inserted);
    InsertMessageOk(st, inserted, m);
    assert Valid(inserted);
    TouchKeepsValid(inserted, cid);
    assert CreateMessage(st, cid, content, author) == Touch(inserted, cid);
  }

  /** Re-saving an existing message (new content): `created` is false, so
      no conversation is touched and the clock does not move. */
  function ResaveMessage(st: Store, m: Message, content: string): (r: Store)
    requires m in st.messages
    ensures r == st.(messages := r.messages)
    ensures |r.messages| == |st.messages|
    ensures forall i :: 0 <= i < |st.messages| ==>
      && r.messages[i].id == st.messages[i].id
      && r.messages[i].createdAt == st.messages[i].createdAt
      && r.messages[i].conversation == st.messages[i].conversation
      && r.messages[i].createdBy == st.messages[i].createdBy
      && r.messages[i].content == (if st.messages[i].id == m.id then content else st.messages[i].content)
  {
    var updated := st.(messages := Map(st.messages, (x: Message) => if x.id == m.id then x.(content := content) else x));
    OnMessageSaved(updated, m.(content := content), false)
  }

  /** Re-saving a message keeps ids, threads, authors and times, so the store
      stays consistent. */
  lemma ResaveMessageKeepsValid(st: Store, m: Message, content: string)
    requires Valid(st) && m in st.messages
    ensures Valid(ResaveMessage(st, m, content))
  {
    var r := ResaveMessage(st, m, content);
    forall x, y | x in r.messages && y in r.messages && x.id == y.id
      ensures x == y
    {
      var i :| 0 <= i < |r.messages| && r.messages[i] == x;
      var j :| 0 <= j < |r.messages| && r.messages[j] == y;
      assert st.messages[i] in st.messages && st.messages[j] in st.messages;
    }
    forall x | x in r.messages
      ensures x.id < r.nextId && x.createdAt <= r.clock
      ensures x.conversation in ConversationIds(r) && x.createdBy in UserIds(r)
    {
      var i :| 0 <= i < |r.messages| && r.messages[i] == x;
      assert st.messages[i] in st.messages;
    }
    UsersFrame(st, r);
    CategoriesFrame(st, r);
    ListingsFrame(st, r);
    ConversationsFrame(st, r);
    OneThreadFrame(st, r);
  }
}
