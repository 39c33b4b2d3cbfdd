/** The conversation views (conversations/views.py): opening a thread about
    a listing, the inbox, and a thread's page where members post messages. */
module ConversationViews {
  import opened Base
  import opened Seqs
  import opened Models
  import opened Http
  import opened ConversationModels

  /** The one field of `ConversationMessageForm`; `valid` stands for the
      field checks the form library makes. */
  datatype MessageForm = MessageForm(content: string, valid: bool)

  function IsMember(u: nat): Conversation -> bool {
    (c: Conversation) => u in c.members
  }

  function OnListingWith(pk: nat, u: nat): Conversation -> bool {
    (c: Conversation) => c.listing == pk && u in c.members
  }

  /** `Conversation.objects.filter(listing=listing).filter(members__in=[u])`,
      in the default most-recently-modified-first order. */
  function ThreadsWith(st: Store, pk: nat, u: nat): (r: seq<Conversation>)
    ensures NonIncreasing(r, ModifiedAt)
    ensures forall c :: c in r <==> c in st.conversations && c.listing == pk && u in c.members
    ensures multiset(r) == multiset(Filter(st.conversations, OnListingWith(pk, u)))
  {
    FilterMembers(st.conversations, OnListingWith(pk, u));
    MostRecentFirst(Filter(st.conversations, OnListingWith(pk, u)))
  }

  /** What a valid POST to `new_conversation` writes when no thread exists:
      the thread with both parties, its second save, and the first message. */
  function OpenThread(st: Store, pk: nat, buyer: nat, seller: nat, content: string): Store {
    var cid := st.nextId;
    var created := CreateConversation(st, pk, {buyer, seller});
    CreateMessage(Touch(created, cid), cid, content, buyer)
  }

  /** `new_conversation`: 404 for a missing listing; the seller is sent back
      to the listing before anything else is looked at; a buyer who already
      has a thread on the listing is sent to it (the most recently modified
      one); otherwise a valid POST opens a thread with the buyer and the
      seller holding exactly the buyer's message, and anything else renders
      the form. Only the last case writes. */
  function NewConversation(st: Store, actor: nat, pk: nat, req: Request<MessageForm>): (r: Transition)
    requires IsUser(st, actor)
    ensures FindListing(st.listings, pk).None? ==> r == Transition(st, NotFound)
    ensures var found := FindListing(st.listings, pk);
      found.Some? && found.value.seller == actor ==> r == Transition(st, Redirect(ListingDetail(pk)))
    ensures var (found, threads) := (FindListing(st.listings, pk), ThreadsWith(st, pk, actor));
      found.Some? && found.value.seller != actor && |threads| > 0 ==>
        && r == Transition(st, Redirect(ConversationDetail(threads[0].id)))
        && threads[0] in st.conversations && threads[0].listing == pk && actor in threads[0].members
        && forall c :: c in st.conversations && c.listing == pk && actor in c.members ==> c.modifiedAt <= threads[0].modifiedAt
    ensures var (found, threads) := (FindListing(st.listings, pk), ThreadsWith(st, pk, actor));
      found.Some? && found.value.seller != actor && |threads| == 0 && !(req.Post? && req.form.valid) ==>
        r == Transition(st, Rendered)
    ensures var (found, threads) := (FindListing(st.listings, pk), ThreadsWith(st, pk, actor));
      found.Some? && found.value.seller != actor && |threads| == 0 && (req.Post? && req.form.valid) ==>
        && r.outcome == Redirect(ListingDetail(pk))
        && r.store.users == st.users && r.store.categories == st.categories && r.store.listings == st.listings
        && |r.store.conversations| == |st.conversations| + 1
        && |r.store.messages| == |st.messages| + 1
        && r.store.messages[..|st.messages|] == st.messages
        && var (c, m) := (r.store.conversations[|st.conversations|], r.store.messages[|st.messages|]);
           && c.id == st.nextId && c.listing == pk && c.members == {actor, found.value.seller}
           && m.conversation == c.id && m.createdBy == actor && m.content == req.form.content
           && c.modifiedAt == r.store.clock && m.createdAt < c.modifiedAt
           && (ConversationsOk(st) ==> r.store.conversations[..|st.conversations|] == st.conversations)
  {
    match FindListing(st.listings, pk)
    case None => Transition(st, NotFound)
    case Some(listing) =>
      if listing.seller == actor then Transition(st, Redirect(ListingDetail(pk)))
      else
        var threads := ThreadsWith(st, pk, actor);
        if |threads| > 0 then
          assert threads[0] in threads;
          Transition(st, Redirect(ConversationDetail(threads[0].id)))
        else if (req.Post? && req.form.valid) then
          var r := OpenThread(st, pk, actor, listing.seller, req.form.content);
          assert ConversationsOk(st) ==> r.conversations[..|st.conversations|] == st.conversations by {
            if ConversationsOk(st) {
              forall i | 0 <= i < |st.conversations|
                ensures r.conversations[i] == st.conversations[i]
              {
                assert st.conversations[i] in st.conversations;
              }
            }
          }
          Transition(r, Redirect(ListingDetail(pk)))
        else
          Transition(st, Rendered)
  }

  lemma OpenThreadKeepsValid(st: Store, pk: nat, buyer: nat, seller: nat, content: string)
    requires Valid(st)
    requires buyer in UserIds(st) && seller in SellersOf(st, pk)
    requires forall c :: c in st.conversations && c.listing == pk ==> buyer !in c.members
    ensures Valid(OpenThread(st, pk, buyer, seller, content))
  {
    var cid := st.nextId;
    var members := {buyer, seller};
    assert pk in ListingIds(st);
    assert seller in UserIds(st);
    CreateConversationKeepsValid(st, pk, members);
    var created := CreateConversation(st, pk, members);
    TouchKeepsValid(created, cid);
    assert cid in ConversationIds(created);
    TouchIds(created, cid);
    CreateMessageKeepsValid(Touch(created, cid), cid, content, buyer);
  }

  /** Opening a thread keeps the store consistent. */
  lemma NewConversationKeepsValid(st: Store, actor: nat, pk: nat, req: Request<MessageForm>)
    requires Valid(st) && IsUser(st, actor)
    ensures Valid(NewConversation(st, actor, pk, req).store)
  {
    var found := FindListing(st.listings, pk);
    if found.Some? && found.value.seller != actor && |ThreadsWith(st, pk, actor)| == 0 && (req.Post? && req.form.valid) {
      assert found.value.seller in SellersOf(st, pk);
      OpenThreadKeepsValid(st, pk, actor, found.value.seller, req.form.content);
    }
  }

  /** If at most one thread on the listing holds the acting user before the
      request, the same holds after it. */
  lemma NewConversationOneThread(st: Store, actor: nat, pk: nat, req: Request<MessageForm>)
    requires ConversationsOk(st) && IsUser(st, actor)
    requires AtMostOneThread(st, pk, actor)
    ensures AtMostOneThread(NewConversation(st, actor, pk, req).store, pk, actor)
  {
    var r := NewConversation(st, actor, pk, req);
    var found := FindListing(st.listings, pk);
    if found.Some? && found.value.seller != actor && |ThreadsWith(st, pk, actor)| == 0 && (req.Post? && req.form.valid) {
      ThreadsUniqueAfterOpen(st, r.store, pk, actor);
    }
  }

  /** After a thread is opened for a buyer who had none on the listing,
      exactly that thread holds the buyer. */
  lemma ThreadsUniqueAfterOpen(st: Store, st': Store, pk: nat, actor: nat)
    requires ConversationsOk(st)
    requires forall c :: c in st.conversations && c.listing == pk ==> actor !in c.members
    requires |st'.conversations| == |st.conversations| + 1
    requires st'.conversations[..|st.conversations|] == st.conversations
    ensures AtMostOneThread(st', pk, actor)
  {
    var n := st'.conversations[|st.conversations|];
    assert st'.conversations == st.conversations + [n];
    assert forall c :: c in st'.conversations ==> c in st.conversations || c == n;
  }

  /** `inbox`: the threads the user is a member of, most recently modified
      first. */
  function Inbox(st: Store, actor: nat): (r: seq<Conversation>)
    requires IsUser(st, actor)
    ensures NonIncreasing(r, ModifiedAt)
    ensures forall c :: c in r <==> c in st.conversations && actor in c.members
    ensures multiset(r) == multiset(Filter(st.conversations, IsMember(actor)))
  {
    FilterMembers(st.conversations, IsMember(actor));
    MostRecentFirst(Filter(st.conversations, IsMember(actor)))
  }

  /** `Conversation.objects.filter(members__in=[u]).get(pk=pk)`. */
  function MemberConversation(st: Store, u: nat, pk: nat): (r: Option<Conversation>)
    ensures r.Some? ==> r.value in st.conversations && r.value.id == pk && u in r.value.members
    ensures r.None? <==> !exists c :: c in st.conversations && c.id == pk && u in c.members
  {
    FilterMembers(st.conversations, IsMember(u));
    FindConversation(Filter(st.conversations, IsMember(u)), pk)
  }

  /** What a valid POST to `detail` writes: the message (whose creation
      touches the thread) and then the thread's own save. */
  function PostMessage(st: Store, pk: nat, content: string, author: nat): Store {
    Touch(CreateMessage(st, pk, content, author), pk)
  }

  /** `detail`: a thread the user is not a member of (or that does not
      exist) is not found by `.get()` and nothing is written; a valid POST
      appends exactly one message by the user to the thread, makes the
      thread the most recently modified one, and redirects back to it. */
  function Detail(st: Store, actor: nat, pk: nat, req: Request<MessageForm>): (r: Transition)
    requires IsUser(st, actor)
    ensures MemberConversation(st, actor, pk).None? ==> r == Transition(st, ObjectMissing)
    ensures MemberConversation(st, actor, pk).Some? && !(req.Post? && req.form.valid) ==> r == Transition(st, Rendered)
    ensures MemberConversation(st, actor, pk).Some? && (req.Post? && req.form.valid) ==>
      && r.outcome == Redirect(ConversationDetail(pk))
      && r.store.users == st.users && r.store.categories == st.categories && r.store.listings == st.listings
      && |r.store.messages| == |st.messages| + 1
      && r.store.messages[..|st.messages|] == st.messages
      && (var m := r.store.messages[|st.messages|];
          m.conversation == pk && m.createdBy == actor && m.content == req.form.content && m.createdAt > st.clock)
      && |r.store.conversations| == |st.conversations|
      && forall i :: 0 <= i < |st.conversations| ==>
           && r.store.conversations[i].id == st.conversations[i].id
           && r.store.conversations[i].listing == st.conversations[i].listing
           && r.store.conversations[i].members == st.conversations[i].members
           && r.store.conversations[i].createdAt == st.conversations[i].createdAt
           && (st.conversations[i].id != pk ==> r.store.conversations[i] == st.conversations[i])
           && (st.conversations[i].id == pk ==> r.store.conversations[i].modifiedAt == r.store.clock > st.clock)
  {
    match MemberConversation(st, actor, pk)
    case None => Transition(st, ObjectMissing)
    case Some(_) =>
      if (req.Post? && req.form.valid) then
        var r := PostMessage(st, pk, req.form.content, actor);
        assert r.messages == st.messages + [r.messages[|st.messages|]];
        Transition(r, Redirect(ConversationDetail(pk)))
      else
        Transition(st, Rendered)
  }

  lemma DetailKeepsValid(st: Store, actor: nat, pk: nat, req: Request<MessageForm>)
    requires Valid(st) && IsUser(st, actor)
    ensures Valid(Detail(st, actor, pk, req).store)
  {
    if MemberConversation(st, actor, pk).Some? && (req.Post? && req.form.valid) {
      var m := CreateMessage(st, pk, req.form.content, actor);
      CreateMessageKeepsValid(st, pk, req.form.content, actor);
      TouchKeepsValid(m, pk);
    }
  }

  /** In a list sorted by decreasing time, drawn from threads of which only
      `pk` carries the latest time `t`, a thread `pk` on the list heads it. */
  lemma LatestHeads(cs: seq<Conversation>, all: seq<Conversation>, pk: nat, t: int)
    requires NonIncreasing(cs, ModifiedAt)
    requires forall c :: c in cs ==> c in all
    requires forall c :: c in all ==> c.modifiedAt <= t && (c.id == pk <==> c.modifiedAt == t)
    requires exists c :: c in cs && c.id == pk
    ensures |cs| > 0 && cs[0].id == pk
  {
    var c :| c in cs && c.id == pk;
    var k :| 0 <= k < |cs| && cs[k] == c;
    assert ModifiedAt(cs[0]) >= ModifiedAt(cs[k]);
    assert cs[0] in all;
  }

  /** A thread just touched has the latest time, so it heads the inbox of
      each of its members. */
  lemma TouchedHeadsInbox(st: Store, pk: nat, u: nat)
    requires ConversationsOk(st) && IsUser(st, u)
    requires exists c :: c in st.conversations && c.id == pk && u in c.members
    ensures |Inbox(Touch(st, pk), u)| > 0 && Inbox(Touch(st, pk), u)[0].id == pk
  {
    var r := Touch(st, pk);
    TouchLatest(st, pk);
    var c :| c in st.conversations && c.id == pk && u in c.members;
    var i :| 0 <= i < |st.conversations| && st.conversations[i] == c;
    assert r.conversations[i] in r.conversations;
    assert r.conversations[i] in Inbox(r, u);
    LatestHeads(Inbox(r, u), r.conversations, pk, r.clock);
  }

  /** The receiver's purpose (conversations/models.py) together with the
      inbox order: after a member posts, the thread heads the inbox of every
      one of its members. */
  lemma PostTopsInbox(st: Store, actor: nat, pk: nat, req: Request<MessageForm>, u: nat)
    requires Valid(st) && IsUser(st, actor)
    requires MemberConversation(st, actor, pk).Some? && (req.Post? && req.form.valid)
    requires u in MemberConversation(st, actor, pk).value.members
    ensures IsUser(Detail(st, actor, pk, req).store, u)
    ensures |Inbox(Detail(st, actor, pk, req).store, u)| > 0
    ensures Inbox(Detail(st, actor, pk, req).store, u)[0].id == pk
  {
    var m := CreateMessage(st, pk, req.form.content, actor);
    CreateMessageKeepsValid(st, pk, req.form.content, actor);
    var c := MemberConversation(st, actor, pk).value;
    var i :| 0 <= i < |st.conversations| && st.conversations[i] == c;
    assert m.conversations[i] in m.conversations;
    TouchedHeadsInbox(m, pk, u);
  }
}
