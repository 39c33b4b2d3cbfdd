/** The persisted state of the marketplace: the rows of the user, category,
    listing, conversation and message tables, a clock and an id counter.

    Rows are kept in insertion order. Every save that stamps a `DateTimeField`
    with `auto_now`/`auto_now_add` reads the clock once, and each reading is
    one tick later than the previous one. New rows take the next id. */
module Models {
  import opened Base
  import opened Seqs

  datatype User = User(id: nat, username: string, email: string, firstName: string, lastName: string)

  datatype Category = Category(id: nat, name: string, slug: string)

  /** A listing; `price` is in cents and `image` is the stored file's name. */
  datatype Listing = Listing(
    id: nat,
    category: nat,
    title: string,
    description: Option<string>,
    price: int,
    image: Option<string>,
    isSold: bool,
    seller: nat,
    createdAt: nat)

  datatype Conversation = Conversation(id: nat, listing: nat, members: set<nat>, createdAt: nat, modifiedAt: nat)

  datatype Message = Message(id: nat, conversation: nat, content: string, createdAt: nat, createdBy: nat)

  datatype Store = Store(
    users: seq<User>,
    categories: seq<Category>,
    listings: seq<Listing>,
    conversations: seq<Conversation>,
    messages: seq<Message>,
    clock: nat,
    nextId: nat)

  /** A store with no rows. */
  function EmptyStore(): Store {
    Store([], [], [], [], [], 0, 0)
  }

  function ListingId(l: Listing): int { l.id }
  function CreatedAt(l: Listing): int { l.createdAt }
  function ModifiedAt(c: Conversation): int { c.modifiedAt }

  function UserIds(st: Store): set<nat> { set u | u in st.users :: u.id }
  function CategoryIds(st: Store): set<nat> { set c | c in st.categories :: c.id }
  function ListingIds(st: Store): set<nat> { set l | l in st.listings :: l.id }
  function ConversationIds(st: Store): set<nat> { set c | c in st.conversations :: c.id }

  predicate IsUser(st: Store, u: nat) {
    u in UserIds(st)
  }

  /** The seller of the listing with id `pk` (a singleton in a valid store). */
  function SellersOf(st: Store, pk: nat): set<nat> {
    set l | l in st.listings && l.id == pk :: l.seller
  }

  // ---------------------------------------------------------------------
  // Integrity of the store: primary keys, foreign keys, unique columns and
  // the clock bounding every timestamp.

  ghost predicate UsersOk(st: Store) {
    && (forall u :: u in st.users ==> u.id < st.nextId)
    && (forall u, v :: u in st.users && v in st.users && u.id == v.id ==> u == v)
    && (forall u, v :: u in st.users && v in st.users && u.username == v.username ==> u == v)
  }

  /** Primary keys and the `unique=True` slug column. */
  ghost predicate CategoriesOk(st: Store) {
    && (forall c :: c in st.categories ==> c.id < st.nextId)
    && (forall c, d :: c in st.categories && d in st.categories && c.id == d.id ==> c == d)
    && (forall c, d :: c in st.categories && d in st.categories && c.slug == d.slug ==> c == d)
  }

  /** Listings are stored oldest first: ids and creation times both increase. */
  ghost predicate ListingsOk(st: Store) {
    && Ascending(st.listings, ListingId)
    && Ascending(st.listings, CreatedAt)
    && (forall l :: l in st.listings ==>
          && l.id < st.nextId
          && l.createdAt <= st.clock
          && l.category in CategoryIds(st)
          && l.seller in UserIds(st))
  }

  ghost predicate ConversationsOk(st: Store) {
    && (forall c, d :: c in st.conversations && d in st.conversations && c.id == d.id ==> c == d)
    && (forall c :: c in st.conversations ==>
          && c.id < st.nextId
          && c.createdAt <= c.modifiedAt <= st.clock
          && c.listing in ListingIds(st)
          && c.members <= UserIds(st))
  }

  /** Every message belongs to exactly one stored conversation. */
  ghost predicate MessagesOk(st: Store) {
    && (forall m, n :: m in st.messages && n in st.messages && m.id == n.id ==> m == n)
    && (forall m :: m in st.messages ==>
          && m.id < st.nextId
          && m.createdAt <= st.clock
          && m.conversation in ConversationIds(st)
          && m.createdBy in UserIds(st))
  }

  /** Two different threads on one listing share no member but its seller:
      a buyer has at most one thread per listing. */
  ghost predicate OneThreadPerBuyer(st: Store) {
    forall c, d :: c in st.conversations && d in st.conversations && c.id != d.id && c.listing == d.listing ==>
      c.members * d.members <= SellersOf(st, c.listing)
  }

  ghost predicate Valid(st: Store) {
    && UsersOk(st)
    && CategoriesOk(st)
    && ListingsOk(st)
    && ConversationsOk(st)
    && MessagesOk(st)
    && OneThreadPerBuyer(st)
  }

  /** At most one thread on listing `pk` includes user `u`. */
  ghost predicate AtMostOneThread(st: Store, pk: nat, u: nat) {
    forall c, d ::
      (c in st.conversations && d in st.conversations && c.listing == pk && d.listing == pk &&
       u in c.members && u in d.members) ==> c == d
  }

  lemma OneThreadForEachBuyer(st: Store, pk: nat, u: nat)
    requires Valid(st)
    requires u !in SellersOf(st, pk)
    ensures AtMostOneThread(st, pk, u)
  {
  }

  lemma EmptyStoreValid()
    ensures Valid(EmptyStore())
  {
  }

  // ---------------------------------------------------------------------
  // Frame lemmas: a table that an operation leaves alone stays consistent as
  // long as the rows it refers to survive and the clock and counter do not
  // go back.

  lemma UsersFrame(st: Store, st': Store)
    requires UsersOk(st)
    requires st'.users == st.users && st.nextId <= st'.nextId
    ensures UsersOk(st')
  {
  }

  lemma CategoriesFrame(st: Store, st': Store)
    requires CategoriesOk(st)
    requires st'.categories == st.categories && st.nextId <= st'.nextId
    ensures CategoriesOk(st')
  {
  }

  lemma ListingsFrame(st: Store, st': Store)
    requires ListingsOk(st)
    requires st'.listings == st.listings && st.nextId <= st'.nextId && st.clock <= st'.clock
    requires CategoryIds(st) <= CategoryIds(st') && UserIds(st) <= UserIds(st')
    ensures ListingsOk(st')
  {
  }

  lemma ConversationsFrame(st: Store, st': Store)
    requires ConversationsOk(st)
    requires st'.conversations == st.conversations && st.nextId <= st'.nextId && st.clock <= st'.clock
    requires ListingIds(st) <= ListingIds(st') && UserIds(st) <= UserIds(st')
    ensures ConversationsOk(st')
  {
  }

  lemma MessagesFrame(st: Store, st': Store)
    requires MessagesOk(st)
    requires st'.messages == st.messages && st.nextId <= st'.nextId && st.clock <= st'.clock
    requires ConversationIds(st) <= ConversationIds(st') && UserIds(st) <= UserIds(st')
    ensures MessagesOk(st')
  {
  }

  lemma OneThreadFrame(st: Store, st': Store)
    requires OneThreadPerBuyer(st)
    requires st'.conversations == st.conversations && st'.listings == st.listings
    ensures OneThreadPerBuyer(st')
  {
  }

  // ---------------------------------------------------------------------
  // Lookups by primary key.

  function FindListing(ls: seq<Listing>, pk: nat): (r: Option<Listing>)
    ensures r.Some? ==> r.value in ls && r.value.id == pk
    ensures r.None? ==> forall l :: l in ls ==> l.id != pk
    decreases |ls|
  {
    if |ls| == 0 then None
    else if ls[0].id == pk then Some(ls[0])
    else FindListing(ls[1..], pk)
  }

  function FindConversation(cs: seq<Conversation>, pk: nat): (r: Option<Conversation>)
    ensures r.Some? ==> r.value in cs && r.value.id == pk
    ensures r.None? ==> forall c :: c in cs ==> c.id != pk
    decreases |cs|
  {
    if |cs| == 0 then None
    else if cs[0].id == pk then Some(cs[0])
    else FindConversation(cs[1..], pk)
  }

  function FindUser(us: seq<User>, pk: nat): (r: Option<User>)
    ensures r.Some? ==> r.value in us && r.value.id == pk
    ensures r.None? ==> forall u :: u in us ==> u.id != pk
    decreases |us|
  {
    if |us| == 0 then None
    else if us[0].id == pk then Some(us[0])
    else FindUser(us[1..], pk)
  }

  // ---------------------------------------------------------------------
  // Default orderings.

  /** `ordering = ("-created_at",)` on listings: rows are stored oldest
      first, so newest first is the reverse. */
  function NewestFirst(ls: seq<Listing>): seq<Listing> {
    Reverse(ls)
  }

  /** Any filter of the stored listings, newest first, is strictly
      decreasing both in creation time and in id. */
  lemma NewestFirstOrder(st: Store, p: Listing -> bool)
    requires ListingsOk(st)
    ensures Descending(NewestFirst(Filter(st.listings, p)), CreatedAt)
    ensures Descending(NewestFirst(Filter(st.listings, p)), ListingId)
  {
    FilterAscending(st.listings, p, CreatedAt);
    FilterAscending(st.listings, p, ListingId);
    ReverseAscending(Filter(st.listings, p), CreatedAt);
    ReverseAscending(Filter(st.listings, p), ListingId);
  }

  /** The first `n` of a filter, newest first, are the newest ones: a
      matching listing is left out only when all `n` places are taken by
      listings that are newer and have larger ids. */
  lemma NewestTake(st: Store, p: Listing -> bool, n: nat)
    requires ListingsOk(st)
    ensures var shown := Take(NewestFirst(Filter(st.listings, p)), n);
      forall x :: x in st.listings && p(x) && x !in shown ==>
        && |shown| == n
        && forall i :: 0 <= i < |shown| ==> shown[i].createdAt > x.createdAt && shown[i].id > x.id
  {
    var sorted := NewestFirst(Filter(st.listings, p));
    var shown := Take(sorted, n);
    NewestFirstOrder(st, p);
    FilterMembers(st.listings, p);
    ReverseMembers(Filter(st.listings, p));
    forall x | x in st.listings && p(x) && x !in shown
      ensures |shown| == n
      ensures forall i :: 0 <= i < |shown| ==> shown[i].createdAt > x.createdAt && shown[i].id > x.id
    {
      var k :| 0 <= k < |sorted| && sorted[k] == x;
      forall i | 0 <= i < |shown|
        ensures shown[i].createdAt > x.createdAt && shown[i].id > x.id
      {
        assert shown[i] == sorted[i];
        assert CreatedAt(sorted[i]) > CreatedAt(sorted[k]) && ListingId(sorted[i]) > ListingId(sorted[k]);
      }
    }
  }

  /** `Listing.objects.filter(seller=u).order_by('-created_at')`, the
      query behind the profile and the dashboard. */
  function OwnListings(st: Store, u: nat): (r: seq<Listing>)
    ensures forall l :: l in r <==> l in st.listings && l.seller == u
  {
    FilterMembers(st.listings, SoldBy(u));
    ReverseMembers(Filter(st.listings, SoldBy(u)));
    NewestFirst(Filter(st.listings, SoldBy(u)))
  }

  function SoldBy(u: nat): Listing -> bool {
    (l: Listing) => l.seller == u
  }

  /** The user's listings come newest first. */
  lemma OwnListingsOrder(st: Store, u: nat)
    requires ListingsOk(st)
    ensures Descending(OwnListings(st, u), CreatedAt)
  {
    NewestFirstOrder(st, SoldBy(u));
  }

  /** `ordering = ('-modified_at',)` on conversations. */
  function MostRecentFirst(cs: seq<Conversation>): (r: seq<Conversation>)
    ensures NonIncreasing(r, ModifiedAt)
    ensures multiset(r) == multiset(cs)
    ensures forall c :: c in r <==> c in cs
  {
    var r := SortDesc(cs, ModifiedAt);
    SortDescMembers(cs, ModifiedAt);
    r
  }

  // ---------------------------------------------------------------------
  // What every view keeps: the clock and the id counter never go back, and
  // a surviving row keeps its creation time and the row it belongs to.

  ghost predicate CreationStable(st: Store, st': Store) {
    && st.clock <= st'.clock
    && st.nextId <= st'.nextId
    && (forall l, l' :: l in st.listings && l' in st'.listings && l.id == l'.id ==>
          l'.createdAt == l.createdAt && l'.seller == l.seller && l'.category == l.category)
    && (forall c, c' :: c in st.conversations && c' in st'.conversations && c.id == c'.id ==>
          c'.createdAt == c.createdAt && c'.listing == c.listing)
    && (forall m, m' :: m in st.messages && m' in st'.messages && m.id == m'.id ==>
          m'.createdAt == m.createdAt && m'.conversation == m.conversation && m'.createdBy == m.createdBy)
  }

  lemma CreationStableRefl(st: Store)
    requires Valid(st)
    ensures CreationStable(st, st)
  {
    forall l, l' | l in st.listings && l' in st.listings && l.id == l'.id
      ensures l == l'
    {
      var i :| 0 <= i < |st.listings| && st.listings[i] == l;
      var j :| 0 <= j < |st.listings| && st.listings[j] == l';
      assert ListingId(st.listings[i]) == ListingId(st.listings[j]);
    }
  }
}

/** What a view hands back to the client, and the form data it receives. */
module Http {
  import opened Models

  datatype Target =
    | ListingDetail(pk: nat)
    | ListingIndex
    | ConversationDetail(pk: nat)
    | LoginPage
    | ProfilePage

  /** `Rendered`: a template is rendered (a page or a form with errors);
      `NotFound`: `get_object_or_404` raised Http404; `ObjectMissing`: a
      plain `.get()` raised `DoesNotExist`, which surfaces as a server error. */
  datatype Outcome = Rendered | Redirect(to: Target) | NotFound | ObjectMissing

  datatype Request<F> = Get | Post(form: F)

  datatype Transition = Transition(store: Store, outcome: Outcome)
}
