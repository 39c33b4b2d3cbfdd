/** The listing views (listings/views.py): browsing with filters, the detail
    page with related items, and the seller-only create, edit and delete. */
module ListingViews {
  import opened Base
  import opened Seqs
  import opened Text
  import opened Models
  import opened Http

  // ---------------------------------------------------------------------
  // Browse.

  /** `Q(title__icontains=kw) | Q(description__icontains=kw)`; a null
      description matches nothing. */
  predicate MatchesKeyword(l: Listing, kw: string) {
    || ContainsIgnoringCase(l.title, kw)
    || (l.description.Some? && ContainsIgnoringCase(l.description.value, kw))
  }

  /** All filters of the browse page at once: unsold, in the chosen category
      (if any), and matching the keyword (if any). */
  predicate Browsable(l: Listing, category: Option<int>, kw: string) {
    && !l.isSold
    && (category.None? || l.category == category.value)
    && (kw == "" || MatchesKeyword(l, kw))
  }

  /** The search term: `query`, or `q` when `query` is empty. */
  function Keyword(query: string, q: string): string {
    if query != "" then query else q
  }

  /** The template context: `listings`, `query`, `categories` and
      `active_category` (`category_id` is the same number, 0 for none). */
  datatype BrowsePage = BrowsePage(listings: seq<Listing>, query: string, categories: seq<Category>, activeCategory: Option<int>)

  /** `BadCategory`: `int(category)` raised `ValueError`, a server error. */
  datatype BrowseResult = Browse(page: BrowsePage) | BadCategory

  function Unsold(l: Listing): bool { !l.isSold }

  function InCategory(c: int): Listing -> bool {
    (l: Listing) => l.category == c
  }

  function Matching(kw: string): Listing -> bool {
    (l: Listing) => MatchesKeyword(l, kw)
  }

  function BrowseFilter(category: Option<int>, kw: string): Listing -> bool {
    (l: Listing) => Browsable(l, category, kw)
  }

  /** The querysets of `index` in the order it builds them: the unsold
      listings, then those in the category, then those matching the keyword. */
  function Staged(ls: seq<Listing>, category: Option<int>, kw: string): seq<Listing> {
    var unsold := Filter(ls, Unsold);
    var inCategory := if category.Some? then Filter(unsold, InCategory(category.value)) else unsold;
    if kw != "" then Filter(inCategory, Matching(kw)) else inCategory
  }

  /** Applying the filters one after another is the same as one filter by
      their conjunction. */
  lemma StagedIsOneFilter(ls: seq<Listing>, category: Option<int>, kw: string)
    ensures Staged(ls, category, kw) == Filter(ls, BrowseFilter(category, kw))
  {
    var all := BrowseFilter(category, kw);
    match category
    case Some(c) =>
      if kw != "" {
        var unsoldIn := (l: Listing) => Unsold(l) && InCategory(c)(l);
        FilterFilter(ls, Unsold, InCategory(c), unsoldIn);
        FilterFilter(ls, unsoldIn, Matching(kw), all);
      } else {
        FilterFilter(ls, Unsold, InCategory(c), all);
      }
    case None =>
      if kw != "" {
        FilterFilter(ls, Unsold, Matching(kw), all);
      } else {
        FilterCongruence(ls, Unsold, all);
      }
  }

  /** `index`: the unsold listings, narrowed by category and then by
      keyword, newest first. */
  function Index(st: Store, query: string, q: string, category: string): (r: BrowseResult)
    ensures r.BadCategory? <==> category != "" && ParseInt(category).None?
    ensures r.Browse? ==> r.page.query == Keyword(query, q) && r.page.categories == st.categories
    ensures r.Browse? && category == "" ==> r.page.activeCategory == None
    ensures r.Browse? && category != "" ==> r.page.activeCategory == ParseInt(category)
    ensures r.Browse? ==> forall l :: l in r.page.listings <==>
      l in st.listings && Browsable(l, r.page.activeCategory, r.page.query)
  {
    if category != "" && ParseInt(category).None? then BadCategory
    else
      var kw := Keyword(query, q);
      var active := if category == "" then None else ParseInt(category);
      var matching := Staged(st.listings, active, kw);
      StagedIsOneFilter(st.listings, active, kw);
      FilterMembers(st.listings, BrowseFilter(active, kw));
      ReverseMembers(matching);
      Browse(BrowsePage(NewestFirst(matching), kw, st.categories, active))
  }

  /** The page is the stored listings that pass every filter, newest first. */
  lemma IndexIsOneFilter(st: Store, query: string, q: string, category: string)
    requires ListingsOk(st)
    ensures var r := Index(st, query, q, category);
      r.Browse? ==>
        && r.page.listings == NewestFirst(Filter(st.listings, BrowseFilter(r.page.activeCategory, r.page.query)))
        && Descending(r.page.listings, CreatedAt)
  {
    var r := Index(st, query, q, category);
    if r.Browse? {
      StagedIsOneFilter(st.listings, r.page.activeCategory, r.page.query);
      NewestFirstOrder(st, BrowseFilter(r.page.activeCategory, r.page.query));
    }
  }

  /** listings/tests.py, `test_search_filters`: of "Laptop" and "Mouse",
      searching "laptop" finds only the laptop. */
  lemma LaptopSearch(st: Store, laptop: Listing, mouse: Listing)
    requires st.listings == [laptop, mouse]
    requires laptop.title == "Laptop" && mouse.title == "Mouse"
    requires laptop.description.None? && mouse.description.None?
    requires !laptop.isSold && !mouse.isSold
    ensures Index(st, "laptop", "", "").Browse?
    ensures Index(st, "laptop", "", "").page.listings == [laptop]
  {
    assert Lower("Laptop") == "laptop";
    assert Lower("laptop")[..|Lower("laptop")|] == Lower("laptop");
    assert ContainsIgnoringCase("Laptop", "laptop");
    ContainsTooLong(Lower("Mouse"), Lower("laptop"));
    var f := BrowseFilter(None, "laptop");
    assert f(laptop) && !f(mouse);
    assert [laptop, mouse][1..] == [mouse];
    assert Filter([mouse], f) == [];
    assert Filter(st.listings, f) == [laptop];
    StagedIsOneFilter(st.listings, None, "laptop");
  }

  // ---------------------------------------------------------------------
  // Detail.

  /** Same category, unsold, and not the listing itself. */
  predicate IsRelated(l: Listing, of: Listing) {
    l.category == of.category && !l.isSold && l.id != of.id
  }

  function RelatedTo(of: Listing): Listing -> bool {
    (l: Listing) => IsRelated(l, of)
  }

  /** How many related items the detail page shows. */
  const RelatedLimit: nat := 3

  datatype DetailPage = DetailPage(listing: Listing, related: seq<Listing>)

  /** `Missing`: `get_object_or_404` raised Http404. */
  datatype DetailResult = Shown(page: DetailPage) | Missing

  function Detail(st: Store, pk: nat): (r: DetailResult)
    ensures r.Missing? <==> pk !in ListingIds(st)
    ensures r.Shown? ==> r.page.listing in st.listings && r.page.listing.id == pk
    ensures r.Shown? ==> |r.page.related| <= RelatedLimit
    ensures r.Shown? ==> forall i :: 0 <= i < |r.page.related| ==>
      r.page.related[i] in st.listings && IsRelated(r.page.related[i], r.page.listing)
  {
    match FindListing(st.listings, pk)
    case None => Missing
    case Some(l) =>
      var related := Filter(st.listings, RelatedTo(l));
      Shown(DetailPage(l, Take(NewestFirst(related), RelatedLimit)))
  }

  /** The related items are the newest ones: a related listing is left out
      only when the page is full and every item shown is newer. */
  lemma RelatedAreNewest(st: Store, pk: nat)
    requires ListingsOk(st)
    ensures var r := Detail(st, pk);
      r.Shown? ==>
        && Descending(r.page.related, CreatedAt)
        && forall x :: x in st.listings && IsRelated(x, r.page.listing) && x !in r.page.related ==>
             && |r.page.related| == RelatedLimit
             && forall i :: 0 <= i < |r.page.related| ==> r.page.related[i].createdAt > x.createdAt
  {
    var r := Detail(st, pk);
    if r.Shown? {
      var l := r.page.listing;
      NewestFirstOrder(st, RelatedTo(l));
      TakeDescending(NewestFirst(Filter(st.listings, RelatedTo(l))), RelatedLimit, CreatedAt);
      NewestTake(st, RelatedTo(l), RelatedLimit);
      assert forall x :: IsRelated(x, l) ==> RelatedTo(l)(x);
    }
  }

  // ---------------------------------------------------------------------
  // Create.

  /** The fields of `NewListingForm`; `valid` stands for the field checks
      the form library makes. */
  datatype ListingForm = ListingForm(
    category: nat,
    title: string,
    description: Option<string>,
    price: int,
    image: Option<string>,
    valid: bool)

  /** `NewListingForm.is_valid()`: the field checks, and the category choice
      must name a stored category. */
  predicate AcceptsNew(st: Store, f: ListingForm) {
    f.valid && f.category in CategoryIds(st)
  }

  /** `create`: a valid POST saves a new unsold listing whose seller is the
      acting user, then redirects to its detail page; anything else renders
      the form and writes nothing. */
  function Create(st: Store, actor: nat, req: Request<ListingForm>): (r: Transition)
    requires IsUser(st, actor)
    ensures !(req.Post? && AcceptsNew(st, req.form)) ==> r == Transition(st, Rendered)
    ensures req.Post? && AcceptsNew(st, req.form) ==>
      && r.store == st.(listings := r.store.listings, clock := r.store.clock, nextId := r.store.nextId)
      && r.store.clock == st.clock + 1 && r.store.nextId == st.nextId + 1
      && |r.store.listings| == |st.listings| + 1
      && r.store.listings[..|st.listings|] == st.listings
      && var l := r.store.listings[|st.listings|];
         && r.outcome == Redirect(ListingDetail(l.id))
         && l.seller == actor
         && !l.isSold
         && l.createdAt == r.store.clock
         && l.category == req.form.category && l.title == req.form.title
         && l.description == req.form.description && l.price == req.form.price && l.image == req.form.image
         && (ListingsOk(st) ==> l.id !in ListingIds(st))
  {
    if req.Post? && AcceptsNew(st, req.form) then
      var f := req.form;
      var now := st.clock + 1;
      var l := Listing(st.nextId, f.category, f.title, f.description, f.price, f.image, false, actor, now);
      Transition(st.(listings := st.listings + [l], clock := now, nextId := st.nextId + 1), Redirect(ListingDetail(l.id)))
    else
      Transition(st, Rendered)
  }

  /** Appending a listing with a fresh id, a later creation time and stored
      foreign keys keeps the listing table consistent. */
  lemma AppendListingOk(st: Store, st': Store, l: Listing)
    requires ListingsOk(st)
    requires st'.listings == st.listings + [l]
    requires st.nextId <= l.id < st'.nextId && st.clock < l.createdAt <= st'.clock
    requires CategoryIds(st) <= CategoryIds(st') && UserIds(st) <= UserIds(st')
    requires l.category in CategoryIds(st') && l.seller in UserIds(st')
    ensures ListingsOk(st')
  {
    forall i, j | 0 <= i < j < |st'.listings|
      ensures ListingId(st'.listings[i]) < ListingId(st'.listings[j])
      ensures CreatedAt(st'.listings[i]) < CreatedAt(st'.listings[j])
    {
      assert st'.listings[i] in st.listings;
    }
    assert forall x :: x in st'.listings ==> x in st.listings || x == l;
  }

  /** A listing with a fresh id changes no thread's seller. */
  lemma AppendListingThreads(st: Store, st': Store, l: Listing)
    requires ConversationsOk(st) && OneThreadPerBuyer(st)
    requires st'.listings == st.listings + [l] && st'.conversations == st.conversations
    requires l.id !in ListingIds(st)
    ensures OneThreadPerBuyer(st')
  {
    forall c | c in st.conversations
      ensures SellersOf(st', c.listing) == SellersOf(st, c.listing)
    {
      assert c.listing != l.id;
      assert forall x :: x in st'.listings ==> x in st.listings || x == l;
    }
  }

  lemma CreateKeepsValid(st: Store, actor: nat, req: Request<ListingForm>)
    requires Valid(st) && IsUser(st, actor)
    ensures Valid(Create(st, actor, req).store)
    ensures CreationStable(st, Create(st, actor, req).store)
  {
    var r := Create(st, actor, req).store;
    CreationStableRefl(st);
    if req.Post? && AcceptsNew(st, req.form) {
      var l := r.listings[|st.listings|];
      assert r.listings == st.listings + [l];
      assert ListingIds(st) <= ListingIds(r);
      UsersFrame(st, r);
      CategoriesFrame(st, r);
      AppendListingOk(st, r, l);
      ConversationsFrame(st, r);
      MessagesFrame(st, r);
      AppendListingThreads(st, r, l);
    }
  }

  // ---------------------------------------------------------------------
  // Edit and delete: `get_object_or_404(Listing, pk=pk, seller=request.user)`.

  /** The acting user is the seller of the listing with id `pk`. */
  predicate Owns(st: Store, actor: nat, pk: nat) {
    exists l :: l in st.listings && l.id == pk && l.seller == actor
  }

  /** The fields of `EditListingForm`; `valid` stands for the field checks. */
  datatype EditForm = EditForm(
    title: string,
    description: Option<string>,
    price: int,
    image: Option<string>,
    isSold: bool,
    valid: bool)

  /** `form.save()` on the row with id `pk`: only the form's fields change. */
  function Edited(l: Listing, pk: nat, f: EditForm): Listing {
    if l.id == pk then l.(title := f.title, description := f.description, price := f.price, image := f.image, isSold := f.isSold)
    else l
  }

  /** `edit`: a non-owner, or a pk no listing has, gets the same 404 and
      nothing is written; a valid POST by the owner overwrites exactly the
      five editable fields of that listing. */
  function Edit(st: Store, actor: nat, pk: nat, req: Request<EditForm>): (r: Transition)
    requires IsUser(st, actor)
    ensures !Owns(st, actor, pk) ==> r == Transition(st, NotFound)
    ensures Owns(st, actor, pk) && !(req.Post? && req.form.valid) ==> r == Transition(st, Rendered)
    ensures Owns(st, actor, pk) && req.Post? && req.form.valid ==>
      && r.outcome == Redirect(ListingDetail(pk))
      && r.store == st.(listings := r.store.listings)
      && |r.store.listings| == |st.listings|
      && forall i :: 0 <= i < |st.listings| ==>
           var (l, l') := (st.listings[i], r.store.listings[i]);
           && l'.id == l.id && l'.category == l.category && l'.seller == l.seller && l'.createdAt == l.createdAt
           && (l.id != pk ==> l' == l)
           && (l.id == pk ==>
                 && l'.title == req.form.title && l'.description == req.form.description
                 && l'.price == req.form.price && l'.image == req.form.image && l'.isSold == req.form.isSold)
  {
    if !Owns(st, actor, pk) then Transition(st, NotFound)
    else if req.Post? && req.form.valid then
      var f := req.form;
      Transition(st.(listings := Map(st.listings, (l: Listing) => Edited(l, pk, f))), Redirect(ListingDetail(pk)))
    else
      Transition(st, Rendered)
  }

  /** Two listing tables, row by row, agree on everything the rest of the
      store refers to: ids, categories, sellers and creation times. */
  ghost predicate SameKeys(ls: seq<Listing>, ls': seq<Listing>) {
    && |ls'| == |ls|
    && forall i :: 0 <= i < |ls| ==>
         && ls'[i].id == ls[i].id && ls'[i].category == ls[i].category
         && ls'[i].seller == ls[i].seller && ls'[i].createdAt == ls[i].createdAt
  }

  lemma SameKeysIds(st: Store, st': Store)
    requires SameKeys(st.listings, st'.listings)
    ensures ListingIds(st') == ListingIds(st)
    ensures forall k :: SellersOf(st', k) == SellersOf(st, k)
  {
    forall x | x in ListingIds(st') ensures x in ListingIds(st) {
      var l' :| l' in st'.listings && l'.id == x;
      var i :| 0 <= i < |st'.listings| && st'.listings[i] == l';
      assert st.listings[i] in st.listings;
    }
    forall x | x in ListingIds(st) ensures x in ListingIds(st') {
      var l :| l in st.listings && l.id == x;
      var i :| 0 <= i < |st.listings| && st.listings[i] == l;
      assert st'.listings[i] in st'.listings;
    }
    forall k, u | u in SellersOf(st', k) ensures u in SellersOf(st, k) {
      var l' :| l' in st'.listings && l'.id == k && l'.seller == u;
      var i :| 0 <= i < |st'.listings| && st'.listings[i] == l';
      assert st.listings[i] in st.listings;
    }
    forall k, u | u in SellersOf(st, k) ensures u in SellersOf(st', k) {
      var l :| l in st.listings && l.id == k && l.seller == u;
      var i :| 0 <= i < |st.listings| && st.listings[i] == l;
      assert st'.listings[i] in st'.listings;
    }
  }

  lemma SameKeysAscending(ls: seq<Listing>, ls': seq<Listing>, key: Listing -> int)
    requires SameKeys(ls, ls') && Ascending(ls, key)
    requires forall i :: 0 <= i < |ls| ==> key(ls'[i]) == key(ls[i])
    ensures Ascending(ls', key)
  {
    forall i, j | 0 <= i < j < |ls'|
      ensures key(ls'[i]) < key(ls'[j])
    {
    }
  }

  lemma SameKeysListingsOk(st: Store, st': Store)
    requires ListingsOk(st) && SameKeys(st.listings, st'.listings)
    requires st'.nextId == st.nextId && st'.clock == st.clock
    requires st'.categories == st.categories && st'.users == st.users
    ensures ListingsOk(st')
  {
    SameKeysAscending(st.listings, st'.listings, ListingId);
    SameKeysAscending(st.listings, st'.listings, CreatedAt);
    forall l' | l' in st'.listings
      ensures l'.id < st'.nextId && l'.createdAt <= st'.clock
      ensures l'.category in CategoryIds(st') && l'.seller in UserIds(st')
    {
      var i :| 0 <= i < |st'.listings| && st'.listings[i] == l';
      assert st.listings[i] in st.listings;
    }
  }

  lemma SameKeysStable(st: Store, st': Store)
    requires Valid(st) && SameKeys(st.listings, st'.listings)
    requires st' == st.(listings := st'.listings)
    ensures CreationStable(st, st')
  {
    CreationStableRefl(st);
    forall l, l' | l in st.listings && l' in st'.listings && l.id == l'.id
      ensures l'.createdAt == l.createdAt && l'.seller == l.seller && l'.category == l.category
    {
      var i :| 0 <= i < |st'.listings| && st'.listings[i] == l';
      var j :| 0 <= j < |st.listings| && st.listings[j] == l;
      assert ListingId(st.listings[i]) == ListingId(st.listings[j]);
    }
  }

  lemma EditKeepsValid(st: Store, actor: nat, pk: nat, req: Request<EditForm>)
    requires Valid(st) && IsUser(st, actor)
    ensures Valid(Edit(st, actor, pk, req).store)
    ensures CreationStable(st, Edit(st, actor, pk, req).store)
  {
    var r := Edit(st, actor, pk, req).store;
    assert SameKeys(st.listings, r.listings);
    SameKeysIds(st, r);
    UsersFrame(st, r);
    CategoriesFrame(st, r);
    SameKeysListingsOk(st, r);
    ConversationsFrame(st, r);
    MessagesFrame(st, r);
    SameKeysStable(st, r);
  }

  /** The conversations on listing `pk`, which `on_delete=CASCADE` removes
      with it. */
  function ThreadsOn(st: Store, pk: nat): set<nat> {
    set c | c in st.conversations && c.listing == pk :: c.id
  }

  function NotListing(pk: nat): Listing -> bool {
    (l: Listing) => l.id != pk
  }

  function NotOnListing(pk: nat): Conversation -> bool {
    (c: Conversation) => c.listing != pk
  }

  function NotIn(gone: set<nat>): Message -> bool {
    (m: Message) => m.conversation !in gone
  }

  /** `delete`: a non-owner, or a pk no listing has, gets the same 404 and
      nothing is written; the owner's request removes exactly that listing,
      its conversations and their messages, and redirects to the browse
      page. */
  function Delete(st: Store, actor: nat, pk: nat): (r: Transition)
    requires IsUser(st, actor)
    ensures !Owns(st, actor, pk) ==> r == Transition(st, NotFound)
    ensures Owns(st, actor, pk) ==>
      && r.outcome == Redirect(ListingIndex)
      && r.store == st.(listings := r.store.listings, conversations := r.store.conversations, messages := r.store.messages)
      && (forall l :: l in r.store.listings <==> l in st.listings && l.id != pk)
      && (forall c :: c in r.store.conversations <==> c in st.conversations && c.listing != pk)
      && (forall m :: m in r.store.messages <==> m in st.messages && m.conversation !in ThreadsOn(st, pk))
  {
    if !Owns(st, actor, pk) then Transition(st, NotFound)
    else
      FilterMembers(st.listings, NotListing(pk));
      FilterMembers(st.conversations, NotOnListing(pk));
      FilterMembers(st.messages, NotIn(ThreadsOn(st, pk)));
      var st' := st.(
        listings := Filter(st.listings, NotListing(pk)),
        conversations := Filter(st.conversations, NotOnListing(pk)),
        messages := Filter(st.messages, NotIn(ThreadsOn(st, pk))));
      Transition(st', Redirect(ListingIndex))
  }

  lemma DeleteKeepsValid(st: Store, actor: nat, pk: nat)
    requires Valid(st) && IsUser(st, actor)
    ensures Valid(Delete(st, actor, pk).store)
    ensures CreationStable(st, Delete(st, actor, pk).store)
  {
    var r := Delete(st, actor, pk).store;
    CreationStableRefl(st);
    if Owns(st, actor, pk) {
      UsersFrame(st, r);
      CategoriesFrame(st, r);
      assert forall k :: k != pk ==> SellersOf(r, k) == SellersOf(st, k);
      assert ListingsOk(r) by {
        FilterAscending(st.listings, NotListing(pk), ListingId);
        FilterAscending(st.listings, NotListing(pk), CreatedAt);
      }
      assert ConversationsOk(r) by {
        forall c | c in r.conversations
          ensures c.listing in ListingIds(r)
        {
          var l :| l in st.listings && l.id == c.listing;
          assert l in r.listings;
        }
      }
      assert MessagesOk(r) by {
        forall m | m in r.messages
          ensures m.conversation in ConversationIds(r)
        {
          var c :| c in st.conversations && c.id == m.conversation;
          assert c in r.conversations;
        }
      }
    }
  }
}
