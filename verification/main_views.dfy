/** The site's front pages (main/views.py): the homepage and sign-up. */
module MainViews {
  import opened Seqs
  import opened Models
  import opened Http
  import opened ListingViews

  /** How many listings the homepage shows. */
  const HomeLimit: nat := 6

  datatype HomePage = HomePage(listings: seq<Listing>, categories: seq<Category>)

  /** `index`: `Listing.objects.filter(is_sold=False).order_by('-id')[:6]`
      and every category. Rows are stored in increasing id order, so
      reversing the stored order sorts by decreasing id. */
  function Index(st: Store): (r: HomePage)
    ensures |r.listings| <= HomeLimit
    ensures r.categories == st.categories
    ensures forall i :: 0 <= i < |r.listings| ==> r.listings[i] in st.listings && !r.listings[i].isSold
  {
    FilterMembers(st.listings, Unsold);
    ReverseMembers(Filter(st.listings, Unsold));
    HomePage(Take(NewestFirst(Filter(st.listings, Unsold)), HomeLimit), st.categories)
  }

  /** The homepage shows the unsold listings with the largest ids, in
      decreasing id order: an unsold listing is left out only when all six
      places hold listings with larger ids. */
  lemma HomeShowsNewest(st: Store)
    requires ListingsOk(st)
    ensures Descending(Index(st).listings, ListingId)
    ensures forall x :: x in st.listings && !x.isSold && x !in Index(st).listings ==>
      && |Index(st).listings| == HomeLimit
      && forall i :: 0 <= i < HomeLimit ==> Index(st).listings[i].id > x.id
  {
    NewestFirstOrder(st, Unsold);
    TakeDescending(NewestFirst(Filter(st.listings, Unsold)), HomeLimit, ListingId);
    NewestTake(st, Unsold, HomeLimit);
  }

  /** main/tests.py, `test_newest_listings_shown`: a listing just created
      heads the homepage. */
  lemma NewListingOnHome(st: Store, actor: nat, req: Request<ListingForm>)
    requires IsUser(st, actor)
    requires req.Post? && AcceptsNew(st, req.form)
    ensures var st' := Create(st, actor, req).store;
      |Index(st').listings| > 0 && Index(st').listings[0] == st'.listings[|st.listings|]
  {
    var st' := Create(st, actor, req).store;
    var l := st'.listings[|st.listings|];
    assert st'.listings == st.listings + [l];
    FilterSnoc(st.listings, l, Unsold);
  }

  /** The fields of `SignUpForm`; `valid` stands for the checks of the
      form library other than the two below. */
  datatype SignupForm = SignupForm(username: string, email: string, password1: string, password2: string, valid: bool)

  predicate UsernameTaken(st: Store, name: string) {
    exists u :: u in st.users && u.username == name
  }

  /** `SignUpForm.is_valid()`: the two passwords agree and no stored user
      has the username. */
  predicate AcceptsSignup(st: Store, f: SignupForm) {
    f.valid && f.password1 == f.password2 && !UsernameTaken(st, f.username)
  }

  /** `signup`: valid input adds exactly one user and redirects to the login
      page; anything else renders the form and adds no user. */
  function Signup(st: Store, req: Request<SignupForm>): (r: Transition)
    ensures !(req.Post? && AcceptsSignup(st, req.form)) ==> r == Transition(st, Rendered)
    ensures req.Post? && AcceptsSignup(st, req.form) ==>
      && r.outcome == Redirect(LoginPage)
      && r.store == st.(users := r.store.users, nextId := r.store.nextId)
      && |r.store.users| == |st.users| + 1
      && r.store.users[..|st.users|] == st.users
      && var u := r.store.users[|st.users|];
         && u.username == req.form.username && u.email == req.form.email
         && u.firstName == "" && u.lastName == ""
         && (UsersOk(st) ==> u.id !in UserIds(st))
  {
    if req.Post? && AcceptsSignup(st, req.form) then
      var u := User(st.nextId, req.form.username, req.form.email, "", "");
      Transition(st.(users := st.users + [u], nextId := st.nextId + 1), Redirect(LoginPage))
    else
      Transition(st, Rendered)
  }

  /** main/tests.py, `test_create_new_user`, `test_passwords_dont_match` and
      `test_username_already_exists`: the username exists afterwards exactly
      when it existed before or the sign-up was accepted. */
  lemma SignupUsername(st: Store, req: Request<SignupForm>, name: string)
    ensures UsernameTaken(Signup(st, req).store, name) <==>
      UsernameTaken(st, name) || (req.Post? && AcceptsSignup(st, req.form) && req.form.username == name)
  {
    var r := Signup(st, req).store;
    if req.Post? && AcceptsSignup(st, req.form) {
      var u := r.users[|st.users|];
      assert r.users == st.users + [u];
      assert u in r.users;
      assert forall v :: v in r.users ==> v in st.users || v == u;
    }
  }

  lemma SignupKeepsValid(st: Store, req: Request<SignupForm>)
    requires Valid(st)
    ensures Valid(Signup(st, req).store)
  {
    var r := Signup(st, req).store;
    if req.Post? && AcceptsSignup(st, req.form) {
      var u := r.users[|st.users|];
      assert r.users == st.users + [u];
      assert forall v :: v in r.users ==> v in st.users || v == u;
      assert UserIds(r) == UserIds(st) + {u.id};
      CategoriesFrame(st, r);
      ListingsFrame(st, r);
      ConversationsFrame(st, r);
      MessagesFrame(st, r);
      OneThreadFrame(st, r);
    }
  }
}
