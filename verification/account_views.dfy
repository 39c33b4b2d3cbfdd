/** The account pages (account/views.py): the profile with the user's own
    listings, and editing the profile. */
module AccountViews {
  import opened Seqs
  import opened Models
  import opened Http

  /** The template context: `user_obj` and `listings`. */
  datatype AccountPage = AccountPage(user: User, listings: seq<Listing>)

  /** `profile`: the requesting user and exactly their listings, sold or
      not, newest first. */
  function Profile(st: Store, actor: nat): (r: AccountPage)
    requires IsUser(st, actor)
    ensures r.user in st.users && r.user.id == actor
    ensures forall l :: l in r.listings <==> l in st.listings && l.seller == actor
  {
    var u := FindUser(st.users, actor).value;
    AccountPage(u, OwnListings(st, actor))
  }

  lemma ProfileOrder(st: Store, actor: nat)
    requires ListingsOk(st) && IsUser(st, actor)
    ensures Descending(Profile(st, actor).listings, CreatedAt)
  {
    OwnListingsOrder(st, actor);
  }

  /** The fields of `ProfileForm`; `valid` stands for the field checks (an
      e-mail address that does not parse is refused). */
  datatype ProfileForm = ProfileForm(firstName: string, lastName: string, email: string, valid: bool)

  /** `form.save()` on the requesting user's row: only the three profile
      fields change. */
  function WithProfile(u: User, actor: nat, f: ProfileForm): User {
    if u.id == actor then u.(firstName := f.firstName, lastName := f.lastName, email := f.email) else u
  }

  /** `edit_profile`: a valid POST overwrites the user's first name, last
      name and e-mail and redirects to the profile; anything else renders the
      form and writes nothing. */
  function EditProfile(st: Store, actor: nat, req: Request<ProfileForm>): (r: Transition)
    requires IsUser(st, actor)
    ensures !(req.Post? && req.form.valid) ==> r == Transition(st, Rendered)
    ensures req.Post? && req.form.valid ==>
      && r.outcome == Redirect(ProfilePage)
      && r.store == st.(users := r.store.users)
      && |r.store.users| == |st.users|
      && forall i :: 0 <= i < |st.users| ==>
           var (u, u') := (st.users[i], r.store.users[i]);
           && u'.id == u.id && u'.username == u.username
           && (u.id != actor ==> u' == u)
           && (u.id == actor ==> u'.firstName == req.form.firstName && u'.lastName == req.form.lastName && u'.email == req.form.email)
  {
    if req.Post? && req.form.valid then
      var f := req.form;
      Transition(st.(users := Map(st.users, (u: User) => WithProfile(u, actor, f))), Redirect(ProfilePage))
    else
      Transition(st, Rendered)
  }

  /** Two user tables, row by row, agree on ids and usernames. */
  ghost predicate SameLogins(us: seq<User>, us': seq<User>) {
    && |us'| == |us|
    && forall i :: 0 <= i < |us| ==> us'[i].id == us[i].id && us'[i].username == us[i].username
  }

  lemma SameLoginsIds(st: Store, st': Store)
    requires SameLogins(st.users, st'.users)
    ensures UserIds(st') == UserIds(st)
  {
    forall x | x in UserIds(st') ensures x in UserIds(st) {
      var u' :| u' in st'.users && u'.id == x;
      var i :| 0 <= i < |st'.users| && st'.users[i] == u';
      assert st.users[i] in st.users;
    }
    forall x | x in UserIds(st) ensures x in UserIds(st') {
      var u :| u in st.users && u.id == x;
      var i :| 0 <= i < |st.users| && st.users[i] == u;
      assert st'.users[i] in st'.users;
    }
  }

  lemma SameLoginsUsersOk(st: Store, st': Store)
    requires UsersOk(st) && SameLogins(st.users, st'.users) && st'.nextId == st.nextId
    requires forall i, j :: 0 <= i < |st.users| && 0 <= j < |st.users| && st.users[i] == st.users[j] ==> st'.users[i] == st'.users[j]
    ensures UsersOk(st')
  {
    forall u', v' | u' in st'.users && v' in st'.users && (u'.id == v'.id || u'.username == v'.username)
      ensures u' == v'
    {
      var i :| 0 <= i < |st'.users| && st'.users[i] == u';
      var j :| 0 <= j < |st'.users| && st'.users[j] == v';
      assert st.users[i] in st.users && st.users[j] in st.users;
    }
    forall u' | u' in st'.users ensures u'.id < st'.nextId {
      var i :| 0 <= i < |st'.users| && st'.users[i] == u';
      assert st.users[i] in st.users;
    }
  }

  /** Editing a profile changes no id and no username, so the store stays
      consistent. */
  lemma EditProfileKeepsValid(st: Store, actor: nat, req: Request<ProfileForm>)
    requires Valid(st) && IsUser(st, actor)
    ensures Valid(EditProfile(st, actor, req).store)
  {
    var r := EditProfile(st, actor, req).store;
    if req.Post? && req.form.valid {
      assert SameLogins(st.users, r.users);
      SameLoginsIds(st, r);
      SameLoginsUsersOk(st, r);
      CategoriesFrame(st, r);
      ListingsFrame(st, r);
      ConversationsFrame(st, r);
      MessagesFrame(st, r);
      OneThreadFrame(st, r);
    }
  }
}
