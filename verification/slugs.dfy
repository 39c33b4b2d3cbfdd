/** Category slugs (`Category._build_unique_slug` and `Category.save` in
    listings/models.py).

    The base is the slugified name, or "category" when that is empty, cut to
    45 characters. Candidates are tried in order: the base, then base-2,
    base-3, ... until no other category holds the candidate. The slugify
    function of the web framework is not part of this model: it is passed in
    as a parameter and only its result is used. */
module Slugs {
  import opened Base
  import opened Text
  import opened Seqs
  import opened Models

  /** `SlugField()` default `max_length`. */
  const SlugMaxLength: nat := 50
  /** Room left for a "-<n>" suffix. */
  const BaseMaxLength: nat := 45
  const FallbackSlug: string := "category"

  function BaseSlug(slugified: string): (b: string)
    ensures 1 <= |b| <= BaseMaxLength
    ensures slugified == "" ==> b == FallbackSlug
    ensures slugified != "" ==> IsPrefix(b, slugified)
    ensures slugified != "" && |slugified| <= BaseMaxLength ==> b == slugified
    ensures |slugified| > BaseMaxLength ==> |b| == BaseMaxLength
  {
    Truncate(if slugified == "" then FallbackSlug else slugified, BaseMaxLength)
  }

  /** The n-th candidate tried (n >= 1): the base itself, then base-n. */
  function Candidate(base: string, n: nat): string
    requires n >= 1
  {
    if n == 1 then base else base + "-" + NatToString(n)
  }

  /** Different attempts never produce the same candidate. */
  lemma CandidateInjective(base: string, j: nat, k: nat)
    requires 1 <= j && 1 <= k && j != k
    ensures Candidate(base, j) != Candidate(base, k)
  {
    if j >= 2 && k >= 2 {
      var p := base + "-";
      assert Candidate(base, j) == p + NatToString(j);
      assert Candidate(base, k) == p + NatToString(k);
      if Candidate(base, j) == Candidate(base, k) {
        assert (p + NatToString(j))[|p|..] == NatToString(j);
        assert (p + NatToString(k))[|p|..] == NatToString(k);
        NatToStringInjective(j, k);
      }
    }
  }

  /** The first `n` candidates. */
  function CandidatesUpTo(base: string, n: nat): set<string>
    decreases n
  {
    if n == 0 then {} else CandidatesUpTo(base, n - 1) + {Candidate(base, n)}
  }

  lemma {:induction false} LaterCandidateNotAmong(base: string, n: nat, m: nat)
    requires m > n && m >= 1
    ensures Candidate(base, m) !in CandidatesUpTo(base, n)
    decreases n
  {
    if n > 0 {
      LaterCandidateNotAmong(base, n - 1, m);
      CandidateInjective(base, n, m);
    }
  }

  lemma {:induction false} CandidatesUpToSize(base: string, n: nat)
    ensures |CandidatesUpTo(base, n)| == n
    decreases n
  {
    if n > 0 {
      CandidatesUpToSize(base, n - 1);
      LaterCandidateNotAmong(base, n - 1, n);
      var prev := CandidatesUpTo(base, n - 1);
      var c := Candidate(base, n);
      assert CandidatesUpTo(base, n) == prev + {c};
      assert |prev + {c}| == |prev| + 1;
    }
  }

  lemma {:induction false} CandidatesUpToTaken(base: string, taken: set<string>, n: nat)
    requires forall j :: 1 <= j <= n ==> Candidate(base, j) in taken
    ensures CandidatesUpTo(base, n) <= taken
    decreases n
  {
    if n > 0 {
      CandidatesUpToTaken(base, taken, n - 1);
    }
  }

  lemma {:induction false} SubsetSize<T>(a: set<T>, b: set<T>)
    requires a <= b
    ensures |a| <= |b|
    decreases |a|
  {
    if a != {} {
      var x :| x in a;
      SubsetSize(a - {x}, b - {x});
    }
  }

  /** Only finitely many slugs exist, so only finitely many candidates can be
      blocked: if the first `n` are all taken, there are at least `n` slugs. */
  lemma TakenBound(base: string, taken: set<string>, n: nat)
    requires forall j :: 1 <= j <= n ==> Candidate(base, j) in taken
    ensures n <= |taken|
  {
    CandidatesUpToSize(base, n);
    CandidatesUpToTaken(base, taken, n);
    SubsetSize(CandidatesUpTo(base, n), taken);
  }

  /** The retry loop of `_build_unique_slug`, from attempt `n` on: the
      attempt number of the first free candidate. It terminates because each
      blocked attempt uses up one more of the finitely many taken slugs. */
  function FirstFree(base: string, taken: set<string>, n: nat): (k: nat)
    requires n >= 1
    requires forall j :: 1 <= j < n ==> Candidate(base, j) in taken
    ensures k >= n
    ensures Candidate(base, k) !in taken
    ensures forall j :: 1 <= j < k ==> Candidate(base, j) in taken
    decreases |taken| - n
  {
    if Candidate(base, n) !in taken then n
    else
      TakenBound(base, taken, n);
      FirstFree(base, taken, n + 1)
  }

  /** Slugs held by the stored categories other than the one being saved
      (`.exclude(pk=self.pk)`; an unsaved category has no pk and excludes
      nothing). */
  function TakenSlugs(cats: seq<Category>, self: Option<nat>): set<string> {
    set c | c in cats && (self.None? || c.id != self.value) :: c.slug
  }

  /** `_build_unique_slug`: the base if it is free, otherwise base-k for the
      first k >= 2 such that base-k is free. */
  function BuildUniqueSlug(cats: seq<Category>, self: Option<nat>, slugified: string): (slug: string)
    ensures slug !in TakenSlugs(cats, self)
    ensures BaseSlug(slugified) !in TakenSlugs(cats, self) ==> slug == BaseSlug(slugified)
    ensures BaseSlug(slugified) in TakenSlugs(cats, self) ==>
      exists k :: k >= 2 && slug == BaseSlug(slugified) + "-" + NatToString(k) &&
        forall j :: 2 <= j < k ==> BaseSlug(slugified) + "-" + NatToString(j) in TakenSlugs(cats, self)
  {
    var base := BaseSlug(slugified);
    var taken := TakenSlugs(cats, self);
    var k := FirstFree(base, taken, 1);
    if k >= 2 then
      assert forall j :: 2 <= j < k ==> Candidate(base, j) == base + "-" + NatToString(j);
      Candidate(base, k)
    else
      Candidate(base, k)
  }

  /** A generated slug fits the 50-character column unless ten thousand
      categories share its base. */
  lemma CandidateFitsColumn(base: string, k: nat)
    requires |base| <= BaseMaxLength
    requires 2 <= k < 10000
    ensures |base + "-" + NatToString(k)| <= SlugMaxLength
  {
    NatToStringLength(k, 4);
  }

  datatype CategorySave = Saved(store: Store, category: Category) | IntegrityError

  /** `Category.save`: generate the slug when it is empty, then insert (no pk,
      or a pk no row has) or update the row with that pk. A slug another
      category already holds violates the `unique=True` constraint. */
  function SaveCategory(st: Store, pk: Option<nat>, name: string, slug: string, slugify: string -> string)
    : (r: CategorySave)
    ensures slug == "" ==> r.Saved?
    ensures slug != "" ==> (r.IntegrityError? <==> slug in TakenSlugs(st.categories, pk))
    ensures r.Saved? && slug != "" ==> r.category.slug == slug
    ensures r.Saved? && slug == "" ==> r.category.slug == BuildUniqueSlug(st.categories, pk, slugify(name))
    ensures r.Saved? ==> r.category.slug !in TakenSlugs(st.categories, pk)
    ensures r.Saved? ==> r.category.name == name && r.category in r.store.categories
    ensures r.Saved? && pk.Some? ==> r.category.id == pk.value
    ensures r.Saved? && pk.None? && CategoriesOk(st) ==> r.category.id !in CategoryIds(st)
    ensures r.Saved? ==> r.store == st.(categories := r.store.categories, nextId := r.store.nextId)
    ensures r.Saved? ==> forall c :: c in st.categories && c.id != r.category.id ==> c in r.store.categories
    ensures r.Saved? ==> forall c :: c in r.store.categories ==> c == r.category || c in st.categories
  {
    var final := if slug == "" then BuildUniqueSlug(st.categories, pk, slugify(name)) else slug;
    if final in TakenSlugs(st.categories, pk) then
      IntegrityError
    else
      match pk
      case None =>
        var c := Category(st.nextId, name, final);
        Saved(st.(categories := st.categories + [c], nextId := st.nextId + 1), c)
      case Some(p) =>
        var c := Category(p, name, final);
        if p in CategoryIds(st) then
          Saved(st.(categories := Map(st.categories, (d: Category) => if d.id == p then c else d)), c)
        else
          Saved(st.(categories := st.categories + [c], nextId := Max(st.nextId, p + 1)), c)
  }

  /** Saving a category keeps the store consistent; in particular slugs
      stay unique. */
  lemma SaveCategoryKeepsValid(st: Store, pk: Option<nat>, name: string, slug: string, slugify: string -> string)
    requires Valid(st)
    ensures SaveCategory(st, pk, name, slug, slugify).Saved? ==> Valid(SaveCategory(st, pk, name, slug, slugify).store)
  {
    var r := SaveCategory(st, pk, name, slug, slugify);
    if r.Saved? {
      var st' := r.store;
      var c := r.category;
      forall d | d in st.categories
        ensures d.id in CategoryIds(st')
      {
        if d.id != c.id {
          assert d in st'.categories;
        }
      }
      assert CategoryIds(st) <= CategoryIds(st');
      forall d, e | d in st'.categories && e in st'.categories && d.slug == e.slug
        ensures d == e
      {
        if d != c && e != c {
          assert d in st.categories && e in st.categories;
        }
      }
      assert CategoriesOk(st');
    }
  }

  /** listings/tests.py, `test_creates_slug_from_name`: with the framework's
      slugify giving "electronics-gadgets", the first category gets exactly
      that slug. */
  lemma ElectronicsSlug(slugify: string -> string)
    requires slugify("Electronics & Gadgets") == "electronics-gadgets"
    ensures SaveCategory(EmptyStore(), None, "Electronics & Gadgets", "", slugify).Saved?
    ensures SaveCategory(EmptyStore(), None, "Electronics & Gadgets", "", slugify).category.slug == "electronics-gadgets"
  {
    assert TakenSlugs(EmptyStore().categories, None) == {};
  }

  /** listings/tests.py, `test_unique_slug_generation`: two categories
      named "Books" get "books" and "books-2". */
  lemma BooksTwice(slugify: string -> string)
    requires slugify("Books") == "books"
    ensures var r1 := SaveCategory(EmptyStore(), None, "Books", "", slugify);
      && r1.Saved? && r1.category.slug == "books"
      && var r2 := SaveCategory(r1.store, None, "Books", "", slugify);
      && r2.Saved? && r2.category.slug == "books-2"
  {
    var r1 := SaveCategory(EmptyStore(), None, "Books", "", slugify);
    assert TakenSlugs(EmptyStore().categories, None) == {};
    assert BaseSlug("books") == "books";
    assert r1.category.slug == "books";
    var r2 := SaveCategory(r1.store, None, "Books", "", slugify);
    assert r1.store.categories == [Category(0, "Books", "books")];
    assert TakenSlugs(r1.store.categories, None) == {"books"};
    assert NatToString(2) == "2";
    assert Candidate("books", 2) == "books-2";
  }

  /** Two categories saved one after the other from the same name never
      share a slug. */
  lemma SameNameDistinctSlugs(st: Store, name: string, slugify: string -> string)
    requires Valid(st)
    ensures var r1 := SaveCategory(st, None, name, "", slugify);
      var r2 := SaveCategory(r1.store, None, name, "", slugify);
      r1.category.slug != r2.category.slug
  {
  }
}
