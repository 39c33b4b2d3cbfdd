/** The seller's dashboard (dashboard/views.py). */
module DashboardViews {
  import opened Seqs
  import opened Models

  /** `index`: exactly the requesting user's listings, sold or not. */
  function Index(st: Store, actor: nat): (r: seq<Listing>)
    requires IsUser(st, actor)
    ensures forall l :: l in r <==> l in st.listings && l.seller == actor
  {
    OwnListings(st, actor)
  }

  /** The dashboard lists the user's listings newest first. */
  lemma IndexOrder(st: Store, actor: nat)
    requires ListingsOk(st) && IsUser(st, actor)
    ensures Descending(Index(st, actor), CreatedAt)
  {
    OwnListingsOrder(st, actor);
  }
}
