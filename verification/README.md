# I-Haul marketplace core in Dafny

I-Haul is a campus marketplace written as a Django site: sellers list items under
categories, buyers browse and search the unsold ones, and a buyer opens a
conversation with the seller about a listing. This project models that core as
pure functions over an immutable store and proves what the views and models
promise.

- **Store.** `Models.Store` holds the rows of the user, category, listing,
  conversation and message tables, plus a clock and an id counter.
  - Rows are kept in insertion order.
  - New rows saved without an explicit pk take the next id.
  - Every save that stamps a `DateTimeField` with `auto_now`/`auto_now_add`
    takes the next tick of the clock.
- **Consistency.** `Models.Valid` states what the database keeps true:
  - primary keys are unique;
  - category slugs are unique;
  - foreign keys point at stored rows;
  - no timestamp lies ahead of the clock;
  - listings are stored in increasing id and creation-time order;
  - two different threads on one listing share no member except its seller.

  Every write operation has a lemma showing that it preserves `Valid`.
- **Views.** Each view is a function of the store, the acting user and the
  request.
  - A GET is `Http.Request.Get`. A POST carries the form's fields.
  - The form library's own field checks are the form's `valid` flag.
  - Three checks the form library makes are written out instead of being
    folded into `valid`: the category exists (`NewListingForm`'s choice
    field), the passwords match and the username is free
    (`UserCreationForm`).
  - A view that writes returns an `Http.Transition`: the new store together
    with its outcome, which is a rendered page, a redirect to a named target,
    a 404 (`NotFound`), or a failed plain `.get()` (`ObjectMissing`).
  - A view that only reads returns its template context instead:
    `ListingViews.Index`, `ListingViews.Detail`, `MainViews.Index`,
    `AccountViews.Profile`, `DashboardViews.Index` and
    `ConversationViews.Inbox`. The listing page's 404 is
    `DetailResult.Missing`. A non-numeric category on the browse page is
    `BrowseResult.BadCategory`.
- **Slugs.** `slugify` from the web framework is a parameter of the slug
  functions.

Modules:

- `Base` holds `Option`, `Min` and `Max`.
- `Seqs` holds filter, prefix, reverse, map and an insertion sort, with their
  lemmas.
- `Text` holds substring search, ASCII case folding, and rendering and parsing
  of decimals.
- `Models` and `Http` hold the tables, the invariant, lookups, the default
  orderings and the outcomes.
- `Slugs` models category slugs and `Category.save`.
- `ConversationModels` models thread creation, the `modified_at` touch and
  message saves.
- `ListingViews`, `ConversationViews`, `MainViews`, `AccountViews` and
  `DashboardViews` each model one views file.

Two failures are server errors, not 404s.

- `conversations/views.py` `detail` looks the thread up with a plain `.get()`
  (conversations/views.py:60). A non-member or a missing id raises
  `DoesNotExist`. Listing edit and delete use `get_object_or_404`
  (listings/views.py:73, 91) and answer 404. `ConversationViews.Detail`
  returns `ObjectMissing` in that case and writes nothing.
- `listings/views.py` `index` filters by the raw category parameter
  (listings/views.py:22-23) and converts it with `int()` (listings/views.py:35).
  Neither catches the `ValueError` that a non-numeric value raises. A non-numeric
  category is therefore an error. `ListingViews.Index` returns `BadCategory`
  for it.

## Model

| member | source | states |
|---|---|---|
| Slugs.BaseSlug | listings/models.py:24-26 | The base is the slugified name, or "category" when that is empty. It is cut to at most 45 characters, so it is never empty. |
| Slugs.TakenBound | listings/models.py:29-31 | If the first n candidates are all held by other categories, there are at least n stored slugs. So the retry loop cannot run forever. |
| Slugs.FirstFree | listings/models.py:27-31 | The retry loop stops at the first free candidate. Every earlier candidate is taken. It terminates because the taken slugs are finite. |
| Slugs.BuildUniqueSlug | listings/models.py:23-32 | The slug is held by no other category, and the category's own pk is excluded from the check. It is the base when the base is free. Otherwise it is base-k for some k >= 2, and base and every base-j with 2 <= j < k were taken. |
| Slugs.CandidateFitsColumn | listings/models.py:25-26 | A suffixed slug stays within the 50-character column as long as the suffix is below 10000. |
| Slugs.SaveCategory | listings/models.py:34-38 | A non-empty slug is kept whatever the name is. An empty one is generated. The save fails with an integrity error exactly when a manual slug is taken. Otherwise the row is inserted or updated, and no other category changes. |
| Slugs.SaveCategoryKeepsValid | listings/models.py:11 | Saving a category keeps slugs unique and the store consistent. |
| Slugs.ElectronicsSlug | listings/tests.py:9-11 | A first category named 'Electronics & Gadgets' gets the slug 'electronics-gadgets'. |
| Slugs.BooksTwice | listings/tests.py:13-16 | Two categories named 'Books' get 'books' and 'books-2'. |
| Slugs.SameNameDistinctSlugs | listings/tests.py:13-16 | Two categories created one after the other with the same name never share a slug. |
| Text.ParseNatToString | listings/models.py:30 | Rendering the suffix number in decimal and parsing it back gives the number. Distinct attempts therefore give distinct candidates. |
| Text.ContainsIff | listings/views.py:26 | The substring scan finds the pattern exactly when it occurs at some position. |
| Text.ParseInt | listings/views.py:35-36 | The model of `int(category)` accepts exactly an optional `+` or `-` followed by one or more ASCII decimal digits, and gives their signed value. |
| Models.NewestFirstOrder | listings/models.py:55-57 | Any filter of the stored listings, in default order, is strictly newest first. It is also strictly decreasing by id. |
| Models.MostRecentFirst | conversations/models.py:20-22 | The default conversation order is by `modified_at`, most recent first. It is a permutation of the input. |
| Seqs.SortDesc | conversations/models.py:22 | Sorting by a key gives a non-increasing order of the same elements. |
| Models.OneThreadForEachBuyer | conversations/views.py:22-24 | In a consistent store, a user who is not the listing's seller is in at most one thread on that listing. |
| Models.OwnListings | account/views.py:11 | The query returns exactly the listings whose seller is the user, sold ones included. |
| ConversationModels.Touch | conversations/models.py:41-45 | Touching a thread changes only `modified_at`, and only on that thread, to a fresh time. No other row or field changes. |
| ConversationModels.TouchKeepsValid | conversations/models.py:18 | Touching a thread keeps the store consistent. |
| ConversationModels.TouchLatest | conversations/models.py:17-18 | After a touch, no thread is later than the new time, and the touched thread is the only one carrying it. |
| ConversationModels.CreateConversation | conversations/models.py:9-18 | A new thread takes a fresh id. Its creation and modification times are the current time. Only the thread table, clock and counter change. |
| ConversationModels.CreateConversationKeepsValid | conversations/views.py:22-31 | Adding a thread whose members are users, on a stored listing, keeps the store consistent. This requires that it shares no member but the seller with any existing thread on that listing. |
| ConversationModels.OnMessageSaved | conversations/models.py:41-45 | Only a newly created message touches its conversation, giving it a time later than the clock; nothing else in the store changes. A re-save changes nothing. |
| ConversationModels.OnMessageSavedKeepsValid | conversations/models.py:41-45 | The receiver keeps the store consistent, whether the save created the message or not. |
| ConversationModels.CreateMessage | conversations/models.py:29-45 | Creating a message appends it with the current time. The receiver then stamps only its own thread with a later time. |
| ConversationModels.CreateMessageAdvancesParent | conversations/models.py:42-45 | After a message is created, its thread's `modified_at` is strictly greater than before. |
| ConversationModels.CreateMessageKeepsValid | conversations/models.py:33 | A message posted to a stored thread by a stored user keeps every message attached to exactly one stored thread. |
| ConversationModels.ResaveMessage | conversations/models.py:43-45 | Re-saving an existing message touches no thread and does not move the clock. Only the content of that message changes; every message keeps its id, creation time, thread and author. |
| ConversationModels.ResaveMessageKeepsValid | conversations/models.py:29-36 | Re-saving a message keeps every id, thread, author and time, so the store stays consistent. |
| ListingViews.StagedIsOneFilter | listings/views.py:20-26 | Narrowing to unsold, then category, then keyword is the same as one filter by the conjunction of the active filters. |
| ListingViews.Index | listings/views.py:9-38 | The keyword is `query`, or `q` when `query` is empty. A non-numeric category is an error. The page holds exactly the stored listings that are unsold, in the given category (if any) and contain the keyword case-insensitively in title or non-null description (if any). All categories are listed. |
| ListingViews.IndexIsOneFilter | listings/views.py:20-32 | The browse page is exactly the subsequence of stored listings passing every active filter. It is in strictly newest-first order. |
| ListingViews.LaptopSearch | listings/tests.py:39-48 | Of 'Laptop' and 'Mouse', searching 'laptop' returns exactly one listing, the laptop. |
| ListingViews.Detail | listings/views.py:40-49 | The page is a 404 exactly when no listing has the pk. Otherwise it shows that listing and at most 3 related items. Each related item is stored, in the same category, unsold and not the listing itself. |
| ListingViews.RelatedAreNewest | listings/views.py:45 | The related items are newest first. A related listing is left out only when all 3 places hold newer related listings. |
| Models.NewestTake | listings/views.py:45 | The first n of a filter in default order are the n newest matching listings. |
| ListingViews.Create | listings/views.py:51-66 | A valid POST (category stored) appends one unsold listing with the form's fields and a fresh id. Its seller is the acting user whatever the input. It redirects to its detail page. Anything else renders the form and writes nothing. |
| ListingViews.CreateKeepsValid | listings/models.py:45-53 | Creating a listing keeps the store consistent. It keeps every existing row's creation time and owner. |
| ListingViews.Edit | listings/views.py:68-83 | A non-owner and a missing pk get the same 404 with the store unchanged. An owner's valid POST overwrites only title, description, price, image and is_sold of that listing. |
| ListingViews.EditKeepsValid | listings/forms.py:27 | Editing keeps every listing's id, category, seller and creation time, so the store stays consistent. |
| ListingViews.Delete | listings/views.py:85-93 | A non-owner and a missing pk get the same 404 with the store unchanged. The owner's request removes exactly that listing, its threads and their messages, then redirects to browse. |
| ListingViews.DeleteKeepsValid | conversations/models.py:13-36 | The cascade leaves no thread without its listing and no message without its thread. |
| ConversationViews.ThreadsWith | conversations/views.py:22 | The lookup returns exactly the threads on the listing that hold the user, each once (a permutation of the matching rows), most recently modified first. |
| ConversationViews.NewConversation | conversations/views.py:8-43 | Each case leads to one result: a missing listing is a 404; the seller is redirected to the listing before any thread lookup; a buyer with a thread is redirected to the most recently modified one. None of these writes. A valid POST adds exactly one thread with members {buyer, seller} and one message by the buyer, then redirects to the listing. A GET or an invalid POST renders the form and writes nothing. |
| ConversationViews.OpenThreadKeepsValid | conversations/views.py:26-39 | Opening a thread for a buyer who has none on the listing keeps the store consistent. |
| ConversationViews.NewConversationKeepsValid | conversations/views.py:15-43 | Every outcome of opening a conversation leaves a consistent store. |
| ConversationViews.NewConversationOneThread | conversations/views.py:22-31 | If at most one thread on the listing holds the acting user before, the same holds after. |
| ConversationViews.Inbox | conversations/views.py:46-52 | The inbox holds exactly the threads the user is a member of, each once (a permutation of the matching rows), most recently modified first. |
| ConversationViews.MemberConversation | conversations/views.py:60 | The lookup succeeds exactly when a thread with that id has the user as a member. |
| ConversationViews.Detail | conversations/views.py:55-75 | A non-member or a missing thread makes the lookup fail with nothing written. A member's valid POST appends exactly one message by them to that thread. It gives the thread a time later than anything before, keeps its listing, members and creation time, and redirects back. |
| ConversationViews.DetailKeepsValid | conversations/views.py:62-71 | Posting in a thread keeps the store consistent. |
| ConversationViews.LatestHeads | conversations/models.py:20-22 | In a list sorted by decreasing `modified_at`, a thread that alone carries the latest time comes first. |
| ConversationViews.TouchedHeadsInbox | conversations/models.py:41-45 | A thread just touched is first in the inbox of each of its members. |
| ConversationViews.PostTopsInbox | conversations/models.py:41-45 | After a member posts, the thread is first in the inbox of every one of its members. |
| MainViews.Index | main/views.py:5-14 | The homepage shows at most 6 listings, all stored and unsold, and all categories. |
| MainViews.HomeShowsNewest | main/views.py:9 | Homepage listings are in strictly decreasing id order. An unsold listing is left out only when all 6 places hold listings with larger ids. |
| MainViews.NewListingOnHome | main/tests.py:28-37 | A listing just created is first on the homepage. |
| MainViews.Signup | main/views.py:16-29 | Valid input (passwords match, username free) adds exactly one user with a fresh id and redirects to the login page. Anything else renders the form and writes nothing. |
| MainViews.SignupUsername | main/tests.py:85-113 | After sign-up, a username exists exactly when it existed before or was just accepted. |
| MainViews.SignupKeepsValid | main/views.py:22-26 | Signing up keeps usernames unique and the store consistent. |
| AccountViews.Profile | account/views.py:6-15 | The page shows the requesting user and exactly their listings, sold ones included. |
| AccountViews.ProfileOrder | account/views.py:11 | Profile listings are newest first. |
| AccountViews.EditProfile | account/views.py:17-30 | A valid POST changes only first name, last name and e-mail of the requesting user, then redirects to the profile. Invalid input or a GET writes nothing. |
| AccountViews.EditProfileKeepsValid | account/views.py:22-26 | Editing a profile keeps ids and usernames, so the store stays consistent. |
| DashboardViews.Index | dashboard/views.py:6-12 | The dashboard holds exactly the requesting user's listings, sold ones included. |
| DashboardViews.IndexOrder | dashboard/views.py:11 | Dashboard listings are newest first. |

## Left out

- **Database, HTTP and templates.** The ORM, SQL, routing, templates, sessions
  and the `login_required` redirect are framework behaviour. A logged-in view
  requires the acting user to be a stored user.
- **Framework validation.** The form library's field validation is the form's
  `valid` flag. This covers e-mail syntax, required fields, decimal parsing,
  `UserCreationForm` password rules and `AuthenticationForm`. Login, logout and
  password change are not modelled; they are framework views.
- **`slugify`.** Its internals are library code. It is a function parameter.
- **Time.** Real timestamps are ticks of a counter, one tick per save.
  - A save that stamps both `created_at` and `modified_at` stamps them with the
    same tick.
  - The framework reads the wall clock once per field.
- **Price and images.** Prices are integers (cents), not decimals. Images are
  optional file names; upload and storage are not modelled.
- **Admin and display.** Admin registrations and the `__str__` methods are not
  modelled.
- **Concurrency.** Two simultaneous requests are not modelled, for example a
  slug collision between two saves or duplicate threads. The views run one
  request at a time.
- ListingViews.Index: the category is parsed by `Text.ParseInt`, so it inherits
  that member's narrower reading of `int()`.
- ListingViews.Index: the categories come in stored order, not sorted by
  `name` (`Meta.ordering`). The page lists the same categories.
- MainViews.Index: the categories come in stored order, not sorted by name.
- Text.ContainsIgnoringCase: case folding covers ASCII letters only, as the
  database's `LIKE` does by default. Unicode case folding is not modelled.
- MainViews.AcceptsSignup: the username check is exact. Some framework
  versions compare usernames case-insensitively.
- Slugs.SaveCategory: `slugify` is not required to produce a slug-safe string.
  A manual slug is stored as given, and its length is not checked against the
  50-character column.
- ConversationViews.Detail: a GET by a member renders the thread. The page's
  contents (the thread and its messages) are not returned by the model.
- Text.ParseInt: Python's `int()` also accepts surrounding whitespace,
  underscores between digits and non-ASCII decimal digits. The model accepts
  only a sign and ASCII digits, so it refuses those forms.
