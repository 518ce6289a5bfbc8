/** The user endpoints of `UserViewSet` beyond registration: subscribing to
    an author, listing one's subscriptions, and setting or clearing one's
    avatar. Every one of them requires an authenticated request. */
module Subscriptions {
  import opened Common
  import opened Seqs
  import opened Text
  import opened Sorting
  import opened Store
  import opened Views

  /** POST subscribe: checked in this order — an authenticated request, an
      existing author (404), not oneself, not already subscribed; then the
      row is inserted and the author's card returned. */
  function Subscribe(s: Store, actor: Option<UserId>, author: UserId, limit: Option<nat>): (r: Step<AuthorCard>)
    requires Valid(s)
    requires actor.Some? ==> actor.value in s.users
    ensures Valid(r.store)
    ensures actor.None? ==> r == Step(Failed(NotAuthenticated), s)
    ensures actor.Some? && author !in s.users ==> r == Step(Failed(NotFound), s)
    ensures actor.Some? && author in s.users && actor.value == author ==>
      r == Step(Failed(SelfSubscription), s)
    ensures actor.Some? && author in s.users && actor.value != author && HasSubscription(s, actor.value, author) ==>
      r == Step(Failed(AlreadyExists), s)
    ensures actor.Some? && author in s.users && actor.value != author && !HasSubscription(s, actor.value, author) ==>
      && (forall x :: x in r.store.subscriptions <==>
            x in s.subscriptions || x == Subscription(actor.value, author))
      && r.store == s.(subscriptions := r.store.subscriptions)
      && r.reply.Ok?
      && r.reply.body.user.id == author
      && r.reply.body.user.isSubscribed
      && r.reply.body.recipesCount == RecipesCount(s, author)
      && r.reply.body.recipes == RecipesPreview(s, author, limit)
      && r.reply.body == Card(r.store, actor, author, limit)
  {
    if actor.None? then Step(Failed(NotAuthenticated), s)
    else if author !in s.users then Step(Failed(NotFound), s)
    else if actor.value == author then Step(Failed(SelfSubscription), s)
    else if Subscription(actor.value, author) in s.subscriptions then Step(Failed(AlreadyExists), s)
    else
      var t := s.(subscriptions := s.subscriptions + [Subscription(actor.value, author)]);
      assert Valid(t);
      assert RecipesCount(t, author) == RecipesCount(s, author);
      RecipesPreviewDependsOnRecipes(s, t, author, limit);
      Step(Ok(Card(t, actor, author, limit)), t)
  }

  /** The preview reads only the recipe table. */
  lemma RecipesPreviewDependsOnRecipes(s: Store, t: Store, author: UserId, limit: Option<nat>)
    requires Valid(s) && Valid(t)
    requires s.recipes == t.recipes && s.nextRecipeId == t.nextRecipeId
    ensures RecipesPreview(s, author, limit) == RecipesPreview(t, author, limit)
  {
    assert RecipeIds(s) == RecipeIds(t);
    assert RecipeRows(s) == RecipeRows(t);
  }

  function NotSubscription(x: Subscription): Subscription -> bool {
    (y: Subscription) => y != x
  }

  /** DELETE subscribe: the row is deleted if present and the answer is
      always 204; the author is not looked up. */
  function Unsubscribe(s: Store, actor: Option<UserId>, author: UserId): (r: Step<()>)
    requires Valid(s)
    ensures Valid(r.store)
    ensures actor.None? ==> r == Step(Failed(NotAuthenticated), s)
    ensures actor.Some? ==>
      && r.reply == NoContent
      && !HasSubscription(r.store, actor.value, author)
      && (forall x :: x in r.store.subscriptions <==>
            x in s.subscriptions && x != Subscription(actor.value, author))
      && r.store == s.(subscriptions := r.store.subscriptions)
  {
    if actor.None? then Step(Failed(NotAuthenticated), s)
    else
      var gone := NotSubscription(Subscription(actor.value, author));
      FilterKeepsDistinct(s.subscriptions, gone);
      Step(NoContent, s.(subscriptions := Filter(s.subscriptions, gone)))
  }

  lemma UnsubscribeIdempotent(s: Store, actor: Option<UserId>, author: UserId)
    requires Valid(s)
    ensures var once := Unsubscribe(s, actor, author);
      Unsubscribe(once.store, actor, author) == once
  {
    if actor.Some? {
      FilterIdempotent(s.subscriptions, NotSubscription(Subscription(actor.value, author)));
    }
  }

  /** Subscribing to oneself fails for every user. */
  lemma NoSelfSubscription(s: Store, user: UserId, limit: Option<nat>)
    requires Valid(s) && user in s.users
    ensures Subscribe(s, Some(user), user, limit) == Step(Failed(SelfSubscription), s)
    ensures !HasSubscription(s, user, user)
  {
  }

  /** The second of two identical subscribe calls fails and changes nothing. */
  lemma SubscribeTwiceFails(s: Store, user: UserId, author: UserId, limit: Option<nat>)
    requires Valid(s) && user in s.users && author in s.users && user != author
    ensures var once := Subscribe(s, Some(user), author, limit);
      Subscribe(once.store, Some(user), author, limit) == Step(Failed(AlreadyExists), once.store)
  {
  }

  // ----- The subscriptions listing -----

  datatype UserRow = UserRow(id: UserId, user: User)

  function UserRowId(row: UserRow): UserId {
    row.id
  }

  /** User's default `ordering = ('username',)`. */
  function UsernameKey(row: UserRow): SortKey {
    SortKey(0, row.user.username)
  }

  function SubscriptionBy(user: UserId): Subscription -> bool {
    (x: Subscription) => x.user == user
  }

  /** The authors `user` is subscribed to, one row each. */
  function FollowedRows(s: Store, user: UserId): (rows: seq<UserRow>)
    requires SubscriptionsValid(s)
    ensures forall row :: row in rows <==>
      HasSubscription(s, user, row.id) && row.id in s.users && row.user == s.users[row.id]
    ensures InjectiveOn(rows, UserRowId)
  {
    FilterKeepsDistinct(s.subscriptions, SubscriptionBy(user));
    AuthorRows(s.users, Filter(s.subscriptions, SubscriptionBy(user)), user)
  }

  /** One row per subscription of `user`, naming its author. */
  function AuthorRows(users: map<UserId, User>, mine: seq<Subscription>, user: UserId): (rows: seq<UserRow>)
    requires forall x :: x in mine ==> x.user == user && x.author in users
    ensures forall row :: row in rows <==>
      Subscription(user, row.id) in mine && row.id in users && row.user == users[row.id]
    ensures Distinct(mine) ==> InjectiveOn(rows, UserRowId)
  {
    var rows := seq(|mine|, i requires 0 <= i < |mine| => UserRow(mine[i].author, users[mine[i].author]));
    assert forall row :: row in rows ==> Subscription(user, row.id) in mine by {
      forall row | row in rows ensures Subscription(user, row.id) in mine {
        var i :| 0 <= i < |rows| && rows[i] == row;
        assert mine[i] in mine;
      }
    }
    assert forall a :: Subscription(user, a) in mine ==> UserRow(a, users[a]) in rows by {
      forall a | Subscription(user, a) in mine ensures UserRow(a, users[a]) in rows {
        var i :| 0 <= i < |mine| && mine[i] == Subscription(user, a);
        assert rows[i] == UserRow(a, users[a]);
      }
    }
    assert Distinct(mine) ==> InjectiveOn(rows, UserRowId) by {
      if Distinct(mine) {
        forall i, j | 0 <= i < j < |rows| ensures rows[i].id != rows[j].id {
          assert mine[i] in mine && mine[j] in mine;
          assert mine[i] != mine[j];
        }
      }
    }
    rows
  }

  /** `subscriptions`: exactly the authors the user is subscribed to, once
      each, ordered by username. Pagination is not modelled; this is the
      queryset the page is cut from. */
  function SubscribedAuthors(s: Store, user: UserId): (r: seq<UserRow>)
    requires SubscriptionsValid(s)
    ensures forall a :: (exists row :: row in r && row.id == a) <==> HasSubscription(s, user, a)
    ensures forall row :: row in r ==> row.id in s.users && row.user == s.users[row.id]
    ensures InjectiveOn(r, UserRowId)
    ensures forall i, j :: 0 <= i < j < |r| ==> StrLe(r[i].user.username, r[j].user.username)
  {
    var rows := FollowedRows(s, user);
    var sorted := Sort(rows, UsernameKey);
    SortSameElements(rows, UsernameKey);
    PermutationKeepsInjective(rows, sorted, UserRowId);
    SameRowsSameAuthors(s, user, rows, sorted);
    SortedByUsername(sorted);
    sorted
  }

  /** Any reordering of the followed rows names the same authors. */
  lemma SameRowsSameAuthors(s: Store, user: UserId, rows: seq<UserRow>, r: seq<UserRow>)
    requires forall row :: row in rows <==>
      HasSubscription(s, user, row.id) && row.id in s.users && row.user == s.users[row.id]
    requires forall x :: x in r <==> x in rows
    requires forall x :: x in s.subscriptions ==> x.author in s.users
    ensures forall a :: (exists row :: row in r && row.id == a) <==> HasSubscription(s, user, a)
    ensures forall row :: row in r ==> row.id in s.users && row.user == s.users[row.id]
  {
    forall a | HasSubscription(s, user, a) ensures exists row :: row in r && row.id == a {
      assert UserRow(a, s.users[a]) in rows;
    }
  }

  lemma SortedByUsername(r: seq<UserRow>)
    requires SortedBy(r, UsernameKey)
    ensures forall i, j :: 0 <= i < j < |r| ==> StrLe(r[i].user.username, r[j].user.username)
  {
    forall i, j | 0 <= i < j < |r| ensures StrLe(r[i].user.username, r[j].user.username) {
      assert KeyLe(UsernameKey(r[i]), UsernameKey(r[j]));
    }
  }

  /** The subscriptions endpoint: one author card per subscribed author. */
  function SubscriptionsPage(s: Store, actor: Option<UserId>, limit: Option<nat>): (r: Reply<seq<AuthorCard>>)
    requires Valid(s)
    requires actor.Some? ==> actor.value in s.users
    ensures actor.None? ==> r == Failed(NotAuthenticated)
    ensures actor.Some? ==> r.Ok? && |r.body| == |SubscribedAuthors(s, actor.value)|
    ensures actor.Some? ==> forall i :: 0 <= i < |r.body| ==>
      r.body[i].user.id == SubscribedAuthors(s, actor.value)[i].id && r.body[i].user.isSubscribed
    ensures actor.Some? ==> forall i :: 0 <= i < |r.body| ==>
      r.body[i] == Card(s, actor, SubscribedAuthors(s, actor.value)[i].id, limit)
  {
    if actor.None? then Failed(NotAuthenticated)
    else
      var authors := SubscribedAuthors(s, actor.value);
      FollowedAtEachIndex(s, actor.value, authors);
      Ok(Cards(s, actor, authors, limit))
  }

  lemma FollowedAtEachIndex(s: Store, user: UserId, authors: seq<UserRow>)
    requires forall a :: (exists row :: row in authors && row.id == a) <==> HasSubscription(s, user, a)
    ensures forall i :: 0 <= i < |authors| ==> HasSubscription(s, user, authors[i].id)
  {
    forall i | 0 <= i < |authors| ensures HasSubscription(s, user, authors[i].id) {
      assert authors[i] in authors;
    }
  }

  /** One author card per row, in the rows' order. */
  function Cards(s: Store, viewer: Option<UserId>, authors: seq<UserRow>, limit: Option<nat>): (r: seq<AuthorCard>)
    requires Valid(s)
    requires forall row :: row in authors ==> row.id in s.users
    ensures |r| == |authors|
    ensures forall i :: 0 <= i < |r| ==>
      r[i].user.id == authors[i].id && r[i].user.isSubscribed == IsSubscribed(s, viewer, authors[i].id)
    ensures forall i :: 0 <= i < |r| ==> r[i] == Card(s, viewer, authors[i].id, limit)
  {
    seq(|authors|, i requires 0 <= i < |authors| => Card(s, viewer, authors[i].id, limit))
  }

  // ----- Avatar -----

  /** PUT me/avatar. `data` is the request's `avatar` entry, `None` when the
      key is missing. A missing key is answered by the view itself with a 400
      whose body is keyed `error`; a present but falsy value reaches the
      serializer and fails `validate_avatar`, a 400 keyed `avatar`. */
  function SetAvatar(s: Store, actor: Option<UserId>, data: Option<ImageRef>): (r: Step<ImageRef>)
    requires Valid(s)
    requires actor.Some? ==> actor.value in s.users
    ensures Valid(r.store)
    ensures actor.None? ==> r == Step(Failed(NotAuthenticated), s)
    ensures actor.Some? && data.None? ==> r == Step(Failed(Invalid({"error"})), s)
    ensures actor.Some? && data == Some("") ==> r == Step(Failed(Invalid({"avatar"})), s)
    ensures actor.Some? && data.Some? && data.value != "" ==>
      && r.reply == Ok(data.value)
      && r.store.users.Keys == s.users.Keys
      && r.store.users[actor.value] == s.users[actor.value].(avatar := Some(data.value))
      && (forall u :: u in s.users && u != actor.value ==> r.store.users[u] == s.users[u])
      && r.store == s.(users := r.store.users)
  {
    if actor.None? then Step(Failed(NotAuthenticated), s)
    else if data.None? then Step(Failed(Invalid({"error"})), s)
    else if data.value == "" then Step(Failed(Invalid({"avatar"})), s)
    else
      Step(Ok(data.value), WithAvatar(s, actor.value, Some(data.value)))
  }

  /** The store with user `u`'s avatar replaced; nothing a constraint looks
      at changes. */
  function WithAvatar(s: Store, u: UserId, avatar: Option<ImageRef>): (r: Store)
    requires Valid(s) && u in s.users
    ensures Valid(r)
    ensures r.users == s.users[u := s.users[u].(avatar := avatar)]
    ensures r == s.(users := r.users)
  {
    var users := s.users[u := s.users[u].(avatar := avatar)];
    AvatarKeepsUsersUnique(s.users, u, avatar);
    SameUserKeysKeepValid(s, users);
    s.(users := users)
  }

  lemma AvatarKeepsUsersUnique(users: map<UserId, User>, u: UserId, avatar: Option<ImageRef>)
    requires UsersUnique(users) && u in users
    ensures UsersUnique(users[u := users[u].(avatar := avatar)])
  {
  }

  lemma SameUserKeysKeepValid(s: Store, users: map<UserId, User>)
    requires Valid(s)
    requires users.Keys == s.users.Keys && UsersUnique(users)
    ensures Valid(s.(users := users))
  {
  }

  /** Whether a user's avatar is truthy: set, and not the empty reference. */
  predicate HasAvatar(u: User) {
    u.avatar.Some? && u.avatar.value != ""
  }

  /** DELETE me/avatar: a truthy avatar is cleared, a falsy one is left as
      stored, and the answer is 204 either way. */
  function ClearAvatar(s: Store, actor: Option<UserId>): (r: Step<()>)
    requires Valid(s)
    requires actor.Some? ==> actor.value in s.users
    ensures Valid(r.store)
    ensures actor.None? ==> r == Step(Failed(NotAuthenticated), s)
    ensures actor.Some? ==>
      && r.reply == NoContent
      && r.store.users.Keys == s.users.Keys
      && !HasAvatar(r.store.users[actor.value])
      && (HasAvatar(s.users[actor.value]) ==> r.store.users[actor.value] == s.users[actor.value].(avatar := None))
      && (!HasAvatar(s.users[actor.value]) ==> r.store == s)
      && (forall u :: u in s.users && u != actor.value ==> r.store.users[u] == s.users[u])
      && r.store == s.(users := r.store.users)
  {
    if actor.None? then Step(Failed(NotAuthenticated), s)
    else
      var u := actor.value;
      if HasAvatar(s.users[u]) then
        Step(NoContent, WithAvatar(s, u, None))
      else
        Step(NoContent, s)
  }

  lemma ClearAvatarIdempotent(s: Store, actor: Option<UserId>)
    requires Valid(s)
    requires actor.Some? ==> actor.value in s.users
    ensures ClearAvatar(ClearAvatar(s, actor).store, actor) == ClearAvatar(s, actor)
  {
  }
}
