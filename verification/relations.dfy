/** The favorite and shopping-cart endpoints of `RecipeViewSet`: both go
    through one handler, `_handle_recipe_relation`, parameterised by the
    relation table. POST adds the (user, recipe) row, DELETE removes it. */
module RecipeRelations {
  import opened Common
  import opened Seqs
  import opened Store
  import opened Views

  function Other(kind: RelationKind): RelationKind {
    match kind
    case Favorite => ShoppingCart
    case ShoppingCart => Favorite
  }

  /** Any distinct rows over existing users and recipes may replace a relation table. */
  lemma ReplacingRowsKeepsValid(s: Store, kind: RelationKind, rows: seq<UserRecipe>)
    requires Valid(s)
    requires Distinct(rows)
    requires forall p :: p in rows ==> p.user in s.users && p.recipe in s.recipes
    ensures Valid(s.WithRows(kind, rows))
  {
  }

  /** POST: 401 for an anonymous request (`IsAuthenticated`), 404 for a
      missing recipe, an error when the row already exists, otherwise the
      row is inserted and the short recipe projection returned. */
  function AddRelation(s: Store, kind: RelationKind, actor: Option<UserId>, pk: RecipeId): (r: Step<ShortRecipe>)
    requires Valid(s)
    requires actor.Some? ==> actor.value in s.users
    ensures Valid(r.store)
    ensures actor.None? ==> r == Step(Failed(NotAuthenticated), s)
    ensures actor.Some? && pk !in s.recipes ==> r == Step(Failed(NotFound), s)
    ensures actor.Some? && pk in s.recipes && HasRelation(s, kind, actor.value, pk) ==>
      r == Step(Failed(AlreadyExists), s)
    ensures actor.Some? && pk in s.recipes && !HasRelation(s, kind, actor.value, pk) ==>
      && r.reply == Ok(ShortRecipe(pk, s.recipes[pk].name, s.recipes[pk].image, s.recipes[pk].cookingTime))
      && (forall p :: p in r.store.Rows(kind) <==> p in s.Rows(kind) || p == UserRecipe(actor.value, pk))
      && |r.store.Rows(kind)| == |s.Rows(kind)| + 1
      && r.store == s.WithRows(kind, r.store.Rows(kind))
  {
    if actor.None? then Step(Failed(NotAuthenticated), s)
    else if pk !in s.recipes then Step(Failed(NotFound), s)
    else
      var pair := UserRecipe(actor.value, pk);
      if pair in s.Rows(kind) then Step(Failed(AlreadyExists), s)
      else
        var rows := s.Rows(kind) + [pair];
        ReplacingRowsKeepsValid(s, kind, rows);
        Step(Ok(Short(RecipeRow(pk, s.recipes[pk]))), s.WithRows(kind, rows))
  }

  function NotPair(pair: UserRecipe): UserRecipe -> bool {
    (p: UserRecipe) => p != pair
  }

  /** DELETE: 401 for an anonymous request; otherwise the row is deleted if
      present and the answer is always 204. The recipe is not looked up, so a
      missing recipe is not an error. */
  function RemoveRelation(s: Store, kind: RelationKind, actor: Option<UserId>, pk: RecipeId): (r: Step<()>)
    requires Valid(s)
    ensures Valid(r.store)
    ensures actor.None? ==> r == Step(Failed(NotAuthenticated), s)
    ensures actor.Some? ==>
      && r.reply == NoContent
      && !HasRelation(r.store, kind, actor.value, pk)
      && (forall p :: p in r.store.Rows(kind) <==> p in s.Rows(kind) && p != UserRecipe(actor.value, pk))
      && r.store == s.WithRows(kind, r.store.Rows(kind))
  {
    if actor.None? then Step(Failed(NotAuthenticated), s)
    else
      var rows := Filter(s.Rows(kind), NotPair(UserRecipe(actor.value, pk)));
      FilterKeepsDistinct(s.Rows(kind), NotPair(UserRecipe(actor.value, pk)));
      ReplacingRowsKeepsValid(s, kind, rows);
      Step(NoContent, s.WithRows(kind, rows))
  }

  /** Removing twice is the same as removing once. */
  lemma RemoveIdempotent(s: Store, kind: RelationKind, actor: Option<UserId>, pk: RecipeId)
    requires Valid(s)
    ensures var once := RemoveRelation(s, kind, actor, pk);
      RemoveRelation(once.store, kind, actor, pk) == once
  {
    if actor.Some? {
      var once := RemoveRelation(s, kind, actor, pk);
      FilterIdempotent(s.Rows(kind), NotPair(UserRecipe(actor.value, pk)));
      assert once.store.Rows(kind) == Filter(s.Rows(kind), NotPair(UserRecipe(actor.value, pk)));
    }
  }

  /** Adding a second time fails and changes nothing. */
  lemma AddTwiceFails(s: Store, kind: RelationKind, user: UserId, pk: RecipeId)
    requires Valid(s) && user in s.users && pk in s.recipes
    ensures var once := AddRelation(s, kind, Some(user), pk);
      AddRelation(once.store, kind, Some(user), pk) == Step(Failed(AlreadyExists), once.store)
  {
  }

  /** A successful add followed by a remove restores the store exactly. */
  lemma {:induction false} AddThenRemoveRestores(s: Store, kind: RelationKind, user: UserId, pk: RecipeId)
    requires Valid(s) && user in s.users && pk in s.recipes
    requires !HasRelation(s, kind, user, pk)
    ensures RemoveRelation(AddRelation(s, kind, Some(user), pk).store, kind, Some(user), pk).store == s
  {
    var pair := UserRecipe(user, pk);
    var added := AddRelation(s, kind, Some(user), pk).store;
    assert added.Rows(kind) == s.Rows(kind) + [pair];
    FilterAppend(s.Rows(kind), pair, NotPair(pair));
    FilterAll(s.Rows(kind), NotPair(pair));
    var removed := RemoveRelation(added, kind, Some(user), pk).store;
    assert removed.Rows(kind) == s.Rows(kind);
    match kind
    case Favorite =>
    case ShoppingCart =>
  }

  /** The handler for one table leaves the other table alone. */
  lemma HandlerTouchesOnlyItsTable(s: Store, kind: RelationKind, actor: Option<UserId>, pk: RecipeId)
    requires Valid(s)
    requires actor.Some? ==> actor.value in s.users
    ensures AddRelation(s, kind, actor, pk).store.Rows(Other(kind)) == s.Rows(Other(kind))
    ensures RemoveRelation(s, kind, actor, pk).store.Rows(Other(kind)) == s.Rows(Other(kind))
  {
  }

  /** What the serializers report follows the handler: after a successful
      favorite POST the recipe reads as favorited, after the cart POST as in
      the cart, and after the matching DELETE as neither. */
  lemma SerializerFlagsFollowHandler(s: Store, kind: RelationKind, user: UserId, pk: RecipeId)
    requires Valid(s) && user in s.users && pk in s.recipes
    ensures var t := AddRelation(s, kind, Some(user), pk).store;
      (kind == Favorite ==> IsFavorited(t, Some(user), pk))
      && (kind == ShoppingCart ==> IsInShoppingCart(t, Some(user), pk))
    ensures var t := RemoveRelation(s, kind, Some(user), pk).store;
      (kind == Favorite ==> !IsFavorited(t, Some(user), pk))
      && (kind == ShoppingCart ==> !IsInShoppingCart(t, Some(user), pk))
  {
  }
}
