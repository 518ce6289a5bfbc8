/** The query filters of the API: `IngredientFilter` (name prefix) and
    `RecipeFilter` (author, favorited by me, in my cart), applied to the
    viewsets' querysets. A filter whose parameter is absent is not applied. */
module Filters {
  import opened Common
  import opened Seqs
  import opened Text
  import opened Sorting
  import opened Store
  import opened Views

  // ----- Ingredients -----

  datatype IngredientRow = IngredientRow(id: IngredientId, ingredient: Ingredient)

  function IngredientRowId(row: IngredientRow): IngredientId {
    row.id
  }

  /** Ingredient's default `ordering = ('name',)`. */
  function IngredientNameKey(row: IngredientRow): SortKey {
    SortKey(0, row.ingredient.name)
  }

  /** Every ingredient of the store, once each, in key order. */
  function IngredientTable(s: Store): (rows: seq<IngredientRow>)
    requires IngredientKeysBelow(s)
    ensures forall row :: row in rows <==> row.id in s.ingredients && row.ingredient == s.ingredients[row.id]
  {
    var ids := IdsBelow(s.ingredients, s.nextIngredientId);
    var rows := seq(|ids|, i requires 0 <= i < |ids| => IngredientRow(ids[i], s.ingredients[ids[i]]));
    assert forall row :: row in rows ==> row.id in ids by {
      forall row | row in rows ensures row.id in ids {
        var i :| 0 <= i < |rows| && rows[i] == row;
      }
    }
    assert forall id :: id in ids ==> IngredientRow(id, s.ingredients[id]) in rows by {
      forall id | id in ids ensures IngredientRow(id, s.ingredients[id]) in rows {
        var i :| 0 <= i < |ids| && ids[i] == id;
        assert rows[i] == IngredientRow(id, s.ingredients[id]);
      }
    }
    rows
  }

  /** The ingredient listing's queryset: every ingredient in name order. */
  function IngredientRows(s: Store): (rows: seq<IngredientRow>)
    requires IngredientKeysBelow(s)
    ensures forall row :: row in rows <==> row.id in s.ingredients && row.ingredient == s.ingredients[row.id]
    ensures SortedBy(rows, IngredientNameKey)
  {
    SortSameElements(IngredientTable(s), IngredientNameKey);
    Sort(IngredientTable(s), IngredientNameKey)
  }

  function NameStartsWith(query: string): IngredientRow -> bool {
    (row: IngredientRow) => StartsWithIgnoringCase(row.ingredient.name, query)
  }

  /** `name` with `istartswith`; an absent or empty parameter filters nothing. */
  function FilterIngredients(rows: seq<IngredientRow>, name: Option<string>): (r: seq<IngredientRow>)
    ensures name.None? || name == Some("") ==> r == rows
    ensures name.Some? ==> forall row :: row in r <==>
      row in rows && |name.value| <= |row.ingredient.name|
      && forall i :: 0 <= i < |name.value| ==> Fold(row.ingredient.name[i]) == Fold(name.value[i])
    ensures forall row :: row in r ==> row in rows
    ensures SortedBy(rows, IngredientNameKey) ==> SortedBy(r, IngredientNameKey)
  {
    if name.None? || name.value == "" then rows
    else
      FilterKeepsOrder(rows, NameStartsWith(name.value), IngredientNameKey);
      forall row | row in rows ensures
        StartsWithIgnoringCase(row.ingredient.name, name.value) <==>
          |name.value| <= |row.ingredient.name|
          && forall i :: 0 <= i < |name.value| ==> Fold(row.ingredient.name[i]) == Fold(name.value[i])
      {
        StartsWithIgnoringCaseMeans(row.ingredient.name, name.value);
      }
      Filter(rows, NameStartsWith(name.value))
  }

  /** An empty query is a prefix of every name, so skipping the filter for
      it changes nothing. */
  lemma EmptyQueryMatchesAll(rows: seq<IngredientRow>)
    ensures Filter(rows, NameStartsWith("")) == rows
  {
    FilterAll(rows, NameStartsWith(""));
  }

  // ----- Recipes -----

  /** The query parameters of `RecipeFilter`; `None` where absent. */
  datatype RecipeQuery = RecipeQuery(author: Option<int>, isFavorited: Option<bool>, isInShoppingCart: Option<bool>)

  function ByAuthor(author: int): RecipeRow -> bool {
    (row: RecipeRow) => row.recipe.author == author
  }

  /** `author`, a number filter on `author__id`. */
  function FilterAuthor(rows: seq<RecipeRow>, author: Option<int>): (r: seq<RecipeRow>)
    ensures author.None? ==> r == rows
    ensures author.Some? ==> forall row :: row in r <==> row in rows && row.recipe.author == author.value
    ensures |r| <= |rows|
    ensures SortedBy(rows, DefaultOrderKey) ==> SortedBy(r, DefaultOrderKey)
  {
    if author.None? then rows
    else
      FilterKeepsOrder(rows, ByAuthor(author.value), DefaultOrderKey);
      Filter(rows, ByAuthor(author.value))
  }

  function InRelationOf(s: Store, kind: RelationKind, user: UserId): RecipeRow -> bool {
    (row: RecipeRow) => HasRelation(s, kind, user, row.id)
  }

  /** The reverse query name Django gives a UserRecipeRelation table on
      Recipe: `default_related_name = '%(class)s'`, the lower-cased class name. */
  function RelatedQueryName(kind: RelationKind): string {
    match kind
    case Favorite => "favorite"
    case ShoppingCart => "shoppingcart"
  }

  /** `queryset.filter(<name>__user=user)`: the recipes with a row for
      `user` in the table reached through `name`. A name that is not a
      reverse relation of Recipe raises a FieldError, an unhandled error. */
  function FilterThrough(s: Store, rows: seq<RecipeRow>, name: string, user: UserId): (r: Reply<seq<RecipeRow>>)
    ensures name !in {RelatedQueryName(Favorite), RelatedQueryName(ShoppingCart)} <==> r == Failed(ServerError)
    ensures forall kind :: name == RelatedQueryName(kind) ==>
      r.Ok? && forall row :: row in r.body <==> row in rows && HasRelation(s, kind, user, row.id)
  {
    if name == RelatedQueryName(Favorite) then Ok(Filter(rows, InRelationOf(s, Favorite, user)))
    else if name == RelatedQueryName(ShoppingCart) then Ok(Filter(rows, InRelationOf(s, ShoppingCart, user)))
    else Failed(ServerError)
  }

  /** `filter_is_favorited` and `filter_is_in_shopping_cart` as intended: a
      true value from an authenticated user keeps the recipes in that user's
      table; a false value, an anonymous user or an absent parameter keeps
      everything. */
  function FilterRelation(s: Store, rows: seq<RecipeRow>, kind: RelationKind, viewer: Option<UserId>, value: Option<bool>)
    : (r: seq<RecipeRow>)
    ensures value == Some(true) && viewer.Some? ==>
      forall row :: row in r <==> row in rows && HasRelation(s, kind, viewer.value, row.id)
    ensures value != Some(true) || viewer.None? ==> r == rows
    ensures |r| <= |rows|
    ensures SortedBy(rows, DefaultOrderKey) ==> SortedBy(r, DefaultOrderKey)
  {
    if value == Some(true) && viewer.Some? then
      FilterKeepsOrder(rows, InRelationOf(s, kind, viewer.value), DefaultOrderKey);
      Filter(rows, InRelationOf(s, kind, viewer.value))
    else rows
  }

  /** The intended filter is the lookup through the relation's actual name. */
  lemma IntendedLookupAgrees(s: Store, rows: seq<RecipeRow>, kind: RelationKind, user: UserId)
    ensures FilterThrough(s, rows, RelatedQueryName(kind), user) == Ok(FilterRelation(s, rows, kind, Some(user), Some(true)))
  {
  }

  /** The lookup names the filter methods are written with. */
  function WrittenLookupName(kind: RelationKind): string {
    match kind
    case Favorite => "favorited_by"
    case ShoppingCart => "in_shopping_carts"
  }

  /** The two filter methods as written: the lookup goes through
      `favorited_by` and `in_shopping_carts`, which no relation of Recipe is
      called. */
  function FilterRelationAsWritten(s: Store, rows: seq<RecipeRow>, kind: RelationKind, viewer: Option<UserId>, value: Option<bool>)
    : (r: Reply<seq<RecipeRow>>)
    ensures value != Some(true) || viewer.None? ==> r == Ok(FilterRelation(s, rows, kind, viewer, value))
  {
    if value == Some(true) && viewer.Some? then FilterThrough(s, rows, WrittenLookupName(kind), viewer.value)
    else Ok(rows)
  }

  /** The discrepancy: every true-valued request from a signed-in user fails
      as written, where the intended filter answers the user's recipes. */
  lemma RelationFilterAsWrittenFails(s: Store, rows: seq<RecipeRow>, kind: RelationKind, user: UserId)
    ensures FilterRelationAsWritten(s, rows, kind, Some(user), Some(true)) == Failed(ServerError)
    ensures forall row :: row in FilterRelation(s, rows, kind, Some(user), Some(true)) <==>
      row in rows && HasRelation(s, kind, user, row.id)
  {
    assert WrittenLookupName(kind) !in {RelatedQueryName(Favorite), RelatedQueryName(ShoppingCart)};
  }

  /** GET /recipes/ before pagination: all recipes in default order, then
      the three filters. */
  function RecipeListing(s: Store, viewer: Option<UserId>, q: RecipeQuery): (r: seq<RecipeRow>)
    requires Valid(s)
    ensures forall row :: row in r <==>
      && row.id in s.recipes && row.recipe == s.recipes[row.id]
      && (q.author.Some? ==> row.recipe.author == q.author.value)
      && (q.isFavorited == Some(true) && viewer.Some? ==> HasRelation(s, Favorite, viewer.value, row.id))
      && (q.isInShoppingCart == Some(true) && viewer.Some? ==> HasRelation(s, ShoppingCart, viewer.value, row.id))
    ensures SortedBy(r, DefaultOrderKey)
  {
    var all := Sort(RecipeRows(s), DefaultOrderKey);
    SortSameElements(RecipeRows(s), DefaultOrderKey);
    var byAuthor := FilterAuthor(all, q.author);
    var favorited := FilterRelation(s, byAuthor, Favorite, viewer, q.isFavorited);
    FilterRelation(s, favorited, ShoppingCart, viewer, q.isInShoppingCart)
  }

  /** Filtering keeps a sorted sequence sorted. */
  lemma {:induction false} FilterKeepsOrder<T(!new)>(xs: seq<T>, p: T -> bool, key: T -> SortKey)
    ensures SortedBy(xs, key) ==> SortedBy(Filter(xs, p), key)
    decreases |xs|
  {
    if |xs| > 0 && SortedBy(xs, key) {
      var tail := xs[1..];
      assert SortedBy(tail, key) by {
        forall i, j | 0 <= i < j < |tail| ensures KeyLe(key(tail[i]), key(tail[j])) {
          assert tail[i] == xs[i + 1] && tail[j] == xs[j + 1];
        }
      }
      FilterKeepsOrder(tail, p, key);
      if p(xs[0]) {
        var r := Filter(xs, p);
        var rest := Filter(tail, p);
        assert r == [xs[0]] + rest;
        forall i, j | 0 <= i < j < |r| ensures KeyLe(key(r[i]), key(r[j])) {
          if i == 0 {
            assert r[j] in tail;
            var k :| 0 <= k < |tail| && tail[k] == r[j];
            assert xs[k + 1] == r[j];
          } else {
            assert r[i] == rest[i - 1] && r[j] == rest[j - 1];
          }
        }
      }
    }
  }
}
