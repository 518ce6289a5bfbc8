/** The read side of the API: the projections the serializers produce
    (`UserSerializer`, `UserWithRecipesSerializer`, `RecipeShortInfoSerializer`,
    `RecipeListSerializer`) and the default ordering of recipes they list. A
    viewer is the requesting user, `None` when the request is anonymous. */
module Views {
  import opened Common
  import opened Seqs
  import opened Sorting
  import opened Store

  // ----- Recipes in default order -----

  datatype RecipeRow = RecipeRow(id: RecipeId, recipe: Recipe)

  function RowId(row: RecipeRow): RecipeId {
    row.id
  }

  /** Recipe's default `ordering = ('-pub_date', 'name')`: newest first, then by name. */
  function DefaultOrderKey(row: RecipeRow): SortKey {
    SortKey(-row.recipe.pubDate, row.recipe.name)
  }

  /** `order_by('name')`. */
  function NameOrderKey(row: RecipeRow): SortKey {
    SortKey(0, row.recipe.name)
  }

  /** The rows of the given recipes, in the given order. */
  function RowsOf(s: Store, ids: seq<RecipeId>): (rows: seq<RecipeRow>)
    requires forall id :: id in ids ==> id in s.recipes
    ensures |rows| == |ids|
    ensures forall i :: 0 <= i < |ids| ==> rows[i] == RecipeRow(ids[i], s.recipes[ids[i]])
    ensures forall row :: row in rows <==> row.id in ids && row.recipe == s.recipes[row.id]
    ensures Distinct(ids) ==> InjectiveOn(rows, RowId)
  {
    var rows := seq(|ids|, i requires 0 <= i < |ids| => RecipeRow(ids[i], s.recipes[ids[i]]));
    assert forall row :: row in rows ==> row.id in ids by {
      forall row | row in rows ensures row.id in ids {
        var i :| 0 <= i < |rows| && rows[i] == row;
      }
    }
    assert forall id :: id in ids ==> RecipeRow(id, s.recipes[id]) in rows by {
      forall id | id in ids ensures RecipeRow(id, s.recipes[id]) in rows {
        var i :| 0 <= i < |ids| && ids[i] == id;
        assert rows[i] == RecipeRow(id, s.recipes[id]);
      }
    }
    rows
  }

  /** Every recipe of the store, once each. */
  function RecipeRows(s: Store): (rows: seq<RecipeRow>)
    requires Valid(s)
    ensures forall row :: row in rows <==> row.id in s.recipes && row.recipe == s.recipes[row.id]
    ensures InjectiveOn(rows, RowId)
  {
    RowsOf(s, RecipeIds(s))
  }

  function WrittenBy(author: UserId): RecipeRow -> bool {
    (row: RecipeRow) => row.recipe.author == author
  }

  /** `author.recipes.all()`: the author's recipes in default order. */
  function AuthorRecipes(s: Store, author: UserId): (rows: seq<RecipeRow>)
    requires Valid(s)
    ensures forall row :: row in rows <==>
      row.id in s.recipes && row.recipe == s.recipes[row.id] && row.recipe.author == author
    ensures SortedBy(rows, DefaultOrderKey)
    ensures InjectiveOn(rows, RowId)
  {
    var mine := Filter(RecipeRows(s), WrittenBy(author));
    FilterKeepsInjective(RecipeRows(s), WrittenBy(author), RowId);
    var rows := Sort(mine, DefaultOrderKey);
    SortSameElements(mine, DefaultOrderKey);
    PermutationKeepsInjective(mine, rows, RowId);
    rows
  }

  /** `recipes.count`: how many recipes the author has, counted directly on
      the recipe table. */
  function RecipesCount(s: Store, author: UserId): nat {
    |AuthoredIds(s.recipes, author)|
  }

  /** The ids of the recipes written by `author`. */
  function AuthoredIds(recipes: map<RecipeId, Recipe>, author: UserId): set<RecipeId> {
    set id | id in recipes && recipes[id].author == author
  }

  /** The count agrees with the length of the author's listing. */
  lemma RecipesCountIsListingLength(s: Store, author: UserId)
    requires Valid(s)
    ensures RecipesCount(s, author) == |AuthorRecipes(s, author)|
  {
    AuthorRowsCount(s.recipes, AuthorRecipes(s, author), author);
  }

  lemma AuthorRowsCount(recipes: map<RecipeId, Recipe>, rows: seq<RecipeRow>, author: UserId)
    requires InjectiveOn(rows, RowId)
    requires forall row :: row in rows <==>
      row.id in recipes && row.recipe == recipes[row.id] && row.recipe.author == author
    ensures |rows| == |AuthoredIds(recipes, author)|
  {
    var ids := AuthoredIds(recipes, author);
    forall id | id in ids ensures exists row :: row in rows && RowId(row) == id {
      assert RecipeRow(id, recipes[id]) in rows;
    }
    CountByKeys(rows, RowId, ids);
  }

  /** The recipe table has one row per recipe. */
  lemma RecipeRowsCount(s: Store)
    requires Valid(s)
    ensures |RecipeRows(s)| == |s.recipes|
  {
    AllRowsCount(s.recipes, RecipeRows(s));
  }

  lemma AllRowsCount(recipes: map<RecipeId, Recipe>, rows: seq<RecipeRow>)
    requires InjectiveOn(rows, RowId)
    requires forall row :: row in rows <==> row.id in recipes && row.recipe == recipes[row.id]
    ensures |rows| == |recipes|
  {
    forall id | id in recipes.Keys ensures exists row :: row in rows && RowId(row) == id {
      assert RecipeRow(id, recipes[id]) in rows;
    }
    CountByKeys(rows, RowId, recipes.Keys);
  }

  // ----- Short recipe projection -----

  /** `RecipeShortInfoSerializer`: exactly the fields id, name, image and cooking_time. */
  datatype ShortRecipe = ShortRecipe(id: RecipeId, name: string, image: ImageRef, cookingTime: int)

  function Short(row: RecipeRow): (r: ShortRecipe)
    ensures r.id == row.id && r.name == row.recipe.name
    ensures r.image == row.recipe.image && r.cookingTime == row.recipe.cookingTime
  {
    ShortRecipe(row.id, row.recipe.name, row.recipe.image, row.recipe.cookingTime)
  }

  /** The default of `recipes_limit`, `10**10`. */
  const DEFAULT_RECIPES_LIMIT: nat := 10_000_000_000

  function Min(a: nat, b: nat): nat {
    if a <= b then a else b
  }

  /** `get_recipes`: the first `recipes_limit` of the author's recipes, in
      default order. A limit that is not a non-negative integer makes the
      source fail inside `int()` or the slice, so the limit here is a `nat`. */
  function RecipesPreview(s: Store, author: UserId, limit: Option<nat>): (r: seq<ShortRecipe>)
    requires Valid(s)
    ensures |r| == Min(limit.GetOr(DEFAULT_RECIPES_LIMIT), RecipesCount(s, author))
    ensures |r| <= |AuthorRecipes(s, author)|
    ensures forall i :: 0 <= i < |r| ==> r[i] == Short(AuthorRecipes(s, author)[i])
  {
    RecipesCountIsListingLength(s, author);
    ShortPrefix(AuthorRecipes(s, author), limit.GetOr(DEFAULT_RECIPES_LIMIT))
  }

  /** The short form of the first `n` rows (all of them when there are fewer). */
  function ShortPrefix(rows: seq<RecipeRow>, n: nat): (r: seq<ShortRecipe>)
    ensures |r| == Min(n, |rows|)
    ensures forall i :: 0 <= i < |r| ==> r[i] == Short(rows[i])
  {
    seq(Min(n, |rows|), i requires 0 <= i < Min(n, |rows|) => Short(rows[i]))
  }

  /** Without a limit every recipe is listed, as long as the author has no
      more than 10**10 of them. */
  lemma PreviewWithoutLimitListsAll(s: Store, author: UserId)
    requires Valid(s)
    requires RecipesCount(s, author) <= DEFAULT_RECIPES_LIMIT
    ensures |RecipesPreview(s, author, None)| == RecipesCount(s, author)
    ensures forall row :: row in AuthorRecipes(s, author) ==> Short(row) in RecipesPreview(s, author, None)
  {
    var rows := AuthorRecipes(s, author);
    var r := RecipesPreview(s, author, None);
    RecipesCountIsListingLength(s, author);
    forall row | row in rows ensures Short(row) in r {
      var i :| 0 <= i < |rows| && rows[i] == row;
      assert r[i] == Short(row);
    }
  }

  // ----- Users -----

  /** `get_is_subscribed`: false for an anonymous viewer; otherwise whether
      the subscription row exists. */
  function IsSubscribed(s: Store, viewer: Option<UserId>, author: UserId): (b: bool)
    ensures viewer.None? ==> !b
    ensures viewer.Some? ==> (b <==> HasSubscription(s, viewer.value, author))
  {
    viewer.Some? && HasSubscription(s, viewer.value, author)
  }

  /** `UserSerializer`'s fields. */
  datatype UserView = UserView(
    id: UserId,
    email: string,
    username: string,
    firstName: string,
    lastName: string,
    isSubscribed: bool,
    avatar: Option<ImageRef>)

  function Profile(s: Store, viewer: Option<UserId>, uid: UserId): (v: UserView)
    requires uid in s.users
    ensures v.id == uid && v.username == s.users[uid].username && v.avatar == s.users[uid].avatar
    ensures v.email == s.users[uid].email
    ensures v.firstName == s.users[uid].firstName && v.lastName == s.users[uid].lastName
    ensures v.isSubscribed == IsSubscribed(s, viewer, uid)
  {
    var u := s.users[uid];
    UserView(uid, u.email, u.username, u.firstName, u.lastName, IsSubscribed(s, viewer, uid), u.avatar)
  }

  /** `UserWithRecipesSerializer`: the profile, a preview of the author's
      recipes and their total count. */
  datatype AuthorCard = AuthorCard(user: UserView, recipes: seq<ShortRecipe>, recipesCount: nat)

  function Card(s: Store, viewer: Option<UserId>, author: UserId, limit: Option<nat>): (c: AuthorCard)
    requires Valid(s) && author in s.users
    ensures c.user == Profile(s, viewer, author)
    ensures c.recipes == RecipesPreview(s, author, limit)
    ensures c.recipesCount == RecipesCount(s, author)
  {
    AuthorCard(Profile(s, viewer, author), RecipesPreview(s, author, limit), RecipesCount(s, author))
  }

  /** The total count does not depend on the limit; the preview never holds more. */
  lemma CountIndependentOfLimit(s: Store, viewer: Option<UserId>, author: UserId, a: Option<nat>, b: Option<nat>)
    requires Valid(s) && author in s.users
    ensures Card(s, viewer, author, a).recipesCount == Card(s, viewer, author, b).recipesCount
    ensures |Card(s, viewer, author, a).recipes| <= Card(s, viewer, author, a).recipesCount
  {
  }

  // ----- Recipes -----

  /** `get_is_favorited`: falsy for an anonymous viewer; otherwise whether the
      favorite row exists. */
  function IsFavorited(s: Store, viewer: Option<UserId>, id: RecipeId): (b: bool)
    ensures viewer.None? ==> !b
    ensures viewer.Some? ==> (b <==> HasRelation(s, Favorite, viewer.value, id))
  {
    viewer.Some? && HasRelation(s, Favorite, viewer.value, id)
  }

  /** `get_is_in_shopping_cart`: False for an anonymous viewer; otherwise
      whether the cart row exists. */
  function IsInShoppingCart(s: Store, viewer: Option<UserId>, id: RecipeId): (b: bool)
    ensures viewer.None? ==> !b
    ensures viewer.Some? ==> (b <==> HasRelation(s, ShoppingCart, viewer.value, id))
  {
    if viewer.None? then false else HasRelation(s, ShoppingCart, viewer.value, id)
  }

  /** `IngredientInRecipeSerializer`: a line with its ingredient's name and unit joined in. */
  datatype LineView = LineView(id: IngredientId, name: string, unit: string, amount: int)

  function LineOf(id: RecipeId): Line -> bool {
    (l: Line) => l.recipe == id
  }

  /** The lines of one recipe, in table order. */
  function RecipeLines(s: Store, id: RecipeId): (r: seq<Line>)
    ensures forall l :: l in r <==> l in s.lines && l.recipe == id
  {
    Filter(s.lines, LineOf(id))
  }

  function ViewLine(s: Store, l: Line): (v: LineView)
    requires l.ingredient in s.ingredients
    ensures v.id == l.ingredient && v.amount == l.amount
    ensures v.name == s.ingredients[l.ingredient].name && v.unit == s.ingredients[l.ingredient].unit
  {
    var g := s.ingredients[l.ingredient];
    LineView(l.ingredient, g.name, g.unit, l.amount)
  }

  /** `RecipeListSerializer`'s fields. */
  datatype RecipeView = RecipeView(
    id: RecipeId,
    author: UserView,
    ingredients: seq<LineView>,
    isFavorited: bool,
    isInShoppingCart: bool,
    name: string,
    image: ImageRef,
    text: string,
    cookingTime: int)

  /** A recipe as the list serializer presents it to `viewer`. */
  function Detail(s: Store, viewer: Option<UserId>, id: RecipeId): (v: RecipeView)
    requires Valid(s) && id in s.recipes
    ensures v.id == id && v.author == Profile(s, viewer, s.recipes[id].author)
    ensures |v.ingredients| == |RecipeLines(s, id)|
    ensures forall i :: 0 <= i < |v.ingredients| ==> v.ingredients[i] == ViewLine(s, RecipeLines(s, id)[i])
    ensures v.isFavorited == IsFavorited(s, viewer, id)
    ensures v.isInShoppingCart == IsInShoppingCart(s, viewer, id)
    ensures v.name == s.recipes[id].name && v.cookingTime == s.recipes[id].cookingTime
    ensures v.image == s.recipes[id].image && v.text == s.recipes[id].text
  {
    var r := s.recipes[id];
    RecipeView(id, Profile(s, viewer, r.author), LineViews(s, RecipeLines(s, id)), IsFavorited(s, viewer, id),
      IsInShoppingCart(s, viewer, id), r.name, r.image, r.text, r.cookingTime)
  }

  /** The ingredient entries of the given lines, in order. */
  function LineViews(s: Store, ls: seq<Line>): (r: seq<LineView>)
    requires forall l :: l in ls ==> l.ingredient in s.ingredients
    ensures |r| == |ls|
    ensures forall i :: 0 <= i < |ls| ==> r[i] == ViewLine(s, ls[i])
  {
    seq(|ls|, i requires 0 <= i < |ls| => ViewLine(s, ls[i]))
  }
}
