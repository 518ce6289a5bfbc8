/** The recipe store: the entities of `recipes/models.py`, the uniqueness and
    check constraints the database enforces, and the cascading deletes its
    foreign keys declare. Entity tables are maps from primary key to record;
    the tables whose rows are constrained by a UniqueConstraint are sequences
    of rows, so that "at most one row per key" is an invariant to keep rather
    than a fact of the representation. */
module Store {
  import opened Common
  import opened Seqs

  type UserId = nat
  type RecipeId = nat
  type IngredientId = nat

  /** An uploaded image, as an opaque reference; the empty reference is falsy. */
  type ImageRef = string

  const MIN_COOKING_TIME: int := 1
  const MIN_INGREDIENT_AMOUNT: int := 1
  const MAX_NAME_LENGTH: nat := 200

  datatype User = User(
    username: string,
    email: string,
    firstName: string,
    lastName: string,
    avatar: Option<ImageRef>)

  datatype Ingredient = Ingredient(name: string, unit: string)

  /** `pubDate` is set once, at creation (`auto_now_add`). */
  datatype Recipe = Recipe(
    name: string,
    author: UserId,
    text: string,
    image: ImageRef,
    cookingTime: int,
    pubDate: int)

  /** A row of IngredientInRecipe. */
  datatype Line = Line(recipe: RecipeId, ingredient: IngredientId, amount: int)

  /** A row of Favorite or of ShoppingCart (both are a UserRecipeRelation). */
  datatype UserRecipe = UserRecipe(user: UserId, recipe: RecipeId)

  datatype Subscription = Subscription(user: UserId, author: UserId)

  /** The two concrete UserRecipeRelation tables. */
  datatype RelationKind = Favorite | ShoppingCart

  datatype Store = Store(
    users: map<UserId, User>,
    ingredients: map<IngredientId, Ingredient>,
    nextIngredientId: IngredientId,
    recipes: map<RecipeId, Recipe>,
    nextRecipeId: RecipeId,
    lines: seq<Line>,
    favorites: seq<UserRecipe>,
    carts: seq<UserRecipe>,
    subscriptions: seq<Subscription>)
  {
    /** The rows of one relation table. */
    function Rows(kind: RelationKind): seq<UserRecipe> {
      match kind
      case Favorite => favorites
      case ShoppingCart => carts
    }

    /** The same store with the rows of one relation table replaced. */
    function WithRows(kind: RelationKind, rows: seq<UserRecipe>): (r: Store)
      ensures r.Rows(kind) == rows
      ensures forall k :: k != kind ==> r.Rows(k) == Rows(k)
      ensures r.users == users && r.ingredients == ingredients && r.recipes == recipes
      ensures r.nextIngredientId == nextIngredientId
      ensures r.nextRecipeId == nextRecipeId && r.lines == lines
      ensures r.subscriptions == subscriptions
    {
      match kind
      case Favorite => this.(favorites := rows)
      case ShoppingCart => this.(carts := rows)
    }
  }

  /** What an operation answers, and the store after it. */
  datatype Step<+T> = Step(reply: Reply<T>, store: Store)

  function LineKey(l: Line): (RecipeId, IngredientId) {
    (l.recipe, l.ingredient)
  }

  predicate HasRelation(s: Store, kind: RelationKind, user: UserId, recipe: RecipeId) {
    UserRecipe(user, recipe) in s.Rows(kind)
  }

  predicate HasSubscription(s: Store, user: UserId, author: UserId) {
    Subscription(user, author) in s.subscriptions
  }

  // ----- Constraints -----

  /** `username` and `email` are unique. */
  ghost predicate UsersUnique(users: map<UserId, User>) {
    forall a, b :: a in users && b in users && a != b ==>
      users[a].username != users[b].username && users[a].email != users[b].email
  }

  /** UniqueConstraint `unique_ingredient` on (name, measurement_unit). */
  ghost predicate IngredientsUnique(ingredients: map<IngredientId, Ingredient>) {
    forall a, b :: a in ingredients && b in ingredients && a != b ==> ingredients[a] != ingredients[b]
  }

  /** Ingredient primary keys stay below the next one to be handed out. */
  ghost predicate IngredientKeysBelow(s: Store) {
    forall id :: id in s.ingredients ==> id < s.nextIngredientId
  }

  /** Every recipe has an existing author and a cooking time of at least one
      minute; primary keys stay below the next one to be handed out. */
  ghost predicate RecipesValid(s: Store) {
    forall id :: id in s.recipes ==>
      id < s.nextRecipeId
      && s.recipes[id].author in s.users
      && s.recipes[id].cookingTime >= MIN_COOKING_TIME
  }

  /** UniqueConstraint `unique_ingredient_in_recipe`, the amount validator and
      both foreign keys. */
  ghost predicate LinesValid(s: Store) {
    && InjectiveOn(s.lines, LineKey)
    && forall l :: l in s.lines ==>
         l.recipe in s.recipes && l.ingredient in s.ingredients && l.amount >= MIN_INGREDIENT_AMOUNT
  }

  /** The UniqueConstraint on (user, recipe) of a UserRecipeRelation table and
      its two foreign keys. */
  ghost predicate RelationValid(s: Store, rows: seq<UserRecipe>) {
    && Distinct(rows)
    && forall p :: p in rows ==> p.user in s.users && p.recipe in s.recipes
  }

  /** `unique_subscription`, `prevent_self_subscription` and both foreign keys. */
  ghost predicate SubscriptionsValid(s: Store) {
    && Distinct(s.subscriptions)
    && forall x :: x in s.subscriptions ==>
         x.user != x.author && x.user in s.users && x.author in s.users
  }

  /** Every constraint the database holds the store to. */
  ghost predicate Valid(s: Store) {
    && UsersUnique(s.users)
    && IngredientsUnique(s.ingredients)
    && IngredientKeysBelow(s)
    && RecipesValid(s)
    && LinesValid(s)
    && RelationValid(s, s.favorites)
    && RelationValid(s, s.carts)
    && SubscriptionsValid(s)
  }

  /** The relation constraint, one table at a time. */
  lemma ValidRelation(s: Store, kind: RelationKind)
    requires Valid(s)
    ensures RelationValid(s, s.Rows(kind))
  {
  }

  /** Because (name, unit) is unique, an ingredient is determined by its name
      and unit, so grouping lines by (name, unit) groups them by ingredient. */
  lemma IngredientDeterminedByNameAndUnit(s: Store, a: IngredientId, b: IngredientId)
    requires Valid(s)
    requires a in s.ingredients && b in s.ingredients
    requires s.ingredients[a].name == s.ingredients[b].name
    requires s.ingredients[a].unit == s.ingredients[b].unit
    ensures a == b
  {
  }

  /** A recipe has at most one line per ingredient. */
  lemma OneLinePerIngredient(s: Store, x: Line, y: Line)
    requires Valid(s)
    requires x in s.lines && y in s.lines
    requires x.recipe == y.recipe && x.ingredient == y.ingredient
    ensures x == y
  {
    var i :| 0 <= i < |s.lines| && s.lines[i] == x;
    var j :| 0 <= j < |s.lines| && s.lines[j] == y;
    assert i < j ==> LineKey(s.lines[i]) != LineKey(s.lines[j]);
    assert j < i ==> LineKey(s.lines[j]) != LineKey(s.lines[i]);
  }

  // ----- Enumerating recipes -----

  /** The ids in `m` below `n`, ascending: a table scan in primary-key order. */
  function IdsBelow<V>(m: map<nat, V>, n: nat): (r: seq<nat>)
    ensures forall id :: id in r <==> id in m && id < n
    ensures forall i, j :: 0 <= i < j < |r| ==> r[i] < r[j]
    decreases n
  {
    if n == 0 then []
    else
      var prefix := IdsBelow(m, n - 1);
      assert forall i :: 0 <= i < |prefix| ==> prefix[i] in prefix;
      if n - 1 in m then prefix + [n - 1] else prefix
  }

  /** Every recipe of the store, in primary-key order. */
  function RecipeIds(s: Store): (r: seq<RecipeId>)
    requires Valid(s)
    ensures forall id :: id in r <==> id in s.recipes
    ensures Distinct(r)
  {
    IdsBelow(s.recipes, s.nextRecipeId)
  }

  // ----- Cascading deletes -----

  /** Deleting a recipe also deletes its lines and its favorite and cart rows
      (`on_delete=CASCADE` on IngredientInRecipe.recipe and
      UserRecipeRelation.recipe); nothing else changes. */
  function DeleteRecipe(s: Store, id: RecipeId): (r: Store)
    requires Valid(s)
    ensures Valid(r)
    ensures r.recipes.Keys == s.recipes.Keys - {id}
    ensures forall k :: k in r.recipes ==> r.recipes[k] == s.recipes[k]
    ensures r.users == s.users && r.ingredients == s.ingredients && r.nextIngredientId == s.nextIngredientId
    ensures r.subscriptions == s.subscriptions && r.nextRecipeId == s.nextRecipeId
    ensures forall l :: l in r.lines <==> l in s.lines && l.recipe != id
    ensures forall kind, p :: p in r.Rows(kind) <==> p in s.Rows(kind) && p.recipe != id
  {
    var keep := (l: Line) => l.recipe != id;
    var keepRow := (p: UserRecipe) => p.recipe != id;
    var r := Store(s.users, s.ingredients, s.nextIngredientId, s.recipes - {id}, s.nextRecipeId,
      Filter(s.lines, keep), Filter(s.favorites, keepRow), Filter(s.carts, keepRow), s.subscriptions);
    FilterKeepsInjective(s.lines, keep, LineKey);
    WithoutRecipeRelationValid(s, r, s.favorites, keepRow, id);
    WithoutRecipeRelationValid(s, r, s.carts, keepRow, id);
    r
  }

  lemma WithoutRecipeRelationValid(s: Store, r: Store, rows: seq<UserRecipe>, keep: UserRecipe -> bool, id: RecipeId)
    requires RelationValid(s, rows)
    requires r.users == s.users && r.recipes == s.recipes - {id}
    requires forall p :: keep(p) <==> p.recipe != id
    ensures RelationValid(r, Filter(rows, keep))
  {
    FilterKeepsDistinct(rows, keep);
  }

  /** The recipes that survive deleting user `uid`. */
  function RecipesNotBy(s: Store, uid: UserId): map<RecipeId, Recipe> {
    map k | k in s.recipes && s.recipes[k].author != uid :: s.recipes[k]
  }

  function LineOfRecipeIn(recipes: map<RecipeId, Recipe>): Line -> bool {
    (l: Line) => l.recipe in recipes
  }

  function RowSurvives(uid: UserId, recipes: map<RecipeId, Recipe>): UserRecipe -> bool {
    (p: UserRecipe) => p.user != uid && p.recipe in recipes
  }

  function SubscriptionSurvives(uid: UserId): Subscription -> bool {
    (x: Subscription) => x.user != uid && x.author != uid
  }

  /** The rows that survive deleting user `uid`, before any constraint is checked. */
  function WithoutUser(s: Store, uid: UserId): Store {
    var recipes := RecipesNotBy(s, uid);
    Store(s.users - {uid}, s.ingredients, s.nextIngredientId, recipes, s.nextRecipeId,
      Filter(s.lines, LineOfRecipeIn(recipes)),
      Filter(s.favorites, RowSurvives(uid, recipes)),
      Filter(s.carts, RowSurvives(uid, recipes)),
      Filter(s.subscriptions, SubscriptionSurvives(uid)))
  }

  lemma WithoutUserValid(s: Store, uid: UserId)
    requires Valid(s)
    ensures Valid(WithoutUser(s, uid))
  {
    var r := WithoutUser(s, uid);
    WithoutUserKeepsLines(s, uid);
    WithoutUserKeepsRelations(s, uid);
    WithoutUserKeepsSubscriptions(s, uid);
    assert RecipesValid(r);
  }

  lemma WithoutUserKeepsLines(s: Store, uid: UserId)
    requires Valid(s)
    ensures LinesValid(WithoutUser(s, uid))
  {
    FilterKeepsInjective(s.lines, LineOfRecipeIn(RecipesNotBy(s, uid)), LineKey);
  }

  lemma WithoutUserKeepsRelations(s: Store, uid: UserId)
    requires Valid(s)
    ensures RelationValid(WithoutUser(s, uid), WithoutUser(s, uid).favorites)
    ensures RelationValid(WithoutUser(s, uid), WithoutUser(s, uid).carts)
  {
    FilterKeepsDistinct(s.favorites, RowSurvives(uid, RecipesNotBy(s, uid)));
    FilterKeepsDistinct(s.carts, RowSurvives(uid, RecipesNotBy(s, uid)));
  }

  lemma WithoutUserKeepsSubscriptions(s: Store, uid: UserId)
    requires Valid(s)
    ensures SubscriptionsValid(WithoutUser(s, uid))
  {
    FilterKeepsDistinct(s.subscriptions, SubscriptionSurvives(uid));
  }

  /** Deleting a user also deletes the recipes they wrote together with those
      recipes' dependents, their own favorite and cart rows, and every
      subscription they take part in, either as subscriber or as author. */
  function DeleteUser(s: Store, uid: UserId): (r: Store)
    requires Valid(s)
    ensures Valid(r)
    ensures r.users.Keys == s.users.Keys - {uid}
    ensures forall u :: u in r.users ==> r.users[u] == s.users[u]
    ensures r.ingredients == s.ingredients && r.nextIngredientId == s.nextIngredientId
    ensures r.nextRecipeId == s.nextRecipeId
    ensures forall k :: k in r.recipes <==> k in s.recipes && s.recipes[k].author != uid
    ensures forall k :: k in r.recipes ==> r.recipes[k] == s.recipes[k]
    ensures forall l :: l in r.lines <==> l in s.lines && l.recipe in r.recipes
    ensures forall kind, p :: p in r.Rows(kind) <==>
      p in s.Rows(kind) && p.user != uid && p.recipe in r.recipes
    ensures forall x :: x in r.subscriptions <==>
      x in s.subscriptions && x.user != uid && x.author != uid
  {
    WithoutUserValid(s, uid);
    WithoutUser(s, uid)
  }

  /** Deleting an ingredient also deletes every line that uses it. */
  function DeleteIngredient(s: Store, iid: IngredientId): (r: Store)
    requires Valid(s)
    ensures Valid(r)
    ensures r.ingredients.Keys == s.ingredients.Keys - {iid}
    ensures forall k :: k in r.ingredients ==> r.ingredients[k] == s.ingredients[k]
    ensures forall l :: l in r.lines <==> l in s.lines && l.ingredient != iid
    ensures r == s.(ingredients := r.ingredients, lines := r.lines)
  {
    var keep := (l: Line) => l.ingredient != iid;
    FilterKeepsInjective(s.lines, keep, LineKey);
    s.(ingredients := s.ingredients - {iid}, lines := Filter(s.lines, keep))
  }
}
