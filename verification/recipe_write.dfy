/** Writing recipes: `RecipeCreateUpdateSerializer`'s validation, its
    `create` and `update` (each one atomic step), and the viewset's
    create, update and destroy actions with their permission checks. */
module RecipeWrite {
  import opened Common
  import opened Seqs
  import opened Store
  import opened Views
  import opened Access

  // ----- Request data -----

  /** One entry of the submitted `ingredients` list
      (`IngredientAmountSerializer`): an ingredient key and an amount. */
  datatype AmountItem = AmountItem(id: int, amount: int)

  /** The writable fields of a request; `None` where the key is missing. */
  datatype RecipeInput = RecipeInput(
    ingredients: Option<seq<AmountItem>>,
    image: Option<ImageRef>,
    name: Option<string>,
    text: Option<string>,
    cookingTime: Option<int>)

  /** POST creates; PUT and PATCH update, PATCH being a partial update. */
  datatype WriteMode = Create | Update(partial: bool) {
    predicate Partial() {
      Update? && partial
    }
  }

  // ----- The ingredients list -----

  function ItemId(x: AmountItem): int {
    x.id
  }

  /** The item passes its own serializer: the key names an existing
      ingredient and the amount is at least one. The bound is the one the
      serializer declares, `MIN_COOKING_TIME`, which equals the model's
      `MIN_INGREDIENT_AMOUNT`. */
  predicate ItemOk(ingredients: map<IngredientId, Ingredient>, x: AmountItem) {
    x.id >= 0 && x.id in ingredients && x.amount >= MIN_COOKING_TIME
  }

  /** What an accepted ingredients list is: non-empty, every item valid,
      no ingredient twice. */
  ghost predicate IngredientsAcceptable(ingredients: map<IngredientId, Ingredient>, items: seq<AmountItem>) {
    && |items| > 0
    && (forall i :: 0 <= i < |items| ==> ItemOk(ingredients, items[i]))
    && InjectiveOn(items, ItemId)
  }

  datatype IngredientsProblem = BadItem | Empty | Duplicate

  datatype IngredientsCheck = Accepted(items: seq<AmountItem>) | Rejected(problem: IngredientsProblem)

  /** The set of submitted ingredient keys, `set(ingredients_ids)`. */
  function IdSet(items: seq<AmountItem>): (r: set<int>)
    ensures r == KeySet(items, ItemId)
  {
    set x | x in items :: x.id
  }

  /** The items' own validation, then `validate_ingredients`: an empty list,
      then a list with fewer distinct keys than items, is refused; an
      accepted list comes back unchanged. */
  function ValidateIngredients(ingredients: map<IngredientId, Ingredient>, items: seq<AmountItem>): (r: IngredientsCheck)
    ensures r.Accepted? <==> IngredientsAcceptable(ingredients, items)
    ensures r.Accepted? ==> r.items == items
    ensures r == Rejected(BadItem) <==> exists i :: 0 <= i < |items| && !ItemOk(ingredients, items[i])
    ensures r == Rejected(Empty) <==> items == []
    ensures r == Rejected(Duplicate) <==>
      && items != []
      && (forall i :: 0 <= i < |items| ==> ItemOk(ingredients, items[i]))
      && !InjectiveOn(items, ItemId)
  {
    InjectiveIffKeyCount(items, ItemId);
    if exists i :: 0 <= i < |items| && !ItemOk(ingredients, items[i]) then Rejected(BadItem)
    else if items == [] then Rejected(Empty)
    else if |IdSet(items)| != |items| then Rejected(Duplicate)
    else Accepted(items)
  }

  // ----- Field validation -----

  function FieldError(field: string, ok: bool): set<string> {
    if ok then {} else {field}
  }

  /** A field passes when it is present and valid, or absent in a partial update. */
  predicate FieldOk<T>(value: Option<T>, partial: bool, valid: T -> bool) {
    match value
    case None => partial
    case Some(v) => valid(v)
  }

  predicate ImageOk(image: ImageRef) {
    image != ""
  }

  /** `name`: a non-blank CharField of at most `MAX_NAME_LENGTH` characters. */
  predicate NameOk(name: string) {
    0 < |name| <= MAX_NAME_LENGTH
  }

  predicate TextOk(text: string) {
    text != ""
  }

  /** `cooking_time`: at least `MIN_COOKING_TIME`, with no upper bound. */
  predicate CookingTimeOk(t: int) {
    t >= MIN_COOKING_TIME
  }

  function IngredientsOk(ingredients: map<IngredientId, Ingredient>): seq<AmountItem> -> bool {
    (items: seq<AmountItem>) => ValidateIngredients(ingredients, items).Accepted?
  }

  /** DRF's field pass: every field is validated and the failing ones are
      reported together, keyed by field name. */
  function FieldErrors(ingredients: map<IngredientId, Ingredient>, input: RecipeInput, partial: bool): set<string> {
    FieldError("ingredients", FieldOk(input.ingredients, partial, IngredientsOk(ingredients)))
    + FieldError("image", FieldOk(input.image, partial, ImageOk))
    + FieldError("name", FieldOk(input.name, partial, NameOk))
    + FieldError("text", FieldOk(input.text, partial, TextOk))
    + FieldError("cooking_time", FieldOk(input.cookingTime, partial, CookingTimeOk))
  }

  /** The whole validation: the field pass, and only when it succeeds the
      object-level `validate`, which refuses a PUT or PATCH without
      `ingredients`. The result is the set of fields reported. */
  function Validate(ingredients: map<IngredientId, Ingredient>, input: RecipeInput, mode: WriteMode): (errs: set<string>)
    ensures errs <= {"ingredients", "image", "name", "text", "cooking_time"}
    ensures mode.Update? && input.ingredients.None? ==> errs != {}
    ensures !mode.Partial() && input.ingredients.None? ==> "ingredients" in errs
    ensures input.cookingTime.Some? && input.cookingTime.value < MIN_COOKING_TIME ==> "cooking_time" in errs
    ensures input.image == Some("") ==> "image" in errs
  {
    var errs := FieldErrors(ingredients, input, mode.Partial());
    if errs != {} then errs
    else if mode.Update? && input.ingredients.None? then {"ingredients"}
    else {}
  }

  /** An acceptable request, stated field by field: the ingredients list is
      always required (by the field on POST and PUT, by `validate` on
      PATCH); any other field may be missing only in a PATCH. */
  ghost predicate Acceptable(ingredients: map<IngredientId, Ingredient>, input: RecipeInput, mode: WriteMode) {
    && input.ingredients.Some? && IngredientsAcceptable(ingredients, input.ingredients.value)
    && (input.image.None? ==> mode.Partial()) && (input.image.Some? ==> input.image.value != "")
    && (input.name.None? ==> mode.Partial()) && (input.name.Some? ==> NameOk(input.name.value))
    && (input.text.None? ==> mode.Partial()) && (input.text.Some? ==> input.text.value != "")
    && (input.cookingTime.None? ==> mode.Partial())
    && (input.cookingTime.Some? ==> input.cookingTime.value >= MIN_COOKING_TIME)
  }

  /** Validation reports nothing exactly for the acceptable requests. */
  lemma ValidateAcceptsExactlyAcceptable(ingredients: map<IngredientId, Ingredient>, input: RecipeInput, mode: WriteMode)
    ensures Validate(ingredients, input, mode) == {} <==> Acceptable(ingredients, input, mode)
  {
    if input.ingredients.Some? {
      var _ := ValidateIngredients(ingredients, input.ingredients.value);
    }
  }

  /** A PUT or PATCH that is fine except for leaving out `ingredients` is
      refused with exactly that field reported. */
  lemma UpdateWithoutIngredientsRefused(ingredients: map<IngredientId, Ingredient>, input: RecipeInput, partial: bool)
    requires Acceptable(ingredients, input, Update(partial))
    ensures Validate(ingredients, input.(ingredients := None), Update(partial)) == {"ingredients"}
  {
    ValidateAcceptsExactlyAcceptable(ingredients, input, Update(partial));
  }

  /** Any cooking time of at least one minute passes, however large. */
  lemma NoUpperBoundOnCookingTime(ingredients: map<IngredientId, Ingredient>, input: RecipeInput, mode: WriteMode, t: int)
    requires Acceptable(ingredients, input, mode)
    requires t >= MIN_COOKING_TIME
    ensures Validate(ingredients, input.(cookingTime := Some(t)), mode) == {}
  {
    ValidateAcceptsExactlyAcceptable(ingredients, input, mode);
    ValidateAcceptsExactlyAcceptable(ingredients, input.(cookingTime := Some(t)), mode);
  }

  // ----- Lines -----

  /** `create_ingredients`: one line per submitted item, in order. */
  function LinesFor(id: RecipeId, items: seq<AmountItem>): (r: seq<Line>)
    requires forall i :: 0 <= i < |items| ==> items[i].id >= 0
    ensures |r| == |items|
    ensures forall i :: 0 <= i < |items| ==> r[i] == Line(id, items[i].id, items[i].amount)
  {
    seq(|items|, i requires 0 <= i < |items| => Line(id, items[i].id, items[i].amount))
  }

  function NotLineOf(id: RecipeId): Line -> bool {
    (l: Line) => l.recipe != id
  }

  /** Lines of other recipes followed by a added line set for `id` keep the
      line constraints. */
  lemma AppendLinesValid(t: Store, kept: seq<Line>, id: RecipeId, items: seq<AmountItem>)
    requires InjectiveOn(kept, LineKey)
    requires forall l :: l in kept ==>
      l.recipe != id && l.recipe in t.recipes && l.ingredient in t.ingredients && l.amount >= MIN_INGREDIENT_AMOUNT
    requires id in t.recipes
    requires IngredientsAcceptable(t.ingredients, items)
    ensures LinesValid(t.(lines := kept + LinesFor(id, items)))
  {
    var added := LinesFor(id, items);
    var all := kept + added;
    forall i, j | 0 <= i < j < |all| ensures LineKey(all[i]) != LineKey(all[j]) {
      if j < |kept| {
        assert all[i] == kept[i] && all[j] == kept[j];
      } else if i < |kept| {
        assert all[i] in kept;
        assert all[j] == added[j - |kept|];
      } else {
        assert all[i] == added[i - |kept|] && all[j] == added[j - |kept|];
        assert ItemId(items[i - |kept|]) != ItemId(items[j - |kept|]);
      }
    }
    forall l | l in all
      ensures l.recipe in t.recipes && l.ingredient in t.ingredients && l.amount >= MIN_INGREDIENT_AMOUNT
    {
      if l !in kept {
        var k :| 0 <= k < |added| && added[k] == l;
        assert ItemOk(t.ingredients, items[k]);
      }
    }
  }

  /** The lines of `id` among kept lines of other recipes followed by `added`
      are exactly `added`; another recipe's lines are its kept ones. */
  lemma LinesAfterAppend(kept: seq<Line>, added: seq<Line>, id: RecipeId, other: RecipeId)
    requires forall l :: l in kept ==> l.recipe != id
    requires forall l :: l in added ==> l.recipe == id
    requires other != id
    ensures Filter(kept + added, LineOf(id)) == added
    ensures Filter(kept + added, LineOf(other)) == Filter(kept, LineOf(other))
  {
    FilterConcat(kept, added, LineOf(id));
    FilterNone(kept, LineOf(id));
    FilterAll(added, LineOf(id));
    FilterConcat(kept, added, LineOf(other));
    FilterNone(added, LineOf(other));
  }

  // ----- Create -----

  /** The recipe a valid POST describes. */
  function NewRecipe(input: RecipeInput, author: UserId, now: int): Recipe
    requires input.image.Some? && input.name.Some? && input.text.Some? && input.cookingTime.Some?
  {
    Recipe(input.name.value, author, input.text.value, input.image.value, input.cookingTime.value, now)
  }

  /** The store after a valid POST: the recipe under the next key, its lines
      appended. No line belongs to that key yet, since keys are never reused. */
  function Created(s: Store, input: RecipeInput, author: UserId, now: int): (t: Store)
    requires Valid(s) && author in s.users
    requires Acceptable(s.ingredients, input, Create)
    ensures Valid(t)
    ensures s.nextRecipeId !in s.recipes
    ensures t.recipes == s.recipes[s.nextRecipeId := NewRecipe(input, author, now)]
    ensures t.nextRecipeId == s.nextRecipeId + 1
    ensures t.lines == s.lines + LinesFor(s.nextRecipeId, input.ingredients.value)
    ensures t == s.(recipes := t.recipes, nextRecipeId := t.nextRecipeId, lines := t.lines)
  {
    var id := s.nextRecipeId;
    var items := input.ingredients.value;
    var u := s.(recipes := s.recipes[id := NewRecipe(input, author, now)], nextRecipeId := id + 1);
    AppendLinesValid(u, s.lines, id, items);
    var t := u.(lines := s.lines + LinesFor(id, items));
    assert RecipesValid(t);
    t
  }

  /** POST /recipes/ as the evidently intended behaviour: an anonymous
      request is refused before anything else, then the data is validated,
      then the recipe and its lines are stored in one step and the recipe
      is answered as the list serializer shows it. `now` is the creation
      time `auto_now_add` stamps. */
  function CreateRecipe(s: Store, actor: Option<UserId>, input: RecipeInput, now: int): (r: Step<RecipeView>)
    requires Valid(s)
    requires actor.Some? ==> actor.value in s.users
    ensures Valid(r.store)
    ensures actor.None? ==> r == Step(Failed(NotAuthenticated), s)
    ensures actor.Some? && !Acceptable(s.ingredients, input, Create) ==>
      r.store == s && r.reply.Failed? && r.reply.error.Invalid? && r.reply.error.fields != {}
    ensures actor.Some? && Acceptable(s.ingredients, input, Create) ==>
      && r.reply.Ok?
      && r.reply.body.id == s.nextRecipeId
      && s.nextRecipeId !in s.recipes
      && r.store.recipes == s.recipes[s.nextRecipeId := NewRecipe(input, actor.value, now)]
      && RecipeLines(r.store, s.nextRecipeId) == LinesFor(s.nextRecipeId, input.ingredients.value)
      && (forall k :: k != s.nextRecipeId ==> RecipeLines(r.store, k) == RecipeLines(s, k))
      && r.store == s.(recipes := r.store.recipes, nextRecipeId := r.store.nextRecipeId, lines := r.store.lines)
  {
    ValidateAcceptsExactlyAcceptable(s.ingredients, input, Create);
    if actor.None? then Step(Failed(NotAuthenticated), s)
    else
      var errs := Validate(s.ingredients, input, Create);
      if errs != {} then Step(Failed(Invalid(errs)), s)
      else
        var id := s.nextRecipeId;
        var t := Created(s, input, actor.value, now);
        CreatedLines(s, id, input.ingredients.value);
        Step(Ok(Detail(t, actor, id)), t)
  }

  lemma CreatedLines(s: Store, id: RecipeId, items: seq<AmountItem>)
    requires Valid(s) && id == s.nextRecipeId
    requires forall i :: 0 <= i < |items| ==> items[i].id >= 0
    ensures Filter(s.lines + LinesFor(id, items), LineOf(id)) == LinesFor(id, items)
    ensures forall k :: k != id ==> Filter(s.lines + LinesFor(id, items), LineOf(k)) == Filter(s.lines, LineOf(k))
  {
    forall k | k != id ensures Filter(s.lines + LinesFor(id, items), LineOf(k)) == Filter(s.lines, LineOf(k)) {
      LinesAfterAppend(s.lines, LinesFor(id, items), id, k);
    }
    LinesAfterAppend(s.lines, LinesFor(id, items), id, id + 1);
  }

  /** Reading a created recipe back shows one ingredient per submitted item,
      in order, with its amount. */
  lemma CreateThenRead(s: Store, user: UserId, input: RecipeInput, now: int)
    requires Valid(s) && user in s.users
    requires Acceptable(s.ingredients, input, Create)
    ensures var r := CreateRecipe(s, Some(user), input, now);
      var items := input.ingredients.value;
      && |r.reply.body.ingredients| == |items|
      && forall i :: 0 <= i < |items| ==>
           r.reply.body.ingredients[i].id == items[i].id && r.reply.body.ingredients[i].amount == items[i].amount
  {
    var id := s.nextRecipeId;
    var items := input.ingredients.value;
    ValidateAcceptsExactlyAcceptable(s.ingredients, input, Create);
    var t := Created(s, input, user, now);
    CreatedLines(s, id, items);
    assert CreateRecipe(s, Some(user), input, now).reply == Ok(Detail(t, Some(user), id));
  }

  /** POST /recipes/ as written. The viewset keeps `IsAuthorOrReadOnly`,
      whose request-level check lets everyone through, so an anonymous
      request is validated like any other and then saved with the anonymous
      user as author, which the foreign key refuses: an unhandled error. */
  function CreateRecipeAsWritten(s: Store, actor: Option<UserId>, input: RecipeInput, now: int): (r: Step<RecipeView>)
    requires Valid(s)
    requires actor.Some? ==> actor.value in s.users
    ensures actor.Some? ==> r == CreateRecipe(s, actor, input, now)
    ensures actor.None? ==> r.store == s
    ensures actor.None? && Acceptable(s.ingredients, input, Create) ==> r.reply == Failed(ServerError)
  {
    ValidateAcceptsExactlyAcceptable(s.ingredients, input, Create);
    if actor.Some? then CreateRecipe(s, actor, input, now)
    else
      var errs := Validate(s.ingredients, input, Create);
      if errs != {} then Step(Failed(Invalid(errs)), s) else Step(Failed(ServerError), s)
  }

  /** A store with one ingredient and no recipes. */
  function SaltStore(): (s: Store)
    ensures Valid(s)
  {
    Store(map[], map[0 := Ingredient("salt", "g")], 1, map[], 0, [], [], [], [])
  }

  /** A complete, valid recipe using that ingredient. */
  function SoupInput(): RecipeInput {
    RecipeInput(Some([AmountItem(0, 10)]), Some("soup.png"), Some("Soup"), Some("Boil."), Some(20))
  }

  /** The discrepancy: an anonymous, otherwise valid POST crashes as written
      and is refused with 401 as intended. */
  lemma AnonymousCreateCrashes(now: int)
    ensures CreateRecipeAsWritten(SaltStore(), None, SoupInput(), now).reply == Failed(ServerError)
    ensures CreateRecipe(SaltStore(), None, SoupInput(), now).reply == Failed(NotAuthenticated)
  {
    var s := SaltStore();
    var items := SoupInput().ingredients.value;
    assert ItemOk(s.ingredients, items[0]);
    assert InjectiveOn(items, ItemId);
    assert Acceptable(s.ingredients, SoupInput(), Create);
  }

  // ----- Update -----

  /** `super().update`: the fields present in the request replace the
      stored ones; author and publication date stay. */
  function Patched(current: Recipe, input: RecipeInput): (r: Recipe)
    ensures r.author == current.author && r.pubDate == current.pubDate
    ensures r.name == input.name.GetOr(current.name) && r.text == input.text.GetOr(current.text)
    ensures r.image == input.image.GetOr(current.image)
    ensures r.cookingTime == input.cookingTime.GetOr(current.cookingTime)
  {
    current.(name := input.name.GetOr(current.name), text := input.text.GetOr(current.text),
         image := input.image.GetOr(current.image), cookingTime := input.cookingTime.GetOr(current.cookingTime))
  }

  /** The store after a valid update of recipe `id`: its lines deleted and
      the submitted ones inserted, its fields patched, in one step. */
  function Updated(s: Store, id: RecipeId, input: RecipeInput, partial: bool): (t: Store)
    requires Valid(s) && id in s.recipes
    requires Acceptable(s.ingredients, input, Update(partial))
    ensures Valid(t)
    ensures t.recipes == s.recipes[id := Patched(s.recipes[id], input)]
    ensures t.lines == Filter(s.lines, NotLineOf(id)) + LinesFor(id, input.ingredients.value)
    ensures t == s.(recipes := t.recipes, lines := t.lines)
  {
    var items := input.ingredients.value;
    var u := s.(recipes := s.recipes[id := Patched(s.recipes[id], input)]);
    var kept := Filter(s.lines, NotLineOf(id));
    FilterKeepsInjective(s.lines, NotLineOf(id), LineKey);
    PatchedKeepsRecipesValid(s, id, input, partial);
    AppendLinesValid(u, kept, id, items);
    u.(lines := kept + LinesFor(id, items))
  }

  lemma PatchedKeepsRecipesValid(s: Store, id: RecipeId, input: RecipeInput, partial: bool)
    requires RecipesValid(s) && id in s.recipes
    requires Acceptable(s.ingredients, input, Update(partial))
    ensures RecipesValid(s.(recipes := s.recipes[id := Patched(s.recipes[id], input)]))
  {
  }

  /** PUT or PATCH /recipes/{id}/: 404 for a missing recipe, then the
      object permission (401 anonymous, 403 not the author), then
      validation; on success the recipe's line set is replaced wholesale
      and the present fields updated. */
  function UpdateRecipe(s: Store, actor: Option<UserId>, id: RecipeId, input: RecipeInput, partial: bool): (r: Step<RecipeView>)
    requires Valid(s)
    ensures Valid(r.store)
    ensures id !in s.recipes ==> r == Step(Failed(NotFound), s)
    ensures id in s.recipes && actor.None? ==> r == Step(Failed(NotAuthenticated), s)
    ensures id in s.recipes && actor.Some? && actor.value != s.recipes[id].author ==> r == Step(Failed(Forbidden), s)
    ensures id in s.recipes && actor == Some(s.recipes[id].author) && !Acceptable(s.ingredients, input, Update(partial)) ==>
      r.store == s && r.reply.Failed? && r.reply.error.Invalid? && r.reply.error.fields != {}
    ensures id in s.recipes && actor == Some(s.recipes[id].author) && Acceptable(s.ingredients, input, Update(partial)) ==>
      && r.reply.Ok? && r.reply.body.id == id
      && r.store.recipes == s.recipes[id := Patched(s.recipes[id], input)]
      && RecipeLines(r.store, id) == LinesFor(id, input.ingredients.value)
      && (forall k :: k != id ==> RecipeLines(r.store, k) == RecipeLines(s, k))
      && (forall l :: l in r.store.lines <==>
            (l in s.lines && l.recipe != id) || l in LinesFor(id, input.ingredients.value))
      && r.store == s.(recipes := r.store.recipes, lines := r.store.lines)
  {
    var mode := Update(partial);
    if id !in s.recipes then Step(Failed(NotFound), s)
    else if !HasObjectPermission(if partial then PATCH else PUT, s.recipes[id].author, actor) then
      Step(Failed(Refusal(actor)), s)
    else
      ValidateAcceptsExactlyAcceptable(s.ingredients, input, mode);
      var errs := Validate(s.ingredients, input, mode);
      if errs != {} then Step(Failed(Invalid(errs)), s)
      else UpdateAccepted(s, actor, id, input, partial)
  }

  /** The success branch of an update. */
  function UpdateAccepted(s: Store, actor: Option<UserId>, id: RecipeId, input: RecipeInput, partial: bool): (r: Step<RecipeView>)
    requires Valid(s) && id in s.recipes
    requires Acceptable(s.ingredients, input, Update(partial))
    ensures Valid(r.store)
    ensures r.reply.Ok? && r.reply.body.id == id
    ensures r.store.recipes == s.recipes[id := Patched(s.recipes[id], input)]
    ensures RecipeLines(r.store, id) == LinesFor(id, input.ingredients.value)
    ensures forall k :: k != id ==> RecipeLines(r.store, k) == RecipeLines(s, k)
    ensures forall l :: l in r.store.lines <==>
      (l in s.lines && l.recipe != id) || l in LinesFor(id, input.ingredients.value)
    ensures r.store == s.(recipes := r.store.recipes, lines := r.store.lines)
  {
    var t := Updated(s, id, input, partial);
    ReplacedLines(s, id, input.ingredients.value);
    Step(Ok(Detail(t, actor, id)), t)
  }

  lemma ReplacedLines(s: Store, id: RecipeId, items: seq<AmountItem>)
    requires forall i :: 0 <= i < |items| ==> items[i].id >= 0
    ensures var all := Filter(s.lines, NotLineOf(id)) + LinesFor(id, items);
      && Filter(all, LineOf(id)) == LinesFor(id, items)
      && forall k :: k != id ==> Filter(all, LineOf(k)) == Filter(s.lines, LineOf(k))
  {
    var kept := Filter(s.lines, NotLineOf(id));
    forall k | k != id ensures Filter(kept + LinesFor(id, items), LineOf(k)) == Filter(s.lines, LineOf(k)) {
      LinesAfterAppend(kept, LinesFor(id, items), id, k);
      KeptLinesOfOther(s.lines, id, k);
    }
    LinesAfterAppend(kept, LinesFor(id, items), id, id + 1);
  }

  /** Dropping the lines of `id` leaves another recipe's lines as they were. */
  lemma {:induction false} KeptLinesOfOther(lines: seq<Line>, id: RecipeId, k: RecipeId)
    requires k != id
    ensures Filter(Filter(lines, NotLineOf(id)), LineOf(k)) == Filter(lines, LineOf(k))
    decreases |lines|
  {
    if |lines| > 0 {
      KeptLinesOfOther(lines[1..], id, k);
    }
  }

  /** Submitting a recipe's current line set again leaves the store's line
      set as it was. */
  lemma UpdateWithSameLinesKeepsLineSet(s: Store, id: RecipeId, input: RecipeInput, partial: bool)
    requires Valid(s) && id in s.recipes
    requires Acceptable(s.ingredients, input, Update(partial))
    requires forall l :: l in LinesFor(id, input.ingredients.value) <==> l in RecipeLines(s, id)
    ensures var t := UpdateRecipe(s, Some(s.recipes[id].author), id, input, partial).store;
      forall l :: l in t.lines <==> l in s.lines
  {
  }

  /** Submitting a recipe's current fields and lines again changes nothing
      observable: the record and the line set are as before. */
  lemma UpdateWithCurrentDataIsIdentity(s: Store, id: RecipeId, input: RecipeInput, partial: bool)
    requires Valid(s) && id in s.recipes
    requires Acceptable(s.ingredients, input, Update(partial))
    requires forall l :: l in LinesFor(id, input.ingredients.value) <==> l in RecipeLines(s, id)
    requires input.name.GetOr(s.recipes[id].name) == s.recipes[id].name
    requires input.text.GetOr(s.recipes[id].text) == s.recipes[id].text
    requires input.image.GetOr(s.recipes[id].image) == s.recipes[id].image
    requires input.cookingTime.GetOr(s.recipes[id].cookingTime) == s.recipes[id].cookingTime
    ensures var t := UpdateRecipe(s, Some(s.recipes[id].author), id, input, partial).store;
      t.recipes == s.recipes && (forall l :: l in t.lines <==> l in s.lines)
  {
    var author := Some(s.recipes[id].author);
    UpdateByAuthorAccepted(s, author, id, input, partial);
    AcceptedCurrentDataIsIdentity(s, author, id, input, partial);
  }

  lemma AcceptedCurrentDataIsIdentity(s: Store, actor: Option<UserId>, id: RecipeId, input: RecipeInput, partial: bool)
    requires Valid(s) && id in s.recipes
    requires Acceptable(s.ingredients, input, Update(partial))
    requires forall l :: l in LinesFor(id, input.ingredients.value) <==> l in RecipeLines(s, id)
    requires Patched(s.recipes[id], input) == s.recipes[id]
    ensures var t := UpdateAccepted(s, actor, id, input, partial).store;
      t.recipes == s.recipes && (forall l :: l in t.lines <==> l in s.lines)
  {
    var t := UpdateAccepted(s, actor, id, input, partial).store;
    var added := LinesFor(id, input.ingredients.value);
    assert forall l :: l in added <==> l in s.lines && l.recipe == id;
    SameDataSameStore(s, t, id, Patched(s.recipes[id], input), added);
  }

  /** An acceptable update by the recipe's author takes the success branch. */
  lemma UpdateByAuthorAccepted(s: Store, actor: Option<UserId>, id: RecipeId, input: RecipeInput, partial: bool)
    requires Valid(s) && id in s.recipes && actor == Some(s.recipes[id].author)
    requires Acceptable(s.ingredients, input, Update(partial))
    ensures UpdateRecipe(s, actor, id, input, partial) == UpdateAccepted(s, actor, id, input, partial)
  {
    ValidateAcceptsExactlyAcceptable(s.ingredients, input, Update(partial));
  }

  lemma SameDataSameStore(s: Store, t: Store, id: RecipeId, patched: Recipe, added: seq<Line>)
    requires id in s.recipes && patched == s.recipes[id]
    requires t.recipes == s.recipes[id := patched]
    requires forall l :: l in t.lines <==> (l in s.lines && l.recipe != id) || l in added
    requires forall l :: l in added <==> l in s.lines && l.recipe == id
    ensures t.recipes == s.recipes && forall l :: l in t.lines <==> l in s.lines
  {
  }

  // ----- Destroy -----

  /** DELETE /recipes/{id}/: 404, then the object permission, then the
      cascading delete. */
  function DestroyRecipe(s: Store, actor: Option<UserId>, id: RecipeId): (r: Step<()>)
    requires Valid(s)
    ensures Valid(r.store)
    ensures id !in s.recipes ==> r == Step(Failed(NotFound), s)
    ensures id in s.recipes && actor.None? ==> r == Step(Failed(NotAuthenticated), s)
    ensures id in s.recipes && actor.Some? && actor.value != s.recipes[id].author ==> r == Step(Failed(Forbidden), s)
    ensures id in s.recipes && actor == Some(s.recipes[id].author) ==>
      r.reply == NoContent && r.store == DeleteRecipe(s, id)
      && r.store.recipes.Keys == s.recipes.Keys - {id}
      && (forall l :: l in r.store.lines <==> l in s.lines && l.recipe != id)
      && (forall kind, p :: p in r.store.Rows(kind) <==> p in s.Rows(kind) && p.recipe != id)
  {
    if id !in s.recipes then Step(Failed(NotFound), s)
    else if !HasObjectPermission(DELETE, s.recipes[id].author, actor) then Step(Failed(Refusal(actor)), s)
    else Step(NoContent, DeleteRecipe(s, id))
  }
}
