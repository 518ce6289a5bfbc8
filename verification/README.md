# foodgram recipe store — a Dafny model

This project models the core of foodgram's backend, a recipe-sharing service.
Users publish recipes made from ingredient lines. They keep favorites and a
shopping cart, subscribe to other authors, and download a shopping list that
adds up the ingredients of the recipes in their cart.

The model treats the store as an immutable value (`Store.Store`). Every
endpoint is a pure transition that returns the reply together with the store
after it (`Store.Step`).

- **Constraints as invariants.** The database constraints make up
  `Store.Valid`:
  - one line per (recipe, ingredient);
  - one favorite or cart row per (user, recipe);
  - one subscription per (user, author), and no self-subscription;
  - unique (name, unit) for ingredients;
  - every foreign key points at an existing row;
  - amounts and cooking times are at least one.

  Every transition is proved to keep `Valid`.
- **Requests.** The requesting user is an `Option<UserId>`, where `None` is an
  anonymous request.
- **Errors.** Replies carry the error kinds the views produce: 401, 403, 404,
  duplicate, self-subscription, field validation, and an unhandled server error.

Modules follow the program's structure:

| module | file | models |
|---|---|---|
| `Store` | store.dfy | entities, constraints, cascading deletes |
| `Views` | views.dfy | read serializers and default recipe order |
| `RecipeRelations` | relations.dfy | the favorite / cart handler |
| `Subscriptions` | subscriptions.dfy | subscribe, subscriptions listing, avatar |
| `Access` | access.dfy | `IsAuthorOrReadOnly`, get-link and the short-link redirect |
| `RecipeWrite` | recipe_write.dfy | recipe validation, create, update, destroy |
| `Filters` | filters.dfy | `IngredientFilter`, `RecipeFilter`, the recipe listing |
| `ShoppingList` | shopping_list.dfy | aggregation and layout of the shopping list |
| `Admin` | admin.dfy | `CookingTimeFilter` and `UsedInRecipesFilter` |

`Common`, `Seqs`, `Text` and `Sorting` supply:

- the reply types;
- sequence filtering;
- decimal numerals, code-point string order and case folding;
- one insertion sort.

A few behaviours of the code worth stating plainly:

- **Removing a favorite or cart row** always answers 204 No Content, also
  when the row does not exist (backend/api/views/recipes.py:77-78).
- **Unsubscribing** always answers 204 No Content, also from an author one
  does not follow (backend/api/views/users.py:79-83).
- **PUT and PATCH without `ingredients`** are refused: the recipe
  serializer's object-level check demands the field on every write.
- **`cooking_time`** has no upper bound in the serializer.

## Model

| member | source | states |
|---|---|---|
| Store.ValidRelation | backend/recipes/models.py:196-206 | In a valid store each favorite and cart table holds a (user, recipe) pair at most once, and only for existing users and recipes. |
| Store.IngredientDeterminedByNameAndUnit | backend/recipes/models.py:81-86 | Two ingredients with the same name and unit are the same ingredient. So grouping lines by (name, unit) is grouping them by ingredient. |
| Store.OneLinePerIngredient | backend/recipes/models.py:169-174 | Two lines of one recipe that name the same ingredient are the same line. |
| Store.DeleteRecipe | backend/recipes/models.py:146-194 | Deleting a recipe removes its lines and every favorite and cart row for it (the CASCADE keys at lines 146-150 and 190-194). Nothing else changes, and the result is valid. |
| Store.DeleteUser | backend/recipes/models.py:100-104 | Deleting a user removes the recipes they wrote with those recipes' lines and relation rows. It also removes their own favorite and cart rows (lines 185-189) and every subscription with them on either side (lines 238-249). Other rows are kept and the result is valid. |
| Store.DeleteIngredient | backend/recipes/models.py:151-155 | Deleting an ingredient removes exactly the lines that use it. Nothing else changes, and the result is valid. |
| Views.AuthorRecipes | backend/api/serializers/users.py:93 | `author.recipes.all()` holds exactly the author's recipes, each once, in the default order: newest first, then by name (models.py:135). |
| Views.RecipesCountIsListingLength | backend/api/serializers/users.py:78 | `recipes_count` equals the number of recipes in the author's listing. |
| Views.Short | backend/api/serializers/users.py:63-71 | The short projection carries exactly id, name, image and cooking_time, taken from the recipe. |
| Views.RecipesPreview | backend/api/serializers/users.py:89-95 | With limit n the preview is the prefix of the author's listing of length min(n, count). With no limit the default 10**10 applies. |
| Views.PreviewWithoutLimitListsAll | backend/api/serializers/users.py:92 | Without `recipes_limit` every recipe of the author appears in the preview (for at most 10**10 recipes). |
| Views.IsSubscribed | backend/api/serializers/users.py:34-40 | `is_subscribed` is false for an anonymous viewer. For a signed-in viewer it is true iff the subscription row exists. |
| Views.Profile | backend/api/serializers/users.py:14-32 | The user representation carries the user's id, email, username, first and last name and avatar as stored, and the viewer's `is_subscribed`. |
| Views.Card | backend/api/serializers/users.py:74-87 | The author card is the profile, the limited recipe preview and the total recipe count. |
| Views.CountIndependentOfLimit | backend/api/serializers/users.py:78-93 | Two cards of one author with different limits show the same count. The preview never holds more recipes than the count. |
| Views.IsFavorited | backend/api/serializers/recipes.py:77-83 | `is_favorited` is falsy for an anonymous viewer. For a signed-in viewer it is true iff the favorite row exists. |
| Views.IsInShoppingCart | backend/api/serializers/recipes.py:85-92 | `is_in_shopping_cart` is False for an anonymous viewer. For a signed-in viewer it is true iff the cart row exists. |
| Views.ViewLine | backend/api/serializers/recipes.py:23-37 | A shown ingredient line carries the ingredient's id, name and measurement unit, and the line's amount. |
| Views.Detail | backend/api/serializers/recipes.py:55-75 | A recipe as listed has its author's profile and one entry per line of the recipe, in table order. Its two flags are as the viewer's rows say, and its name, image, text and cooking time are the stored ones. |
| RecipeRelations.AddRelation | backend/api/views/recipes.py:54-75 | POST on favorite or shopping_cart can fail without changing the store: 401 when anonymous, 404 for a missing recipe, a duplicate error when the row exists. Otherwise it inserts exactly that (user, recipe) row into that table and answers the short projection. |
| RecipeRelations.RemoveRelation | backend/api/views/recipes.py:77-78 | DELETE answers 204 for any signed-in user, even when the recipe does not exist. Afterwards the pair is absent, every other row is kept, and the other table is untouched. |
| RecipeRelations.RemoveIdempotent | backend/api/views/recipes.py:77-78 | Removing twice gives the same reply and store as removing once. |
| RecipeRelations.AddTwiceFails | backend/api/views/recipes.py:60-70 | A second identical POST is refused as a duplicate and leaves the store as the first left it. |
| RecipeRelations.AddThenRemoveRestores | backend/api/views/recipes.py:54-78 | A successful add followed by the matching remove gives back exactly the original store. |
| RecipeRelations.HandlerTouchesOnlyItsTable | backend/api/views/recipes.py:102-113 | The favorite action never changes the cart table, and the shopping_cart action never changes the favorite table. |
| RecipeRelations.SerializerFlagsFollowHandler | backend/api/serializers/recipes.py:77-92 | After a successful add the recipe reads as favorited, or as in the cart. After the matching remove it reads as neither. |
| Subscriptions.Subscribe | backend/api/views/users.py:77-109 | The checks run in order: 401, then 404 for a missing author, then self-subscription, then duplicate. Each refusal leaves the store unchanged. Success inserts exactly (user, author) and answers the author's full card (`Views.Card`: profile, preview and `recipes_count`) as the new store shows it, with `is_subscribed` true. |
| Subscriptions.Unsubscribe | backend/api/views/users.py:79-83 | DELETE answers 204 whether or not the row existed. Afterwards the pair is absent and every other subscription is kept. |
| Subscriptions.UnsubscribeIdempotent | backend/api/views/users.py:79-83 | Unsubscribing twice gives the same reply and store as once. |
| Subscriptions.NoSelfSubscription | backend/api/views/users.py:87-91 | Subscribing to oneself is refused without changing the store, and no valid store holds a self-subscription. |
| Subscriptions.SubscribeTwiceFails | backend/api/views/users.py:93-104 | A second identical subscribe is refused as a duplicate and changes nothing. |
| Subscriptions.SubscribedAuthors | backend/api/views/users.py:116-120 | The subscriptions queryset holds exactly the authors the user follows, each once, ordered by username. |
| Subscriptions.SubscriptionsPage | backend/api/views/users.py:116-127 | The listing answers one author card per followed author, in that order: each card is the author's profile marked subscribed, the recipe preview cut at `recipes_limit` and `recipes_count` (`Views.Card`). Anonymous requests get 401. |
| Subscriptions.SetAvatar | backend/api/views/users.py:44-64 | PUT without an `avatar` key is refused by the view with a 400 keyed `error`; a falsy one fails the serializer's check (serializers/users.py:54-60) with a 400 keyed `avatar`. Both change nothing. Otherwise only the requesting user's avatar changes. |
| Subscriptions.ClearAvatar | backend/api/views/users.py:65-70 | DELETE answers 204. A truthy avatar is cleared; a falsy one (the empty reference) is left as stored, as `if request.user.avatar:` skips it. Either way the avatar is falsy afterwards, and no other user and no other field changes. |
| Subscriptions.ClearAvatarIdempotent | backend/api/views/users.py:65-70 | Clearing twice is the same as clearing once. |
| Access.HasObjectPermission | backend/api/permissions.py:12-17 | Safe methods are always allowed and the author is always allowed. Every unsafe method by anyone else, an anonymous user included, is denied. |
| Access.PermissionDependsOnlyOnAuthorship | backend/api/permissions.py:12-17 | The decision is the same for any two (author, viewer) pairs that agree on whether the viewer is the author. |
| Access.AnonymousOnlyReads | backend/api/permissions.py:12-17 | An anonymous request is allowed exactly for the safe methods. |
| Access.GetLink | backend/api/views/recipes.py:86-95 | get-link answers 404 for a missing recipe. Otherwise it answers the short-link route `recipes/<id>/` under its mount prefix. |
| Access.ResolveShortLink | backend/recipes/views.py:11-14 | A segment that is not a non-empty digit string, or names no recipe, is 404. Otherwise the answer is a redirect to `/recipes/` followed by the decimal id. The function is pure, so it changes no state and is deterministic. |
| Access.ShortLinkRoundTrip | backend/recipes/views.py:11-14 | Following the short link of an existing recipe redirects to that recipe's page. |
| Access.MissingRecipeHasNoLink | backend/api/views/recipes.py:88-92 | For a missing recipe both get-link and the short-link route answer 404. |
| Access.RecipePathInjective | backend/recipes/views.py:14 | Distinct recipes redirect to distinct paths. |
| Access.GetLinkNamesTheRecipe | backend/api/views/recipes.py:93-94 | The segment of the link get-link hands out is the recipe's decimal id, and the short-link route reads it back as that recipe. |
| RecipeWrite.ValidateIngredients | backend/api/serializers/recipes.py:129-142 | An ingredients list is accepted iff it is non-empty, every item names an existing ingredient with amount >= 1 (line 46), and no id repeats. The accepted list comes back unchanged. Each refusal comes with its reason. |
| RecipeWrite.Validate | backend/api/serializers/recipes.py:95-127 | Only field names are reported. Any request without ingredients is refused. It reports `ingredients` when every other field passes, since the object-level check runs only after the field checks; a POST or PUT without ingredients always reports it. A cooking time below 1 reports `cooking_time`, and an empty image reports `image`. |
| RecipeWrite.ValidateAcceptsExactlyAcceptable | backend/api/serializers/recipes.py:95-142 | Validation reports nothing iff the request is acceptable field by field. |
| RecipeWrite.UpdateWithoutIngredientsRefused | backend/api/serializers/recipes.py:112-119 | A PUT or PATCH that is fine except for a missing `ingredients` key is refused with exactly `ingredients` reported. |
| RecipeWrite.NoUpperBoundOnCookingTime | backend/api/serializers/recipes.py:101 | Any cooking time >= 1, however large, passes validation. |
| RecipeWrite.LinesFor | backend/api/serializers/recipes.py:144-152 | `create_ingredients` makes one line per submitted item, in order, with the item's ingredient and amount. |
| RecipeWrite.Created | backend/api/serializers/recipes.py:154-162 | A valid create stores the recipe under a fresh key and appends its lines in one step. The store stays valid. |
| RecipeWrite.CreateRecipe | backend/api/views/recipes.py:50-52 | POST /recipes/ as intended: 401 when anonymous, then validation with no change on failure. On success the new recipe's lines are exactly the submitted items, other recipes' lines are unchanged, and the store is valid. |
| RecipeWrite.CreateThenRead | backend/api/serializers/recipes.py:144-177 | The answer to a create shows one ingredient per submitted item, in submission order (the order the model gives the unordered related queryset), with its id and amount. |
| RecipeWrite.CreateRecipeAsWritten | backend/api/views/recipes.py:39-52 | POST /recipes/ as written: a signed-in request behaves as `CreateRecipe`. An anonymous one is validated and, when valid, ends in an unhandled error. |
| RecipeWrite.AnonymousCreateCrashes | backend/api/views/recipes.py:50-52 | For one concrete valid request, the anonymous POST is an unhandled error as written and 401 as intended. |
| RecipeWrite.Patched | backend/api/serializers/recipes.py:171 | `super().update` replaces the fields present in the request and keeps author and publication date. |
| RecipeWrite.Updated | backend/api/serializers/recipes.py:164-171 | A valid update deletes all lines of the recipe, inserts the submitted ones and patches the fields, in one step. The store stays valid. |
| RecipeWrite.UpdateRecipe | backend/api/serializers/recipes.py:112-171 | PUT or PATCH checks in order: 404, then the object permission (401 or 403), then validation. Failures change nothing. On success the recipe's lines are exactly the submitted set and other recipes' lines are unchanged. |
| RecipeWrite.UpdateWithSameLinesKeepsLineSet | backend/api/serializers/recipes.py:164-171 | Resubmitting a recipe's current lines leaves the store's line set as it was. |
| RecipeWrite.UpdateWithCurrentDataIsIdentity | backend/api/serializers/recipes.py:164-171 | Resubmitting the current fields and lines leaves the recipes and the line set as they were. |
| RecipeWrite.DestroyRecipe | backend/api/views/recipes.py:35-39 | DELETE is 404 for a missing recipe, then refused with 401 when anonymous and 403 for any other non-author, leaving the store unchanged. For the author the result is the cascading delete: the recipe, its lines and its favorite and cart rows go, and nothing else changes. |
| Filters.IngredientRows | backend/api/views/recipes.py:24-32 | The ingredient listing holds every ingredient, in name order (models.py:80). |
| Filters.FilterIngredients | backend/api/filters.py:10 | `name` keeps exactly the ingredients whose name starts with the query, ignoring case. An absent or empty query keeps everything. The result is a subset that keeps the input's name order. |
| Filters.EmptyQueryMatchesAll | backend/api/filters.py:10 | The empty prefix matches every ingredient. |
| Filters.FilterAuthor | backend/api/filters.py:22 | `author` keeps exactly the recipes by that author id, preserving the order. |
| Filters.FilterThrough | backend/recipes/models.py:196-200 | A lookup through a related name succeeds only for `favorite` and `shoppingcart`, the names `default_related_name` gives, and then keeps the recipes with a row for the user. Any other name is an unhandled error. |
| Filters.FilterRelation | backend/api/filters.py:34-46 | As intended: a true value from a signed-in user keeps exactly the recipes in that user's favorites, or cart. A false value, an absent value or an anonymous user keeps the input unchanged. |
| Filters.IntendedLookupAgrees | backend/recipes/models.py:200 | Filtering through the real related name gives the intended filter. |
| Filters.FilterRelationAsWritten | backend/api/filters.py:34-46 | As written: the lookup goes through `favorited_by` and `in_shopping_carts`. The pass-through cases agree with the intended filter. |
| Filters.RelationFilterAsWrittenFails | backend/api/filters.py:38-45 | Every true-valued request from a signed-in user fails as written, where the intended filter answers the user's recipes. |
| Filters.RecipeListing | backend/api/filters.py:19-46 | The recipe listing before pagination holds exactly the recipes that pass the three filters, in the default order. |
| ShoppingList.AddAmount | backend/api/views/recipes.py:125-130 | Adding one line's amount to ordered groups keeps them ordered, adds its (name, unit) to the keys, and raises exactly that group's total by the amount. |
| ShoppingList.Aggregate | backend/api/views/recipes.py:125-130 | There is one group per (name, unit) among the lines, in order. Each group's total is the sum of the amounts of the lines under it. |
| ShoppingList.OrderedMeans | backend/api/views/recipes.py:130 | In the aggregated groups no (name, unit) repeats and names ascend. |
| ShoppingList.JoinedIsCartedLines | backend/api/views/recipes.py:125-127 | The join with the cart yields each line of a carted recipe exactly once, because a cart holds a recipe at most once. |
| ShoppingList.ShoppingTotals | backend/api/views/recipes.py:125-130 | The ingredient section has one row per (name, unit) used by a carted recipe, in name order. Each row's total is the sum of the carted lines' amounts for that (name, unit). |
| ShoppingList.TotalsOncePerGroupByName | backend/api/views/recipes.py:125-130 | Each (name, unit) appears once in the shopping list, and the names ascend. |
| ShoppingList.RemovingFromCartDropsContribution | backend/api/views/recipes.py:125-130 | Taking a recipe out of the cart lowers every (name, unit) total by exactly that recipe's amounts for it. |
| ShoppingList.CartedRecipes | backend/api/views/recipes.py:132-134 | The recipe section lists exactly the recipes in the user's cart, each once, ordered by name. |
| ShoppingList.Entries | backend/api/views/recipes.py:151-154 | Each recipe entry carries the recipe's name and its author's username. |
| ShoppingList.Render | backend/api/views/recipes.py:138-155 | The document has a 4-line header (the username, the date, a blank line, "Продукты:"), then the ingredients numbered from 1, a blank line, "Рецепты:", then the recipes numbered from 1. |
| ShoppingList.ItemNumbered | backend/api/views/recipes.py:143-154 | The i-th item starts with the decimal digits of i+1 followed by ". ". |
| ShoppingList.DownloadShoppingCart | backend/api/views/recipes.py:115-161 | An anonymous request gets 401. Otherwise the document starts with the username, and its ingredient lines are the user's totals, numbered. |
| Admin.Stats | backend/recipes/admin.py:53-56 | Min and max cooking time over the recipes: none for no recipes. Both are attained, and every recipe lies between them. |
| Admin.ComputeThresholds | backend/recipes/admin.py:51-73 | No thresholds iff there are no recipes or the min or max is 0 (falsy). A spread under 60 gives fast = min(30, (min+max) div 2) and medium = min(60, max). Otherwise step = (max-min) div 3, fast = min+step and medium = min+2*step. |
| Admin.ThresholdsOrdered | backend/recipes/admin.py:64-71 | In both branches fast <= medium <= max, given min <= max. |
| Admin.WideSpreadThirds | backend/recipes/admin.py:67-71 | With a spread of at least 60, min < fast < medium < max. |
| Admin.NarrowSpreadMayLeaveFastEmpty | backend/recipes/admin.py:64-66 | With min 40 and max 50 the fast threshold is 30, below every recipe. |
| Admin.CategoriesPartition | backend/recipes/admin.py:117-125 | With fast <= medium, every cooking time is in exactly one of fast, medium and slow. |
| Admin.CategoryCountsSum | backend/recipes/admin.py:86-95 | The three category querysets' sizes add up to the size of the whole. |
| Admin.Lookups | backend/recipes/admin.py:75-105 | There are three choices: fast, medium and slow. Without thresholds the labels are fixed. With thresholds the fast label shows the threshold and the number of fast recipes. |
| Admin.LookupCountsCoverAllRecipes | backend/recipes/admin.py:86-95 | The three counts shown in the lookups add up to the number of recipes. |
| Admin.StoreThresholdsOrdered | backend/recipes/admin.py:64-71 | A store's thresholds, when it has any, satisfy fast <= medium. |
| Admin.CookingTimeFilter | backend/recipes/admin.py:107-127 | An absent or empty value, no thresholds, or an unknown value returns the queryset unchanged. A category keeps exactly the recipes in it. |
| Admin.EachRecipeInOneCategory | backend/recipes/admin.py:117-125 | With nested thresholds each recipe is in exactly one of the fast, medium and slow querysets. |
| Admin.UsedInRecipesFilter | backend/recipes/admin.py:34-42 | 'yes' keeps exactly the ingredients some recipe uses, each once. 'no' keeps exactly the unused ones. Any other value returns the input. |
| Admin.UsedAndUnusedComplementary | backend/recipes/admin.py:34-42 | Every ingredient of the queryset is in exactly one of the 'yes' and 'no' results. |

## Left out

- Pagination (`FoodgramPagination`): the listings are modelled as the querysets a page is cut from.
- Base64 image decoding, file storage, avatar file deletion and `build_absolute_uri`: images are opaque references, the empty reference being falsy. get-link answers a path under a mount prefix given as a parameter.
- Registration, login, `me`, and the username and email validators: these are library code. Users exist in the store.
- The ingredient import commands: these are file I/O.
- The HTML display helpers of both admin modules and their count columns.
- Django's admin change forms.
- `datetime.now()` in the shopping list: the formatted date is a parameter of `ShoppingList.DownloadShoppingCart`.
- `str.capitalize()` on ingredient names in the shopping list: Unicode case mapping is not modelled, so names are printed as stored.
- The document is modelled as its list of lines. Joining them with newlines and the file response are left out.
- The 32767 ceiling of `PositiveSmallIntegerField` on amounts: the model's amounts are unbounded integers, so a database overflow on insert is not modelled.
- The ceiling of `PositiveIntegerField` on `cooking_time` (2147483647 on PostgreSQL): the serializer declares no `max_value`, so a larger cooking time passes validation and then fails on insert with an unhandled database error. The model's cooking times are unbounded integers, and `RecipeWrite.CreateRecipe` and `RecipeWrite.UpdateRecipe` answer success for such a value.
- The order of a recipe's ingredient lines: `IngredientInRecipe` has no `Meta.ordering`, so the database promises no order for `ingredients_in_recipes`. The model returns them in table order, which is insertion order.
- Database collation and ordering ties. Strings are compared by code point, and rows that tie on the sort key come out in a fixed but unspecified order.
- Whitespace trimming by `CharField`: names and texts are compared as given.
- Case-insensitive prefix matching folds ASCII and basic Cyrillic letters only.
- An ingredient item missing its `id` or `amount` key, and non-integer input: the request types carry integers.
- A `recipes_limit` that is not a non-negative integer: the source fails inside `int()` or the slice, and the model takes a natural number.
- Concurrency: the `get_or_create` races and database-level enforcement under parallel requests. Every transition is one atomic step, as the `transaction.atomic` blocks intend.
- The alternative `users/models.py` revision of User and Subscription: the API imports the `recipes/models.py` ones, which are modelled.
- Admin.CookingTimeFilter: takes the thresholds as a parameter. `Admin.StoreThresholds` computes them from all of the store's recipes, as `_get_thresholds` does on every call.
- Admin.Lookups: its contract pins down only the fast label. The medium and slow labels are built the same way in the body.
- ShoppingList.DownloadShoppingCart: its contract states the header's first line and the ingredient section. The recipe section's contents are stated by `ShoppingList.CartedRecipes` and `ShoppingList.Render`.

## Findings

Each finding is modelled twice: as written, with a lemma that exhibits the
failure, and as evidently intended. The rest of the model uses the intended
definition. `Filters.RecipeListing` applies `Filters.FilterRelation`, and the
create endpoint is `RecipeWrite.CreateRecipe`.

| source | as written | input that shows it | evidently intended | confidence | as-written member | corrected member |
|---|---|---|---|---|---|---|
| backend/api/views/recipes.py:39-52 | `RecipeViewSet` is guarded only by `IsAuthorOrReadOnly`. Its request-level check admits everyone, so an anonymous POST /recipes/ passes validation, and `perform_create` saves it with the anonymous user as author. The foreign key refuses that assignment, and the request ends in an unhandled error. | an anonymous POST of a complete, valid recipe (one ingredient "salt", amount 10, cooking time 20) | 401 Not Authenticated before validation, as the other write endpoints answer | not executed; high | RecipeWrite.CreateRecipeAsWritten, RecipeWrite.AnonymousCreateCrashes | RecipeWrite.CreateRecipe |
| backend/api/filters.py:38-45 | `filter_is_favorited` and `filter_is_in_shopping_cart` filter through `favorited_by__user` and `in_shopping_carts__user`. Recipe has no relations by those names: `default_related_name = '%(class)s'` names them `favorite` and `shoppingcart`. The lookup raises a FieldError, which is an unhandled error. | GET /recipes/?is_favorited=1 (or is_in_shopping_cart=1) from any signed-in user | keep exactly the recipes in that user's favorites (or cart) | not executed; high | Filters.FilterRelationAsWritten, Filters.RelationFilterAsWrittenFails | Filters.FilterRelation |
