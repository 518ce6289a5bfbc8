/** Who may change a recipe, and how a recipe is reached by its short link. */
module Access {
  import opened Common
  import opened Text
  import opened Store

  // ----- IsAuthorOrReadOnly -----

  /** `has_object_permission`: a safe method, or the recipe's author making
      the request. An anonymous viewer is never the author. */
  function HasObjectPermission(verb: Method, author: UserId, viewer: Option<UserId>): (b: bool)
    ensures verb.IsSafe() ==> b
    ensures viewer == Some(author) ==> b
    ensures !verb.IsSafe() && viewer != Some(author) ==> !b
  {
    verb in {GET, HEAD, OPTIONS} || viewer == Some(author)
  }

  /** The decision reads only the method and whether the viewer is the author. */
  lemma PermissionDependsOnlyOnAuthorship(verb: Method, a: UserId, v: Option<UserId>, b: UserId, w: Option<UserId>)
    requires (v == Some(a)) == (w == Some(b))
    ensures HasObjectPermission(verb, a, v) == HasObjectPermission(verb, b, w)
  {
  }

  /** An anonymous request may only read. */
  lemma AnonymousOnlyReads(verb: Method, author: UserId)
    ensures HasObjectPermission(verb, author, None) <==> verb.IsSafe()
  {
  }

  /** The object-level refusal DRF reports: 401 when the request carries no
      credentials, 403 otherwise. */
  function Refusal(viewer: Option<UserId>): (e: Error)
    ensures viewer.None? <==> e == NotAuthenticated
    ensures viewer.Some? <==> e == Forbidden
  {
    if viewer.None? then NotAuthenticated else Forbidden
  }

  // ----- Short links -----

  /** The redirect target of a recipe, `f'/recipes/{recipe.id}'`. */
  function RecipePath(id: RecipeId): string {
    "/recipes/" + Decimal(id)
  }

  /** `get-link`: the path of the short-link route `recipes/<int:recipe_id>/`
      for an existing recipe. The route is mounted under `prefix` and made
      absolute by `build_absolute_uri`, neither of which is part of this model.
      That the link leads back to the recipe is `GetLinkNamesTheRecipe`. */
  function GetLink(s: Store, prefix: string, pk: RecipeId): (r: Reply<string>)
    ensures pk !in s.recipes ==> r == Failed(NotFound)
    ensures pk in s.recipes ==> r.Ok? && r.body == prefix + "recipes/" + Decimal(pk) + "/"
  {
    if pk !in s.recipes then Failed(NotFound)
    else Ok(prefix + "recipes/" + Decimal(pk) + "/")
  }

  /** `RecipeShortLinkView.get` behind the route `recipes/<int:recipe_id>/`:
      the segment must be digits (the `int` path converter), the recipe must
      exist, and the answer is a redirect to the recipe's page. The store is
      only read. */
  function ResolveShortLink(s: Store, segment: string): (r: Reply<string>)
    ensures !IsDigits(segment) || segment == "" ==> r == Failed(NotFound)
    ensures IsDigits(segment) && segment != "" ==>
      (DecimalValue(segment) in s.recipes ==> r == Ok(RecipePath(DecimalValue(segment))))
      && (DecimalValue(segment) !in s.recipes ==> r == Failed(NotFound))
  {
    if segment == "" || !IsDigits(segment) then Failed(NotFound)
    else
      var id := DecimalValue(segment);
      if id in s.recipes then Ok(RecipePath(id)) else Failed(NotFound)
  }

  /** Following the short link of an existing recipe redirects to that recipe. */
  lemma ShortLinkRoundTrip(s: Store, id: RecipeId)
    requires id in s.recipes
    ensures ResolveShortLink(s, Decimal(id)) == Ok(RecipePath(id))
  {
    DecimalRoundTrip(id);
  }

  /** The link of a missing recipe does not resolve. */
  lemma MissingRecipeHasNoLink(s: Store, id: RecipeId)
    requires id !in s.recipes
    ensures ResolveShortLink(s, Decimal(id)) == Failed(NotFound)
    ensures GetLink(s, "", id) == Failed(NotFound)
  {
    DecimalRoundTrip(id);
  }

  /** Different recipes redirect to different paths. */
  lemma RecipePathInjective(a: RecipeId, b: RecipeId)
    requires RecipePath(a) == RecipePath(b)
    ensures a == b
  {
    var p := "/recipes/";
    assert RecipePath(a)[|p|..] == Decimal(a);
    assert RecipePath(b)[|p|..] == Decimal(b);
    DecimalInjective(a, b);
  }

  /** The link `get-link` hands out carries the id the short-link route reads back. */
  lemma GetLinkNamesTheRecipe(s: Store, prefix: string, pk: RecipeId)
    requires pk in s.recipes
    ensures var link := GetLink(s, prefix, pk).body;
      var segment := link[|prefix| + |"recipes/"|..|link| - 1];
      segment == Decimal(pk) && ResolveShortLink(s, segment) == Ok(RecipePath(pk))
  {
    var link := GetLink(s, prefix, pk).body;
    assert link[|prefix| + |"recipes/"|..|link| - 1] == Decimal(pk);
    ShortLinkRoundTrip(s, pk);
  }
}
