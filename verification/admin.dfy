/** The list filters of the recipe admin: the cooking-time categories with
    thresholds derived from the shortest and longest recipe, and the
    ingredient filter by use in recipes. */
module Admin {
  import opened Common
  import opened Seqs
  import opened Text
  import opened Store
  import opened Views
  import opened Filters

  // ----- Thresholds -----

  /** `Min('cooking_time')` and `Max('cooking_time')` over the rows; `None`
      for no rows. */
  function Stats(rows: seq<RecipeRow>): (r: Option<(int, int)>)
    ensures r.None? <==> |rows| == 0
    ensures r.Some? ==> r.value.0 <= r.value.1
    ensures r.Some? ==> forall row :: row in rows ==> r.value.0 <= row.recipe.cookingTime <= r.value.1
    ensures r.Some? ==> exists row :: row in rows && row.recipe.cookingTime == r.value.0
    ensures r.Some? ==> exists row :: row in rows && row.recipe.cookingTime == r.value.1
    decreases |rows|
  {
    if |rows| == 0 then None
    else
      var t := rows[0].recipe.cookingTime;
      assert rows == [rows[0]] + rows[1..];
      var rest := Stats(rows[1..]);
      if rest.None? then Some((t, t))
      else
        var lo := if t <= rest.value.0 then t else rest.value.0;
        var hi := if t >= rest.value.1 then t else rest.value.1;
        Some((lo, hi))
  }

  /** `_get_thresholds`: (min, fast, medium), or none at all. */
  datatype Thresholds = NoThresholds | Thresholds(least: int, fast: int, medium: int)

  function MinInt(a: int, b: int): int {
    if a <= b then a else b
  }

  /** The thresholds for a shortest time `lo` and a longest time `hi`. A
      zero (falsy) aggregate means no thresholds. A spread under an hour
      caps the fast threshold at 30 and the medium one at 60; a wider
      spread is cut into thirds. Python's `//` floors; the divisors are
      positive, where Dafny's division agrees with it. */
  function ComputeThresholds(stats: Option<(int, int)>): (r: Thresholds)
    ensures stats.None? || stats.value.0 == 0 || stats.value.1 == 0 <==> r == NoThresholds
    ensures r.Thresholds? ==> r.least == stats.value.0
    ensures r.Thresholds? && stats.value.1 - stats.value.0 < 60 ==>
      r.fast <= 30 && r.fast <= (stats.value.0 + stats.value.1) / 2
      && (r.fast == 30 || r.fast == (stats.value.0 + stats.value.1) / 2)
      && r.medium <= 60 && r.medium <= stats.value.1 && (r.medium == 60 || r.medium == stats.value.1)
    ensures r.Thresholds? && stats.value.1 - stats.value.0 >= 60 ==>
      var step := (stats.value.1 - stats.value.0) / 3;
      3 * step <= stats.value.1 - stats.value.0 < 3 * step + 3
      && r.fast == stats.value.0 + step && r.medium == stats.value.0 + 2 * step
  {
    if stats.None? || stats.value.0 == 0 || stats.value.1 == 0 then NoThresholds
    else
      var (lo, hi) := stats.value;
      if hi - lo < 60 then Thresholds(lo, MinInt(30, (lo + hi) / 2), MinInt(60, hi))
      else
        var step := (hi - lo) / 3;
        Thresholds(lo, lo + step, lo + 2 * step)
  }

  /** The thresholds of a store: over all of its recipes. */
  function StoreThresholds(s: Store): Thresholds
    requires Valid(s)
  {
    ComputeThresholds(Stats(RecipeRows(s)))
  }

  /** In both branches the categories are nested: fast <= medium <= longest. */
  lemma ThresholdsOrdered(lo: int, hi: int)
    requires lo <= hi
    ensures var t := ComputeThresholds(Some((lo, hi)));
      t.Thresholds? ==> t.fast <= t.medium <= hi
  {
  }

  /** With a spread of an hour or more, the least time is at most the fast
      threshold, and the medium threshold falls short of the longest time. */
  lemma WideSpreadThirds(lo: int, hi: int)
    requires lo != 0 && hi != 0 && hi - lo >= 60
    ensures var t := ComputeThresholds(Some((lo, hi)));
      t.Thresholds? && lo < t.fast < t.medium < hi
  {
  }

  /** With a narrow spread the fast threshold may fall below every recipe:
      a shortest time of 40 and a longest of 50 give a fast threshold of 30. */
  lemma NarrowSpreadMayLeaveFastEmpty()
    ensures ComputeThresholds(Some((40, 50))) == Thresholds(40, 30, 50)
  {
  }

  // ----- Categories -----

  datatype Category = Fast | Medium | Slow

  /** The category of a cooking time: `lte` fast, then `gt` fast and `lte`
      medium, then `gt` medium. */
  predicate InCategory(c: Category, fast: int, medium: int, t: int) {
    match c
    case Fast => t <= fast
    case Medium => fast < t <= medium
    case Slow => medium < t
  }

  function CategoryOf(c: Category, fast: int, medium: int): RecipeRow -> bool {
    (row: RecipeRow) => InCategory(c, fast, medium, row.recipe.cookingTime)
  }

  /** Each cooking time falls in exactly one category when fast <= medium. */
  lemma CategoriesPartition(fast: int, medium: int, t: int)
    requires fast <= medium
    ensures InCategory(Fast, fast, medium, t) || InCategory(Medium, fast, medium, t) || InCategory(Slow, fast, medium, t)
    ensures forall c, d :: InCategory(c, fast, medium, t) && InCategory(d, fast, medium, t) ==> c == d
  {
  }

  /** The three filtered querysets together are as long as the whole. */
  lemma {:induction false} CategoryCountsSum(rows: seq<RecipeRow>, fast: int, medium: int)
    requires fast <= medium
    ensures |Filter(rows, CategoryOf(Fast, fast, medium))| + |Filter(rows, CategoryOf(Medium, fast, medium))|
      + |Filter(rows, CategoryOf(Slow, fast, medium))| == |rows|
    decreases |rows|
  {
    if |rows| > 0 {
      CategoryCountsSum(rows[1..], fast, medium);
      CategoriesPartition(fast, medium, rows[0].recipe.cookingTime);
    }
  }

  /** `lookups`: the three choices with their labels. Without thresholds the
      labels are fixed; with them each label carries its threshold and the
      number of recipes in the category. */
  function Lookups(s: Store): (r: seq<(string, string)>)
    requires Valid(s)
    ensures |r| == 3 && r[0].0 == "fast" && r[1].0 == "medium" && r[2].0 == "slow"
    ensures StoreThresholds(s).NoThresholds? ==> r[0].1 == "Быстрые (до 30 мин)"
    ensures StoreThresholds(s).Thresholds? ==> var t := StoreThresholds(s);
      r[0].1 == "Быстрые (до " + Numeral(t.fast) + " мин) ("
        + Numeral(|Filter(RecipeRows(s), CategoryOf(Fast, t.fast, t.medium))|) + ")"
  {
    var t := StoreThresholds(s);
    if t.NoThresholds? then
      [("fast", "Быстрые (до 30 мин)"), ("medium", "Средние (до 60 мин)"), ("slow", "Долгие (более 60 мин)")]
    else
      var rows := RecipeRows(s);
      var fastCount := |Filter(rows, CategoryOf(Fast, t.fast, t.medium))|;
      var mediumCount := |Filter(rows, CategoryOf(Medium, t.fast, t.medium))|;
      var slowCount := |Filter(rows, CategoryOf(Slow, t.fast, t.medium))|;
      [("fast", "Быстрые (до " + Numeral(t.fast) + " мин) (" + Numeral(fastCount) + ")"),
       ("medium", "Средние (до " + Numeral(t.medium) + " мин) (" + Numeral(mediumCount) + ")"),
       ("slow", "Долгие (более " + Numeral(t.medium) + " мин) (" + Numeral(slowCount) + ")")]
  }

  /** The counts shown next to the three choices add up to the number of recipes. */
  lemma LookupCountsCoverAllRecipes(s: Store)
    requires Valid(s)
    requires StoreThresholds(s).Thresholds?
    ensures var t := StoreThresholds(s);
      var rows := RecipeRows(s);
      |Filter(rows, CategoryOf(Fast, t.fast, t.medium))| + |Filter(rows, CategoryOf(Medium, t.fast, t.medium))|
        + |Filter(rows, CategoryOf(Slow, t.fast, t.medium))| == |s.recipes|
  {
    var t := StoreThresholds(s);
    var rows := RecipeRows(s);
    StoreThresholdsOrdered(s);
    CategoryCountsSum(rows, t.fast, t.medium);
    RecipeRowsCount(s);
  }

  function ParseCategory(value: string): Option<Category> {
    if value == "fast" then Some(Fast)
    else if value == "medium" then Some(Medium)
    else if value == "slow" then Some(Slow)
    else None
  }

  /** `CookingTimeFilter.queryset`: an absent or empty value, a store
      without thresholds or an unknown value returns the queryset as it is;
      a category keeps the recipes whose time falls in it. */
  function CookingTimeFilter(t: Thresholds, rows: seq<RecipeRow>, value: Option<string>): (r: seq<RecipeRow>)
    ensures value.None? || value == Some("") || t.NoThresholds? ==> r == rows
    ensures value.Some? && ParseCategory(value.value).None? ==> r == rows
    ensures value.Some? && t.Thresholds? && ParseCategory(value.value).Some? ==>
      forall row :: row in r <==> row in rows && InCategory(ParseCategory(value.value).value, t.fast, t.medium, row.recipe.cookingTime)
    ensures |r| <= |rows|
  {
    if value.None? || value.value == "" then rows
    else if t.NoThresholds? then rows
    else
      match ParseCategory(value.value)
      case None => rows
      case Some(c) => Filter(rows, CategoryOf(c, t.fast, t.medium))
  }

  /** The store's thresholds are nested, so its categories partition its recipes. */
  lemma StoreThresholdsOrdered(s: Store)
    requires Valid(s)
    ensures StoreThresholds(s).Thresholds? ==> StoreThresholds(s).fast <= StoreThresholds(s).medium
  {
    var st := Stats(RecipeRows(s));
    if st.Some? {
      ThresholdsOrdered(st.value.0, st.value.1);
    }
  }

  /** With nested thresholds each recipe of the queryset lands in exactly one
      of the three filtered querysets. */
  lemma EachRecipeInOneCategory(t: Thresholds, rows: seq<RecipeRow>, row: RecipeRow)
    requires t.Thresholds? && t.fast <= t.medium
    requires row in rows
    ensures var inFast := row in CookingTimeFilter(t, rows, Some("fast"));
      var inMedium := row in CookingTimeFilter(t, rows, Some("medium"));
      var inSlow := row in CookingTimeFilter(t, rows, Some("slow"));
      (inFast || inMedium || inSlow) && !(inFast && inMedium) && !(inFast && inSlow) && !(inMedium && inSlow)
  {
    CategoriesPartition(t.fast, t.medium, row.recipe.cookingTime);
  }

  // ----- UsedInRecipesFilter -----

  /** `recipes__isnull=False`: some recipe line names the ingredient. */
  predicate UsedInRecipes(s: Store, id: IngredientId) {
    exists l :: l in s.lines && l.ingredient == id
  }

  function UsedIs(s: Store, used: bool): IngredientRow -> bool {
    (row: IngredientRow) => UsedInRecipes(s, row.id) == used
  }

  /** `UsedInRecipesFilter.queryset`: 'yes' keeps the used ingredients
      (each once, as `distinct()` ensures), 'no' the unused ones, and any
      other value leaves the queryset alone. */
  function UsedInRecipesFilter(s: Store, rows: seq<IngredientRow>, value: Option<string>): (r: seq<IngredientRow>)
    ensures value == Some("yes") ==> forall row :: row in r <==> row in rows && UsedInRecipes(s, row.id)
    ensures value == Some("no") ==> forall row :: row in r <==> row in rows && !UsedInRecipes(s, row.id)
    ensures value != Some("yes") && value != Some("no") ==> r == rows
    ensures Distinct(rows) ==> Distinct(r)
  {
    if value == Some("yes") then
      assert Distinct(rows) ==> Distinct(Filter(rows, UsedIs(s, true))) by {
        if Distinct(rows) { FilterKeepsDistinct(rows, UsedIs(s, true)); }
      }
      Filter(rows, UsedIs(s, true))
    else if value == Some("no") then
      assert Distinct(rows) ==> Distinct(Filter(rows, UsedIs(s, false))) by {
        if Distinct(rows) { FilterKeepsDistinct(rows, UsedIs(s, false)); }
      }
      Filter(rows, UsedIs(s, false))
    else rows
  }

  /** 'yes' and 'no' split the queryset: every ingredient is in exactly one. */
  lemma UsedAndUnusedComplementary(s: Store, rows: seq<IngredientRow>, row: IngredientRow)
    requires row in rows
    ensures row in UsedInRecipesFilter(s, rows, Some("yes")) <==> row !in UsedInRecipesFilter(s, rows, Some("no"))
  {
  }
}
