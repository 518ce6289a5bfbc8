/** `download_shopping_cart`: the lines of the recipes in a user's cart,
    grouped by ingredient name and unit with their amounts summed and
    ordered by name, the carted recipes ordered by name, and the text
    layout that lists both. */
module ShoppingList {
  import opened Common
  import opened Seqs
  import opened Text
  import opened Sorting
  import opened Store
  import opened Views
  import opened RecipeRelations

  // ----- Groups and their order -----

  /** An ingredient name and a measurement unit. */
  type GroupKey = (string, string)

  /** One row of the aggregation: `ingredient__name`,
      `ingredient__measurement_unit` and `total_amount`. */
  datatype Total = Total(name: string, unit: string, amount: int)

  function KeyOf(t: Total): GroupKey {
    (t.name, t.unit)
  }

  /** `a` sorts strictly before `b`: by name, and by unit between equal
      names. The query orders by name only; the unit settles its ties. */
  predicate KeyBefore(a: GroupKey, b: GroupKey) {
    (a.0 != b.0 && StrLe(a.0, b.0)) || (a.0 == b.0 && a.1 != b.1 && StrLe(a.1, b.1))
  }

  lemma KeyBeforeTransitive(a: GroupKey, b: GroupKey, c: GroupKey)
    requires KeyBefore(a, b) && KeyBefore(b, c)
    ensures KeyBefore(a, c)
  {
    if a.0 != b.0 {
      StrLeReflexive(c.0);
      StrLeTransitive(a.0, b.0, c.0);
      if a.0 == c.0 {
        StrLeAntisymmetric(a.0, b.0);
      }
    } else if b.0 == c.0 {
      StrLeTransitive(a.1, b.1, c.1);
      if a.1 == c.1 {
        StrLeAntisymmetric(a.1, b.1);
      }
    }
  }

  lemma KeyBeforeTotal(a: GroupKey, b: GroupKey)
    requires a != b
    ensures KeyBefore(a, b) || KeyBefore(b, a)
  {
    StrLeTotal(a.0, b.0);
    StrLeTotal(a.1, b.1);
  }

  /** Strictly increasing keys: each (name, unit) at most once, names ascending. */
  ghost predicate Ordered(groups: seq<Total>) {
    forall i, j :: 0 <= i < j < |groups| ==> KeyBefore(KeyOf(groups[i]), KeyOf(groups[j]))
  }

  ghost function Keys(groups: seq<Total>): set<GroupKey> {
    set g | g in groups :: KeyOf(g)
  }

  /** The amount recorded under `k`. */
  function TotalOf(groups: seq<Total>, k: GroupKey): int
    decreases |groups|
  {
    if |groups| == 0 then 0
    else (if KeyOf(groups[0]) == k then groups[0].amount else 0) + TotalOf(groups[1..], k)
  }

  lemma {:induction false} TotalOfAbsent(groups: seq<Total>, k: GroupKey)
    requires k !in Keys(groups)
    ensures TotalOf(groups, k) == 0
    decreases |groups|
  {
    if |groups| > 0 {
      assert groups[0] in groups;
      assert Keys(groups[1..]) <= Keys(groups) by {
        forall x | x in Keys(groups[1..]) ensures x in Keys(groups) {
          var g :| g in groups[1..] && KeyOf(g) == x;
          assert g in groups;
        }
      }
      TotalOfAbsent(groups[1..], k);
    }
  }

  /** The first group sorts before every key of the others. */
  lemma HeadBeforeRest(groups: seq<Total>)
    requires Ordered(groups) && |groups| > 0
    ensures Ordered(groups[1..])
    ensures forall k :: k in Keys(groups[1..]) ==> KeyBefore(KeyOf(groups[0]), k)
  {
    var tail := groups[1..];
    forall i, j | 0 <= i < j < |tail| ensures KeyBefore(KeyOf(tail[i]), KeyOf(tail[j])) {
      assert tail[i] == groups[i + 1] && tail[j] == groups[j + 1];
    }
    forall k | k in Keys(tail) ensures KeyBefore(KeyOf(groups[0]), k) {
      var g :| g in tail && KeyOf(g) == k;
      var m :| 0 <= m < |tail| && tail[m] == g;
      assert groups[m + 1] == g;
    }
  }

  /** A group that sorts before every key of an ordered sequence may lead it. */
  lemma PrependOrdered(h: Total, rest: seq<Total>)
    requires Ordered(rest)
    requires forall k :: k in Keys(rest) ==> KeyBefore(KeyOf(h), k)
    ensures Ordered([h] + rest)
    ensures Keys([h] + rest) == {KeyOf(h)} + Keys(rest)
    ensures forall k :: TotalOf([h] + rest, k) == (if KeyOf(h) == k then h.amount else 0) + TotalOf(rest, k)
  {
    assert ([h] + rest)[1..] == rest;
    var r := [h] + rest;
    forall i, j | 0 <= i < j < |r| ensures KeyBefore(KeyOf(r[i]), KeyOf(r[j])) {
      if i == 0 {
        assert r[j] == rest[j - 1];
        assert rest[j - 1] in rest;
      } else {
        assert r[i] == rest[i - 1] && r[j] == rest[j - 1];
      }
    }
    assert forall g :: g in r <==> g == h || g in rest;
  }

  /** One line's amount folded into the groups: added to the group of its
      key, or a new group at the place the order gives it. */
  function AddAmount(groups: seq<Total>, g: Total): (r: seq<Total>)
    requires Ordered(groups)
    ensures Ordered(r)
    ensures Keys(r) == Keys(groups) + {KeyOf(g)}
    ensures forall k :: TotalOf(r, k) == TotalOf(groups, k) + (if k == KeyOf(g) then g.amount else 0)
    decreases |groups|
  {
    if |groups| == 0 then
      PrependOrdered(g, groups);
      [g]
    else
      var h := groups[0];
      var tail := groups[1..];
      HeadBeforeRest(groups);
      SplitHead(groups);
      if KeyOf(h) == KeyOf(g) then
        var merged := h.(amount := h.amount + g.amount);
        PrependOrdered(merged, tail);
        [merged] + tail
      else if KeyBefore(KeyOf(g), KeyOf(h)) then
        BeforeHeadBeforeAll(g, groups);
        PrependOrdered(g, groups);
        [g] + groups
      else
        KeyBeforeTotal(KeyOf(g), KeyOf(h));
        var rest := AddAmount(tail, g);
        PrependOrdered(h, rest);
        [h] + rest
  }

  /** A non-empty sequence of groups is its head followed by the rest. */
  lemma SplitHead(groups: seq<Total>)
    requires |groups| > 0
    ensures groups == [groups[0]] + groups[1..]
    ensures Keys(groups) == {KeyOf(groups[0])} + Keys(groups[1..])
  {
    assert forall x :: x in groups <==> x == groups[0] || x in groups[1..];
  }

  /** A key before the head of ordered groups is before all of their keys. */
  lemma BeforeHeadBeforeAll(g: Total, groups: seq<Total>)
    requires Ordered(groups) && |groups| > 0
    requires KeyBefore(KeyOf(g), KeyOf(groups[0]))
    ensures forall k :: k in Keys(groups) ==> KeyBefore(KeyOf(g), k)
  {
    HeadBeforeRest(groups);
    SplitHead(groups);
    forall k | k in Keys(groups) ensures KeyBefore(KeyOf(g), k) {
      if k != KeyOf(groups[0]) {
        KeyBeforeTransitive(KeyOf(g), KeyOf(groups[0]), k);
      }
    }
  }

  // ----- Aggregation -----

  ghost predicate LinesKnown(ingredients: map<IngredientId, Ingredient>, lines: seq<Line>) {
    forall l :: l in lines ==> l.ingredient in ingredients
  }

  /** The (name, unit) a line is grouped under. */
  function LineGroup(ingredients: map<IngredientId, Ingredient>, l: Line): GroupKey
    requires l.ingredient in ingredients
  {
    (ingredients[l.ingredient].name, ingredients[l.ingredient].unit)
  }

  /** The reference total: the amounts of the lines grouped under `k`, added up. */
  function LineSum(ingredients: map<IngredientId, Ingredient>, lines: seq<Line>, k: GroupKey): int
    requires LinesKnown(ingredients, lines)
    decreases |lines|
  {
    if |lines| == 0 then 0
    else (if LineGroup(ingredients, lines[0]) == k then lines[0].amount else 0) + LineSum(ingredients, lines[1..], k)
  }

  ghost function LineKeys(ingredients: map<IngredientId, Ingredient>, lines: seq<Line>): set<GroupKey> {
    set l | l in lines && l.ingredient in ingredients :: LineGroup(ingredients, l)
  }

  /** `.values(name, unit).annotate(total_amount=Sum('amount'))`, ordered:
      one group per (name, unit) among the lines, each holding the sum of
      its lines' amounts. */
  function Aggregate(ingredients: map<IngredientId, Ingredient>, lines: seq<Line>): (r: seq<Total>)
    requires LinesKnown(ingredients, lines)
    ensures Ordered(r)
    ensures Keys(r) == LineKeys(ingredients, lines)
    ensures forall k :: TotalOf(r, k) == LineSum(ingredients, lines, k)
    decreases |lines|
  {
    if |lines| == 0 then
      assert Keys([]) == {};
      []
    else
      var l := lines[0];
      var g := ingredients[l.ingredient];
      assert lines == [l] + lines[1..];
      assert LineKeys(ingredients, lines) == {LineGroup(ingredients, l)} + LineKeys(ingredients, lines[1..]) by {
        assert forall x :: x in lines <==> x == l || x in lines[1..];
      }
      AddAmount(Aggregate(ingredients, lines[1..]), Total(g.name, g.unit, l.amount))
  }

  /** In ordered groups the amount printed for a group is its total. */
  lemma {:induction false} AmountIsTotal(groups: seq<Total>, i: nat)
    requires Ordered(groups) && i < |groups|
    ensures TotalOf(groups, KeyOf(groups[i])) == groups[i].amount
    decreases |groups|
  {
    HeadBeforeRest(groups);
    var tail := groups[1..];
    if i == 0 {
      assert KeyOf(groups[0]) !in Keys(tail);
      TotalOfAbsent(tail, KeyOf(groups[0]));
    } else {
      assert tail[i - 1] == groups[i];
      AmountIsTotal(tail, i - 1);
      assert KeyOf(groups[0]) != KeyOf(groups[i]);
    }
  }

  /** Ordered groups hold each (name, unit) once, names ascending. */
  lemma OrderedMeans(groups: seq<Total>)
    requires Ordered(groups)
    ensures forall i, j :: 0 <= i < j < |groups| ==>
      KeyOf(groups[i]) != KeyOf(groups[j]) && StrLe(groups[i].name, groups[j].name)
  {
    forall i, j | 0 <= i < j < |groups|
      ensures KeyOf(groups[i]) != KeyOf(groups[j]) && StrLe(groups[i].name, groups[j].name)
    {
      assert KeyBefore(KeyOf(groups[i]), KeyOf(groups[j]));
      if groups[i].name == groups[j].name {
        StrLeReflexive(groups[i].name);
      }
    }
  }

  // ----- The user's cart -----

  function InCartOf(s: Store, user: UserId): Line -> bool {
    (l: Line) => HasRelation(s, ShoppingCart, user, l.recipe)
  }

  /** The lines of the recipes in `user`'s cart, in table order. */
  function CartedLines(s: Store, user: UserId): (r: seq<Line>)
    ensures forall l :: l in r <==> l in s.lines && HasRelation(s, ShoppingCart, user, l.recipe)
  {
    Filter(s.lines, InCartOf(s, user))
  }

  /** `filter(recipe__shoppingcart__user=user)` as the join computes it:
      each line once for every cart row of `user` that names its recipe. */
  function Joined(lines: seq<Line>, carts: seq<UserRecipe>, user: UserId): seq<Line>
    decreases |lines|
  {
    if |lines| == 0 then []
    else Repeat(lines[0], Occurrences(carts, UserRecipe(user, lines[0].recipe))) + Joined(lines[1..], carts, user)
  }

  /** Because a cart holds a recipe at most once, the join yields each line
      of a carted recipe exactly once. */
  lemma JoinedIsCartedLines(s: Store, lines: seq<Line>, user: UserId)
    requires Distinct(s.carts)
    ensures Joined(lines, s.carts, user) == Filter(lines, InCartOf(s, user))
  {
    JoinedIsFiltered(lines, s.carts, user, InCartOf(s, user));
  }

  lemma {:induction false} JoinedIsFiltered(lines: seq<Line>, carts: seq<UserRecipe>, user: UserId, p: Line -> bool)
    requires Distinct(carts)
    requires forall l :: p(l) <==> UserRecipe(user, l.recipe) in carts
    ensures Joined(lines, carts, user) == Filter(lines, p)
    decreases |lines|
  {
    if |lines| > 0 {
      DistinctOccurrences(carts, UserRecipe(user, lines[0].recipe));
      JoinedIsFiltered(lines[1..], carts, user, p);
    }
  }

  /** The ingredient section's rows. */
  function ShoppingTotals(s: Store, user: UserId): (r: seq<Total>)
    requires Valid(s)
    ensures Ordered(r)
    ensures forall i :: 0 <= i < |r| ==> r[i].amount == LineSum(s.ingredients, CartedLines(s, user), KeyOf(r[i]))
    ensures forall k :: k in Keys(r) <==>
      exists l :: l in s.lines && HasRelation(s, ShoppingCart, user, l.recipe) && LineGroup(s.ingredients, l) == k
  {
    JoinedIsCartedLines(s, s.lines, user);
    var r := Aggregate(s.ingredients, Joined(s.lines, s.carts, user));
    forall i | 0 <= i < |r| ensures r[i].amount == LineSum(s.ingredients, CartedLines(s, user), KeyOf(r[i])) {
      AmountIsTotal(r, i);
    }
    r
  }

  /** Each group appears once and the groups are in name order. */
  lemma TotalsOncePerGroupByName(s: Store, user: UserId)
    requires Valid(s)
    ensures var r := ShoppingTotals(s, user);
      forall i, j :: 0 <= i < j < |r| ==> KeyOf(r[i]) != KeyOf(r[j]) && StrLe(r[i].name, r[j].name)
  {
    OrderedMeans(ShoppingTotals(s, user));
  }

  /** The sum over lines splits into the lines of recipe `pk` and the rest. */
  lemma {:induction false} SumSplits(ingredients: map<IngredientId, Ingredient>, lines: seq<Line>,
                                     p: Line -> bool, q: Line -> bool, pk: RecipeId, k: GroupKey)
    requires LinesKnown(ingredients, lines)
    requires forall l :: l in lines ==> (q(l) <==> p(l) && l.recipe != pk)
    requires forall l :: l in lines && l.recipe == pk ==> p(l)
    ensures LineSum(ingredients, Filter(lines, p), k)
      == LineSum(ingredients, Filter(lines, q), k) + LineSum(ingredients, Filter(lines, LineOf(pk)), k)
    decreases |lines|
  {
    if |lines| > 0 {
      var l := lines[0];
      SumSplits(ingredients, lines[1..], p, q, pk, k);
      assert l in lines;
      if p(l) {
        assert Filter(lines, p) == [l] + Filter(lines[1..], p);
        assert ([l] + Filter(lines[1..], p))[1..] == Filter(lines[1..], p);
      }
      if q(l) {
        assert ([l] + Filter(lines[1..], q))[1..] == Filter(lines[1..], q);
      }
      if LineOf(pk)(l) {
        assert ([l] + Filter(lines[1..], LineOf(pk)))[1..] == Filter(lines[1..], LineOf(pk));
      }
    }
  }

  /** Taking a recipe out of the cart takes exactly its lines' amounts out of
      every total. */
  lemma RemovingFromCartDropsContribution(s: Store, user: UserId, pk: RecipeId, k: GroupKey)
    requires Valid(s)
    requires HasRelation(s, ShoppingCart, user, pk)
    ensures var t := RemoveRelation(s, ShoppingCart, Some(user), pk).store;
      LineSum(t.ingredients, CartedLines(t, user), k)
        == LineSum(s.ingredients, CartedLines(s, user), k) - LineSum(s.ingredients, RecipeLines(s, pk), k)
  {
    var t := RemoveRelation(s, ShoppingCart, Some(user), pk).store;
    assert t.lines == s.lines && t.ingredients == s.ingredients;
    SumSplits(s.ingredients, s.lines, InCartOf(s, user), InCartOf(t, user), pk, k);
  }

  // ----- The recipe section -----

  function RecipeInCartOf(s: Store, user: UserId): RecipeRow -> bool {
    (row: RecipeRow) => HasRelation(s, ShoppingCart, user, row.id)
  }

  /** `Recipe.objects.filter(shoppingcart__user=user).order_by('name')`. */
  function CartedRecipes(s: Store, user: UserId): (r: seq<RecipeRow>)
    requires Valid(s)
    ensures forall row :: row in r <==>
      row.id in s.recipes && row.recipe == s.recipes[row.id] && HasRelation(s, ShoppingCart, user, row.id)
    ensures InjectiveOn(r, RowId)
    ensures SortedBy(r, NameOrderKey)
  {
    var carted := Filter(RecipeRows(s), RecipeInCartOf(s, user));
    FilterKeepsInjective(RecipeRows(s), RecipeInCartOf(s, user), RowId);
    var r := Sort(carted, NameOrderKey);
    SortSameElements(carted, NameOrderKey);
    PermutationKeepsInjective(carted, r, RowId);
    r
  }

  /** A recipe line of the list: its name and its author's username. */
  datatype RecipeEntry = RecipeEntry(name: string, author: string)

  function Entries(s: Store, rows: seq<RecipeRow>): (r: seq<RecipeEntry>)
    requires forall row :: row in rows ==> row.recipe.author in s.users
    ensures |r| == |rows|
    ensures forall i :: 0 <= i < |rows| ==>
      r[i] == RecipeEntry(rows[i].recipe.name, s.users[rows[i].recipe.author].username)
  {
    seq(|rows|, i requires 0 <= i < |rows| => RecipeEntry(rows[i].recipe.name, s.users[rows[i].recipe.author].username))
  }

  // ----- Text layout -----

  /** The numbered item `i. text`, counting from one. */
  function Item(i: nat, text: string): string {
    Decimal(i + 1) + ". " + text
  }

  function IngredientItem(t: Total): string {
    t.name + " (" + t.unit + ") - " + Numeral(t.amount)
  }

  function RecipeItem(e: RecipeEntry): string {
    e.name + " (Автор: " + e.author + ")"
  }

  /** The lines of the document: a header naming the user and the date, the
      numbered ingredients, then the numbered recipes. `date` is the
      formatted current time, supplied by the caller. */
  function Render(username: string, date: string, totals: seq<Total>, recipes: seq<RecipeEntry>): (r: seq<string>)
    ensures |r| == 6 + |totals| + |recipes|
    ensures r[0] == "Список покупок для " + username && r[1] == "Дата составления: " + date && r[2] == ""
    ensures r[3] == "Продукты:" && r[4 + |totals|] == "" && r[5 + |totals|] == "Рецепты:"
    ensures forall i :: 0 <= i < |totals| ==> r[4 + i] == Item(i, IngredientItem(totals[i]))
    ensures forall i :: 0 <= i < |recipes| ==> r[6 + |totals| + i] == Item(i, RecipeItem(recipes[i]))
  {
    var products := seq(|totals|, i requires 0 <= i < |totals| => Item(i, IngredientItem(totals[i])));
    var dishes := seq(|recipes|, i requires 0 <= i < |recipes| => Item(i, RecipeItem(recipes[i])));
    ["Список покупок для " + username, "Дата составления: " + date, "", "Продукты:"]
      + products + ["", "Рецепты:"] + dishes
  }

  /** Every item begins with its position, counted from one: the digits
      before the first ". " read back as `i + 1`. */
  lemma ItemNumbered(i: nat, text: string)
    ensures var item := Item(i, text);
      var n := |Decimal(i + 1)|;
      && item[n..n + 2] == ". "
      && IsDigits(item[..n])
      && DecimalValue(item[..n]) == i + 1
  {
    var item := Item(i, text);
    var n := |Decimal(i + 1)|;
    assert item[..n] == Decimal(i + 1);
    DecimalRoundTrip(i + 1);
  }

  /** GET download_shopping_cart: 401 for an anonymous request; otherwise
      the document for the user's current cart. */
  function DownloadShoppingCart(s: Store, actor: Option<UserId>, date: string): (r: Reply<seq<string>>)
    requires Valid(s)
    requires actor.Some? ==> actor.value in s.users
    ensures actor.None? ==> r == Failed(NotAuthenticated)
    ensures actor.Some? ==> (r.Ok?
      && |r.body| == 6 + |ShoppingTotals(s, actor.value)| + |CartedRecipes(s, actor.value)|
      && r.body[0] == "Список покупок для " + s.users[actor.value].username
      && forall i :: 0 <= i < |ShoppingTotals(s, actor.value)| ==>
           r.body[4 + i] == Item(i, IngredientItem(ShoppingTotals(s, actor.value)[i])))
  {
    if actor.None? then Failed(NotAuthenticated)
    else
      var user := actor.value;
      var recipes := CartedRecipes(s, user);
      assert forall row :: row in recipes ==> row.recipe.author in s.users;
      Ok(Render(s.users[user].username, date, ShoppingTotals(s, user), Entries(s, recipes)))
  }
}
