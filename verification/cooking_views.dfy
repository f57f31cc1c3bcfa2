/** The recipe views of the main tree (`api/views/cooking.py`): the short-
    and full-link views over the shared link shortener, the per-user flags
    the recipe list carries, adding and removing favorites and cart
    entries, and the shopping-list download.

    A response is reduced to its status code and, where the view hands one
    out, its payload; the database tables are values passed in and out. */
module CookingViews {
  import opened Common
  import opened Text
  import opened Models
  import opened Relation
  import Shortener
  import ShoppingList
  import CookingSerializers

  // ---- Short and full links ----

  /** `f'/recipes/{id}/'`, the frontend path of a recipe. */
  function RecipePath(id: nat): (r: string)
    ensures |r| > 0 && r[0] == '/'
    ensures |r| == 10 + |NatToString(id)|
    ensures r[..9] == "/recipes/" && r[9..|r| - 1] == NatToString(id)
  {
    var r := "/recipes/" + NatToString(id) + "/";
    assert r[9..|r| - 1] == NatToString(id);
    r
  }

  /** Different recipes have different paths, so their short keys can only
      clash through the digest. */
  lemma RecipePathInjective(a: nat, b: nat)
    requires RecipePath(a) == RecipePath(b)
    ensures a == b
  {
    NatToStringRoundTrip(a);
    NatToStringRoundTrip(b);
  }

  /** `request.build_absolute_uri('/')[:-1]`: the absolute root without its
      last character (Python slicing leaves an empty string empty). */
  function Domain(root: string): (r: string)
    ensures |root| > 0 ==> |r| == |root| - 1 && r == root[..|root| - 1]
    ensures root == [] ==> r == []
  {
    if |root| > 0 then root[..|root| - 1] else []
  }

  /** `RecipeGetShortLinkView.get`: shortens the recipe's path and answers
      the domain followed by `/s/` and the key. The key part of the answer
      restores to the recipe's path in the shortener the view leaves, and
      only that key of the mapping is new or changed. */
  function ShortLinkView(sh: Shortener.LinkShortener, md5: string -> HexDigest, root: string, id: nat)
    : (r: (string, Shortener.LinkShortener))
    ensures var d := Domain(root);
      && |r.0| == |d| + 3 + Shortener.KeyLength
      && r.0[..|d|] == d && r.0[|d|..|d| + 3] == "/s/"
      && Shortener.RestoreUrl(r.1, r.0[|d| + 3..]) == RecipePath(id)
      && r.1.urlMapping.Keys == sh.urlMapping.Keys + {r.0[|d| + 3..]}
  {
    var (key, sh1) := Shortener.ShortenUrl(sh, md5, RecipePath(id));
    var url := Domain(root) + "/s/" + key;
    assert url[|Domain(root)| + 3..] == key;
    (url, sh1)
  }

  /** What the full-link view answers: a redirect, or 404. */
  datatype LinkResponse = Redirect(location: string) | LinkNotFound

  /** `RecipeGetFullLinkView.get`: redirects exactly when the lookup does not
      answer the sentinel, and then to the URL stored at the key. */
  function FullLinkView(sh: Shortener.LinkShortener, key: string): (r: LinkResponse)
    ensures r.Redirect? <==> Shortener.RestoreUrl(sh, key) != Shortener.NotFound
    ensures r.Redirect? ==> key in sh.urlMapping && r.location == sh.urlMapping[key]
  {
    var fullUrl := Shortener.RestoreUrl(sh, key);
    if fullUrl != Shortener.NotFound then Redirect(fullUrl) else LinkNotFound
  }

  /** What the short-link view stores: every URL in the mapping is a path. */
  predicate HoldsPaths(sh: Shortener.LinkShortener) {
    forall k :: k in sh.urlMapping ==> |sh.urlMapping[k]| > 0 && sh.urlMapping[k][0] == '/'
  }

  /** The shared shortener starts holding paths only ... */
  lemma FreshShortenerHoldsPaths()
    ensures HoldsPaths(Shortener.Construct(None).0)
  {
  }

  /** ... and the short-link view keeps it so. */
  lemma ShortLinkKeepsPaths(sh: Shortener.LinkShortener, md5: string -> HexDigest, root: string, id: nat)
    requires HoldsPaths(sh)
    ensures HoldsPaths(ShortLinkView(sh, md5, root, id).1)
  {
  }

  /** While the mapping holds paths only, no stored URL equals the sentinel,
      so the full-link view redirects exactly for the keys in the mapping. */
  lemma RedirectIffKnown(sh: Shortener.LinkShortener, key: string)
    requires HoldsPaths(sh)
    ensures FullLinkView(sh, key).Redirect? <==> key in sh.urlMapping
  {
    assert Shortener.NotFound[0] == 'U';
  }

  /** Following the short link just handed out redirects to the recipe. */
  lemma ShortThenFull(sh: Shortener.LinkShortener, md5: string -> HexDigest, root: string, id: nat)
    ensures var (url, sh1) := ShortLinkView(sh, md5, root, id);
      FullLinkView(sh1, url[|Domain(root)| + 3..]) == Redirect(RecipePath(id))
  {
    assert Shortener.NotFound[0] != RecipePath(id)[0];
  }

  // ---- Per-user flags of the recipe list ----

  /** A recipe of the list with its two annotations. */
  datatype AnnotatedRecipe = AnnotatedRecipe(recipe: Recipe, isFavorited: bool, isInShoppingCart: bool)

  /** `Exists(Table.objects.filter(user=user, recipe=OuterRef('pk')))` for an
      authenticated user, `Value(False)` for an anonymous one. */
  function Flag(who: Requester, t: Table, recipe: nat): bool {
    match who
    case Anonymous => false
    case Member(user, _) => Link(user, recipe) in t
  }

  /** `RecipeViewSet.get_queryset`: the recipes in order, each flagged as
      favorited or in the cart exactly when the requester is authenticated
      and holds the matching row. */
  function Annotate(recipes: seq<Recipe>, who: Requester, favorites: Table, carts: Table)
    : (r: seq<AnnotatedRecipe>)
    ensures |r| == |recipes|
    ensures forall i :: 0 <= i < |r| ==> r[i].recipe == recipes[i]
    ensures forall i :: 0 <= i < |r| ==>
      (r[i].isFavorited <==> who.IsAuthenticated() && Has(favorites, Link(who.id, recipes[i].id)))
    ensures forall i :: 0 <= i < |r| ==>
      (r[i].isInShoppingCart <==> who.IsAuthenticated() && Has(carts, Link(who.id, recipes[i].id)))
  {
    if recipes == [] then []
    else
      var x := recipes[0];
      [AnnotatedRecipe(x, Flag(who, favorites, x.id), Flag(who, carts, x.id))]
        + Annotate(recipes[1..], who, favorites, carts)
  }

  /** An anonymous requester sees no flag set, whatever the tables hold. */
  lemma AnonymousSeesNoFlags(recipes: seq<Recipe>, favorites: Table, carts: Table, i: nat)
    requires i < |recipes|
    ensures !Annotate(recipes, Anonymous, favorites, carts)[i].isFavorited
    ensures !Annotate(recipes, Anonymous, favorites, carts)[i].isInShoppingCart
  {
  }

  // ---- Favorites and cart ----

  /** `post_delete_favorite_cart` for POST by the authenticated user `user`:
      404 for an unknown recipe, 400 (table unchanged) when the pair is
      already there, otherwise 201 with exactly that pair added. */
  function FavoriteCartPost(recipes: seq<Recipe>, t: Table, user: nat, pk: nat): (r: (Status, Table))
    ensures r.0 == NotFound404 <==> !RecipeExists(recipes, pk)
    ensures r.0 == Created201 <==> RecipeExists(recipes, pk) && !Has(t, Link(user, pk))
    ensures r.0 in {NotFound404, BadRequest400, Created201}
    ensures r.0 == Created201 ==>
      Has(r.1, Link(user, pk)) && multiset(r.1) == multiset(t) + multiset{Link(user, pk)}
    ensures r.0 != Created201 ==> r.1 == t
  {
    if !RecipeExists(recipes, pk) then (NotFound404, t)
    else
      match CookingSerializers.ValidateAction(t, Link(user, pk))
      case Failure(_) => (BadRequest400, t)
      case Success(l) => (Created201, t + [l])
  }

  /** `post_delete_favorite_cart` for DELETE: 404 for an unknown recipe;
      otherwise the rows of the pair are deleted and the answer is 204
      exactly when there were some, 400 (table unchanged) when there were
      none. */
  function FavoriteCartDelete(recipes: seq<Recipe>, t: Table, user: nat, pk: nat): (r: (Status, Table))
    ensures r.0 == NotFound404 <==> !RecipeExists(recipes, pk)
    ensures r.0 == NoContent204 <==> RecipeExists(recipes, pk) && Has(t, Link(user, pk))
    ensures r.0 in {NotFound404, BadRequest400, NoContent204}
    ensures r.0 == NoContent204 ==>
      && !Has(r.1, Link(user, pk))
      && forall x :: x != Link(user, pk) ==> multiset(r.1)[x] == multiset(t)[x]
    ensures r.0 != NoContent204 ==> r.1 == t
  {
    if !RecipeExists(recipes, pk) then (NotFound404, t)
    else
      var l := Link(user, pk);
      var deletedCount := CountOf(t, l);
      var t1 := Delete(t, l);
      CountPositiveIffHas(t, l);
      if deletedCount > 0 then (NoContent204, t1)
      else
        DeleteAbsent(t, l);
        (BadRequest400, t1)
  }

  /** Both actions keep the table's unique constraint. */
  lemma FavoriteCartKeepUnique(recipes: seq<Recipe>, t: Table, user: nat, pk: nat)
    requires Unique(t)
    ensures Unique(FavoriteCartPost(recipes, t, user, pk).1)
    ensures Unique(FavoriteCartDelete(recipes, t, user, pk).1)
  {
    if RecipeExists(recipes, pk) && !Has(t, Link(user, pk)) {
      InsertKeepsUnique(t, Link(user, pk));
    }
    DeleteKeepsUnique(t, Link(user, pk));
  }

  /** Adding a recipe and removing it again restores the table; a second
      removal is refused with 400. */
  lemma PostThenDelete(recipes: seq<Recipe>, t: Table, user: nat, pk: nat)
    requires RecipeExists(recipes, pk) && !Has(t, Link(user, pk))
    ensures var t1 := FavoriteCartPost(recipes, t, user, pk).1;
      && FavoriteCartDelete(recipes, t1, user, pk) == (NoContent204, t)
      && FavoriteCartDelete(recipes, t, user, pk) == (BadRequest400, t)
  {
    DeleteAppended(t, Link(user, pk));
  }

  /** The list flags follow the actions: after a successful add the recipe
      shows as favorited (or in the cart) for its user, after a successful
      removal it does not. */
  lemma FlagsFollowActions(recipes: seq<Recipe>, t: Table, user: nat, isStaff: bool, i: nat)
    requires i < |recipes|
    ensures var pk := recipes[i].id;
      var who := Member(user, isStaff);
      && (FavoriteCartPost(recipes, t, user, pk).0 == Created201 ==>
            Annotate(recipes, who, FavoriteCartPost(recipes, t, user, pk).1, [])[i].isFavorited)
      && (FavoriteCartDelete(recipes, t, user, pk).0 == NoContent204 ==>
            !Annotate(recipes, who, FavoriteCartDelete(recipes, t, user, pk).1, [])[i].isFavorited)
  {
  }

  // ---- Shopping-list download ----

  /** The recipes in `user`'s cart: `values_list('recipe_id')`. */
  function CartRecipes(cart: Table, user: nat): (r: set<nat>)
    ensures forall x :: x in r <==> Has(cart, Link(user, x))
  {
    set l | l in cart && l.user == user :: l.target
  }

  /** Every row names an ingredient of the catalogue and has an amount that
      is not negative: the foreign key and the positive-integer field. */
  predicate RowsResolve(ris: seq<RecipeIngredient>, ingredients: map<nat, Ingredient>) {
    forall ri :: ri in ris ==> ri.ingredient in ingredients && ri.amount >= 0
  }

  /** The shopping-list row of one ingredient line. */
  function RowFor(ri: RecipeIngredient, ingredients: map<nat, Ingredient>): ShoppingList.Row
    requires ri.ingredient in ingredients && ri.amount >= 0
  {
    ShoppingList.Row(ingredients[ri.ingredient].name, ingredients[ri.ingredient].measurementUnit, ri.amount)
  }

  /** The shopping-list row of each line, in order. */
  function RowsFor(ris: seq<RecipeIngredient>, ingredients: map<nat, Ingredient>): (r: seq<ShoppingList.Row>)
    requires RowsResolve(ris, ingredients)
    ensures |r| == |ris|
    ensures forall k :: 0 <= k < |ris| ==> r[k] == RowFor(ris[k], ingredients)
  {
    seq(|ris|, k requires 0 <= k < |ris| => RowFor(ris[k], ingredients))
  }

  /** The ingredient lines of the recipes in `ids`, in table order and with
      their repetitions. */
  function Selected(ids: set<nat>, ris: seq<RecipeIngredient>): seq<RecipeIngredient> {
    Filter((ri: RecipeIngredient) => ri.recipe in ids, ris)
  }

  /** The total amount of the ingredient lines of the recipes in `ids`. */
  function SelectedAmount(ids: set<nat>, ris: seq<RecipeIngredient>): int {
    if ris == [] then 0
    else (if ris[0].recipe in ids then ris[0].amount else 0) + SelectedAmount(ids, ris[1..])
  }

  /** `row` is the shopping-list row of some ingredient line of a recipe
      in `ids`. */
  predicate FromSelectedLine(
    row: ShoppingList.Row, ids: set<nat>, ris: seq<RecipeIngredient>, ingredients: map<nat, Ingredient>)
    requires RowsResolve(ris, ingredients)
  {
    exists i :: 0 <= i < |ris| && ris[i].recipe in ids && row == RowFor(ris[i], ingredients)
  }

  /** `RecipeIngredient.objects.filter(recipe_id__in=ids)` as shopping-list
      rows: one row per ingredient line of a selected recipe, in table
      order and with repetitions kept, carrying the ingredient's name and
      unit and the line's amount. */
  function CartRows(ids: set<nat>, ris: seq<RecipeIngredient>, ingredients: map<nat, Ingredient>)
    : (r: seq<ShoppingList.Row>)
    requires RowsResolve(ris, ingredients)
    ensures |r| <= |ris|
    ensures r == RowsFor(Selected(ids, ris), ingredients)
  {
    if ris == [] then []
    else
      var rest := CartRows(ids, ris[1..], ingredients);
      var head := if ris[0].recipe in ids then [RowFor(ris[0], ingredients)] else [];
      SelectedCons(ids, ris);
      RowsForAppend(if ris[0].recipe in ids then [ris[0]] else [], Selected(ids, ris[1..]), ingredients);
      head + rest
  }

  /** `Selected` takes the first line when its recipe is selected, then the
      selected lines of the rest. */
  lemma SelectedCons(ids: set<nat>, ris: seq<RecipeIngredient>)
    requires ris != []
    ensures Selected(ids, ris) == (if ris[0].recipe in ids then [ris[0]] else []) + Selected(ids, ris[1..])
  {
  }

  /** `RowsFor` maps each half of a concatenation separately. */
  lemma RowsForAppend(a: seq<RecipeIngredient>, b: seq<RecipeIngredient>, ingredients: map<nat, Ingredient>)
    requires RowsResolve(a + b, ingredients)
    ensures RowsResolve(a, ingredients) && RowsResolve(b, ingredients)
    ensures RowsFor(a + b, ingredients) == RowsFor(a, ingredients) + RowsFor(b, ingredients)
  {
    assert forall x :: x in a ==> x in a + b;
    assert forall x :: x in b ==> x in a + b;
  }

  /** Every cart row is the row of some line of a selected recipe, and
      every line of a selected recipe gives a cart row. */
  lemma CartRowsMembership(ids: set<nat>, ris: seq<RecipeIngredient>, ingredients: map<nat, Ingredient>)
    requires RowsResolve(ris, ingredients)
    ensures var r := CartRows(ids, ris, ingredients);
      forall k :: 0 <= k < |r| ==> FromSelectedLine(r[k], ids, ris, ingredients)
    ensures var r := CartRows(ids, ris, ingredients);
      forall i :: 0 <= i < |ris| && ris[i].recipe in ids ==> RowFor(ris[i], ingredients) in r
  {
    var r := CartRows(ids, ris, ingredients);
    var sel := Selected(ids, ris);
    forall k | 0 <= k < |r| ensures FromSelectedLine(r[k], ids, ris, ingredients) {
      assert r[k] == RowFor(sel[k], ingredients);
      assert sel[k] in sel;
      var i :| 0 <= i < |ris| && ris[i] == sel[k];
    }
    forall i | 0 <= i < |ris| && ris[i].recipe in ids ensures RowFor(ris[i], ingredients) in r {
      assert ris[i] in sel;
      var k :| 0 <= k < |sel| && sel[k] == ris[i];
      assert r[k] == RowFor(sel[k], ingredients);
    }
  }

  /** The cart's rows carry exactly the amounts of the selected lines: two
      carted recipes with the same line contribute it twice. */
  lemma {:induction false} CartRowsAmount(ids: set<nat>, ris: seq<RecipeIngredient>, ingredients: map<nat, Ingredient>)
    requires RowsResolve(ris, ingredients)
    ensures ShoppingList.SumRows(CartRows(ids, ris, ingredients)) == SelectedAmount(ids, ris)
  {
    if ris != [] {
      var rest := CartRows(ids, ris[1..], ingredients);
      var head := if ris[0].recipe in ids then [RowFor(ris[0], ingredients)] else [];
      assert CartRows(ids, ris, ingredients) == head + rest;
      CartRowsAmount(ids, ris[1..], ingredients);
      ShoppingList.SumRowsAppend(head, rest);
      assert ShoppingList.SumRows(head) == if ris[0].recipe in ids then ris[0].amount else 0 by {
        if head != [] { assert head[..0] == []; }
      }
    }
  }

  /** `download_shopping_cart`: the text of the shopping list of the rows of
      the recipes in `user`'s cart. That list has one entry per ingredient
      name of those rows, with the first unit seen and the total amount, and
      the totals add up to the sum of all the rows. */
  function DownloadShoppingCart(cart: Table, user: nat, ris: seq<RecipeIngredient>, ingredients: map<nat, Ingredient>)
    : (r: string)
    requires RowsResolve(ris, ingredients)
    ensures var rows := CartRows(CartRecipes(cart, user), ris, ingredients);
      var list := ShoppingList.Aggregate(rows);
      && ShoppingList.Summarizes(rows, list)
      && ShoppingList.SumEntries(list) == ShoppingList.SumRows(rows)
      && ShoppingList.SumEntries(list) == SelectedAmount(CartRecipes(cart, user), ris)
      && r == ShoppingList.CreateTxtFile(list)
  {
    var rows := CartRows(CartRecipes(cart, user), ris, ingredients);
    ShoppingList.AggregateSummarizes(rows);
    ShoppingList.AggregateConservesAmounts(rows);
    CartRowsAmount(CartRecipes(cart, user), ris, ingredients);
    ShoppingList.CreateTxtFile(ShoppingList.Aggregate(rows))
  }
}
