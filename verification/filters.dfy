/** The list filters of the main tree (`utils/filters.py`): the ingredient
    name search, and the cart and favorite filters that read the flags the
    recipe list is annotated with. */
module Filters {
  import opened Common
  import opened Text
  import opened Models
  import Relation
  import CookingViews

  /** `Q(name__istartswith=value) | Q(name__icontains=value)`. */
  predicate Matches(g: Ingredient, value: string) {
    IStartsWith(g.name, value) || IContains(g.name, value)
  }

  /** A case-insensitive prefix is a case-insensitive substring, so the
      first half of the search condition adds nothing to the second. */
  lemma StartsImpliesContains(s: string, t: string)
    requires IStartsWith(s, t)
    ensures IContains(s, t)
  {
  }

  /** The ingredients the search condition keeps, in input order. */
  function Matched(ings: seq<Ingredient>, value: string): seq<Ingredient> {
    Filter((g: Ingredient) => Matches(g, value), ings)
  }

  /** Those of `ms` whose name starts with `value`, ignoring case. */
  function Prefixed(ms: seq<Ingredient>, value: string): seq<Ingredient> {
    Filter((g: Ingredient) => IStartsWith(g.name, value), ms)
  }

  /** Those of `ms` whose name does not start with `value`. */
  function Unprefixed(ms: seq<Ingredient>, value: string): seq<Ingredient> {
    Filter((g: Ingredient) => !IStartsWith(g.name, value), ms)
  }

  /** The search condition is the substring test alone. */
  lemma MatchedIsContains(ings: seq<Ingredient>, value: string)
    ensures Matched(ings, value) == Filter((g: Ingredient) => IContains(g.name, value), ings)
  {
    forall i | 0 <= i < |ings| ensures Matches(ings[i], value) == IContains(ings[i].name, value) {
      if IStartsWith(ings[i].name, value) {
        StartsImpliesContains(ings[i].name, value);
      }
    }
    FilterCongruent((g: Ingredient) => Matches(g, value), (g: Ingredient) => IContains(g.name, value), ings);
  }

  /** Putting the prefix matches first reorders the matches and loses none. */
  lemma ReorderKeepsMatches(ms: seq<Ingredient>, value: string)
    ensures multiset(Prefixed(ms, value) + Unprefixed(ms, value)) == multiset(ms)
  {
    FilterPartition((g: Ingredient) => IStartsWith(g.name, value), (g: Ingredient) => !IStartsWith(g.name, value), ms);
  }

  /** After the reordering no prefix match follows a name that is not one. */
  lemma ReorderPutsPrefixFirst(ms: seq<Ingredient>, value: string)
    ensures var r := Prefixed(ms, value) + Unprefixed(ms, value);
      forall i, j :: 0 <= i < j < |r| && IStartsWith(r[j].name, value) ==> IStartsWith(r[i].name, value)
  {
    var first := Prefixed(ms, value);
    var second := Unprefixed(ms, value);
    var r := first + second;
    assert forall k :: |first| <= k < |r| ==> r[k] == second[k - |first|] && r[k] in second;
    assert forall k :: 0 <= k < |first| ==> r[k] == first[k] && r[k] in first;
  }

  /** `IngredientFilter.filter_name`: keeps exactly the ingredients whose
      name contains `value` ignoring case, each as often as in the input,
      and puts every name starting with `value` before every name that does
      not (`order_by('-startswith')`). Within each group the input order is
      kept. */
  function FilterName(ings: seq<Ingredient>, value: string): (r: seq<Ingredient>)
    ensures forall g :: g in r <==> g in ings && IContains(g.name, value)
    ensures multiset(r) == multiset(Filter((g: Ingredient) => IContains(g.name, value), ings))
    ensures forall i, j :: 0 <= i < j < |r| && IStartsWith(r[j].name, value) ==> IStartsWith(r[i].name, value)
  {
    var matched := Matched(ings, value);
    MatchedIsContains(ings, value);
    ReorderKeepsMatches(matched, value);
    ReorderPutsPrefixFirst(matched, value);
    Prefixed(matched, value) + Unprefixed(matched, value)
  }

  /** The search result is a sub-collection of the input. */
  lemma FilterNameIsSubMultiset(ings: seq<Ingredient>, value: string)
    ensures multiset(FilterName(ings, value)) <= multiset(ings)
  {
    var p := (g: Ingredient) => IContains(g.name, value);
    var q := (g: Ingredient) => !IContains(g.name, value);
    FilterPartition(p, q, ings);
  }

  /** `RecipeFilter.filter_shopping_cart`: `true` keeps exactly the recipes
      flagged as in the cart, `false` exactly those not flagged; the order
      is kept. */
  function FilterShoppingCart(rs: seq<CookingViews.AnnotatedRecipe>, value: bool): (r: seq<CookingViews.AnnotatedRecipe>)
    ensures value ==> forall x :: x in r <==> x in rs && x.isInShoppingCart
    ensures !value ==> forall x :: x in r <==> x in rs && !x.isInShoppingCart
  {
    if value then Filter((x: CookingViews.AnnotatedRecipe) => x.isInShoppingCart, rs)
    else Filter((x: CookingViews.AnnotatedRecipe) => !x.isInShoppingCart, rs)
  }

  /** `RecipeFilter.filter_favorites`: the same on the favorite flag. */
  function FilterFavorites(rs: seq<CookingViews.AnnotatedRecipe>, value: bool): (r: seq<CookingViews.AnnotatedRecipe>)
    ensures value ==> forall x :: x in r <==> x in rs && x.isFavorited
    ensures !value ==> forall x :: x in r <==> x in rs && !x.isFavorited
  {
    if value then Filter((x: CookingViews.AnnotatedRecipe) => x.isFavorited, rs)
    else Filter((x: CookingViews.AnnotatedRecipe) => !x.isFavorited, rs)
  }

  /** The `true` and `false` results of either filter split the list: every
      recipe lands in exactly one of them. */
  lemma FlagFiltersPartition(rs: seq<CookingViews.AnnotatedRecipe>)
    ensures multiset(FilterShoppingCart(rs, true)) + multiset(FilterShoppingCart(rs, false)) == multiset(rs)
    ensures multiset(FilterFavorites(rs, true)) + multiset(FilterFavorites(rs, false)) == multiset(rs)
  {
    FilterPartition((x: CookingViews.AnnotatedRecipe) => x.isInShoppingCart,
      (x: CookingViews.AnnotatedRecipe) => !x.isInShoppingCart, rs);
    FilterPartition((x: CookingViews.AnnotatedRecipe) => x.isFavorited,
      (x: CookingViews.AnnotatedRecipe) => !x.isFavorited, rs);
  }

  /** Read against the annotated list: an anonymous requester, whose flags
      are all false, gets nothing for `true` and the whole list for
      `false`. */
  lemma AnonymousFlagFilters(recipes: seq<Recipe>, favorites: Relation.Table, carts: Relation.Table)
    ensures var rs := CookingViews.Annotate(recipes, Anonymous, favorites, carts);
      && FilterShoppingCart(rs, true) == [] && FilterShoppingCart(rs, false) == rs
      && FilterFavorites(rs, true) == [] && FilterFavorites(rs, false) == rs
  {
    var rs := CookingViews.Annotate(recipes, Anonymous, favorites, carts);
    FilterNone((x: CookingViews.AnnotatedRecipe) => x.isInShoppingCart, rs);
    FilterAll((x: CookingViews.AnnotatedRecipe) => !x.isInShoppingCart, rs);
    FilterNone((x: CookingViews.AnnotatedRecipe) => x.isFavorited, rs);
    FilterAll((x: CookingViews.AnnotatedRecipe) => !x.isFavorited, rs);
  }
}
