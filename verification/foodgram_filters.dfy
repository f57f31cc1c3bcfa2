/** The recipe filters of the `foodgram` tree (`foodgram/utils/filters.py`):
    membership in the requester's cart or favorites is looked up in the
    relation itself rather than in list flags, the result is made
    `DISTINCT`, and an anonymous requester's list passes through untouched. */
module FoodgramFilters {
  import opened Common
  import opened Models
  import opened Relation
  import Filters
  import CookingViews

  /** `RecipeFilter.filter_shopping_cart`: an anonymous requester gets the
      list as it is; an authenticated one gets, without repeats, exactly
      the recipes with (for `true`) or without (for `false`) a cart row of
      theirs. */
  function FilterShoppingCart(rs: seq<Recipe>, who: Requester, carts: Table, value: bool)
    : (r: seq<Recipe>)
    ensures !who.IsAuthenticated() ==> r == rs
    ensures who.IsAuthenticated() ==> Distinct(r)
    ensures who.IsAuthenticated() && value ==> forall x :: x in r <==> x in rs && Has(carts, Link(who.id, x.id))
    ensures who.IsAuthenticated() && !value ==> forall x :: x in r <==> x in rs && !Has(carts, Link(who.id, x.id))
  {
    match who
    case Anonymous => rs
    case Member(user, _) =>
      if value then Dedup(Filter((x: Recipe) => Link(user, x.id) in carts, rs))
      else Dedup(Filter((x: Recipe) => Link(user, x.id) !in carts, rs))
  }

  /** `RecipeFilter.filter_favorites`: the same rules against the favorite
      relation. */
  function FilterFavorites(rs: seq<Recipe>, who: Requester, favorites: Table, value: bool)
    : (r: seq<Recipe>)
    ensures !who.IsAuthenticated() ==> r == rs
    ensures who.IsAuthenticated() ==> Distinct(r)
    ensures who.IsAuthenticated() && value ==> forall x :: x in r <==> x in rs && Has(favorites, Link(who.id, x.id))
    ensures who.IsAuthenticated() && !value ==> forall x :: x in r <==> x in rs && !Has(favorites, Link(who.id, x.id))
  {
    if !who.IsAuthenticated() then rs
    else if value then Dedup(Filter((x: Recipe) => Link(who.id, x.id) in favorites, rs))
    else Dedup(Filter((x: Recipe) => Link(who.id, x.id) !in favorites, rs))
  }

  /** For an authenticated requester and a list without repeats, the `true`
      and `false` results of either filter split the list: every recipe
      lands in exactly one of them. */
  lemma MemberFiltersPartition(rs: seq<Recipe>, user: nat, isStaff: bool, favorites: Table, carts: Table)
    requires Distinct(rs)
    ensures var who := Member(user, isStaff);
      multiset(FilterShoppingCart(rs, who, carts, true))
        + multiset(FilterShoppingCart(rs, who, carts, false)) == multiset(rs)
    ensures var who := Member(user, isStaff);
      multiset(FilterFavorites(rs, who, favorites, true))
        + multiset(FilterFavorites(rs, who, favorites, false)) == multiset(rs)
  {
    SplitWithoutRepeats(rs, (x: Recipe) => Link(user, x.id) in carts, (x: Recipe) => Link(user, x.id) !in carts);
    SplitWithoutRepeats(rs, (x: Recipe) => Link(user, x.id) in favorites, (x: Recipe) => Link(user, x.id) !in favorites);
  }

  /** On input without repeats, `DISTINCT` after a filter and after its
      negation still splits the input. */
  lemma SplitWithoutRepeats(rs: seq<Recipe>, p: Recipe -> bool, q: Recipe -> bool)
    requires Distinct(rs) && forall x :: q(x) == !p(x)
    ensures multiset(Dedup(Filter(p, rs))) + multiset(Dedup(Filter(q, rs))) == multiset(rs)
  {
    FilterOfDistinctIsDistinct(p, rs);
    FilterOfDistinctIsDistinct(q, rs);
    DedupOfDistinct(Filter(p, rs));
    DedupOfDistinct(Filter(q, rs));
    FilterPartition(p, q, rs);
  }

  /** The two trees part ways for an anonymous requester: asking for the
      cart (or favorites) this tree answers the whole list, while the main
      tree, whose flags are all false for that requester, answers nothing. */
  lemma AnonymousDiffersFromMainTree(rs: seq<Recipe>, favorites: Table, carts: Table)
    ensures FilterShoppingCart(rs, Anonymous, carts, true) == rs
    ensures FilterFavorites(rs, Anonymous, favorites, true) == rs
    ensures Filters.FilterShoppingCart(CookingViews.Annotate(rs, Anonymous, favorites, carts), true) == []
    ensures Filters.FilterFavorites(CookingViews.Annotate(rs, Anonymous, favorites, carts), true) == []
  {
    Filters.AnonymousFlagFilters(rs, favorites, carts);
  }
}
