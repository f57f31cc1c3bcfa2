/** The recipe views of the `foodgram` tree (`foodgram/cooking/views.py`)
    where they differ from the main tree: the short-link and full-link views
    over the per-module shortener, and the favorite and cart delete. The
    list annotation and the shopping-list download are the main tree's code
    line for line and are modelled once, in `CookingViews` and
    `ShoppingList`. */
module FoodgramCookingViews {
  import opened Common
  import opened Text
  import opened Models
  import opened Relation
  import FoodgramShortener
  import CookingViews

  /** `f'/api/recipes/{id}/'`, the API path of a recipe. */
  function ApiRecipePath(id: nat): (r: string)
    ensures |r| == 14 + |NatToString(id)|
    ensures r[..13] == "/api/recipes/" && r[13..|r| - 1] == NatToString(id)
  {
    var r := "/api/recipes/" + NatToString(id) + "/";
    assert r[13..|r| - 1] == NatToString(id);
    r
  }

  /** Different recipes have different paths. */
  lemma ApiRecipePathInjective(a: nat, b: nat)
    requires ApiRecipePath(a) == ApiRecipePath(b)
    ensures a == b
  {
    NatToStringRoundTrip(a);
    NatToStringRoundTrip(b);
  }

  /** `RecipeGetShortLinkView.get`: the answer is the shortener's link for
      the recipe's path, `s/` and three lowercase hex characters, and that
      link restores to the path in the shortener the view leaves. */
  function ShortLinkView(sh: FoodgramShortener.LinkShortener, md5: string -> HexDigest, id: nat)
    : (r: (string, FoodgramShortener.LinkShortener))
    ensures |r.0| == 5 && r.0[..2] == FoodgramShortener.Prefix
    ensures FoodgramShortener.IsShortCode(r.0[2..])
    ensures FoodgramShortener.RestoreUrl(r.1, r.0) == ApiRecipePath(id)
    ensures r.1.urlMapping.Keys == sh.urlMapping.Keys + {r.0}
  {
    FoodgramShortener.ShortenUrl(sh, md5, ApiRecipePath(id))
  }

  /** What the full-link view answers: 200 with a `full_url`, or 404. */
  datatype FullLinkResponse = FullUrl(url: string) | UrlNotFound

  /** `RecipeGetFullLinkView.get`: looks up `'s/' + short_code` and answers
      200 with whatever the lookup returned unless that is the empty
      string. For a code the mapping does not know, the lookup returns the
      non-empty sentinel, so the view answers 200 with the sentinel as the
      URL; 404 comes only for a stored empty URL. */
  function FullLinkView(sh: FoodgramShortener.LinkShortener, code: string): (r: FullLinkResponse)
    ensures r.UrlNotFound? <==>
      FoodgramShortener.Prefix + code in sh.urlMapping && sh.urlMapping[FoodgramShortener.Prefix + code] == ""
    ensures FoodgramShortener.Prefix + code !in sh.urlMapping ==> r == FullUrl(FoodgramShortener.NotFound)
    ensures FoodgramShortener.Prefix + code in sh.urlMapping && r.FullUrl? ==>
      r.url == sh.urlMapping[FoodgramShortener.Prefix + code]
  {
    var fullUrl := FoodgramShortener.RestoreUrl(sh, FoodgramShortener.Prefix + code);
    if fullUrl != "" then FullUrl(fullUrl) else UrlNotFound
  }

  /** Every stored URL is non-empty. */
  predicate NonEmptyUrls(sh: FoodgramShortener.LinkShortener) {
    forall k :: k in sh.urlMapping ==> sh.urlMapping[k] != ""
  }

  /** A new shortener and the short-link view keep every stored URL
      non-empty ... */
  lemma ShortLinkKeepsNonEmpty(sh: FoodgramShortener.LinkShortener, md5: string -> HexDigest, id: nat)
    requires NonEmptyUrls(sh)
    ensures NonEmptyUrls(FoodgramShortener.New())
    ensures NonEmptyUrls(ShortLinkView(sh, md5, id).1)
  {
  }

  /** ... so the 404 branch of the full-link view is never taken for a
      shortener only the short-link view wrote to: every code, known or
      not, gets 200. */
  lemma NeverNotFound(sh: FoodgramShortener.LinkShortener, code: string)
    requires NonEmptyUrls(sh)
    ensures FullLinkView(sh, code).FullUrl?
  {
  }

  /** The code part of a short link handed out leads back to the recipe's
      path. */
  lemma ShortThenFull(sh: FoodgramShortener.LinkShortener, md5: string -> HexDigest, id: nat)
    ensures var (link, sh1) := ShortLinkView(sh, md5, id);
      FullLinkView(sh1, link[2..]) == FullUrl(ApiRecipePath(id))
  {
    var (link, sh1) := ShortLinkView(sh, md5, id);
    assert FoodgramShortener.Prefix + link[2..] == link;
  }

  /** On a new shortener every code is unknown, and the view answers 200
      with the sentinel as the URL. */
  lemma UnknownCodeAnswers200(code: string)
    ensures FullLinkView(FoodgramShortener.New(), code) == FullUrl(FoodgramShortener.NotFound)
  {
  }

  /** The full-link view with the test the main tree uses: 404 when the
      lookup returned the sentinel, 200 with the stored URL otherwise. */
  function FullLinkViewIntended(sh: FoodgramShortener.LinkShortener, code: string): (r: FullLinkResponse)
    ensures r.FullUrl? <==> FoodgramShortener.RestoreUrl(sh, FoodgramShortener.Prefix + code) != FoodgramShortener.NotFound
    ensures r.FullUrl? ==> r.url == sh.urlMapping[FoodgramShortener.Prefix + code]
  {
    var fullUrl := FoodgramShortener.RestoreUrl(sh, FoodgramShortener.Prefix + code);
    if fullUrl != FoodgramShortener.NotFound then FullUrl(fullUrl) else UrlNotFound
  }

  /** Every stored URL is a path, so none of them is the sentinel. */
  predicate HoldsPaths(sh: FoodgramShortener.LinkShortener) {
    forall k :: k in sh.urlMapping ==> |sh.urlMapping[k]| > 0 && sh.urlMapping[k][0] == '/'
  }

  /** A new shortener and the short-link view keep every stored URL a path. */
  lemma ShortLinkKeepsPaths(sh: FoodgramShortener.LinkShortener, md5: string -> HexDigest, id: nat)
    requires HoldsPaths(sh)
    ensures HoldsPaths(FoodgramShortener.New())
    ensures HoldsPaths(ShortLinkView(sh, md5, id).1)
  {
    var p := ApiRecipePath(id);
    assert p[..13] == "/api/recipes/";
    assert p[0] == p[..13][0];
  }

  /** With paths stored, the intended view answers 404 exactly for the codes
      the shortener never handed out, and leads a handed-out code back to
      the recipe's path. */
  lemma IntendedNotFoundIffUnknown(sh: FoodgramShortener.LinkShortener, code: string)
    requires HoldsPaths(sh)
    ensures FullLinkViewIntended(sh, code).UrlNotFound? <==> FoodgramShortener.Prefix + code !in sh.urlMapping
  {
    var key := FoodgramShortener.Prefix + code;
    if key in sh.urlMapping {
      assert sh.urlMapping[key][0] != FoodgramShortener.NotFound[0];
    }
  }

  /** Under the intended view, too, a handed-out link leads back to the
      recipe's path. */
  lemma ShortThenFullIntended(sh: FoodgramShortener.LinkShortener, md5: string -> HexDigest, id: nat)
    ensures var (link, sh1) := ShortLinkView(sh, md5, id);
      FullLinkViewIntended(sh1, link[2..]) == FullUrl(ApiRecipePath(id))
  {
    var (link, sh1) := ShortLinkView(sh, md5, id);
    assert FoodgramShortener.Prefix + link[2..] == link;
    var p := ApiRecipePath(id);
    assert p[0] == p[..13][0];
    assert p[0] != FoodgramShortener.NotFound[0];
  }

  /** `post_delete_favorite_cart` for DELETE: 404 for an unknown recipe;
      otherwise the pair's rows are deleted and the answer is 400 when the
      delete reported no row, 204 otherwise. */
  function FavoriteCartDelete(recipes: seq<Recipe>, t: Table, user: nat, pk: nat): (r: (Status, Table))
    ensures r.0 == NotFound404 <==> !RecipeExists(recipes, pk)
    ensures r.0 == BadRequest400 <==> RecipeExists(recipes, pk) && !Has(t, Link(user, pk))
    ensures r.0 in {NotFound404, BadRequest400, NoContent204}
    ensures r.0 != NotFound404 ==> r.1 == Delete(t, Link(user, pk))
  {
    if !RecipeExists(recipes, pk) then (NotFound404, t)
    else
      var l := Link(user, pk);
      var deletedCount := CountOf(t, l);
      CountPositiveIffHas(t, l);
      if deletedCount == 0 then (BadRequest400, Delete(t, l))
      else (NoContent204, Delete(t, l))
  }

  /** The `deleted_count == 0` test of this tree and the `deleted_count > 0`
      test of the main tree give the same answers and tables on every
      input. */
  lemma DeleteAgreesWithMainTree(recipes: seq<Recipe>, t: Table, user: nat, pk: nat)
    ensures FavoriteCartDelete(recipes, t, user, pk) == CookingViews.FavoriteCartDelete(recipes, t, user, pk)
  {
    if RecipeExists(recipes, pk) && !Has(t, Link(user, pk)) {
      DeleteAbsent(t, Link(user, pk));
    }
  }
}
