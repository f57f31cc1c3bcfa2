# foodgram — a Dafny model of the recipe, shopping-list and follow logic

foodgram is a recipe-sharing web application written in Django. Users
publish recipes built from ingredients and tags. They can favorite recipes,
put them in a shopping cart, download the cart as an aggregated shopping
list, follow other authors and share short links to recipes. The
repository carries two parallel code trees that do this with small
differences: the main tree (`backend/`) and the `foodgram` tree
(`backend/foodgram/`).

This project models the bookkeeping core of both trees over an in-memory
state, in functional style:
- users are a map from primary key to `User`;
- recipes, ingredient rows and the favorite, cart and follow relations are
  sequences of rows;
- every view is a pure function that returns a status (or an outcome) and
  the new state.

The table constraints of the Django models are predicates. The operations
are proved to keep them:
- `unique_follower`, `unique_recipe_ingredient` and the unique email;
- positive amounts and cooking time;
- the length bounds.

| file | module | models |
|---|---|---|
| `common.dfy` | `Common` | `Option`, `Result`, HTTP statuses, the requester; `Filter`, `Dedup` (`.distinct()`) and their laws |
| `text.dfy` | `Text` | lowercase hex, decimal rendering of keys, `'\n'.join` and its inverse, `istartswith`/`icontains` |
| `shortener.dfy` | `Shortener` | the main tree's shortener: 6-character key, one mapping shared by every instance |
| `foodgram_shortener.dfy` | `FoodgramShortener` | the `foodgram` tree's shortener: `"s/"` + 3-character key, one mapping per instance |
| `relation.dfy` | `Relation` | (user, target) tables: existence, delete, uniqueness |
| `models.dfy` | `Models` | entities, field bounds and unique constraints, photo URLs, recipes by author |
| `shopping_list.dfy` | `ShoppingList` | `generate_shopping_list` and `create_txt_file` |
| `cooking_serializers.dfy` | `CookingSerializers` | recipe validation, ingredient rows on create and update, the favorite/cart duplicate check |
| `cooking_views.dfy` | `CookingViews` | main tree's short/full link views, list flags, favorite/cart POST and DELETE, cart download |
| `foodgram_cooking_views.dfy` | `FoodgramCookingViews` | the `foodgram` tree's link views and favorite/cart DELETE |
| `filters.dfy` | `Filters` | main tree's ingredient search and flag filters |
| `foodgram_filters.dfy` | `FoodgramFilters` | the `foodgram` tree's membership filters |
| `permissions.dfy` | `Permissions` | `CurrentUserAdminOrReadOnly`, `IsAuthorOrReadOnly` |
| `account_serializers.dfy` | `AccountSerializers` | the `foodgram` tree's user serializers |
| `api_account_serializers.dfy` | `ApiAccountSerializers` | the user serializers the main tree's views import |
| `account_views.dfy` | `FollowViews` | main tree's follow views |
| `foodgram_account_views.dfy` | `FoodgramAccountViews` | the `foodgram` tree's user and follow views |

Several pieces are the same code in both trees and are modelled once:
- The `foodgram` tree's list annotation (`foodgram/cooking/views.py`
  67-91), aggregation (160-181) and rendering (183-191) are line for line the
  main tree's. They are modelled in `CookingViews.Annotate` and
  `ShoppingList`.
- The `get_is_subscribed` and `get_recipes` methods of the two user
  serializer files are modelled once, in `AccountSerializers`.
- The `create` methods of the two registration serializers are modelled
  once. `AccountSerializers.PerformCreate` is the path through djoser's
  `create_user`: it normalises the email and username, and a unique column
  may refuse the insert. `AccountSerializers.CreateUser` is the row that
  insert writes.
- A file's URL is the storage's `url` applied to the stored name. The
  storage's `url` is a parameter, `storageUrl`.

## Model

| member | source | states |
|---|---|---|
| Shortener.Construct | backend/utils/link_shortener.py:9-13 | the first construction makes the one instance, with an empty mapping; every later construction returns that same instance |
| Shortener.ConstructShared | backend/utils/link_shortener.py:9-13 | constructing again changes nothing: all instances share one mapping |
| Shortener.ShortenUrl | backend/utils/link_shortener.py:15-19 | the key is the first 6 digest characters (6 lowercase hex); the mapping gains that key for the URL and keeps every other key's value |
| Shortener.RestoreUrl | backend/utils/link_shortener.py:21-26 | a known key gives its URL, an unknown key the sentinel `URL не найден` |
| Shortener.RestoreAfterShorten | backend/utils/link_shortener.py:17-26 | restoring the key just handed out gives the URL back |
| Shortener.ShortenIdempotent | backend/utils/link_shortener.py:17-19 | shortening the same URL twice gives the same key and the same mapping as once |
| Shortener.KeyIsDeterministic | backend/utils/link_shortener.py:17 | the key depends only on the URL, not on the mapping |
| Shortener.CollisionLastWriteWins | backend/utils/link_shortener.py:18 | two URLs with the same key: the second overwrites the first, other keys keep their values |
| Shortener.FreshInstanceKnowsNothing | backend/utils/link_shortener.py:9-26 | on the first instance every lookup gives the sentinel |
| FoodgramShortener.New | backend/foodgram/utils/link_shortener.py:5-6 | a new instance answers the sentinel for every link |
| FoodgramShortener.ShortenUrl | backend/foodgram/utils/link_shortener.py:8-12 | the link is `s/` and the first 3 digest characters (5 characters, a route-valid code); the mapping is keyed by the whole link, last write wins, other keys unchanged |
| FoodgramShortener.RestoreUrl | backend/foodgram/utils/link_shortener.py:14-15 | a known link gives its URL, an unknown one the sentinel |
| FoodgramShortener.RestoreAfterShorten | backend/foodgram/utils/link_shortener.py:8-15 | restoring the link just handed out gives the URL back |
| FoodgramShortener.BareCodeIsNoKey | backend/foodgram/utils/link_shortener.py:10-11 | the bare 3-character code is not a key: restoring it without `s/` gives the sentinel |
| FoodgramShortener.ShortenIdempotent | backend/foodgram/utils/link_shortener.py:8-12 | shortening twice equals shortening once |
| Text.SplitJoin | backend/api/views/cooking.py:194 | splitting a `'\n'`-join of newline-free lines at `'\n'` gives the lines back |
| Text.NatToStringRoundTrip | backend/api/views/cooking.py:44 | the decimal rendering of a key reads back as the key |
| Relation.Delete | backend/api/views/cooking.py:136-138 | deleting a pair removes all its rows, the count removed is the pair's multiplicity, every other pair's rows stay |
| Relation.CountPositiveIffHas | backend/api/views/cooking.py:140 | the delete count is positive exactly when the pair was present |
| Relation.UniqueCountAtMostOne | backend/account/models.py:70-74 | under the unique constraint a pair occurs at most once |
| Relation.DeleteKeepsUnique | backend/account/models.py:70-74 | deleting keeps the unique constraint |
| Models.UniqueEmailImpliesUniqueUser | backend/account/models.py:14-41 | a unique email makes the (username, email) constraint hold as well |
| Models.FileUrl | backend/account/models.py:31-33 | no file gives `None`; a file gives the storage's URL for its name |
| Models.UserPhotoUrl | backend/account/models.py:31-33 | `None` exactly when the user has no avatar file, otherwise the storage's URL for that file |
| Models.AvatarPhotoUrl | backend/foodgram/account/models.py:30-31 | `None` exactly when the avatar row has no file, otherwise the storage's URL for that file |
| Models.PhotoUrlsAgree | backend/foodgram/account/models.py:30-31 | the main tree's user field and the `foodgram` tree's avatar row give the same answer for the same file |
| Models.AuthoredBy | backend/foodgram/account/serializers.py:133 | exactly the recipes whose author is the given user |
| ShoppingList.AggregateKeys | backend/api/views/cooking.py:168-185 | the aggregate's names are the rows' names, each once, in first-occurrence order |
| ShoppingList.AggregateTotals | backend/api/views/cooking.py:175-183 | each name's amount is the sum of that name's row amounts |
| ShoppingList.AggregateUnits | backend/api/views/cooking.py:180-183 | each name's unit is the unit of its first row; later rows never change it |
| ShoppingList.AggregateOrder | backend/api/views/cooking.py:180-183 | entries appear in the order their names first occur in the rows |
| ShoppingList.AggregateSummarizes | backend/api/views/cooking.py:168-185 | the aggregate meets all the properties above at once |
| ShoppingList.AggregateConservesAmounts | backend/api/views/cooking.py:168-185 | the totals add up to the sum of all row amounts |
| ShoppingList.GenerateShoppingList | backend/api/views/cooking.py:168-185 | the loop builds a summary of the rows that conserves amounts; no rows give an empty map |
| ShoppingList.EmptyListRendersEmpty | backend/api/views/cooking.py:189-194 | an empty map renders as the empty text |
| ShoppingList.RenderedLines | backend/api/views/cooking.py:187-194 | splitting the text at newlines gives exactly the entry lines: no trailing newline, nothing else |
| ShoppingList.AggregateSingleLine | backend/api/views/cooking.py:175-183 | newline-free names and units give newline-free entries, and some rows give some entry |
| ShoppingList.ShoppingListFile | backend/foodgram/cooking/views.py:160-191 | for rows whose names and units hold no newline, the file is the empty text when there are no rows and otherwise splits into exactly one line per aggregated name, with summed amounts and first units |
| CookingSerializers.Validate | backend/api/serializers/cooking.py:83-106 | accepts exactly non-empty duplicate-free ingredients and tags, returning the data unchanged; each error is reported exactly when it is the first failed check, in the order empty ingredients, duplicate ingredients, empty tags, duplicate tags |
| CookingSerializers.CreateIngredients | backend/api/serializers/cooking.py:108-116 | one row per item, for this recipe, with the item's ingredient and amount |
| CookingSerializers.CreatedRowsValid | backend/foodgram/cooking/models.py:74-82 | positive amounts and distinct ingredients give rows that keep `unique_recipe_ingredient` and the minimum amount |
| CookingSerializers.NextId | backend/api/serializers/cooking.py:123 | the key of a new recipe is used by no existing recipe |
| CookingSerializers.WithoutRecipe | backend/api/serializers/cooking.py:135 | exactly the rows of other recipes remain |
| CookingSerializers.WithoutRecipeValid | backend/api/serializers/cooking.py:135 | deleting a recipe's rows keeps the row constraints |
| CookingSerializers.Create | backend/api/serializers/cooking.py:118-128 | on a payload with every plain field, a new recipe under a fresh key with the author, fields and tag set of the data; its rows are exactly the created ones; other recipes' rows unchanged |
| CookingSerializers.CreateKeepsStoreValid | backend/api/serializers/cooking.py:118-128 | creation keeps the recipe and row constraints and the row-to-recipe references |
| CookingSerializers.Updated | backend/api/serializers/cooking.py:137-140 | the updated recipe keeps its key and author and takes the new tag set; each of name, text, image and cooking time takes the payload's value when present and keeps the stored one when a partial update leaves it out |
| CookingSerializers.FullUpdateMatchesCreate | backend/api/serializers/cooking.py:118-140 | with every plain field present, an update leaves the recipe as a create from the same payload builds it, under the old key and author |
| CookingSerializers.TagsOnlyPatch | backend/api/serializers/cooking.py:130-140 | a partial update with no plain field changes only the tag set |
| CookingSerializers.ReplaceRecipe | backend/api/serializers/cooking.py:140 | only the recipe with the key changes, and it becomes the updated one |
| CookingSerializers.Update | backend/api/serializers/cooking.py:130-140 | after update the recipe's rows are exactly the new list and the recipe is the updated one (new tags, present fields written, absent ones kept); other recipes and their rows are unchanged |
| CookingSerializers.UpdateKeepsStoreValid | backend/api/serializers/cooking.py:130-140 | update keeps the recipe and row constraints and the references |
| CookingSerializers.ValidateAction | backend/api/serializers/cooking.py:189-193 | adding a favorite or cart pair fails exactly when the pair is present, otherwise passes the pair on |
| CookingSerializers.ValidatedSaveKeepsUnique | backend/api/serializers/cooking.py:189-193 | saving a validated pair keeps the unique constraint |
| CookingViews.RecipePath | backend/api/views/cooking.py:44 | `/recipes/` + the decimal key + `/` |
| CookingViews.RecipePathInjective | backend/api/views/cooking.py:44 | different recipes have different paths |
| CookingViews.ShortLinkView | backend/api/views/cooking.py:43-49 | the answer is the site root without its last character, `/s/` and the key; the key restores to the recipe's path |
| CookingViews.FullLinkView | backend/api/views/cooking.py:57-63 | redirect exactly when the lookup did not return the sentinel, and then to the stored URL; otherwise 404 |
| CookingViews.FreshShortenerHoldsPaths | backend/api/views/cooking.py:35 | the module's shortener starts holding only paths |
| CookingViews.ShortLinkKeepsPaths | backend/api/views/cooking.py:43-49 | the short-link view stores only paths |
| CookingViews.RedirectIffKnown | backend/api/views/cooking.py:57-63 | with only paths stored, the view redirects exactly for keys handed out |
| CookingViews.ShortThenFull | backend/api/views/cooking.py:43-63 | the key of a handed-out short link redirects to the recipe's path |
| CookingViews.Annotate | backend/api/views/cooking.py:82-104 | same recipes in the same order; each flag is true exactly for an authenticated requester with that (user, recipe) row |
| CookingViews.AnonymousSeesNoFlags | backend/api/views/cooking.py:99-103 | an anonymous requester sees both flags false on every recipe |
| CookingViews.FavoriteCartPost | backend/api/views/cooking.py:121-133 | 404 exactly for an unknown recipe, 201 exactly for a new pair (which is added once), 400 for a present pair; a refusal leaves the table unchanged |
| CookingViews.FavoriteCartDelete | backend/api/views/cooking.py:135-146 | 404 exactly for an unknown recipe, 204 exactly when the pair was present (and is then gone, other pairs unchanged), 400 with the table unchanged otherwise |
| CookingViews.FavoriteCartKeepUnique | backend/api/views/cooking.py:121-146 | both actions keep the unique constraint |
| CookingViews.PostThenDelete | backend/api/views/cooking.py:121-146 | adding then removing a new pair answers 201 then 204 and gives the table back |
| CookingViews.FlagsFollowActions | backend/api/views/cooking.py:88-98 | after a successful add the flag reads true, after a successful remove false |
| CookingViews.CartRecipes | backend/api/views/cooking.py:163-164 | exactly the recipes with a cart row of the user |
| CookingViews.CartRows | backend/api/views/cooking.py:171-173 | exactly one row per ingredient line of a selected recipe, in table order with repetitions kept, each carrying that line's ingredient name, unit and amount |
| CookingViews.CartRowsMembership | backend/api/views/cooking.py:171-173 | every cart row comes from a line of a selected recipe, and every line of a selected recipe gives a cart row |
| CookingViews.CartRowsAmount | backend/api/views/cooking.py:171-177 | the rows' amounts add up to the amounts of the selected lines, so a line shared by two carted recipes counts twice |
| CookingViews.DownloadShoppingCart | backend/api/views/cooking.py:161-166 | the file is the rendering of a summary of the cart's rows, whose totals add up to the amounts of all ingredient lines of the carted recipes |
| FoodgramCookingViews.ApiRecipePath | backend/foodgram/cooking/views.py:37 | `/api/recipes/` + the decimal key + `/` |
| FoodgramCookingViews.ApiRecipePathInjective | backend/foodgram/cooking/views.py:37 | different recipes have different paths |
| FoodgramCookingViews.ShortLinkView | backend/foodgram/cooking/views.py:36-39 | the answer is `s/` + 3 hex characters and restores to the recipe's path |
| FoodgramCookingViews.FullLinkView | backend/foodgram/cooking/views.py:47-53 | looks up `s/` + code; 404 exactly when the stored URL is empty; an unknown code gets 200 with the sentinel as URL |
| FoodgramCookingViews.ShortLinkKeepsNonEmpty | backend/foodgram/cooking/views.py:36-39 | the short-link view stores only non-empty URLs |
| FoodgramCookingViews.NeverNotFound | backend/foodgram/cooking/views.py:47-53 | with only non-empty URLs stored, the view never answers 404 |
| FoodgramCookingViews.UnknownCodeAnswers200 | backend/foodgram/cooking/views.py:48-50 | on a new shortener every code gets 200 with the sentinel |
| FoodgramCookingViews.ShortThenFull | backend/foodgram/cooking/views.py:36-53 | a handed-out link's code leads back to the recipe's path |
| FoodgramCookingViews.FullLinkViewIntended | backend/foodgram/cooking/views.py:47-53 | 200 exactly when the lookup did not return the sentinel, with the stored URL |
| FoodgramCookingViews.ShortLinkKeepsPaths | backend/foodgram/cooking/views.py:36-39 | the short-link view stores only paths |
| FoodgramCookingViews.IntendedNotFoundIffUnknown | backend/foodgram/cooking/views.py:47-53 | with only paths stored, the intended view answers 404 exactly for codes never handed out |
| FoodgramCookingViews.ShortThenFullIntended | backend/foodgram/cooking/views.py:36-53 | under the intended view a handed-out link leads back to the recipe's path |
| FoodgramCookingViews.FavoriteCartDelete | backend/foodgram/cooking/views.py:127-136 | 404 exactly for an unknown recipe; 400 exactly when the recipe exists but the pair does not; for a known recipe every row of the pair is deleted |
| FoodgramCookingViews.DeleteAgreesWithMainTree | backend/foodgram/cooking/views.py:127-136 | the `== 0` test and the main tree's `> 0` test give the same answers and tables |
| Filters.StartsImpliesContains | backend/utils/filters.py:25 | a case-insensitive prefix is a case-insensitive substring |
| Filters.MatchedIsContains | backend/utils/filters.py:24-26 | the two-part search condition keeps the same rows as the substring test alone |
| Filters.ReorderKeepsMatches | backend/utils/filters.py:26-31 | ordering by the prefix flag loses and adds no row |
| Filters.ReorderPutsPrefixFirst | backend/utils/filters.py:26-31 | after ordering, no prefix match follows a non-prefix match |
| Filters.FilterName | backend/utils/filters.py:22-31 | exactly the ingredients whose name contains the value ignoring case, each as often as in the input, prefix matches first |
| Filters.FilterNameIsSubMultiset | backend/utils/filters.py:24 | the result is a sub-collection of the input |
| Filters.FilterShoppingCart | backend/utils/filters.py:48-52 | `true` keeps exactly the recipes flagged in the cart, `false` exactly the unflagged ones |
| Filters.FilterFavorites | backend/utils/filters.py:54-58 | the same on the favorite flag |
| Filters.FlagFiltersPartition | backend/utils/filters.py:48-58 | the `true` and `false` results split the list |
| Filters.AnonymousFlagFilters | backend/utils/filters.py:48-58 | for an anonymous requester `true` gives nothing and `false` gives the whole list |
| FoodgramFilters.FilterShoppingCart | backend/foodgram/utils/filters.py:19-27 | anonymous: the list unchanged; authenticated: without repeats, exactly the recipes with (`true`) or without (`false`) the user's cart row |
| FoodgramFilters.FilterFavorites | backend/foodgram/utils/filters.py:29-37 | the same rules against the favorite relation |
| FoodgramFilters.MemberFiltersPartition | backend/foodgram/utils/filters.py:21-36 | for an authenticated requester and a list without repeats, the `true` and `false` results split the list |
| FoodgramFilters.SplitWithoutRepeats | backend/foodgram/utils/filters.py:24-26 | `DISTINCT` after a filter and after its negation still splits a list without repeats |
| FoodgramFilters.AnonymousDiffersFromMainTree | backend/foodgram/utils/filters.py:19-37 | for an anonymous requester this tree gives the whole list where the main tree gives nothing |
| Permissions.CurrentUserAdminOrReadOnly | backend/foodgram/utils/permissions.py:6-11 | safe verbs allowed; authenticated staff allowed; the user the object is allowed; every other unsafe request denied |
| Permissions.IsAuthorOrReadOnlyView | backend/foodgram/utils/permissions.py:16-17 | allowed exactly when authenticated or the verb is safe |
| Permissions.IsAuthorOrReadOnlyObject | backend/foodgram/utils/permissions.py:19-20 | safe verbs allowed; an unsafe one exactly for the author |
| Permissions.ObjectPermissionImpliesView | backend/foodgram/utils/permissions.py:14-20 | passing the object check implies passing the view check |
| Permissions.StaffIsNotAuthor | backend/foodgram/utils/permissions.py:4-20 | staff may change any user but not another author's recipe |
| AccountSerializers.Emails | backend/foodgram/account/serializers.py:27 | exactly the emails some user holds |
| AccountSerializers.ValidateEmail | backend/foodgram/account/serializers.py:25-31 | an email no user holds passes unchanged, a held one is refused with the message |
| AccountSerializers.StoredPassword | backend/foodgram/account/serializers.py:36-37 | a password is stored exactly when a non-empty one was given |
| AccountSerializers.CreateUser | backend/foodgram/account/serializers.py:33-39 | the inserted row: one new user under the new key with the given fields, no avatar, not staff, and the password as given only when non-empty; other users unchanged |
| AccountSerializers.NormalizeEmail | backend/foodgram/account/serializers.py:35 | the address `create_user` stores has the same length and the same part up to the last `@`, and its domain is lowercased; an address without `@` is kept |
| AccountSerializers.NormalizeEmailIdempotent | backend/foodgram/account/serializers.py:35 | normalising twice is normalising once, so every address `create_user` wrote is its own normal form |
| AccountSerializers.MixedCaseDomainNormalized | backend/foodgram/account/serializers.py:35 | `a@X.com` is stored as `a@x.com` |
| AccountSerializers.Normalized | backend/foodgram/account/serializers.py:35 | the stored username is its NFKC form and the stored email its normal form; names and password are untouched |
| AccountSerializers.PerformCreate | backend/foodgram/account/serializers.py:33-39 | the insert succeeds exactly when neither the normalised username nor the normalised email is held; otherwise djoser answers "Unable to create account." and the table is unchanged; on success the row holds the normalised values |
| AccountSerializers.CreateUserKeepsUsersValid | backend/foodgram/account/models.py:10-11 | a row within the field bounds whose username and email nobody holds keeps usernames and emails unique and the table valid |
| AccountSerializers.PerformCreateKeepsUsersValid | backend/foodgram/account/models.py:10-11 | the insert keeps usernames and emails unique, the field bounds (when NFKC keeps the username within 150 characters) and normalised addresses |
| AccountSerializers.ValidateUniqueUsername | backend/foodgram/account/serializers.py:21-23 | a username no user holds passes unchanged, a held one is refused |
| AccountSerializers.ValidatePassword | backend/foodgram/account/serializers.py:15 | the `validate` this serializer inherits from djoser: the payload passes unchanged exactly when the password validators accept the password for the would-be user, and is otherwise refused under the `password` key |
| AccountSerializers.Register | backend/foodgram/account/serializers.py:15-39 | registration succeeds exactly for valid fields (bounded non-blank names, username and email in format, a non-blank password) whose username and email are unused, both as given and as normalised, and whose password the password validators accept. In order, the refusals are: invalid fields; a taken username (username message); a taken email (email message); a password the validators refuse, which is checked only after every field has passed; a normalised value that is held ("Unable to create account."). The stored username and email are the normalised ones; the stored password is the one given |
| AccountSerializers.HeldUsernameBeforeWeakPassword | backend/foodgram/account/serializers.py:15-31 | a held username with a password the validators would refuse is answered with the username message, not a password error |
| AccountSerializers.MixedCaseDomainRefused | backend/foodgram/account/serializers.py:25-35 | beside a held `a@x.com`, the address `a@X.com` passes `validate_email` and is refused at the insert |
| AccountSerializers.RegisterKeepsUsersValid | backend/foodgram/account/serializers.py:15-39 | registration keeps usernames unique, emails unique (`unique=True` at `foodgram/account/models.py` line 11), the field bounds and normalised addresses |
| AccountSerializers.Signin | backend/foodgram/account/serializers.py:47-57 | fails exactly when `authenticate` finds no user, otherwise yields that user |
| AccountSerializers.GetAvatar | backend/foodgram/account/serializers.py:80-83 | `None` unless the user has an avatar row with a file, then the storage's URL for that file |
| AccountSerializers.IsSubscribed | backend/foodgram/account/serializers.py:85-89 | false for an anonymous requester, otherwise exactly whether the follow row exists |
| AccountSerializers.SubscribedTo | backend/foodgram/account/serializers.py:123-127 | exactly whether the requester's follow row exists |
| AccountSerializers.GetRecipes | backend/foodgram/account/serializers.py:129-137 | a prefix of the followed user's recipes: all of them without a limit, otherwise the first min(limit, count) |
| AccountSerializers.GetRecipesCount | backend/foodgram/account/serializers.py:139-141 | the number of recipes by the followed user |
| AccountSerializers.CountIgnoresLimit | backend/foodgram/account/serializers.py:129-141 | the count bounds every limited list and equals the unlimited one's length |
| AccountSerializers.RepresentFollow | backend/foodgram/account/serializers.py:100-141 | a follow row renders the followed user's key, email, username and names, whether the requester follows them, the prefix of their recipes the limit allows, their recipe count, and, when their avatar row has a file, the storage's URL for it |
| ApiAccountSerializers.ValidateUsername | backend/foodgram/api/serializers/account.py:32-37 | refuses exactly `me`, returns every other name unchanged |
| ApiAccountSerializers.Register | backend/foodgram/api/serializers/account.py:15-45 | succeeds exactly for valid fields, a username other than `me` unused as given, a password the validators accept, and a normalised username and email neither of which is held. In order, the refusals are: invalid fields; a taken username; `me`; a password the validators refuse, which is checked only after every field has passed; a held normalised value ("Unable to create account."). The stored username is the NFKC form; the stored password is the one given |
| ApiAccountSerializers.ReservedNameBeforeWeakPassword | backend/foodgram/api/serializers/account.py:32-37 | the name `me` with a password the validators would refuse is answered with the `me` message, not a password error |
| ApiAccountSerializers.RegisterKeepsUsersValid | backend/foodgram/api/serializers/account.py:15-45 | a registration was asked with a name other than `me`, and the user table keeps unique usernames, unique emails, the field bounds and normalised addresses |
| ApiAccountSerializers.FullwidthMeStoredAsMe | backend/foodgram/api/serializers/account.py:32-45 | the fullwidth name `ｍｅ` passes `validate_username` and is stored as `me` |
| ApiAccountSerializers.RegisterIntended | backend/foodgram/api/serializers/account.py:32-45 | the corrected check also refuses a name whose NFKC form is `me`, and otherwise agrees with the registration as written |
| ApiAccountSerializers.IntendedNeverStoresMe | backend/foodgram/api/serializers/account.py:32-45 | under the corrected check no user named `me` is stored |
| ApiAccountSerializers.RegisterAgreesWithFoodgramTree | backend/foodgram/api/serializers/account.py:15-45 | on a table of normalised addresses, apart from the name `me`, both registrations accept the same payloads and build the same table |
| ApiAccountSerializers.GetAvatar | backend/foodgram/api/serializers/account.py:77-78 | `None` exactly when the user has no avatar, otherwise the storage's URL for it |
| ApiAccountSerializers.CreateFollow | backend/foodgram/api/serializers/account.py:154-156 | exactly the given pair is added, once, after the existing rows |
| ApiAccountSerializers.CreateFollowKeepsUnique | backend/foodgram/api/serializers/account.py:154-156 | adding an absent pair keeps `unique_follower` |
| FollowViews.StatusOf | backend/api/views/account.py:146-166 | 201 exactly for a subscription, 404 for an unknown user, 400 for the two refusals |
| FollowViews.GetFollowingUser | backend/api/views/account.py:130-138 | the user and their recipe count for a known key, 404 for an unknown one |
| FollowViews.Post | backend/api/views/account.py:146-166 | 404 for an unknown user, then refuses self-follow, then refuses a duplicate; otherwise adds exactly the pair once and reports the user's recipe count; a refusal leaves the table unchanged |
| FollowViews.Delete | backend/api/views/account.py:168-180 | 204 exactly when the pair existed, which is then gone; otherwise 400 with the table unchanged |
| FollowViews.DeleteUnknownUserIs400 | backend/api/views/account.py:168-172 | unsubscribing from a key no user has answers 400, while subscribing answers 404 |
| FollowViews.PostKeepsInvariants | backend/api/views/account.py:146-166 | subscribing keeps `unique_follower`, the user references and the absence of self-follows |
| FollowViews.DeleteKeepsInvariants | backend/api/views/account.py:168-180 | unsubscribing keeps the same invariants |
| FollowViews.FollowersList | backend/api/views/account.py:107-115 | exactly the follow rows whose follower is the requester |
| FollowViews.ListFollowsViews | backend/api/views/account.py:107-180 | after a subscription the pair is listed; after an unsubscribe it is not |
| FollowViews.PostThenDelete | backend/api/views/account.py:146-180 | subscribing then unsubscribing gives the table back |
| FoodgramAccountViews.PermissionsFor | backend/foodgram/account/views.py:62-67 | `create` gets AllowAny, `me` and `set_password` IsAuthenticated, everything else the class default |
| FoodgramAccountViews.ViewAllows | backend/foodgram/account/views.py:62-67 | only IsAuthenticated refuses, and only an anonymous requester |
| FoodgramAccountViews.ObjectAllows | backend/foodgram/account/views.py:58 | the class default checks objects with `CurrentUserAdminOrReadOnly`, the others allow |
| FoodgramAccountViews.AnonymousAccess | backend/foodgram/account/views.py:62-67 | anonymous may register and reach every action but `me` and `set_password`; on others' objects only safe verbs |
| FoodgramAccountViews.SerializerFor | backend/foodgram/account/views.py:69-74 | `create` gets the creation serializer, `set_password` the password one, everything else `UserSerializer` |
| FoodgramAccountViews.AuthenticatedActionsRenderUsers | backend/foodgram/account/views.py:62-74 | `me` renders with `UserSerializer` |
| FoodgramAccountViews.Signout | backend/foodgram/account/views.py:28-29 | always 204 with the state unchanged |
| FoodgramAccountViews.StatusOf | backend/foodgram/account/views.py:151-168 | 201 exactly for a created follow, 404 for an unknown user, 400 for the two refusals |
| FoodgramAccountViews.Post | backend/foodgram/account/views.py:151-168 | 404 for an unknown user, then refuses self-follow, then a duplicate; otherwise adds exactly that pair once |
| FoodgramAccountViews.PostAgreesWithMainTree | backend/foodgram/account/views.py:151-168 | both trees' subscribe views give the same status and table |
| FoodgramAccountViews.DeleteFirst | backend/foodgram/account/views.py:173-178 | exactly one occurrence of the pair goes when there is one; nothing changes otherwise |
| FoodgramAccountViews.DeleteFirstOfUnique | backend/foodgram/account/views.py:173-178 | under `unique_follower` deleting the first row is deleting all of the pair's rows |
| FoodgramAccountViews.Delete | backend/foodgram/account/views.py:170-184 | 404 exactly for an unknown user, 204 exactly when the pair existed (one row removed), 400 with the table unchanged otherwise |
| FoodgramAccountViews.DeleteAgreesWithMainTree | backend/foodgram/account/views.py:170-184 | for a known user and a constrained table both trees' unsubscribe views agree |
| FoodgramAccountViews.DeleteUnknownUserDiffers | backend/foodgram/account/views.py:141-143 | for an unknown user this tree answers 404 where the main tree answers 400 |
| FoodgramAccountViews.ListedRowsAreSubscribed | backend/foodgram/account/views.py:125-127 | every row of the subscriptions list renders as subscribed |
| FoodgramAccountViews.ListedRowsRenderSubscribed | backend/foodgram/account/views.py:125-127 | over a valid follow table, every listed row names an existing user other than the requester and renders through `FollowersSerializer` as subscribed, with that user's recipe count |

## Left out

- MD5 is a parameter `md5: string -> HexDigest` whose results are 32 lowercase hex characters. Hash internals and collision probabilities are not modelled; only last-write-wins on equal keys is.
- HTTP is reduced to statuses and result values. `redirect`, response bodies and headers are not modelled. `request.build_absolute_uri('/')` is a parameter.
- The ORM is in-memory sequences and maps. Querysets, `select_related`, `prefetch_related`, `Exists`/`OuterRef`, `bulk_create` and `transaction.atomic` are not modelled. Rows come back in table order.
- `order_by('-startswith')` is modelled as a stable split. Within each group the database's order is unspecified; the model keeps input order.
- Primary keys: a new recipe gets one more than the largest key, and a new user gets a key passed in that the model assumes unused. The database's key sequence is not modelled.
- JWT issuance (`SigninView.get_token`), password hashing and `foodgram/account/backends.py` are not modelled. `authenticate` is a parameter. A stored password is the given string, and `None` stands for the unusable password.
- The `set_password`, `me`, avatar PUT/DELETE, `SigninView.post` and `UserViewSet.create` handlers are not modelled. Each is a thin call into library serializers and storage. Their permission and serializer selection is modelled.
- Favorite/cart POST of the `foodgram` tree is not modelled. `foodgram/cooking/serializers.py` does not define the `FavoriteSerializer` and `ShoppingCartSerializer` its views name, so its duplicate check cannot be read. Likewise `foodgram/cooking/models.py` defines no `Favorite` or `ShoppingCart`, although `foodgram/cooking/views.py` imports them.
- FoodgramCookingViews.FavoriteCartDelete: takes `serializer_class.Meta.model` (`foodgram/cooking/views.py` line 127) to be the favorite or cart relation of (user, recipe) rows. The serializers and models that would fix this are the undefined ones above.
- `FollowersSerializer.get_avatar` (`foodgram/api/serializers/account.py` 122-126) is not modelled. Which user model it reads, one with an avatar field or one with an avatar row, is decided by code outside this model.
- The main tree's user and follow serializers module is not part of this model. Its views are modelled against `foodgram/api/serializers/account.py`, which defines the same classes.
- FoodgramCookingViews.FullLinkView: is modelled as written, although no URL conf routes it. `foodgram/foodgram/urls.py` sends `s/<code>/` to `api.views.cooking.RecipeGetFullLinkView`; that module of the `foodgram` tree is not part of this model.
- Admin screens, management commands, URL routing, pagination and image handling (`Base64ImageField`) are left out. The short-code route appears only as `FoodgramShortener.IsShortCode`.
- Input parsing failures are left out. `recipes_limit` is `Option<nat>`, so non-numeric and negative limits do not occur.
- Concurrency (races on the shared shortener mapping and on check-then-insert) is left out.
- Text.Lower: folds case for Latin and Cyrillic letters only, not the full Unicode case mapping the database and `str.lower` apply. `AccountSerializers.NormalizeEmail` uses it for the domain.
- The length bounds of tags and ingredients are not modelled. No operation of the core writes either table.
- CookingSerializers.CreateKeepsStoreValid: asks for positive amounts, a positive cooking time and a bounded name. The same holds for UpdateKeepsStoreValid on the fields present. These come from field validators outside `validate`, which are not modelled as checks.
- CookingSerializers.Create: requires every plain field in the payload. On a POST, field validation refuses a payload that lacks one before `create` runs.
- AccountSerializers.Register: reports one message, where field validation answers with the errors of every failing field at once. The order among the field errors (invalid fields, taken username, taken email) is therefore the model's choice; the password validators, by contrast, run only once every field has passed, and that order is the serializer's. The email address format, the username character set, the configured password validators and Unicode NFKC normalisation are a parameter (`Delegates`), not spelled out.
- ApiAccountSerializers.Register: reports one message, as above. A taken email has no check of its own in this serializer. The unique column refuses the normalised address, and djoser turns that integrity error into the 400 answer "Unable to create account.".
- AccountSerializers.RegisterKeepsUsersValid: assumes the NFKC form of the username stays within 150 characters. NFKC can lengthen a name; a database that enforces column lengths then refuses the insert with an error djoser does not catch, which is not modelled.
- ApiAccountSerializers.RegisterKeepsUsersValid: assumes the NFKC form of the username stays within 150 characters, for the same reason as the line above.
- ApiAccountSerializers.RegisterAgreesWithFoodgramTree: holds on tables whose addresses are normalised, as every row `create_user` writes is. On a table holding `a@X.com` (written some other way), the `foodgram` tree refuses `a@X.com` by its exact-match check, while this tree stores `a@x.com`.
- The `strip()` in `normalize_email` is not modelled. The email field has already trimmed the address before it runs.
- FollowViews.Post: the requester is taken as authenticated. The view's default permission comes from project settings outside this model.

## Findings

| source | as written | input that shows it | evidently intended | confidence | as-written member | corrected member |
|---|---|---|---|---|---|---|
| backend/foodgram/api/serializers/account.py:32-45 | `validate_username` compares the name as given with `me`, and `create_user` then stores its NFKC form | the fullwidth name `ｍｅ`: it passes `validate_username` and the user is stored as `me` | refuse a name whose stored form is `me` | medium (not executed) | ApiAccountSerializers.FullwidthMeStoredAsMe | ApiAccountSerializers.IntendedNeverStoresMe |
| backend/foodgram/cooking/views.py:48-53 | the view answers 200 whenever the lookup is non-empty, and the not-found sentinel is non-empty | any code on a new shortener, e.g. `abc`: the answer is 200 with `full_url` = `URL не найден` | 404 for a code never handed out, as the main tree does by comparing with the sentinel. No URL conf of the `foodgram` tree routes this view: `foodgram/foodgram/urls.py` lines 10 and 15-18 bind `s/<code>/` to `api.views.cooking.RecipeGetFullLinkView`, and `foodgram/cooking/urls.py` line 18 routes only the short-link view, so the defect is in code no request reaches | medium (not executed) | FoodgramCookingViews.UnknownCodeAnswers200 | FoodgramCookingViews.IntendedNotFoundIffUnknown |
