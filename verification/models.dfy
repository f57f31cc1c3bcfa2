/** The stored entities of both code trees and the constraints their model
    declarations put on them (field lengths, minimum values, unique
    constraints), written as predicates the operations must keep. */
module Models {
  import opened Common

  const RecipeNameMax: nat := 256
  const MinAmount: int := 1
  const MinCookingTime: int := 1
  /** `LENGTH_EMAIL`. */
  const EmailMax: nat := 254
  const PersonNameMax: nat := 150
  /** `AbstractUser.username`'s `max_length`. */
  const UsernameMax: nat := 150

  datatype Tag = Tag(id: nat, name: string, slug: string)

  datatype Ingredient = Ingredient(id: nat, name: string, measurementUnit: string)

  /** A recipe; `tags` is its many-to-many tag relation. */
  datatype Recipe = Recipe(
    id: nat, author: nat, name: string, text: string, image: string,
    cookingTime: int, tags: set<nat>)

  /** One ingredient line of a recipe, with its amount. */
  datatype RecipeIngredient = RecipeIngredient(recipe: nat, ingredient: nat, amount: int)

  /** A user; `avatar` is the stored file name of the main tree's avatar
      field, empty when there is no file. */
  datatype User = User(
    id: nat, username: string, email: string, firstName: string, lastName: string,
    avatar: string, password: Option<string>, isStaff: bool)

  /** The `foodgram` tree keeps avatars in a table of their own, one-to-one
      with users; `image` is the file name, empty when there is none. */
  datatype Avatar = Avatar(user: nat, image: string)

  predicate ValidRecipe(r: Recipe) {
    |r.name| <= RecipeNameMax && r.cookingTime >= MinCookingTime
  }

  /** Recipe primary keys are unique and every recipe respects its fields. */
  predicate ValidRecipes(recipes: seq<Recipe>) {
    && (forall i :: 0 <= i < |recipes| ==> ValidRecipe(recipes[i]))
    && (forall i, j :: 0 <= i < j < |recipes| ==> recipes[i].id != recipes[j].id)
  }

  /** Every amount is at least one and no (recipe, ingredient) pair occurs
      twice. */
  predicate ValidRecipeIngredients(rows: seq<RecipeIngredient>) {
    && (forall i :: 0 <= i < |rows| ==> rows[i].amount >= MinAmount)
    && (forall i, j :: 0 <= i < j < |rows| ==>
          (rows[i].recipe, rows[i].ingredient) != (rows[j].recipe, rows[j].ingredient))
  }

  predicate ValidUser(u: User) {
    && |u.username| <= UsernameMax
    && |u.email| <= EmailMax
    && |u.firstName| <= PersonNameMax
    && |u.lastName| <= PersonNameMax
  }

  /** Users are keyed by primary key, respect their field lengths, and no
      two of them share a username (`AbstractUser.username` is unique) or
      an email. */
  predicate ValidUsers(users: map<nat, User>) {
    && (forall id :: id in users ==> users[id].id == id && ValidUser(users[id]))
    && UniqueUsernames(users)
    && UniqueEmails(users)
  }

  predicate UniqueUsernames(users: map<nat, User>) {
    forall a, b :: a in users && b in users && users[a].username == users[b].username ==> a == b
  }

  predicate UniqueEmails(users: map<nat, User>) {
    forall a, b :: a in users && b in users && users[a].email == users[b].email ==> a == b
  }

  /** The `unique_user` constraint on (username, email). */
  predicate UniqueUsernameEmail(users: map<nat, User>) {
    forall a, b ::
      (a in users && b in users && users[a].username == users[b].username
        && users[a].email == users[b].email) ==> a == b
  }

  /** The unique email already rules out two users with the same
      (username, email) pair: the composite constraint never fires on its own. */
  lemma UniqueEmailImpliesUniqueUser(users: map<nat, User>)
    requires UniqueEmails(users)
    ensures UniqueUsernameEmail(users)
  {
  }

  /** `avatar.url if avatar else None`: a file field is false when it holds
      no file name, and its `url` is what the storage's `url` gives for the
      name; that function (the media URL in front of the quoted name) is the
      parameter `storageUrl`. */
  function FileUrl(storageUrl: string -> string, file: string): (r: Option<string>)
    ensures r.None? <==> file == ""
    ensures r.Some? ==> r.value == storageUrl(file)
  {
    if file != "" then Some(storageUrl(file)) else None
  }

  /** `User.get_photo_url` of the main tree. */
  function UserPhotoUrl(storageUrl: string -> string, u: User): (r: Option<string>)
    ensures r.None? <==> u.avatar == ""
    ensures r.Some? ==> r.value == storageUrl(u.avatar)
  {
    FileUrl(storageUrl, u.avatar)
  }

  /** `Avatar.get_photo_url` of the `foodgram` tree. */
  function AvatarPhotoUrl(storageUrl: string -> string, a: Avatar): (r: Option<string>)
    ensures r.None? <==> a.image == ""
    ensures r.Some? ==> r.value == storageUrl(a.image)
  {
    FileUrl(storageUrl, a.image)
  }

  /** The two trees give the same photo URL for the same file, whether the
      user row or a separate avatar row holds it. */
  lemma PhotoUrlsAgree(storageUrl: string -> string, u: User, a: Avatar)
    requires u.avatar == a.image
    ensures UserPhotoUrl(storageUrl, u) == AvatarPhotoUrl(storageUrl, a)
  {
  }

  /** The recipes `author` wrote, in table order. */
  function AuthoredBy(recipes: seq<Recipe>, author: nat): (r: seq<Recipe>)
    ensures forall x :: x in r <==> x in recipes && x.author == author
  {
    Filter((x: Recipe) => x.author == author, recipes)
  }

  /** `Recipe.objects.filter(author=author).count()`. */
  function RecipesCount(recipes: seq<Recipe>, author: nat): nat {
    |AuthoredBy(recipes, author)|
  }

  /** `Recipe.objects.filter(pk=id).exists()`. */
  predicate RecipeExists(recipes: seq<Recipe>, id: nat) {
    exists i :: 0 <= i < |recipes| && recipes[i].id == id
  }
}
