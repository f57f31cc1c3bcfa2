/** Recipe writes of the main tree (`api/serializers/cooking.py`): the
    cross-field validation of a recipe payload, the ingredient rows written
    for it, recipe creation and update, and the duplicate check of the
    favorite and shopping-cart serializers.

    Recipes and ingredient rows live in a `Store`; primary keys are handed
    out as one more than the largest key in use. */
module CookingSerializers {
  import opened Common
  import opened Models
  import opened Relation

  /** One entry of the `ingredients` payload: an ingredient and its amount. */
  datatype IngredientItem = IngredientItem(ingredient: nat, amount: int)

  /** A recipe payload after field validation; a field that is absent from
      the payload is `None`. On a create or a full update field validation
      has already refused a payload that lacks a plain field; a partial
      update (`PATCH`) may leave any of them out. */
  datatype RecipeData = RecipeData(
    ingredients: Option<seq<IngredientItem>>, tags: Option<seq<nat>>,
    name: Option<string>, text: Option<string>, image: Option<string>, cookingTime: Option<int>)

  /** Every plain field is in the payload, as field validation ensures on
      a create. */
  predicate Complete(data: RecipeData) {
    data.name.Some? && data.text.Some? && data.image.Some? && data.cookingTime.Some?
  }

  /** The model-field validators on the fields present: the name's
      `max_length` and the cooking time's minimum. */
  predicate FieldsInBounds(data: RecipeData) {
    && (data.name.Some? ==> |data.name.value| <= RecipeNameMax)
    && (data.cookingTime.Some? ==> data.cookingTime.value >= MinCookingTime)
  }

  /** The four rejections of `RecipeSerializer.validate`, in the order it
      tries them. */
  datatype RecipeError = EmptyIngredients | DuplicateIngredients | EmptyTags | DuplicateTags

  /** `[item['ingredient'] for item in ingredients]`. */
  function IngredientIds(items: seq<IngredientItem>): (r: seq<nat>)
    ensures |r| == |items|
    ensures forall i :: 0 <= i < |items| ==> r[i] == items[i].ingredient
  {
    if items == [] then [] else [items[0].ingredient] + IngredientIds(items[1..])
  }

  /** `data.get(key, [])`. */
  function OrEmpty<T>(o: Option<seq<T>>): seq<T> {
    match o
    case None => []
    case Some(s) => s
  }

  /** The duplicate test of `validate`: `len(s) != len(set(s))`. */
  predicate HasDuplicates(s: seq<nat>) {
    |ToSet(s)| != |s|
  }

  /** The ingredient part of a payload that `validate` accepts. */
  predicate GoodIngredients(data: RecipeData) {
    OrEmpty(data.ingredients) != [] && Distinct(IngredientIds(OrEmpty(data.ingredients)))
  }

  /** The tag part of a payload that `validate` accepts. */
  predicate GoodTags(data: RecipeData) {
    OrEmpty(data.tags) != [] && Distinct(OrEmpty(data.tags))
  }

  /** `RecipeSerializer.validate`: accepts exactly the payloads with a
      non-empty list of pairwise different ingredients and a non-empty list
      of pairwise different tags, and returns them unchanged; otherwise it
      reports the first failing check in the order ingredients-empty,
      ingredients-duplicate, tags-empty, tags-duplicate. */
  function Validate(data: RecipeData): (r: Result<RecipeData, RecipeError>)
    ensures r.Success? <==> GoodIngredients(data) && GoodTags(data)
    ensures r.Success? ==> r.value == data
    ensures r == Failure(EmptyIngredients) <==> OrEmpty(data.ingredients) == []
    ensures r == Failure(DuplicateIngredients) <==>
      OrEmpty(data.ingredients) != [] && !Distinct(IngredientIds(OrEmpty(data.ingredients)))
    ensures r == Failure(EmptyTags) <==> GoodIngredients(data) && OrEmpty(data.tags) == []
    ensures r == Failure(DuplicateTags) <==>
      GoodIngredients(data) && OrEmpty(data.tags) != [] && !Distinct(OrEmpty(data.tags))
  {
    var ingredients := OrEmpty(data.ingredients);
    var tags := OrEmpty(data.tags);
    DistinctIffSameCardinality(IngredientIds(ingredients));
    DistinctIffSameCardinality(tags);
    if ingredients == [] then Failure(EmptyIngredients)
    else if HasDuplicates(IngredientIds(ingredients)) then Failure(DuplicateIngredients)
    else if tags == [] then Failure(EmptyTags)
    else if HasDuplicates(tags) then Failure(DuplicateTags)
    else Success(data)
  }

  /** Every amount respects the `MinValueValidator(1)` of the amount field,
      which field validation enforces before `validate` runs. */
  predicate AmountsValid(items: seq<IngredientItem>) {
    forall i :: 0 <= i < |items| ==> items[i].amount >= MinAmount
  }

  /** `create_ingredients`: one row per payload item, in payload order, each
      with the item's ingredient and amount. */
  function CreateIngredients(recipe: nat, items: seq<IngredientItem>): (r: seq<RecipeIngredient>)
    ensures |r| == |items|
    ensures forall i :: 0 <= i < |items| ==>
      r[i].recipe == recipe && r[i].ingredient == items[i].ingredient && r[i].amount == items[i].amount
  {
    if items == [] then []
    else [RecipeIngredient(recipe, items[0].ingredient, items[0].amount)] + CreateIngredients(recipe, items[1..])
  }

  /** Rows written for a validated payload keep the model's constraints: the
      amounts are at least one and the ingredients, being pairwise
      different, give pairwise different (recipe, ingredient) pairs. */
  lemma CreatedRowsValid(recipe: nat, items: seq<IngredientItem>)
    requires AmountsValid(items) && Distinct(IngredientIds(items))
    ensures ValidRecipeIngredients(CreateIngredients(recipe, items))
  {
    var r := CreateIngredients(recipe, items);
    forall i, j | 0 <= i < j < |r|
      ensures (r[i].recipe, r[i].ingredient) != (r[j].recipe, r[j].ingredient)
    {
      assert IngredientIds(items)[i] != IngredientIds(items)[j];
    }
  }

  /** The recipes and ingredient rows of the database. */
  datatype Store = Store(recipes: seq<Recipe>, rows: seq<RecipeIngredient>)

  /** The constraints the database keeps: valid recipes with unique keys,
      valid ingredient rows, and every row pointing at an existing recipe
      (the row's foreign key). */
  predicate ValidStore(s: Store) {
    && ValidRecipes(s.recipes)
    && ValidRecipeIngredients(s.rows)
    && (forall i :: 0 <= i < |s.rows| ==> RecipeExists(s.recipes, s.rows[i].recipe))
  }

  /** The primary key the next insert receives: above every key in use. */
  function NextId(recipes: seq<Recipe>): (r: nat)
    ensures forall i :: 0 <= i < |recipes| ==> recipes[i].id < r
    ensures !RecipeExists(recipes, r)
  {
    if recipes == [] then 1
    else
      var rest := NextId(recipes[1..]);
      assert forall i :: 1 <= i < |recipes| ==> recipes[i] == recipes[1..][i - 1];
      if recipes[0].id < rest then rest else recipes[0].id + 1
  }

  /** `RecipeIngredient.objects.filter(recipe=id)`, in table order. */
  function RowsOf(rows: seq<RecipeIngredient>, id: nat): (r: seq<RecipeIngredient>)
    ensures forall x :: x in r <==> x in rows && x.recipe == id
  {
    if rows == [] then []
    else (if rows[0].recipe == id then [rows[0]] else []) + RowsOf(rows[1..], id)
  }

  /** The rows left after `RecipeIngredient.objects.filter(recipe=id).delete()`. */
  function WithoutRecipe(rows: seq<RecipeIngredient>, id: nat): (r: seq<RecipeIngredient>)
    ensures forall x :: x in r <==> x in rows && x.recipe != id
    ensures forall i :: 0 <= i < |r| ==> r[i].recipe != id
  {
    if rows == [] then []
    else (if rows[0].recipe == id then [] else [rows[0]]) + WithoutRecipe(rows[1..], id)
  }

  lemma {:induction false} RowsOfAppend(a: seq<RecipeIngredient>, b: seq<RecipeIngredient>, id: nat)
    ensures RowsOf(a + b, id) == RowsOf(a, id) + RowsOf(b, id)
  {
    if a == [] {
      assert a + b == b;
    } else {
      assert (a + b)[1..] == a[1..] + b;
      RowsOfAppend(a[1..], b, id);
    }
  }

  /** A recipe no row points at has no rows. */
  lemma {:induction false} RowsOfAbsent(rows: seq<RecipeIngredient>, id: nat)
    requires forall i :: 0 <= i < |rows| ==> rows[i].recipe != id
    ensures RowsOf(rows, id) == []
  {
    if rows != [] {
      RowsOfAbsent(rows[1..], id);
    }
  }

  /** The rows written for `id` are all of `id`'s rows. */
  lemma {:induction false} RowsOfCreated(recipe: nat, items: seq<IngredientItem>, id: nat)
    ensures RowsOf(CreateIngredients(recipe, items), id) == if id == recipe then CreateIngredients(recipe, items) else []
  {
    if items != [] {
      RowsOfCreated(recipe, items[1..], id);
    }
  }

  /** Deleting the rows of one recipe leaves the rows of every other recipe
      as they were and those of that recipe gone. */
  lemma {:induction false} RowsOfWithout(rows: seq<RecipeIngredient>, id: nat, other: nat)
    ensures RowsOf(WithoutRecipe(rows, id), other) == if other == id then [] else RowsOf(rows, other)
  {
    if rows != [] {
      RowsOfWithout(rows[1..], id, other);
      var head := if rows[0].recipe == id then [] else [rows[0]];
      RowsOfAppend(head, WithoutRecipe(rows[1..], id), other);
    }
  }

  /** Two valid row tables, one with no row of `id` and one with rows of
      `id` only, join into a valid table. */
  lemma JoinValidRows(a: seq<RecipeIngredient>, b: seq<RecipeIngredient>, id: nat)
    requires ValidRecipeIngredients(a) && ValidRecipeIngredients(b)
    requires forall i :: 0 <= i < |a| ==> a[i].recipe != id
    requires forall j :: 0 <= j < |b| ==> b[j].recipe == id
    ensures ValidRecipeIngredients(a + b)
  {
    var c := a + b;
    forall i, j | 0 <= i < j < |c|
      ensures (c[i].recipe, c[i].ingredient) != (c[j].recipe, c[j].ingredient)
    {
      if i < |a| && j >= |a| {
        assert c[i] == a[i] && c[j] == b[j - |a|];
      }
    }
  }

  /** `RecipeSerializer.create`: a new recipe by `author` with a fresh key,
      the payload's fields, its tags set to the payload's tags, and one new
      ingredient row per payload item; the rows of every other recipe are
      untouched. */
  function Create(s: Store, author: nat, data: RecipeData): (r: (Recipe, Store))
    requires Validate(data).Success? && Complete(data)
    ensures !RecipeExists(s.recipes, r.0.id)
    ensures r.1.recipes == s.recipes + [r.0]
    ensures r.0.author == author && r.0.tags == ToSet(data.tags.value)
    ensures r.0.name == data.name.value && r.0.text == data.text.value
    ensures r.0.image == data.image.value && r.0.cookingTime == data.cookingTime.value
    ensures RowsOf(r.1.rows, r.0.id) == RowsOf(s.rows, r.0.id) + CreateIngredients(r.0.id, data.ingredients.value)
    ensures forall other :: other != r.0.id ==> RowsOf(r.1.rows, other) == RowsOf(s.rows, other)
  {
    var id := NextId(s.recipes);
    var recipe := Recipe(
      id, author, data.name.value, data.text.value, data.image.value, data.cookingTime.value, ToSet(data.tags.value));
    var created := CreateIngredients(id, data.ingredients.value);
    RowsOfAppend(s.rows, created, id);
    RowsOfCreated(id, data.ingredients.value, id);
    assert forall other :: other != id ==> RowsOf(s.rows + created, other) == RowsOf(s.rows, other) by {
      forall other | other != id ensures RowsOf(s.rows + created, other) == RowsOf(s.rows, other) {
        RowsOfAppend(s.rows, created, other);
        RowsOfCreated(id, data.ingredients.value, other);
      }
    }
    (recipe, Store(s.recipes + [recipe], s.rows + created))
  }

  /** In a consistent store no row points at the fresh key, so the new
      recipe's rows are exactly the payload's, and creation keeps every
      constraint when the payload's fields are valid. */
  lemma CreateKeepsStoreValid(s: Store, author: nat, data: RecipeData)
    requires ValidStore(s) && Validate(data).Success? && Complete(data)
    requires AmountsValid(data.ingredients.value) && FieldsInBounds(data)
    ensures var (recipe, s1) := Create(s, author, data);
      && RowsOf(s1.rows, recipe.id) == CreateIngredients(recipe.id, data.ingredients.value)
      && ValidStore(s1)
  {
    var (recipe, s1) := Create(s, author, data);
    var id := recipe.id;
    assert forall i :: 0 <= i < |s.rows| ==> s.rows[i].recipe != id;
    RowsOfAbsent(s.rows, id);
    CreatedRowsValid(id, data.ingredients.value);
    JoinValidRows(s.rows, CreateIngredients(id, data.ingredients.value), id);
    AppendRecipeKeepsValid(s.recipes, recipe);
    forall i | 0 <= i < |s1.rows| ensures RecipeExists(s1.recipes, s1.rows[i].recipe) {
      if i < |s.rows| {
        assert s1.rows[i] == s.rows[i];
        ExistsAfterAppend(s.recipes, recipe, s.rows[i].recipe);
      } else {
        assert s1.recipes[|s.recipes|].id == id;
      }
    }
  }

  /** A valid recipe with a key not in use keeps the recipe table valid. */
  lemma AppendRecipeKeepsValid(recipes: seq<Recipe>, r: Recipe)
    requires ValidRecipes(recipes) && ValidRecipe(r) && !RecipeExists(recipes, r.id)
    ensures ValidRecipes(recipes + [r])
  {
    var c := recipes + [r];
    forall i | 0 <= i < |c| ensures ValidRecipe(c[i]) {
      if i < |recipes| { assert c[i] == recipes[i]; }
    }
    forall i, j | 0 <= i < j < |c| ensures c[i].id != c[j].id {
      assert c[i] == recipes[i];
      if j < |recipes| { assert c[j] == recipes[j]; }
    }
  }

  lemma ExistsAfterAppend(recipes: seq<Recipe>, r: Recipe, id: nat)
    requires RecipeExists(recipes, id)
    ensures RecipeExists(recipes + [r], id)
  {
    var k :| 0 <= k < |recipes| && recipes[k].id == id;
    assert (recipes + [r])[k] == recipes[k];
  }

  /** The value `super().update` leaves in a plain field: the payload's
      when the field is in it, the stored one otherwise. */
  function OrKept<T>(given: Option<T>, stored: T): T {
    if given.Some? then given.value else stored
  }

  /** The recipe `id` as `update` leaves it: tags replaced, each plain field
      taken from the payload when present and kept otherwise, key and author
      kept. */
  function Updated(before: Recipe, data: RecipeData): (r: Recipe)
    requires Validate(data).Success?
    ensures r.id == before.id && r.author == before.author
    ensures r.tags == ToSet(data.tags.value)
    ensures data.name.Some? ==> r.name == data.name.value
    ensures data.name.None? ==> r.name == before.name
    ensures data.text.Some? ==> r.text == data.text.value
    ensures data.text.None? ==> r.text == before.text
    ensures data.image.Some? ==> r.image == data.image.value
    ensures data.image.None? ==> r.image == before.image
    ensures data.cookingTime.Some? ==> r.cookingTime == data.cookingTime.value
    ensures data.cookingTime.None? ==> r.cookingTime == before.cookingTime
  {
    before.(name := OrKept(data.name, before.name), text := OrKept(data.text, before.text),
         image := OrKept(data.image, before.image),
         cookingTime := OrKept(data.cookingTime, before.cookingTime), tags := ToSet(data.tags.value))
  }

  /** A full update leaves the recipe as a create from the same payload
      would build it, under the old key and author. */
  lemma FullUpdateMatchesCreate(s: Store, before: Recipe, data: RecipeData)
    requires Validate(data).Success? && Complete(data)
    ensures Updated(before, data) == Create(s, before.author, data).0.(id := before.id)
  {
  }

  /** A partial update that carries no plain field changes only the tags. */
  lemma TagsOnlyPatch(before: Recipe, data: RecipeData)
    requires Validate(data).Success?
    requires data.name.None? && data.text.None? && data.image.None? && data.cookingTime.None?
    ensures Updated(before, data) == before.(tags := ToSet(data.tags.value))
  {
  }

  /** Deleting the rows of `id` and writing new ones for it replaces `id`'s
      rows by the new ones and leaves every other recipe's rows alone. */
  lemma ReplacedRows(rows: seq<RecipeIngredient>, id: nat, items: seq<IngredientItem>, other: nat)
    ensures RowsOf(WithoutRecipe(rows, id) + CreateIngredients(id, items), other)
      == if other == id then CreateIngredients(id, items) else RowsOf(rows, other)
  {
    RowsOfAppend(WithoutRecipe(rows, id), CreateIngredients(id, items), other);
    RowsOfWithout(rows, id, other);
    RowsOfCreated(id, items, other);
  }

  /** `ReplacedRows` for every other recipe at once. */
  lemma ReplacedRowsOthers(rows: seq<RecipeIngredient>, id: nat, items: seq<IngredientItem>)
    ensures forall other :: other != id ==>
      RowsOf(WithoutRecipe(rows, id) + CreateIngredients(id, items), other) == RowsOf(rows, other)
  {
    forall other | other != id
      ensures RowsOf(WithoutRecipe(rows, id) + CreateIngredients(id, items), other) == RowsOf(rows, other)
    {
      ReplacedRows(rows, id, items, other);
    }
  }

  /** The recipe table with recipe `id` updated from the payload and every
      other recipe as it was. */
  function ReplaceRecipe(recipes: seq<Recipe>, id: nat, data: RecipeData): (r: seq<Recipe>)
    requires Validate(data).Success?
    ensures |r| == |recipes|
    ensures forall i :: 0 <= i < |recipes| ==>
      r[i] == if recipes[i].id == id then Updated(recipes[i], data) else recipes[i]
  {
    if recipes == [] then []
    else
      var head := if recipes[0].id == id then Updated(recipes[0], data) else recipes[0];
      [head] + ReplaceRecipe(recipes[1..], id, data)
  }

  /** `RecipeSerializer.update`: the recipe's old ingredient rows are
      deleted and one row per payload item written, its tags become exactly
      the payload's tags; no other recipe and no other recipe's rows
      change. */
  function Update(s: Store, id: nat, data: RecipeData): (r: Store)
    requires Validate(data).Success?
    requires RecipeExists(s.recipes, id)
    ensures RowsOf(r.rows, id) == CreateIngredients(id, data.ingredients.value)
    ensures forall other :: other != id ==> RowsOf(r.rows, other) == RowsOf(s.rows, other)
    ensures |r.recipes| == |s.recipes|
    ensures forall i :: 0 <= i < |s.recipes| && s.recipes[i].id != id ==> r.recipes[i] == s.recipes[i]
    ensures forall i :: 0 <= i < |s.recipes| && s.recipes[i].id == id ==>
      r.recipes[i] == Updated(s.recipes[i], data)
  {
    ReplacedRows(s.rows, id, data.ingredients.value, id);
    ReplacedRowsOthers(s.rows, id, data.ingredients.value);
    Store(ReplaceRecipe(s.recipes, id, data), WithoutRecipe(s.rows, id) + CreateIngredients(id, data.ingredients.value))
  }

  /** Replacing a recipe keeps every key where it was. */
  lemma ReplaceRecipeKeepsKeys(recipes: seq<Recipe>, id: nat, data: RecipeData)
    requires Validate(data).Success?
    ensures forall i :: 0 <= i < |recipes| ==> ReplaceRecipe(recipes, id, data)[i].id == recipes[i].id
    ensures forall key :: RecipeExists(recipes, key) ==> RecipeExists(ReplaceRecipe(recipes, id, data), key)
  {
    var r := ReplaceRecipe(recipes, id, data);
    forall i | 0 <= i < |recipes| ensures r[i].id == recipes[i].id {
      if recipes[i].id == id {
        assert r[i] == Updated(recipes[i], data);
      }
    }
  }

  /** Replacing a recipe with field values in bounds keeps the recipe
      table valid. */
  lemma ReplaceRecipeValid(recipes: seq<Recipe>, id: nat, data: RecipeData)
    requires Validate(data).Success? && ValidRecipes(recipes) && FieldsInBounds(data)
    ensures ValidRecipes(ReplaceRecipe(recipes, id, data))
  {
    var r := ReplaceRecipe(recipes, id, data);
    ReplaceRecipeKeepsKeys(recipes, id, data);
    forall i | 0 <= i < |r| ensures ValidRecipe(r[i]) {
      assert ValidRecipe(recipes[i]);
      if recipes[i].id == id {
        assert r[i] == Updated(recipes[i], data);
      }
    }
  }

  /** The rows left after an update are valid and point at recipes that
      existed before it. */
  lemma UpdatedRowsValid(s: Store, id: nat, items: seq<IngredientItem>)
    requires ValidStore(s) && RecipeExists(s.recipes, id)
    requires AmountsValid(items) && Distinct(IngredientIds(items))
    ensures var rows := WithoutRecipe(s.rows, id) + CreateIngredients(id, items);
      && ValidRecipeIngredients(rows)
      && forall i :: 0 <= i < |rows| ==> RecipeExists(s.recipes, rows[i].recipe)
  {
    var kept := WithoutRecipe(s.rows, id);
    var created := CreateIngredients(id, items);
    var rows := kept + created;
    WithoutRecipeValid(s.rows, id);
    CreatedRowsValid(id, items);
    JoinValidRows(kept, created, id);
    forall i | 0 <= i < |rows| ensures RecipeExists(s.recipes, rows[i].recipe) {
      if i < |kept| {
        assert rows[i] == kept[i];
        assert kept[i] in s.rows;
      } else {
        assert rows[i] == created[i - |kept|];
      }
    }
  }

  /** Update keeps every constraint when the payload's fields are valid:
      the old rows of the recipe are gone before the new, pairwise
      different, ones are written. */
  lemma UpdateKeepsStoreValid(s: Store, id: nat, data: RecipeData)
    requires ValidStore(s) && Validate(data).Success? && RecipeExists(s.recipes, id)
    requires AmountsValid(data.ingredients.value) && FieldsInBounds(data)
    ensures ValidStore(Update(s, id, data))
  {
    var recipes := ReplaceRecipe(s.recipes, id, data);
    var rows := WithoutRecipe(s.rows, id) + CreateIngredients(id, data.ingredients.value);
    assert Update(s, id, data) == Store(recipes, rows);
    UpdatedRowsValid(s, id, data.ingredients.value);
    ReplaceRecipeValid(s.recipes, id, data);
    ReplaceRecipeKeepsKeys(s.recipes, id, data);
  }

  /** A row in front of a valid table keeps it valid when its amount is
      valid and its pair is not in the table. */
  lemma ConsValidRows(x: RecipeIngredient, rest: seq<RecipeIngredient>)
    requires x.amount >= MinAmount && ValidRecipeIngredients(rest)
    requires forall k :: 0 <= k < |rest| ==> (x.recipe, x.ingredient) != (rest[k].recipe, rest[k].ingredient)
    ensures ValidRecipeIngredients([x] + rest)
  {
    var c := [x] + rest;
    forall i, j | 0 <= i < j < |c|
      ensures (c[i].recipe, c[i].ingredient) != (c[j].recipe, c[j].ingredient)
    {
      assert c[j] == rest[j - 1];
      if i > 0 { assert c[i] == rest[i - 1]; }
    }
  }

  /** Deleting the rows of one recipe keeps the table valid. */
  lemma {:induction false} WithoutRecipeValid(rows: seq<RecipeIngredient>, id: nat)
    requires ValidRecipeIngredients(rows)
    ensures ValidRecipeIngredients(WithoutRecipe(rows, id))
  {
    if rows != [] {
      var tail := rows[1..];
      assert ValidRecipeIngredients(tail) by {
        forall a, b | 0 <= a < b < |tail|
          ensures (tail[a].recipe, tail[a].ingredient) != (tail[b].recipe, tail[b].ingredient)
        {
          assert tail[a] == rows[a + 1] && tail[b] == rows[b + 1];
        }
      }
      WithoutRecipeValid(tail, id);
      var rest := WithoutRecipe(tail, id);
      if rows[0].recipe != id {
        forall k | 0 <= k < |rest|
          ensures (rows[0].recipe, rows[0].ingredient) != (rest[k].recipe, rest[k].ingredient)
        {
          assert rest[k] in tail;
          var m :| 0 <= m < |tail| && tail[m] == rest[k];
          assert rows[m + 1] == rest[k];
        }
        ConsValidRows(rows[0], rest);
      } else {
        assert WithoutRecipe(rows, id) == rest;
      }
    }
  }

  /** Message of the favorite and cart duplicate check. */
  const AlreadyAdded: string := "Этот рецепт уже добавлен."

  /** `BaseRecipeActionSerializer.validate`: a (user, recipe) pair is
      accepted, unchanged, exactly when the table does not hold it yet. */
  function ValidateAction(t: Table, l: Link): (r: Result<Link, string>)
    ensures r.Success? <==> !Has(t, l)
    ensures r.Success? ==> r.value == l
    ensures r.Failure? ==> r.error == AlreadyAdded
  {
    if l in t then Failure(AlreadyAdded) else Success(l)
  }

  /** Saving what the action serializer accepted keeps the table's unique
      constraint. */
  lemma ValidatedSaveKeepsUnique(t: Table, l: Link)
    requires Unique(t) && ValidateAction(t, l).Success?
    ensures Unique(t + [ValidateAction(t, l).value])
  {
    InsertKeepsUnique(t, l);
  }
}
