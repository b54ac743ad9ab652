/** backend/api/utils.py: the favourite/cart toggle shared by two views, and
    the part of recipe creation and update that sets the tags and inserts the
    join rows.

    Each handler is a method over the Store object; its effect on the tables
    and its outcome are given by a function over the Db snapshot (the
    ...Effect functions), about which the lemmas below state what the source
    promises. */
module Utils {
  import opened Outcomes
  import opened Seqs
  import opened UserModels
  import opened RecipeModels
  import opened Store

  /** The HTTP methods the favourite and cart routes accept. */
  datatype Verb = Post | Delete

  // ---------------------------------------------------------------------
  // add_del_recipesview

  /** What add_del_recipesview does to the tables and what it answers.
      bodyValid is the verdict of the serializer's field validation of the
      request body, which the model does not look into. */
  function AddDelEffect(db: Db, user: UserId, recipeId: RecipeId, kind: Association, verb: Verb, bodyValid: bool)
    : Step<Option<Minified>>
  {
    match FindRecipe(db.recipes, recipeId)
    case None => Step(db, Fail(NotFound))
    case Some(recipe) =>
      var pair := (user, recipeId);
      var pairs := db.Pairs(kind);
      if verb == Post then
        if !bodyValid then Step(db, Fail(ValidationError(InvalidBody)))
        else if pair in pairs then Step(db, Fail(UniqueViolation))
        else Step(db.WithPairs(kind, pairs + {pair}), Ok(Some(Minify(recipe))))
      else if pair !in pairs then Step(db, Fail(NotFound))
      else Step(db.WithPairs(kind, pairs - {pair}), Ok(None))
  }

  /** An unknown recipe is reported before anything changes. */
  lemma AddDelUnknownRecipe(db: Db, user: UserId, recipeId: RecipeId, kind: Association, verb: Verb, bodyValid: bool)
    requires forall i :: 0 <= i < |db.recipes| ==> db.recipes[i].id != recipeId
    ensures AddDelEffect(db, user, recipeId, kind, verb, bodyValid) == Step(db, Fail(NotFound))
  {
  }

  /** A successful POST adds exactly the pair (user, recipe) to the chosen
      table, leaves every other table as it was, and answers with the recipe's
      compact projection. */
  lemma AddDelPostAddsOnePair(db: Db, user: UserId, recipeId: RecipeId, kind: Association)
    requires FindRecipe(db.recipes, recipeId).Some?
    requires (user, recipeId) !in db.Pairs(kind)
    ensures var step := AddDelEffect(db, user, recipeId, kind, Post, true);
      && step.out == Ok(Some(Minify(FindRecipe(db.recipes, recipeId).value)))
      && step.db.Pairs(kind) == db.Pairs(kind) + {(user, recipeId)}
      && |step.db.Pairs(kind)| == |db.Pairs(kind)| + 1
      && step.db == db.WithPairs(kind, step.db.Pairs(kind))
  {
  }

  /** POSTing a pair already stored hits the table's unique_together
      constraint, which the code does not catch; nothing changes. */
  lemma AddDelPostTwice(db: Db, user: UserId, recipeId: RecipeId, kind: Association)
    requires FindRecipe(db.recipes, recipeId).Some?
    ensures var first := AddDelEffect(db, user, recipeId, kind, Post, true);
      first.out.Ok? ==> AddDelEffect(first.db, user, recipeId, kind, Post, true) == Step(first.db, Fail(UniqueViolation))
  {
  }

  /** DELETE of an absent pair is not found; of a present one removes exactly it. */
  lemma AddDelDelete(db: Db, user: UserId, recipeId: RecipeId, kind: Association)
    requires FindRecipe(db.recipes, recipeId).Some?
    ensures var step := AddDelEffect(db, user, recipeId, kind, Delete, true);
      && ((user, recipeId) !in db.Pairs(kind) ==> step == Step(db, Fail(NotFound)))
      && ((user, recipeId) in db.Pairs(kind) ==>
            step.out == Ok(None) && step.db == db.WithPairs(kind, db.Pairs(kind) - {(user, recipeId)}))
  {
  }

  /** The toggle touches only the (user, recipe) tables, so it keeps every constraint. */
  lemma AddDelKeepsValid(db: Db, user: UserId, recipeId: RecipeId, kind: Association, verb: Verb, bodyValid: bool)
    requires db.Valid()
    ensures AddDelEffect(db, user, recipeId, kind, verb, bodyValid).db.Valid()
  {
  }

  method AddDelRecipe(s: Store, user: UserId, recipeId: RecipeId, kind: Association, verb: Verb, bodyValid: bool)
    returns (r: Outcome<Option<Minified>>)
    requires s.Valid()
    modifies s
    ensures s.Valid()
    ensures Step(s.State(), r) == AddDelEffect(old(s.State()), user, recipeId, kind, verb, bodyValid)
  {
    AddDelKeepsValid(s.State(), user, recipeId, kind, verb, bodyValid);
    var found := FindRecipe(s.recipes, recipeId);
    if found.None? {
      return Fail(NotFound);
    }
    var pair := (user, recipeId);
    var pairs := s.State().Pairs(kind);
    if verb == Post {
      if !bodyValid {
        return Fail(ValidationError(InvalidBody));
      }
      if pair in pairs {
        return Fail(UniqueViolation);
      }
      s.SetPairs(kind, pairs + {pair});
      return Ok(Some(Minify(found.value)));
    }
    if pair !in pairs {
      return Fail(NotFound);
    }
    s.SetPairs(kind, pairs - {pair});
    r := Ok(None);
  }

  // ---------------------------------------------------------------------
  // create_update_recipes

  /** A validated ingredient entry of the request: the ingredient's id and its amount. */
  datatype IngredientAmount = IngredientAmount(id: IngredientId, amount: nat)

  /** No two entries name the same ingredient. */
  predicate DistinctIds(items: seq<IngredientAmount>) {
    forall i, j :: 0 <= i < j < |items| ==> items[i].id != items[j].id
  }

  predicate Known(ingredients: seq<Ingredient>, id: IngredientId) {
    FindIngredient(ingredients, id).Some?
  }

  /** The join rows the bulk insert receives: one per entry, in order, with the
      entry's ingredient and amount; no rows at all when an entry names an
      ingredient that does not exist (Ingredient.objects.get raises). */
  function JoinRowsFor(ingredients: seq<Ingredient>, items: seq<IngredientAmount>, recipe: RecipeId)
    : (r: Option<seq<IngredientInRecipe>>)
    ensures r.Some? <==> forall i :: 0 <= i < |items| ==> Known(ingredients, items[i].id)
    ensures r.Some? ==> |r.value| == |items|
    ensures r.Some? ==> forall i :: 0 <= i < |items| ==>
              r.value[i] == IngredientInRecipe(items[i].id, recipe, items[i].amount)
  {
    if items == [] then Some([])
    else if !Known(ingredients, items[0].id) then None
    else
      match JoinRowsFor(ingredients, items[1..], recipe)
      case None => None
      case Some(rest) =>
        assert forall i :: 1 <= i < |items| ==> items[i] == items[1..][i - 1];
        Some([IngredientInRecipe(items[0].id, recipe, items[0].amount)] + rest)
  }

  /** Builds the list handed to bulk_create, looking up each ingredient in turn. */
  method BuildJoinRows(ingredients: seq<Ingredient>, items: seq<IngredientAmount>, recipe: RecipeId)
    returns (r: Option<seq<IngredientInRecipe>>)
    ensures r == JoinRowsFor(ingredients, items, recipe)
  {
    var rows: seq<IngredientInRecipe> := [];
    var i := 0;
    while i < |items|
      invariant 0 <= i <= |items|
      invariant |rows| == i
      invariant forall k :: 0 <= k < i ==> Known(ingredients, items[k].id)
      invariant forall k :: 0 <= k < i ==> rows[k] == IngredientInRecipe(items[k].id, recipe, items[k].amount)
    {
      var ingredient := FindIngredient(ingredients, items[i].id);
      if ingredient.None? {
        assert !Known(ingredients, items[i].id);
        assert JoinRowsFor(ingredients, items, recipe).None?;
        return None;
      }
      assert ingredient.value.id == items[i].id;
      rows := rows + [IngredientInRecipe(ingredient.value.id, recipe, items[i].amount)];
      i := i + 1;
    }
    assert JoinRowsFor(ingredients, items, recipe).Some?;
    assert JoinRowsFor(ingredients, items, recipe).value == rows;
    r := Some(rows);
  }

  /** The rows built for one recipe all belong to that recipe, and they
      satisfy the (ingredient, recipe) constraint exactly when the entries
      name distinct ingredients. */
  lemma JoinRowsForRecipe(ingredients: seq<Ingredient>, items: seq<IngredientAmount>, recipe: RecipeId)
    requires JoinRowsFor(ingredients, items, recipe).Some?
    ensures var rows := JoinRowsFor(ingredients, items, recipe).value;
      && RowsOf(rows, recipe) == rows
      && (UniqueJoinRows(rows) <==> DistinctIds(items))
  {
    var rows := JoinRowsFor(ingredients, items, recipe).value;
    FilterKeepsAll(rows, (row: IngredientInRecipe) => row.recipe == recipe);
  }

  /** Inserting rows of a recipe that has none keeps the (ingredient, recipe)
      constraint whenever the entries name distinct ingredients: the bulk
      insert after a successful validation never fails on it. */
  lemma {:induction false} FreshRowsKeepUnique(rows: seq<IngredientInRecipe>, ingredients: seq<Ingredient>,
                                               items: seq<IngredientAmount>, recipe: RecipeId)
    requires UniqueJoinRows(rows) && RowsOf(rows, recipe) == []
    requires DistinctIds(items)
    requires JoinRowsFor(ingredients, items, recipe).Some?
    ensures UniqueJoinRows(rows + JoinRowsFor(ingredients, items, recipe).value)
  {
    var added := JoinRowsFor(ingredients, items, recipe).value;
    JoinRowsForRecipe(ingredients, items, recipe);
    var all := rows + added;
    forall i, j | 0 <= i < j < |all|
      ensures all[i].ingredient != all[j].ingredient || all[i].recipe != all[j].recipe
    {
      if j < |rows| {
        assert all[i] == rows[i] && all[j] == rows[j];
      } else if i < |rows| {
        assert all[j] == added[j - |rows|];
        assert all[j].recipe == recipe;
        assert all[i] == rows[i];
      } else {
        assert all[i] == added[i - |rows|] && all[j] == added[j - |rows|];
      }
    }
  }

  /** Which recipe create_update_recipes works on: a new one for `author`
      (instance is None) or an existing one. */
  datatype Target = NewFor(author: UserId, fields: RecipeFields) | Existing(id: RecipeId)

  /** The table with the row of recipe `id` passed through `change`. */
  function MapRecipe(recipes: seq<Recipe>, id: RecipeId, change: Recipe -> Recipe): (r: seq<Recipe>)
    ensures |r| == |recipes|
    ensures forall i :: 0 <= i < |r| ==> r[i] == (if recipes[i].id == id then change(recipes[i]) else recipes[i])
  {
    seq(|recipes|, i requires 0 <= i < |recipes| => if recipes[i].id == id then change(recipes[i]) else recipes[i])
  }

  /** With unique ids and a change that keeps the id, every row keeps its id,
      the ids stay unique, looking up `id` finds the changed row, looking up
      any other id finds what it found before, and a table without `id` comes
      back unchanged. */
  lemma MapRecipeSpec(recipes: seq<Recipe>, id: RecipeId, change: Recipe -> Recipe, other: RecipeId)
    requires UniqueRecipeIds(recipes)
    requires forall i :: 0 <= i < |recipes| && recipes[i].id == id ==> change(recipes[i]).id == id
    ensures var r := MapRecipe(recipes, id, change);
      && (forall i :: 0 <= i < |r| ==> r[i].id == recipes[i].id)
      && UniqueRecipeIds(r)
      && FindRecipe(r, id) == (if FindRecipe(recipes, id).Some? then Some(change(FindRecipe(recipes, id).value)) else None)
      && (other != id ==> FindRecipe(r, other) == FindRecipe(recipes, other))
      && ((forall i :: 0 <= i < |recipes| ==> recipes[i].id != id) ==> r == recipes)
  {
    var r := MapRecipe(recipes, id, change);
    assert forall i :: 0 <= i < |r| ==> r[i].id == recipes[i].id;
    if FindRecipe(recipes, id).Some? {
      var k :| 0 <= k < |recipes| && recipes[k] == FindRecipe(recipes, id).value;
      FindRecipeAt(recipes, k);
      FindRecipeAt(r, k);
    }
    if other != id && FindRecipe(recipes, other).Some? {
      var k :| 0 <= k < |recipes| && recipes[k] == FindRecipe(recipes, other).value;
      FindRecipeAt(recipes, k);
      FindRecipeAt(r, k);
    }
  }

  /** The recipe to work on and the tables once it exists: Recipe.objects.create
      appends a row with the next id and no tags; an instance is reused as it is. */
  function Materialize(db: Db, target: Target): (RecipeId, Db) {
    match target
    case Existing(id) => (id, db)
    case NewFor(author, f) =>
      var recipe := Recipe(db.nextRecipeId, author, f.name, f.text, f.image, f.cookingTime, {});
      (db.nextRecipeId, db.(recipes := db.recipes + [recipe], nextRecipeId := db.nextRecipeId + 1))
  }

  /** What create_update_recipes does: pop the tags and the ingredients (a
      missing key raises KeyError), create or reuse the recipe, replace its tag
      set, then bulk-insert one join row per entry. The steps are not undone
      when a later one fails. */
  function CreateUpdateEffect(db: Db, target: Target, tags: Option<seq<TagId>>, items: Option<seq<IngredientAmount>>)
    : Step<RecipeId>
  {
    if tags.None? || items.None? then Step(db, Fail(ServerError(MissingKey)))
    else
      var (id, created) := Materialize(db, target);
      var tagged := created.(recipes := MapRecipe(created.recipes, id, (r: Recipe) => r.(tags := ElemSet(tags.value))));
      match JoinRowsFor(tagged.ingredients, items.value, id)
      case None => Step(tagged, Fail(ServerError(UnknownIngredient)))
      case Some(rows) =>
        if UniqueJoinRows(tagged.joinRows + rows) then Step(tagged.(joinRows := tagged.joinRows + rows), Ok(id))
        else Step(tagged, Fail(UniqueViolation))
  }

  /** With no instance, a new recipe owned by `author` is created with the
      next id, whatever happens to the join rows afterwards. */
  lemma CreateUpdateNewRecipe(db: Db, author: UserId, f: RecipeFields, tags: seq<TagId>, items: seq<IngredientAmount>)
    ensures var step := CreateUpdateEffect(db, NewFor(author, f), Some(tags), Some(items));
      && |step.db.recipes| == |db.recipes| + 1
      && step.db.recipes[..|db.recipes|] == MapRecipe(db.recipes, db.nextRecipeId, (r: Recipe) => r.(tags := ElemSet(tags)))
      && step.db.recipes[|db.recipes|] == Recipe(db.nextRecipeId, author, f.name, f.text, f.image, f.cookingTime, ElemSet(tags))
      && (step.out.Ok? ==> step.out.value == db.nextRecipeId)
  {
  }

  /** Once both keys are present, the recipe's tag set is the set of the given
      tags, even when inserting the join rows then fails; an unknown
      ingredient inserts no join row at all. */
  lemma CreateUpdateTagsFirst(db: Db, target: Target, tags: seq<TagId>, items: seq<IngredientAmount>)
    requires target.Existing? ==> FindRecipe(db.recipes, target.id).Some?
    ensures var step := CreateUpdateEffect(db, target, Some(tags), Some(items));
      var id := if target.NewFor? then db.nextRecipeId else target.id;
      && FindRecipe(step.db.recipes, id).Some?
      && FindRecipe(step.db.recipes, id).value.tags == ElemSet(tags)
      && (step.out == Fail(ServerError(UnknownIngredient)) ==> step.db.joinRows == db.joinRows)
  {
    var (id, created) := Materialize(db, target);
    if target.NewFor? {
      assert created.recipes[|db.recipes|].id == id;
    } else {
      var k :| 0 <= k < |db.recipes| && db.recipes[k] == FindRecipe(db.recipes, id).value;
      assert created.recipes[k].id == id;
    }
    SetTagsFinds(created.recipes, id, ElemSet(tags));
    var tagged := created.(recipes := MapRecipe(created.recipes, id, (r: Recipe) => r.(tags := ElemSet(tags))));
    var step := CreateUpdateEffect(db, target, Some(tags), Some(items));
    assert step.db.recipes == tagged.recipes;
  }

  /** Once some row has the id, looking it up after the tag set was replaced
      finds a row with the new tag set. */
  lemma SetTagsFinds(recipes: seq<Recipe>, id: RecipeId, tagSet: set<TagId>)
    requires exists k :: 0 <= k < |recipes| && recipes[k].id == id
    ensures var found := FindRecipe(MapRecipe(recipes, id, (r: Recipe) => r.(tags := tagSet)), id);
      found.Some? && found.value.tags == tagSet
  {
    var rs := MapRecipe(recipes, id, (r: Recipe) => r.(tags := tagSet));
    var k :| 0 <= k < |recipes| && recipes[k].id == id;
    assert rs[k].id == id;
    var found := FindRecipe(rs, id);
    var j :| 0 <= j < |rs| && rs[j] == found.value;
    assert rs[j] == recipes[j].(tags := tagSet);
  }

  /** On success the join table gains exactly one row per entry, in order, and
      nothing else changes in it. */
  lemma {:induction false} CreateUpdateInsertsRows(db: Db, target: Target, tags: seq<TagId>, items: seq<IngredientAmount>)
    requires CreateUpdateEffect(db, target, Some(tags), Some(items)).out.Ok?
    ensures var step := CreateUpdateEffect(db, target, Some(tags), Some(items));
      var id := step.out.value;
      && JoinRowsFor(db.ingredients, items, id).Some?
      && step.db.joinRows == db.joinRows + JoinRowsFor(db.ingredients, items, id).value
      && RowsOf(step.db.joinRows, id) == RowsOf(db.joinRows, id) + JoinRowsFor(db.ingredients, items, id).value
  {
    var step := CreateUpdateEffect(db, target, Some(tags), Some(items));
    var id := step.out.value;
    var added := JoinRowsFor(db.ingredients, items, id).value;
    RowsOfAppend(db.joinRows, added, id);
    JoinRowsForRecipe(db.ingredients, items, id);
  }

  /** On an existing recipe, whatever the outcome, only the recipe table and
      the join table can change, the recipe table keeps its length, and every
      other recipe's row stays as it was. */
  lemma CreateUpdateExistingFrame(db: Db, id: RecipeId, tags: Option<seq<TagId>>, items: Option<seq<IngredientAmount>>)
    ensures var after := CreateUpdateEffect(db, Existing(id), tags, items).db;
      && after == db.(recipes := after.recipes, joinRows := after.joinRows)
      && |after.recipes| == |db.recipes|
      && (forall k :: 0 <= k < |db.recipes| && db.recipes[k].id != id ==> after.recipes[k] == db.recipes[k])
      && (CreateUpdateEffect(db, Existing(id), tags, items).out.Fail? ==> after.joinRows == db.joinRows)
  {
  }

  /** Replacing one recipe's tag set keeps every constraint. */
  lemma SetTagsKeepsValid(db: Db, id: RecipeId, tagSet: set<TagId>)
    requires db.Valid()
    ensures db.(recipes := MapRecipe(db.recipes, id, (r: Recipe) => r.(tags := tagSet))).Valid()
  {
    MapRecipeSpec(db.recipes, id, (r: Recipe) => r.(tags := tagSet), id);
  }

  /** Appending join rows that keep the (ingredient, recipe) constraint, point
      at existing ingredients and at a recipe id already handed out keeps
      every constraint. */
  lemma AppendRowsKeepsValid(db: Db, rows: seq<IngredientInRecipe>)
    requires db.Valid() && UniqueJoinRows(db.joinRows + rows)
    requires forall i :: 0 <= i < |rows| ==> rows[i].recipe < db.nextRecipeId
    requires forall i :: 0 <= i < |rows| ==> FindIngredient(db.ingredients, rows[i].ingredient).Some?
    ensures db.(joinRows := db.joinRows + rows).Valid()
  {
    var all := db.joinRows + rows;
    assert forall i :: |db.joinRows| <= i < |all| ==> all[i] == rows[i - |db.joinRows|];
  }

  /** Every outcome leaves the tables consistent: ids stay unique and below the
      next id, and the join rows keep their constraint. */
  lemma CreateUpdateKeepsValid(db: Db, target: Target, tags: Option<seq<TagId>>, items: Option<seq<IngredientAmount>>)
    requires db.Valid()
    requires target.Existing? ==> FindRecipe(db.recipes, target.id).Some?
    ensures CreateUpdateEffect(db, target, tags, items).db.Valid()
  {
    if tags.Some? && items.Some? {
      var (id, created) := Materialize(db, target);
      assert created.Valid() && id < created.nextRecipeId;
      SetTagsKeepsValid(created, id, ElemSet(tags.value));
      var tagged := created.(recipes := MapRecipe(created.recipes, id, (r: Recipe) => r.(tags := ElemSet(tags.value))));
      var rows := JoinRowsFor(tagged.ingredients, items.value, id);
      if rows.Some? && UniqueJoinRows(tagged.joinRows + rows.value) {
        assert forall i :: 0 <= i < |rows.value| ==> rows.value[i].recipe == id;
        AppendRowsKeepsValid(tagged, rows.value);
      }
    }
  }

  method CreateUpdateRecipes(s: Store, target: Target, tags: Option<seq<TagId>>, items: Option<seq<IngredientAmount>>)
    returns (r: Outcome<RecipeId>)
    requires s.Valid()
    requires target.Existing? ==> FindRecipe(s.recipes, target.id).Some?
    modifies s
    ensures s.Valid()
    ensures Step(s.State(), r) == CreateUpdateEffect(old(s.State()), target, tags, items)
  {
    CreateUpdateKeepsValid(s.State(), target, tags, items);
    if tags.None? || items.None? {
      return Fail(ServerError(MissingKey));
    }
    ghost var materialized := Materialize(s.State(), target);
    var id: RecipeId;
    if target.NewFor? {
      id := s.nextRecipeId;
      var f := target.fields;
      s.recipes := s.recipes + [Recipe(id, target.author, f.name, f.text, f.image, f.cookingTime, {})];
      s.nextRecipeId := id + 1;
    } else {
      id := target.id;
    }
    assert materialized == (id, s.State());
    var tagSet := ElemSet(tags.value);
    s.recipes := MapRecipe(s.recipes, id, (rec: Recipe) => rec.(tags := tagSet));
    assert s.State() == materialized.1.(recipes := MapRecipe(materialized.1.recipes, id, (r: Recipe) => r.(tags := ElemSet(tags.value))));
    var rows := BuildJoinRows(s.ingredients, items.value, id);
    if rows.None? {
      return Fail(ServerError(UnknownIngredient));
    }
    if !UniqueJoinRows(s.joinRows + rows.value) {
      return Fail(UniqueViolation);
    }
    s.joinRows := s.joinRows + rows.value;
    r := Ok(id);
  }
}
