/** backend/api/serializers.py: the request validators of RecipeAddSerializer
    and FollowSerializer, recipe creation and update, and the computed fields
    of the user and subscription representations. */
module Serializers {
  import opened Outcomes
  import opened Seqs
  import opened Text
  import opened UserModels
  import opened RecipeModels
  import opened Store
  import opened Utils

  // ---------------------------------------------------------------------
  // RecipeAddSerializer.validate_tags

  /** Rejects a missing or empty tag list, then a list whose length differs
      from the size of its set (a repeated tag); otherwise returns it. */
  function ValidateTags(tags: Option<seq<TagId>>): Outcome<seq<TagId>> {
    if tags.None? || |tags.value| == 0 then Fail(ValidationError(NoTags))
    else if |tags.value| != |ElemSet(tags.value)| then Fail(ValidationError(RepeatedTags))
    else Ok(tags.value)
  }

  /** A tag list passes exactly when it is present, non-empty and repeats no
      tag, and then it comes back unchanged; a non-empty list with a repeat
      gets the repeated-tags error. */
  lemma ValidateTagsSpec(tags: Option<seq<TagId>>)
    ensures ValidateTags(tags).Ok? <==> tags.Some? && |tags.value| > 0 && Distinct(tags.value)
    ensures ValidateTags(tags).Ok? ==> ValidateTags(tags).value == tags.value
    ensures ValidateTags(tags) == Fail(ValidationError(RepeatedTags)) <==>
              tags.Some? && |tags.value| > 0 && !Distinct(tags.value)
    ensures ValidateTags(tags) == Fail(ValidationError(NoTags)) <==> tags.None? || |tags.value| == 0
  {
    if tags.Some? {
      ElemSetSize(tags.value);
    }
  }

  // ---------------------------------------------------------------------
  // RecipeAddSerializer.validate_ingredients

  /** An ingredient entry as the client sent it (initial_data): its id and
      its amount, which may be missing. */
  datatype RawIngredient = RawIngredient(id: IngredientId, amount: Option<int>)

  function RawIds(items: seq<RawIngredient>): (ids: seq<IngredientId>)
    ensures |ids| == |items|
    ensures forall i :: 0 <= i < |items| ==> ids[i] == items[i].id
  {
    seq(|items|, i requires 0 <= i < |items| => items[i].id)
  }

  /** `amount in (None, 0)`. */
  predicate MissingOrZero(amount: Option<int>) {
    amount == None || amount == Some(0)
  }

  /** The scan of the entries in order, with the ids already seen: the first
      entry whose id was seen, or else whose amount is missing or zero, stops
      it with the matching error. */
  function ScanIngredients(items: seq<RawIngredient>, seen: seq<IngredientId>): (r: Outcome<()>)
    ensures r.Fail? ==> r.error in {ValidationError(RepeatedIngredient), ValidationError(MissingAmount)}
    decreases |items|
  {
    if items == [] then Ok(())
    else if items[0].id in seen then Fail(ValidationError(RepeatedIngredient))
    else if MissingOrZero(items[0].amount) then Fail(ValidationError(MissingAmount))
    else ScanIngredients(items[1..], seen + [items[0].id])
  }

  /** What validate_ingredients decides for a list of entries. */
  function IngredientsVerdict(items: seq<RawIngredient>): Outcome<()> {
    if |items| == 0 then Fail(ValidationError(NoIngredients)) else ScanIngredients(items, [])
  }

  /** The first k entries pass the scan: none repeats an earlier id and none
      lacks an amount. */
  predicate CleanPrefix(items: seq<RawIngredient>, k: nat)
    requires k <= |items|
  {
    forall i :: 0 <= i < k ==> items[i].id !in RawIds(items[..i]) && !MissingOrZero(items[i].amount)
  }

  /** After a clean prefix the scan goes on from there with the prefix's ids seen. */
  lemma {:induction false} ScanPrefix(items: seq<RawIngredient>, k: nat)
    requires k <= |items| && CleanPrefix(items, k)
    ensures ScanIngredients(items, []) == ScanIngredients(items[k..], RawIds(items[..k]))
    decreases k
  {
    if k == 0 {
      assert items[0..] == items;
      assert RawIds(items[..0]) == [];
    } else {
      assert CleanPrefix(items, k - 1);
      ScanPrefix(items, k - 1);
      var rest := items[k - 1..];
      var seen := RawIds(items[..k - 1]);
      assert rest[0] == items[k - 1];
      assert RawIds(items[..k - 1]) == RawIds(items[..k])[..k - 1];
      assert items[k - 1].id !in seen;
      assert rest[1..] == items[k..];
      assert seen + [items[k - 1].id] == RawIds(items[..k]);
    }
  }

  /** Scanning in order, the first entry that repeats an earlier id is
      rejected as a repeat, whatever follows it. */
  lemma FirstRepeatRejected(items: seq<RawIngredient>, k: nat)
    requires k < |items| && CleanPrefix(items, k)
    requires items[k].id in RawIds(items[..k])
    ensures IngredientsVerdict(items) == Fail(ValidationError(RepeatedIngredient))
  {
    ScanPrefix(items, k);
    assert items[k..][0] == items[k];
  }

  /** The first entry with a missing or zero amount, when its id is new, is
      rejected for the amount, whatever follows it. */
  lemma FirstMissingAmountRejected(items: seq<RawIngredient>, k: nat)
    requires k < |items| && CleanPrefix(items, k)
    requires items[k].id !in RawIds(items[..k]) && MissingOrZero(items[k].amount)
    ensures IngredientsVerdict(items) == Fail(ValidationError(MissingAmount))
  {
    ScanPrefix(items, k);
    assert items[k..][0] == items[k];
  }

  /** The scan passes exactly when no entry repeats an id (among themselves
      or with those already seen) and every amount is present and non-zero. */
  lemma {:induction false} ScanIngredientsOk(items: seq<RawIngredient>, seen: seq<IngredientId>)
    ensures ScanIngredients(items, seen).Ok? <==>
      && (forall i :: 0 <= i < |items| ==> items[i].id !in seen)
      && Distinct(RawIds(items))
      && (forall i :: 0 <= i < |items| ==> !MissingOrZero(items[i].amount))
    decreases |items|
  {
    if items != [] {
      var t := items[1..];
      ScanIngredientsOk(t, seen + [items[0].id]);
      assert forall i :: 1 <= i < |items| ==> items[i] == t[i - 1];
      assert RawIds(items) == [items[0].id] + RawIds(t);
    }
  }

  /** validate_ingredients accepts exactly the non-empty lists with distinct
      ids and every amount present and non-zero; any other amount value,
      negative ones included, passes this check. */
  lemma IngredientsVerdictSpec(items: seq<RawIngredient>)
    ensures IngredientsVerdict(items).Ok? <==>
      && |items| > 0
      && Distinct(RawIds(items))
      && (forall i :: 0 <= i < |items| ==> !MissingOrZero(items[i].amount))
    ensures |items| == 0 <==> IngredientsVerdict(items) == Fail(ValidationError(NoIngredients))
  {
    ScanIngredientsOk(items, []);
    if |items| > 0 {
      assert items[0].id == RawIds(items)[0];
    }
  }

  /** The loop of validate_ingredients, appending each accepted id to the
      list of ids seen. */
  method ValidateIngredients(items: seq<RawIngredient>) returns (r: Outcome<()>)
    ensures r == IngredientsVerdict(items)
  {
    if |items| == 0 {
      return Fail(ValidationError(NoIngredients));
    }
    var ids: seq<IngredientId> := [];
    for i := 0 to |items|
      invariant ids == RawIds(items[..i])
      invariant CleanPrefix(items, i)
    {
      if items[i].id in ids {
        FirstRepeatRejected(items, i);
        return Fail(ValidationError(RepeatedIngredient));
      }
      if MissingOrZero(items[i].amount) {
        FirstMissingAmountRejected(items, i);
        return Fail(ValidationError(MissingAmount));
      }
      assert RawIds(items[..i + 1]) == ids + [items[i].id];
      ids := ids + [items[i].id];
    }
    ScanPrefix(items, |items|);
    assert items[|items|..] == [];
    r := Ok(());
  }

  // ---------------------------------------------------------------------
  // RecipeAddSerializer.create

  /** Whether `author` has a recipe with exactly this text, leaving out the
      recipe `except` (the update's .exclude(id=instance.id)). */
  predicate HasRecipeWithText(recipes: seq<Recipe>, author: UserId, text: string, except: Option<RecipeId>) {
    exists i :: 0 <= i < |recipes| && recipes[i].author == author && recipes[i].text == text && Some(recipes[i].id) != except
  }

  /** What create does: refuse a text the author already used, storing
      nothing; otherwise hand over to create_update_recipes for that author. */
  function CreateEffect(db: Db, author: UserId, fields: RecipeFields, tags: seq<TagId>, items: seq<IngredientAmount>)
    : Step<RecipeId>
  {
    if HasRecipeWithText(db.recipes, author, fields.text, None) then Step(db, Fail(ValidationError(DuplicateText)))
    else CreateUpdateEffect(db, NewFor(author, fields), Some(tags), Some(items))
  }

  /** A new recipe belongs to its author, carries the requested fields and tag
      set, and its join rows are exactly one per entry. */
  lemma CreateStoresRecipe(db: Db, author: UserId, fields: RecipeFields, tags: seq<TagId>, items: seq<IngredientAmount>)
    requires db.Valid()
    requires CreateEffect(db, author, fields, tags, items).out.Ok?
    ensures var step := CreateEffect(db, author, fields, tags, items);
      var id := step.out.value;
      && id == db.nextRecipeId
      && step.db.recipes == db.recipes + [Recipe(id, author, fields.name, fields.text, fields.image, fields.cookingTime, ElemSet(tags))]
      && JoinRowsFor(db.ingredients, items, id).Some?
      && RowsOf(step.db.joinRows, id) == JoinRowsFor(db.ingredients, items, id).value
  {
    var id := db.nextRecipeId;
    var step := CreateEffect(db, author, fields, tags, items);
    CreateUpdateNewRecipe(db, author, fields, tags, items);
    CreateUpdateInsertsRows(db, NewFor(author, fields), tags, items);
    MapRecipeSpec(db.recipes, id, (r: Recipe) => r.(tags := ElemSet(tags)), id);
    var n := |db.recipes|;
    assert step.db.recipes == step.db.recipes[..n] + [step.db.recipes[n]];
    FilterNone(db.joinRows, (row: IngredientInRecipe) => row.recipe == id);
  }

  /** The duplicate-text guard: a second recipe by the same author with the
      same text is refused and changes nothing. */
  lemma CreateSameTextTwice(db: Db, author: UserId, f1: RecipeFields, f2: RecipeFields,
                            tags1: seq<TagId>, items1: seq<IngredientAmount>, tags2: seq<TagId>, items2: seq<IngredientAmount>)
    requires f1.text == f2.text
    ensures var first := CreateEffect(db, author, f1, tags1, items1);
      first.out.Ok? ==>
        CreateEffect(first.db, author, f2, tags2, items2) == Step(first.db, Fail(ValidationError(DuplicateText)))
  {
    var first := CreateEffect(db, author, f1, tags1, items1);
    if first.out.Ok? {
      CreateUpdateNewRecipe(db, author, f1, tags1, items1);
      assert first.db.recipes[|db.recipes|].author == author && first.db.recipes[|db.recipes|].text == f2.text;
    }
  }

  /** Whatever the outcome, create leaves the users, tags, ingredients and the
      follow, favourite and cart tables alone, and only appends: at most one
      recipe (taking the next id) and some join rows. */
  lemma CreateFrame(db: Db, author: UserId, fields: RecipeFields, tags: seq<TagId>, items: seq<IngredientAmount>)
    requires db.Valid()
    ensures var after := CreateEffect(db, author, fields, tags, items).db;
      && after.users == db.users && after.tags == db.tags && after.ingredients == db.ingredients
      && after.follows == db.follows && after.favorites == db.favorites && after.carts == db.carts
      && |db.recipes| <= |after.recipes| <= |db.recipes| + 1
      && after.recipes[..|db.recipes|] == db.recipes
      && after.nextRecipeId == db.nextRecipeId + (|after.recipes| - |db.recipes|)
      && |db.joinRows| <= |after.joinRows|
      && after.joinRows[..|db.joinRows|] == db.joinRows
  {
    if !HasRecipeWithText(db.recipes, author, fields.text, None) {
      var id := db.nextRecipeId;
      CreateUpdateNewRecipe(db, author, fields, tags, items);
      MapRecipeSpec(db.recipes, id, (r: Recipe) => r.(tags := ElemSet(tags)), id);
    }
  }

  method CreateRecipe(s: Store, author: UserId, fields: RecipeFields, tags: seq<TagId>, items: seq<IngredientAmount>)
    returns (r: Outcome<RecipeId>)
    requires s.Valid()
    modifies s
    ensures s.Valid()
    ensures Step(s.State(), r) == CreateEffect(old(s.State()), author, fields, tags, items)
  {
    if HasRecipeWithText(s.recipes, author, fields.text, None) {
      return Fail(ValidationError(DuplicateText));
    }
    r := CreateUpdateRecipes(s, NewFor(author, fields), Some(tags), Some(items));
  }

  // ---------------------------------------------------------------------
  // RecipeAddSerializer.update

  /** The validated data of a partial update: any key may be absent. */
  datatype RecipePatch = RecipePatch(
    name: Option<string>,
    text: Option<string>,
    image: Option<Image>,
    cookingTime: Option<int>,
    tags: Option<seq<TagId>>,
    ingredients: Option<seq<IngredientAmount>>)

  /** What update does. It edits the instance in memory (absent keys keep the
      old values), checks the duplicate-text guard against the requesting
      user's other recipes only when the text changes, deletes all of the
      recipe's join rows, runs create_update_recipes on the instance, and only
      then saves the edited fields. */
  function UpdateEffect(db: Db, requestUser: UserId, id: RecipeId, patch: RecipePatch): Step<RecipeId>
    requires FindRecipe(db.recipes, id).Some?
  {
    var instance := FindRecipe(db.recipes, id).value;
    var newText := patch.text.GetOr(instance.text);
    if newText != instance.text && HasRecipeWithText(db.recipes, requestUser, newText, Some(id)) then
      Step(db, Fail(ValidationError(DuplicateText)))
    else
      var name := patch.name.GetOr(instance.name);
      var image := patch.image.GetOr(instance.image);
      var cookingTime := patch.cookingTime.GetOr(instance.cookingTime);
      var cleared := db.(joinRows := DeleteRowsOf(db.joinRows, id));
      var step := CreateUpdateEffect(cleared, Existing(id), patch.tags, patch.ingredients);
      if step.out.Fail? then step
      else
        var saved := MapRecipe(step.db.recipes, id,
          (r: Recipe) => r.(name := name, text := newText, image := image, cookingTime := cookingTime));
        Step(step.db.(recipes := saved), Ok(id))
  }

  /** After a successful update the stored recipe has each supplied field and
      keeps the old value of each absent one, keeps its author, and has the
      supplied tag set. */
  lemma UpdateKeepsAbsentFields(db: Db, requestUser: UserId, id: RecipeId, patch: RecipePatch)
    requires db.Valid() && FindRecipe(db.recipes, id).Some?
    requires UpdateEffect(db, requestUser, id, patch).out.Ok?
    ensures var before := FindRecipe(db.recipes, id).value;
      var after := FindRecipe(UpdateEffect(db, requestUser, id, patch).db.recipes, id);
      && after.Some?
      && after.value.name == patch.name.GetOr(before.name)
      && after.value.text == patch.text.GetOr(before.text)
      && after.value.image == patch.image.GetOr(before.image)
      && after.value.cookingTime == patch.cookingTime.GetOr(before.cookingTime)
      && after.value.author == before.author
      && after.value.tags == ElemSet(patch.tags.value)
  {
    var before := FindRecipe(db.recipes, id).value;
    var step := UpdateEffect(db, requestUser, id, patch);
    var rs := step.db.recipes;
    var k :| 0 <= k < |db.recipes| && db.recipes[k] == before;
    assert |rs| == |db.recipes|;
    assert rs[k].id == id;
    var after := FindRecipe(rs, id).value;
    var j :| 0 <= j < |rs| && rs[j] == after;
    assert db.recipes[j].id == id;
    assert UniqueRecipeIds(db.recipes);
    assert j == k;
  }

  /** A successful update had both keys, and its join table is the one
      create_update_recipes left after the recipe's rows were deleted. */
  lemma UpdateSucceeded(db: Db, requestUser: UserId, id: RecipeId, patch: RecipePatch)
    requires FindRecipe(db.recipes, id).Some?
    requires UpdateEffect(db, requestUser, id, patch).out.Ok?
    ensures patch.tags.Some? && patch.ingredients.Some?
    ensures var cleared := db.(joinRows := DeleteRowsOf(db.joinRows, id));
      var step := CreateUpdateEffect(cleared, Existing(id), patch.tags, patch.ingredients);
      && step.out == Ok(id)
      && UpdateEffect(db, requestUser, id, patch).db.joinRows == step.db.joinRows
  {
  }

  /** After a successful update the recipe's join rows are exactly one per
      supplied entry (the old ones are gone), and every other recipe keeps its
      rows. */
  lemma UpdateReplacesJoinRows(db: Db, requestUser: UserId, id: RecipeId, patch: RecipePatch, other: RecipeId)
    requires FindRecipe(db.recipes, id).Some?
    requires UpdateEffect(db, requestUser, id, patch).out.Ok?
    ensures var after := UpdateEffect(db, requestUser, id, patch).db;
      && JoinRowsFor(db.ingredients, patch.ingredients.value, id).Some?
      && RowsOf(after.joinRows, id) == JoinRowsFor(db.ingredients, patch.ingredients.value, id).value
      && (other != id ==> RowsOf(after.joinRows, other) == RowsOf(db.joinRows, other))
  {
    UpdateSucceeded(db, requestUser, id, patch);
    var cleared := db.(joinRows := DeleteRowsOf(db.joinRows, id));
    CreateUpdateInsertsRows(cleared, Existing(id), patch.tags.value, patch.ingredients.value);
    DeleteRowsOfSpec(db.joinRows, id, other);
    var added := JoinRowsFor(db.ingredients, patch.ingredients.value, id).value;
    RowsOfAppend(cleared.joinRows, added, other);
    if other != id {
      FilterNone(added, (row: IngredientInRecipe) => row.recipe == other);
    }
  }

  /** Whatever the outcome, an update leaves the users, tags, ingredients,
      the follow, favourite and cart tables and the next id alone, keeps the
      recipe table's rows in place and every other recipe's row as it was. */
  lemma UpdateFrame(db: Db, requestUser: UserId, id: RecipeId, patch: RecipePatch)
    requires FindRecipe(db.recipes, id).Some?
    ensures var after := UpdateEffect(db, requestUser, id, patch).db;
      && after.users == db.users && after.tags == db.tags && after.ingredients == db.ingredients
      && after.follows == db.follows && after.favorites == db.favorites && after.carts == db.carts
      && after.nextRecipeId == db.nextRecipeId
      && |after.recipes| == |db.recipes|
      && (forall k :: 0 <= k < |db.recipes| && db.recipes[k].id != id ==> after.recipes[k] == db.recipes[k])
  {
    var instance := FindRecipe(db.recipes, id).value;
    var newText := patch.text.GetOr(instance.text);
    if !(newText != instance.text && HasRecipeWithText(db.recipes, requestUser, newText, Some(id))) {
      var cleared := db.(joinRows := DeleteRowsOf(db.joinRows, id));
      var step := CreateUpdateEffect(cleared, Existing(id), patch.tags, patch.ingredients);
      CreateUpdateExistingFrame(cleared, id, patch.tags, patch.ingredients);
      if step.out.Ok? {
        var name := patch.name.GetOr(instance.name);
        var image := patch.image.GetOr(instance.image);
        var cookingTime := patch.cookingTime.GetOr(instance.cookingTime);
        var saved := MapRecipe(step.db.recipes, id,
          (r: Recipe) => r.(name := name, text := newText, image := image, cookingTime := cookingTime));
        assert UpdateEffect(db, requestUser, id, patch).db == step.db.(recipes := saved);
      }
    }
  }

  /** Whatever the outcome, an update leaves the join rows of every other
      recipe as they were. */
  lemma UpdateKeepsOtherRows(db: Db, requestUser: UserId, id: RecipeId, patch: RecipePatch, other: RecipeId)
    requires FindRecipe(db.recipes, id).Some? && other != id
    ensures RowsOf(UpdateEffect(db, requestUser, id, patch).db.joinRows, other) == RowsOf(db.joinRows, other)
  {
    if UpdateEffect(db, requestUser, id, patch).out.Ok? {
      UpdateReplacesJoinRows(db, requestUser, id, patch, other);
    } else {
      var cleared := db.(joinRows := DeleteRowsOf(db.joinRows, id));
      CreateUpdateExistingFrame(cleared, id, patch.tags, patch.ingredients);
      DeleteRowsOfSpec(db.joinRows, id, other);
    }
  }

  /** The guard refuses a changed text that another recipe of the requesting
      user already has, changing nothing; an unchanged text is never checked. */
  lemma UpdateTextGuard(db: Db, requestUser: UserId, id: RecipeId, patch: RecipePatch)
    requires FindRecipe(db.recipes, id).Some?
    ensures var before := FindRecipe(db.recipes, id).value;
      var newText := patch.text.GetOr(before.text);
      && (newText != before.text && HasRecipeWithText(db.recipes, requestUser, newText, Some(id)) ==>
            UpdateEffect(db, requestUser, id, patch) == Step(db, Fail(ValidationError(DuplicateText))))
      && (newText == before.text ==>
            UpdateEffect(db, requestUser, id, patch).out != Fail(ValidationError(DuplicateText)))
  {
  }

  /** A partial update that omits the tags and gets past the text guard fails
      with KeyError after the old join rows were deleted: the recipe is left
      with no join rows and its fields as they were. */
  lemma UpdateWithoutTagsLosesRows(db: Db, requestUser: UserId, id: RecipeId, patch: RecipePatch)
    requires FindRecipe(db.recipes, id).Some?
    requires patch.tags.None?
    requires var before := FindRecipe(db.recipes, id).value;
      patch.text.GetOr(before.text) == before.text || !HasRecipeWithText(db.recipes, requestUser, patch.text.value, Some(id))
    ensures var step := UpdateEffect(db, requestUser, id, patch);
      && step.out == Fail(ServerError(MissingKey))
      && step.db.recipes == db.recipes
      && RowsOf(step.db.joinRows, id) == []
  {
    DeleteRowsOfSpec(db.joinRows, id, id);
  }

  /** Validated entries that carry the raw entries' ids, in order, repeat no
      ingredient when the raw ids are distinct. */
  lemma SameIdsDistinct(raw: seq<RawIngredient>, items: seq<IngredientAmount>)
    requires |raw| == |items| && forall i :: 0 <= i < |raw| ==> raw[i].id == items[i].id
    requires Distinct(RawIds(raw))
    ensures DistinctIds(items)
  {
    forall i, j | 0 <= i < j < |items| ensures items[i].id != items[j].id {
      assert RawIds(raw)[i] != RawIds(raw)[j];
    }
  }

  /** Once validate_ingredients has accepted the entries, the insert of the
      new join rows cannot hit the (ingredient, recipe) constraint. */
  lemma ValidatedUpdateNoViolation(db: Db, requestUser: UserId, id: RecipeId, patch: RecipePatch, raw: seq<RawIngredient>)
    requires db.Valid() && FindRecipe(db.recipes, id).Some?
    requires patch.ingredients.Some? && |raw| == |patch.ingredients.value|
    requires forall i :: 0 <= i < |raw| ==> raw[i].id == patch.ingredients.value[i].id
    requires IngredientsVerdict(raw).Ok?
    ensures UpdateEffect(db, requestUser, id, patch).out != Fail(UniqueViolation)
  {
    IngredientsVerdictSpec(raw);
    SameIdsDistinct(raw, patch.ingredients.value);
    var cleared := DeleteRowsOf(db.joinRows, id);
    DeleteRowsOfSpec(db.joinRows, id, id);
    DeleteRowsOfUnique(db.joinRows, id);
    if JoinRowsFor(db.ingredients, patch.ingredients.value, id).Some? {
      FreshRowsKeepUnique(cleared, db.ingredients, patch.ingredients.value, id);
    }
  }

  /** Deleting one recipe's join rows keeps every constraint. */
  lemma ClearedKeepsValid(db: Db, id: RecipeId)
    requires db.Valid()
    ensures db.(joinRows := DeleteRowsOf(db.joinRows, id)).Valid()
  {
    var cleared := db.(joinRows := DeleteRowsOf(db.joinRows, id));
    DeleteRowsOfUnique(db.joinRows, id);
    assert forall i :: 0 <= i < |cleared.joinRows| ==> cleared.joinRows[i] in db.joinRows;
  }

  /** Every outcome of an update leaves the tables consistent. */
  lemma UpdateKeepsValid(db: Db, requestUser: UserId, id: RecipeId, patch: RecipePatch)
    requires db.Valid() && FindRecipe(db.recipes, id).Some?
    ensures UpdateEffect(db, requestUser, id, patch).db.Valid()
  {
    var cleared := db.(joinRows := DeleteRowsOf(db.joinRows, id));
    ClearedKeepsValid(db, id);
    CreateUpdateKeepsValid(cleared, Existing(id), patch.tags, patch.ingredients);
  }

  method UpdateRecipe(s: Store, requestUser: UserId, id: RecipeId, patch: RecipePatch)
    returns (r: Outcome<RecipeId>)
    requires s.Valid() && FindRecipe(s.recipes, id).Some?
    modifies s
    ensures s.Valid()
    ensures Step(s.State(), r) == UpdateEffect(old(s.State()), requestUser, id, patch)
  {
    UpdateKeepsValid(s.State(), requestUser, id, patch);
    var instance := FindRecipe(s.recipes, id).value;
    var name := patch.name.GetOr(instance.name);
    var image := patch.image.GetOr(instance.image);
    var cookingTime := patch.cookingTime.GetOr(instance.cookingTime);
    var newText := patch.text.GetOr(instance.text);
    if newText != instance.text {
      if HasRecipeWithText(s.recipes, requestUser, newText, Some(id)) {
        return Fail(ValidationError(DuplicateText));
      }
    }
    ClearedKeepsValid(s.State(), id);
    s.joinRows := DeleteRowsOf(s.joinRows, id);
    ghost var cleared := s.State();
    assert cleared == old(s.State()).(joinRows := DeleteRowsOf(old(s.joinRows), id));
    r := CreateUpdateRecipes(s, Existing(id), patch.tags, patch.ingredients);
    if r.Fail? {
      return;
    }
    ghost var created := s.State();
    s.recipes := MapRecipe(s.recipes, id,
      (rec: Recipe) => rec.(name := name, text := newText, image := image, cookingTime := cookingTime));
    assert s.State() == created.(recipes := MapRecipe(created.recipes, id,
      (rec: Recipe) => rec.(name := name, text := newText, image := image, cookingTime := cookingTime)));
  }

  // ---------------------------------------------------------------------
  // FollowSerializer.validate and the user representation

  /** Refuses following oneself, then an existing (user, author) follow. */
  function ValidateFollow(user: UserId, author: UserId, follows: set<(UserId, UserId)>): (r: Outcome<()>)
    ensures r.Ok? <==> user != author && (user, author) !in follows
    ensures r == Fail(ValidationError(SelfFollow)) <==> user == author
  {
    if user == author then Fail(ValidationError(SelfFollow))
    else if (user, author) in follows then Fail(ValidationError(AlreadyFollowing))
    else Ok(())
  }

  /** Whatever the serializer accepts, Follow.clean accepts too. */
  lemma ValidateFollowImpliesClean(user: UserId, author: UserId, follows: set<(UserId, UserId)>)
    ensures ValidateFollow(user, author, follows).Ok? ==> CleanFollow(user, author).Ok?
  {
  }

  /** CustomUserSerializer.get_is_subscribed: with no request (requester
      None) the answer is false; otherwise whether the requester follows the author. */
  function IsSubscribed(follows: set<(UserId, UserId)>, author: UserId, requester: Option<UserId>): (b: bool)
    ensures b <==> requester.Some? && (requester.value, author) in follows
  {
    if requester.Some? then (requester.value, author) in follows else false
  }

  // ---------------------------------------------------------------------
  // FollowSerializer.get_recipes and get_recipes_count

  /** Recipe.Meta.ordering = ('name',). */
  predicate ByName(a: Recipe, b: Recipe) {
    StrLe(a.name, b.name)
  }

  lemma ByNameTotal()
    ensures Total(ByName)
  {
    forall a: Recipe, b: Recipe ensures ByName(a, b) || ByName(b, a) {
      StrLeTotal(a.name, b.name);
    }
  }

  lemma ByNameTransitive()
    ensures Transitive(ByName)
  {
    forall a: Recipe, b: Recipe, c: Recipe | ByName(a, b) && ByName(b, c) ensures ByName(a, c) {
      StrLeTransitive(a.name, b.name, c.name);
    }
  }

  function MinifyAll(recipes: seq<Recipe>): (r: seq<Minified>)
    ensures |r| == |recipes|
    ensures forall i :: 0 <= i < |r| ==> r[i] == Minify(recipes[i])
  {
    seq(|recipes|, i requires 0 <= i < |recipes| => Minify(recipes[i]))
  }

  lemma MinifyAllHas(recipes: seq<Recipe>, x: Recipe)
    requires x in recipes
    ensures Minify(x) in MinifyAll(recipes)
  {
    var j :| 0 <= j < |recipes| && recipes[j] == x;
    assert MinifyAll(recipes)[j] == Minify(x);
  }

  /** How get_recipes reads the recipes_limit query parameter: absent or empty
      means no limit (`if limit:`); otherwise int() of it, where a decimal
      numeral gives its value, a minus sign makes it negative, and anything
      else raises. */
  function ParseLimit(raw: Option<string>): Outcome<Option<int>> {
    if raw.None? || raw.value == "" then Ok(None)
    else if AllDigits(raw.value) then Ok(Some(ParseNat(raw.value)))
    else if raw.value[0] == '-' && |raw.value| > 1 && AllDigits(raw.value[1..]) then
      var magnitude: int := ParseNat(raw.value[1..]);
      Ok(Some(-magnitude))
    else Fail(ServerError(InvalidLimit))
  }

  /** The author's recipes in name order, cut to the first `limit` when the
      parameter gives one; a negative bound makes the queryset slice raise. */
  function GetRecipes(recipes: seq<Recipe>, author: UserId, rawLimit: Option<string>): Outcome<seq<Minified>> {
    var mine := Sort(AuthorRecipes(recipes, author), ByName);
    match ParseLimit(rawLimit)
    case Fail(e) => Fail(e)
    case Ok(None) => Ok(MinifyAll(mine))
    case Ok(Some(n)) =>
      if n < 0 then Fail(ServerError(NegativeLimit))
      else Ok(MinifyAll(mine[..if n < |mine| then n else |mine|]))
  }

  /** The parameter str(n) of any number n is read back as the limit n. */
  lemma ParseLimitNumeral(n: nat)
    ensures ParseLimit(Some(NatToString(n))) == Ok(Some(n))
  {
    ParseNatToString(n);
  }

  /** get_recipes_count counts all of the author's recipes while get_recipes
      lists at most `limit` of them: the list has min(limit, count) entries,
      all of them the author's, in name order, and never more than the count. */
  lemma GetRecipesWithinCount(recipes: seq<Recipe>, author: UserId, limit: nat)
    ensures var r := GetRecipes(recipes, author, Some(NatToString(limit)));
      var count := RecipesCount(recipes, author);
      && r.Ok?
      && |r.value| <= count
      && |r.value| == (if count <= limit then count else limit)
      && (forall i :: 0 <= i < |r.value| ==> exists k :: 0 <= k < |recipes| && recipes[k].author == author && r.value[i] == Minify(recipes[k]))
      && (forall i, j :: 0 <= i < j < |r.value| ==> StrLe(r.value[i].name, r.value[j].name))
  {
    ParseLimitNumeral(limit);
    var mine := AuthorRecipes(recipes, author);
    var sorted := Sort(mine, ByName);
    ByNameTotal();
    SortSorted(mine, ByName);
    var r := GetRecipes(recipes, author, Some(NatToString(limit))).value;
    forall i | 0 <= i < |r|
      ensures exists k :: 0 <= k < |recipes| && recipes[k].author == author && r[i] == Minify(recipes[k])
    {
      assert r[i] == Minify(sorted[i]);
      assert sorted[i] in multiset(mine);
      assert sorted[i] in mine;
      var k :| 0 <= k < |recipes| && recipes[k] == sorted[i];
    }
    ByNameTransitive();
    SortedPairwise(sorted, ByName);
    forall i, j | 0 <= i < j < |r| ensures StrLe(r[i].name, r[j].name) {
      assert ByName(sorted[i], sorted[j]);
    }
  }

  /** Without the parameter, or with it empty, every recipe of the author is
      listed, and the list is as long as get_recipes_count reports. A limit shows a
      prefix of that full list. */
  lemma GetRecipesUnlimited(recipes: seq<Recipe>, author: UserId, limit: nat)
    ensures GetRecipes(recipes, author, None).Ok?
    ensures GetRecipes(recipes, author, Some("")) == GetRecipes(recipes, author, None)
    ensures |GetRecipes(recipes, author, None).value| == RecipesCount(recipes, author)
    ensures forall k :: 0 <= k < |recipes| && recipes[k].author == author ==>
              Minify(recipes[k]) in GetRecipes(recipes, author, None).value
    ensures GetRecipes(recipes, author, Some(NatToString(limit))).value <= GetRecipes(recipes, author, None).value
  {
    ParseLimitNumeral(limit);
    var mine := AuthorRecipes(recipes, author);
    var sorted := Sort(mine, ByName);
    assert GetRecipes(recipes, author, None).value == MinifyAll(sorted);
    forall k | 0 <= k < |recipes| && recipes[k].author == author ensures Minify(recipes[k]) in MinifyAll(sorted) {
      assert recipes[k] in mine;
      assert recipes[k] in multiset(sorted);
      MinifyAllHas(sorted, recipes[k]);
    }
  }

  /** A non-empty parameter that is neither digits nor a minus sign followed by
      digits. */
  predicate NotNumeral(raw: string) {
    raw != "" && !AllDigits(raw) && !(raw[0] == '-' && |raw| > 1 && AllDigits(raw[1..]))
  }

  /** A negative numeral fails (except "-0", which int() reads as 0), and a
      parameter fails with ValueError exactly when it is not a numeral. */
  lemma GetRecipesBadLimit(recipes: seq<Recipe>, author: UserId, n: nat, raw: string)
    requires n > 0
    ensures GetRecipes(recipes, author, Some("-" + NatToString(n))) == Fail(ServerError(NegativeLimit))
    ensures GetRecipes(recipes, author, Some(raw)) == Fail(ServerError(InvalidLimit)) <==> NotNumeral(raw)
    ensures GetRecipes(recipes, author, Some("abc")) == Fail(ServerError(InvalidLimit))
  {
    var s := "-" + NatToString(n);
    assert s[1..] == NatToString(n);
    ParseNatToString(n);
    assert !IsDigit(s[0]);
    assert !IsDigit("abc"[0]);
  }

  /** The embedded author of FollowSerializer: the user's fields, whether the
      requester follows them, their recipes and their recipe count. */
  datatype AuthorView = AuthorView(
    email: string,
    id: UserId,
    username: string,
    firstName: string,
    lastName: string,
    isSubscribed: bool,
    recipes: seq<Minified>,
    recipesCount: nat)

  function FollowRepresentation(db: Db, author: User, requester: Option<UserId>, limit: Option<string>): Outcome<AuthorView> {
    match GetRecipes(db.recipes, author.id, limit)
    case Fail(e) => Fail(e)
    case Ok(list) =>
      Ok(AuthorView(author.email, author.id, author.username, author.firstName, author.lastName,
                    IsSubscribed(db.follows, author.id, requester), list, RecipesCount(db.recipes, author.id)))
  }
}
