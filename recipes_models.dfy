/** The recipe models (backend/recipes/models.py): the rows of the tag,
    ingredient, recipe, join, follow, favourite and cart tables, the name
    truncation used by every __str__, Follow.clean, and the uniqueness
    constraints the tables declare. */
module RecipeModels {
  import opened Outcomes
  import opened Seqs
  import opened UserModels

  type TagId = int
  type IngredientId = int
  type RecipeId = int

  /** Names longer than this are cut in their string form. */
  const PREVIEW_LENGTH: nat := 20
  const ELLIPSIS: string := "..."

  // ---------------------------------------------------------------------
  // leight_field

  /** The display form of a name: short names unchanged, long ones cut to
      their first 20 characters followed by "...". */
  function LeightField(field: string): (r: string)
    ensures |field| <= PREVIEW_LENGTH ==> r == field
    ensures |field| > PREVIEW_LENGTH ==> |r| == PREVIEW_LENGTH + 3
    ensures |field| > PREVIEW_LENGTH ==> r[..PREVIEW_LENGTH] == field[..PREVIEW_LENGTH] && r[PREVIEW_LENGTH..] == ELLIPSIS
  {
    if |field| > PREVIEW_LENGTH then field[..PREVIEW_LENGTH] + ELLIPSIS else field
  }

  /** The display form never exceeds 23 characters and always begins with the
      first min(20, len) characters of the name. */
  lemma LeightFieldPrefix(field: string)
    ensures |LeightField(field)| <= PREVIEW_LENGTH + 3
    ensures var k := if |field| < PREVIEW_LENGTH then |field| else PREVIEW_LENGTH;
            LeightField(field)[..k] == field[..k]
  {
  }

  /** Cutting an already cut name changes nothing. */
  lemma LeightFieldIdempotent(field: string)
    ensures LeightField(LeightField(field)) == LeightField(field)
  {
    var r := LeightField(field);
    if |field| > PREVIEW_LENGTH {
      assert r[..PREVIEW_LENGTH] == field[..PREVIEW_LENGTH];
      assert r == r[..PREVIEW_LENGTH] + ELLIPSIS;
    }
  }

  // ---------------------------------------------------------------------
  // Rows

  datatype Tag = Tag(id: TagId, name: string, color: string, slug: string)

  datatype Ingredient = Ingredient(id: IngredientId, name: string, measurementUnit: string)

  /** The uploaded picture; the model never looks inside it. */
  datatype Image = Image(path: string)

  /** The scalar fields a request supplies for a recipe. */
  datatype RecipeFields = RecipeFields(name: string, text: string, image: Image, cookingTime: int)

  /** A recipe row together with its tag set (the many-to-many table to Tag). */
  datatype Recipe = Recipe(
    id: RecipeId,
    author: UserId,
    name: string,
    text: string,
    image: Image,
    cookingTime: int,
    tags: set<TagId>)

  /** A row of the recipe-ingredient join table with its amount. */
  datatype IngredientInRecipe = IngredientInRecipe(ingredient: IngredientId, recipe: RecipeId, amount: nat)

  /** The compact projection (id, name, image, cooking_time) of RecipeMinifiedSerializer. */
  datatype Minified = Minified(id: RecipeId, name: string, image: Image, cookingTime: int)

  function Minify(r: Recipe): (m: Minified)
    ensures m.id == r.id && m.name == r.name && m.image == r.image && m.cookingTime == r.cookingTime
  {
    Minified(r.id, r.name, r.image, r.cookingTime)
  }

  // ---------------------------------------------------------------------
  // __str__ and clean

  function TagStr(t: Tag): string { LeightField(t.name) }
  function IngredientStr(i: Ingredient): string { LeightField(i.name) }
  function RecipeStr(r: Recipe): string { LeightField(r.name) }

  /** Tags, ingredients and recipes all show their name through leight_field,
      so two of them with the same name show the same string. */
  lemma StrIsLeightFieldOfName(t: Tag, i: Ingredient, r: Recipe)
    ensures TagStr(t) == LeightField(t.name) && |TagStr(t)| <= PREVIEW_LENGTH + 3
    ensures IngredientStr(i) == LeightField(i.name) && |IngredientStr(i)| <= PREVIEW_LENGTH + 3
    ensures RecipeStr(r) == LeightField(r.name) && |RecipeStr(r)| <= PREVIEW_LENGTH + 3
    ensures t.name == r.name ==> TagStr(t) == RecipeStr(r)
  {
    LeightFieldPrefix(t.name);
    LeightFieldPrefix(i.name);
    LeightFieldPrefix(r.name);
  }

  /** The string form of a join, follow, favourite or cart row: the two
      related names (ingredient and recipe, user and author, user and
      recipe) joined by " - ". */
  function PairStr(left: string, right: string): string {
    left + " - " + right
  }

  /** The two names can be read back from a row's string form. */
  lemma PairStrParts(left: string, right: string)
    ensures var r := PairStr(left, right);
      && |r| == |left| + |right| + 3
      && r[..|left|] == left
      && r[|left|..|left| + 3] == " - "
      && r[|left| + 3..] == right
  {
  }

  /** Follow.clean: a user may not follow themselves. */
  function CleanFollow(user: UserId, author: UserId): (r: Outcome<()>)
    ensures r.Ok? <==> user != author
    ensures r.Fail? ==> r.error == ValidationError(SelfFollow)
  {
    if user == author then Fail(ValidationError(SelfFollow)) else Ok(())
  }

  // ---------------------------------------------------------------------
  // Table constraints

  /** UniqueConstraint(ingredient, recipe) on the join table. */
  predicate UniqueJoinRows(rows: seq<IngredientInRecipe>) {
    forall i, j :: 0 <= i < j < |rows| ==>
      rows[i].ingredient != rows[j].ingredient || rows[i].recipe != rows[j].recipe
  }

  /** unique=True on Tag.color and on Tag.slug. */
  predicate UniqueTagFields(tags: seq<Tag>) {
    forall i, j :: 0 <= i < j < |tags| ==>
      tags[i].color != tags[j].color && tags[i].slug != tags[j].slug
  }

  /** No two rows with the same primary key. */
  predicate UniqueTagIds(tags: seq<Tag>) {
    forall i, j :: 0 <= i < j < |tags| ==> tags[i].id != tags[j].id
  }

  predicate UniqueRecipeIds(recipes: seq<Recipe>) {
    forall i, j :: 0 <= i < j < |recipes| ==> recipes[i].id != recipes[j].id
  }

  predicate UniqueIngredientIds(ingredients: seq<Ingredient>) {
    forall i, j :: 0 <= i < j < |ingredients| ==> ingredients[i].id != ingredients[j].id
  }

  predicate UniqueUserIds(users: seq<User>) {
    forall i, j :: 0 <= i < j < |users| ==> users[i].id != users[j].id
  }

  // ---------------------------------------------------------------------
  // user.recipe (the reverse relation of Recipe.author)

  /** The recipes whose author is the given user, in table order. */
  function AuthorRecipes(recipes: seq<Recipe>, author: UserId): seq<Recipe> {
    Filter(recipes, (r: Recipe) => r.author == author)
  }

  /** FoodgramUser.get_recipes_count: how many recipes the user authored. */
  function RecipesCount(recipes: seq<Recipe>, author: UserId): (n: nat)
    ensures n <= |recipes|
    ensures n == |AuthorRecipes(recipes, author)|
  {
    |AuthorRecipes(recipes, author)|
  }

  /** The count adds one for each recipe of the author and nothing for the others. */
  lemma {:induction false} RecipesCountAppend(recipes: seq<Recipe>, r: Recipe, author: UserId)
    ensures RecipesCount(recipes + [r], author) ==
            RecipesCount(recipes, author) + (if r.author == author then 1 else 0)
  {
    if recipes != [] {
      assert (recipes + [r])[1..] == recipes[1..] + [r];
      RecipesCountAppend(recipes[1..], r, author);
    } else {
      assert [r][1..] == [];
    }
  }
}
