# Foodgram backend core, modelled in Dafny

This project models the business rules of the Foodgram recipe-sharing
backend (a Django REST Framework service). It covers:

- the request validators of the recipe and subscription serializers;
- recipe creation and update, including the join rows that hold each
  ingredient's amount;
- the favourite / shopping-cart toggle;
- subscribe and unsubscribe, with the author view that embeds the author's
  recipes cut to `recipes_limit`;
- the shopping-list download: grouping, summing, ordering and the exact text;
- the small pure helpers: `leight_field`, the `__str__` forms, the role
  properties, the queryset filters, the permission checks and `get_bool_env`.

The database is one in-memory object (`Store.Store`). The entity tables and the
join table are sequences of rows. The follow, favourite and cart tables are
sets of pairs, so each pair is stored at most once, which is their
`unique_together` constraint. `Store.Db.Valid` states the other declared
constraints and the facts every handler keeps:

- the primary keys of users, tags, ingredients and recipes are unique;
- recipe ids are below the next auto-increment value;
- each `(ingredient, recipe)` pair occurs once among the join rows;
- tag colours and tag slugs are unique;
- a join row points at an existing ingredient and at a recipe id already handed out;
- nobody follows themselves.

Each handler that writes to the database is a method over the store that
`modifies` it. Its effect is given by a pure function over a `Db` snapshot:
`ensures Step(s.State(), r) == XEffect(old(s.State()), ...)`. The properties
the code promises are lemmas about those functions. Failures are values of
`Outcomes.Outcome`:

- `ValidationError` is an HTTP 400;
- `NotFound` is a 404;
- `UniqueViolation` is an IntegrityError the code does not catch;
- `ServerError` is any other uncaught exception (KeyError, DoesNotExist, ValueError, TypeError).

A failing step is not undone. The model applies exactly the writes the code
performed before the exception.

Where the documentation and the code disagree, the model follows the code:

- `update` checks for a duplicate text among the requesting user's recipes, not among those of the recipe's author.
- `update` deletes the recipe's join rows before `create_update_recipes` pops `tags`. A partial update without `tags` therefore fails with KeyError after the rows are gone.
- The embedded recipe list of a subscription comes from a queryset ordered by name (`Recipe.Meta.ordering`), so the limit keeps the first recipes by name.
- `filter_is_subscribed` returns the requesting user's own recipes, not the recipes of the authors they follow.
- `filter_is_favorited` and `filter_is_in_shopping_cart` ignore the filter's value.
- The 400 branch of `delete_subscribe` cannot be reached.

Strings are compared by code point. Case folding is ASCII only.

## Model

| member | source | states |
|---|---|---|
| RecipeModels.LeightField | backend/recipes/models.py:8-12 | a name of at most 20 characters is returned unchanged; a longer one becomes exactly its first 20 characters followed by "...", 23 characters in all |
| RecipeModels.LeightFieldPrefix | backend/recipes/models.py:8-12 | the output never exceeds 23 characters and always begins with the first min(20, len) characters of the input |
| RecipeModels.LeightFieldIdempotent | backend/recipes/models.py:8-12 | truncating an already truncated name changes nothing |
| RecipeModels.StrIsLeightFieldOfName | backend/recipes/models.py:35-87 | the string forms of a tag, an ingredient and a recipe are leight_field of their names: at most 23 characters, and equal for equal names |
| RecipeModels.PairStrParts | backend/recipes/models.py:118-171 | the string form of a join, follow, favourite or cart row is its two names joined by " - ", and both names can be read back from it |
| RecipeModels.CleanFollow | backend/recipes/models.py:148-150 | Follow.clean accepts a follow if and only if the user is not the author; otherwise the error is the self-follow one |
| RecipeModels.RecipesCount | backend/users/models.py:71-73 | get_recipes_count is the number of recipes whose author is the user, never more than the number of recipes |
| RecipeModels.RecipesCountAppend | backend/users/models.py:71-73 | a new recipe adds one to its author's count and nothing to anybody else's |
| UserModels.NewUser | backend/users/models.py:27-32 | a user created without a status gets "user", one of the declared choices, so they have the user role and not the admin role |
| UserModels.RolesExclusive | backend/users/models.py:15-69 | is_user_role and is_admin_role are never both true, exactly one holds for a status from the declared choices, and neither holds for any other status |
| Store.DeleteRowsOfSpec | backend/api/serializers.py:239-241 | deleting a recipe's join rows leaves that recipe none and every other recipe's rows as they were |
| Store.RowsOfAppend | backend/api/utils.py:65-73 | the rows of one recipe in the table after a bulk insert are its old rows followed by its inserted rows |
| Store.DeleteRowsOfUnique | backend/recipes/models.py:111-116 | deleting join rows keeps the (ingredient, recipe) constraint |
| Store.Store.constructor | backend/recipes/models.py:15-216 | an empty database meets every constraint, and its first recipe id will be 1 |
| Store.Store.SetPairs | backend/api/utils.py:32-44 | replaces the favourite table or the cart table and changes nothing else |
| Utils.AddDelUnknownRecipe | backend/api/utils.py:14-16 | an unknown recipe id answers not-found before any table changes |
| Utils.AddDelPostAddsOnePair | backend/api/utils.py:24-37 | a valid POST adds exactly the pair (user, recipe) to the chosen table, changes no other table, and answers with the recipe's compact view |
| Utils.AddDelPostTwice | backend/api/utils.py:32-34 | POSTing a pair that is already stored violates the table's unique_together, which the code does not catch, and changes nothing |
| Utils.AddDelDelete | backend/api/utils.py:39-45 | DELETE of an absent pair is not-found and changes nothing; DELETE of a present pair removes exactly that pair |
| Utils.AddDelKeepsValid | backend/api/utils.py:8-50 | the toggle keeps every table constraint, whatever the outcome |
| Utils.AddDelRecipe | backend/api/utils.py:8-50 | the handler leaves the tables and answers exactly as AddDelEffect says, and keeps the constraints |
| Utils.JoinRowsFor | backend/api/utils.py:65-73 | rows are built if and only if every entry names an existing ingredient; there is then one row per entry, in order, with the entry's ingredient and amount |
| Utils.BuildJoinRows | backend/api/utils.py:65-73 | the loop that looks up each ingredient in turn builds the same rows, or none, as JoinRowsFor |
| Utils.JoinRowsForRecipe | backend/api/utils.py:65-73 | the built rows all belong to the recipe, and they meet the (ingredient, recipe) constraint exactly when the entries name distinct ingredients |
| Utils.FreshRowsKeepUnique | backend/api/utils.py:65-73 | inserting rows for a recipe that has none, from entries with distinct ingredients, keeps the (ingredient, recipe) constraint |
| Utils.MapRecipeSpec | backend/api/utils.py:58-63 | saving one recipe row keeps every row's id and the ids unique; looking up that id finds the changed row, any other id finds what it found before, and a table without the id is unchanged |
| Utils.CreateUpdateNewRecipe | backend/api/utils.py:58-59 | without an instance, a new recipe with the next id is created for the author with the request's fields and the tag set, whatever happens to the join rows afterwards |
| Utils.CreateUpdateTagsFirst | backend/api/utils.py:60-71 | the recipe's tag set is the set of the given tags even when the insert then fails; an unknown ingredient inserts no join row at all |
| Utils.CreateUpdateInsertsRows | backend/api/utils.py:65-73 | on success the join table gains exactly one row per entry, appended in order, and nothing else in it changes |
| Utils.CreateUpdateExistingFrame | backend/api/utils.py:53-75 | on an existing recipe, whatever the outcome, only the recipe and join tables change, the recipe table keeps its length and every other recipe's row, and a failure leaves the join table as it was |
| Utils.CreateUpdateKeepsValid | backend/api/utils.py:53-75 | every outcome, failures included, keeps every table constraint |
| Utils.CreateUpdateRecipes | backend/api/utils.py:53-75 | the procedure changes the tables and answers exactly as CreateUpdateEffect says, and keeps the constraints |
| Serializers.ValidateTagsSpec | backend/api/serializers.py:168-174 | tags pass if and only if they are present, non-empty and without repeats, and then come back unchanged; a missing or empty list and a list with a repeat get their own errors |
| Serializers.ScanPrefix | backend/api/serializers.py:186-197 | after a clean prefix the scan goes on with exactly the prefix's ids seen |
| Serializers.FirstRepeatRejected | backend/api/serializers.py:187-190 | scanning in order, the first entry whose id was already seen is rejected as a repeat, whatever follows it |
| Serializers.FirstMissingAmountRejected | backend/api/serializers.py:191-195 | the first entry with a new id and a missing or zero amount is rejected for its amount, whatever follows it |
| Serializers.ScanIngredientsOk | backend/api/serializers.py:186-197 | the scan passes if and only if no id repeats and every amount is present and non-zero |
| Serializers.IngredientsVerdictSpec | backend/api/serializers.py:182-199 | ingredients pass if and only if the list is non-empty, its ids are distinct and no amount is missing or 0 (negative amounts pass this check); the empty list gets its own error |
| Serializers.ValidateIngredients | backend/api/serializers.py:176-199 | the loop that appends each accepted id gives exactly the verdict above |
| Serializers.CreateFrame | backend/api/serializers.py:201-216 | whatever the outcome, create leaves users, tags, ingredients, follows, favourites and carts alone and only appends: at most one recipe, taking the next id, and join rows |
| Serializers.CreateStoresRecipe | backend/api/serializers.py:201-216 | a successful create appends one recipe with the next id, owned by the requesting user, with the request's fields and tag set, and its join rows are exactly one per entry |
| Serializers.CreateSameTextTwice | backend/api/serializers.py:206-214 | once a recipe is created, another one by the same author with the same text is refused and changes nothing |
| Serializers.CreateRecipe | backend/api/serializers.py:201-216 | create changes the tables and answers exactly as CreateEffect says (refuse a repeated text, otherwise create_update_recipes for the author), and keeps the constraints |
| Serializers.UpdateKeepsAbsentFields | backend/api/serializers.py:218-245 | after a successful update the recipe has each supplied field, keeps the old value of each absent one, keeps its author, and has the supplied tag set |
| Serializers.UpdateSucceeded | backend/api/serializers.py:239-244 | a successful update's join table is the one create_update_recipes left after the recipe's old rows were deleted |
| Serializers.UpdateFrame | backend/api/serializers.py:218-245 | whatever the outcome, update leaves users, tags, ingredients, follows, favourites, carts and the next id alone, and every other recipe's row in place and unchanged |
| Serializers.UpdateKeepsOtherRows | backend/api/serializers.py:237-242 | whatever the outcome, update leaves the join rows of every other recipe as they were |
| Serializers.UpdateReplacesJoinRows | backend/api/serializers.py:239-242 | after a successful update the recipe's join rows are exactly one per supplied entry, the old rows are gone, and every other recipe keeps its rows |
| Serializers.UpdateTextGuard | backend/api/serializers.py:226-237 | a changed text that another recipe of the requesting user has is refused and changes nothing; an unchanged text is never refused as a duplicate |
| Serializers.UpdateWithoutTagsLosesRows | backend/api/serializers.py:239-242 | every update without tags that gets past the text guard (same text, or a new text none of the requesting user's other recipes has) fails with KeyError after the recipe's join rows were deleted, so the recipe is left with no rows and its fields unchanged |
| Serializers.ValidatedUpdateNoViolation | backend/api/serializers.py:176-242 | once validate_ingredients accepts the entries, the update's insert never hits the (ingredient, recipe) constraint |
| Serializers.ClearedKeepsValid | backend/api/serializers.py:239-241 | deleting one recipe's join rows keeps every constraint |
| Serializers.UpdateKeepsValid | backend/api/serializers.py:218-245 | every outcome of an update keeps every constraint |
| Serializers.UpdateRecipe | backend/api/serializers.py:218-245 | update changes the tables and answers exactly as UpdateEffect says, and keeps the constraints |
| Serializers.ValidateFollow | backend/api/serializers.py:271-282 | a follow passes if and only if the user is not the author and does not already follow them; following oneself gets the self-follow error |
| Serializers.ValidateFollowImpliesClean | backend/api/serializers.py:271-282 | every follow the serializer accepts is also accepted by Follow.clean |
| Serializers.IsSubscribed | backend/api/serializers.py:28-38 | is_subscribed is true if and only if there is a requesting user and they follow the author |
| Serializers.ByNameTotal | backend/recipes/models.py:82 | the name order of recipes is total, so sorting by it is well defined |
| Serializers.ParseLimitNumeral | backend/api/serializers.py:290-295 | the parameter str(n) is read back as the limit n |
| Serializers.GetRecipesWithinCount | backend/api/serializers.py:284-308 | with a limit, the list holds min(limit, count) recipes, all of them the author's, ordered by name between any two positions, and never more than get_recipes_count |
| Serializers.GetRecipesUnlimited | backend/api/serializers.py:290-308 | without the parameter, or with an empty one, every recipe of the author is listed, and the list is as long as the count; a limited list is a prefix of that list |
| Serializers.GetRecipesBadLimit | backend/api/serializers.py:294-295 | a negative numeral makes the slice raise; int() raises exactly for a non-empty parameter that is neither digits nor a minus sign followed by digits |
| Views.GetSerializerClass | backend/api/views.py:137-145 | the add serializer is chosen if and only if the action is create or partial_update; every other action gets the read serializer |
| Views.AddEntryKeys | backend/api/views.py:178-181 | adding a row to the groups adds its (name, unit) key and no other |
| Views.AddEntryDistinct | backend/api/views.py:178-181 | adding a row never makes two groups with one key |
| Views.AddEntryTotal | backend/api/views.py:181 | adding a row adds its amount to the total |
| Views.AddEntrySumFor | backend/api/views.py:181 | adding a row adds its amount to its own key's sum and to no other |
| Views.AggregateSpec | backend/api/views.py:178-181 | grouping gives exactly the keys of the rows, one group per key, and the same total |
| Views.AggregateSumFor | backend/api/views.py:181 | each key's sum over the groups is its sum over the rows |
| Views.SumForDistinct | backend/api/views.py:181 | when keys are distinct, a group's amount is its key's sum |
| Views.InsertKeepsKeys | backend/api/views.py:178 | inserting a group into the name order keeps the keys and their distinctness |
| Views.InsertKeepsSums | backend/api/views.py:178-181 | inserting a group into the name order keeps every key's sum and adds its amount to the total |
| Views.SortKeepsKeys | backend/api/views.py:178 | ordering the groups by name keeps their keys and their distinctness |
| Views.SortKeepsSums | backend/api/views.py:178-181 | ordering the groups by name keeps the total and every key's sum |
| Views.EntryByNameTotal | backend/api/views.py:178 | the name order of the groups is total |
| Views.EntriesKeepAmounts | backend/api/views.py:176-181 | when every row's ingredient exists, each row gives one entry and the amounts add up to the same |
| Views.ShoppingGroupsSpec | backend/api/views.py:176-181 | the list uses only join rows of recipes in the user's cart; it has one group per (name, unit), each with the sum of its rows' amounts; the groups are in name order; their amounts add up to those of all the cart's rows |
| Views.TwoUnitsTwoLines | backend/api/views.py:178-181 | the same ingredient name with two different units gives two different lines |
| Views.RenderShoppingList | backend/api/views.py:183-185 | the loop produces the header "Список покупок {user}:\n" and then one line "\n {n}. {name} ({unit}) - {amount}" per group, numbered from 1 |
| Views.LinesCount | backend/api/views.py:184-185 | the list has exactly one line break per group, when no name or unit holds one |
| Views.SaltExample | backend/api/views.py:176-185 | 5 g and 3 g of salt in the cart of user ivan download as "Список покупок ivan:\n\n 1. соль (г) - 8" |
| Views.DownloadShoppingCart | backend/api/views.py:174-190 | the file's body is the header with the user's string form, then the lines of that user's shopping groups |
| Views.SubscribeUnknownAuthor | backend/api/views.py:49 | an unknown author answers not-found before any table changes |
| Views.SubscribeAddsOneFollow | backend/api/views.py:45-68 | a valid subscription adds exactly one follow and changes nothing else; its answer says the user is subscribed and counts all of the author's recipes; a rejected one (self or repeat) adds nothing |
| Views.SubscribeTwice | backend/api/views.py:51-68 | a second subscription to the same author is refused as a repeat and changes nothing |
| Views.SubscribeKeepsValid | backend/api/views.py:45-68 | subscribing keeps every constraint, no self-follow included |
| Views.Subscribe | backend/api/views.py:45-68 | subscribe changes the tables and answers exactly as SubscribeEffect says, and keeps the constraints |
| Views.DeleteSubscribeSpec | backend/api/views.py:70-83 | unsubscribing succeeds if and only if the follow exists, and then removes exactly that follow; otherwise it is not-found and nothing changes |
| Views.SubscribeThenDelete | backend/api/views.py:45-83 | unsubscribing right after a subscription that stored its follow gives back the tables as they were |
| Views.DeleteSubscribeKeepsValid | backend/api/views.py:70-83 | unsubscribing keeps every constraint |
| Views.DeleteSubscribe | backend/api/views.py:70-83 | delete_subscribe changes the tables and answers exactly as DeleteSubscribeEffect says, and keeps the constraints |
| Filters.IngredientNameFilterSpec | backend/api/filters.py:12-15 | the name filter keeps exactly the ingredients whose name starts with the query, ignoring case; the matches of any prefix of the table come before those of the rest, so table order is kept; the query's case does not matter; an empty query keeps everything |
| Filters.ExistsCheckRedundant | backend/api/filters.py:43-54 | the .exists() check never changes the result: without any pair of the user, the plain join is empty too |
| Filters.FilterIsFavoritedSpec | backend/api/filters.py:40-46 | an anonymous request raises; otherwise the filter keeps exactly the queryset's recipes the user has favourited, whatever the value, and nothing when the user has no favourites |
| Filters.FilterIsInShoppingCartSpec | backend/api/filters.py:48-54 | the same over the cart table, anonymous requests included |
| Filters.FilterIsSubscribedSpec | backend/api/filters.py:56-58 | an anonymous request raises; otherwise the filter keeps exactly the requesting user's own recipes, as many as their recipe count |
| Filters.FiltersNarrow | backend/api/filters.py:40-58 | every filter method that succeeds returns a sub-multiset of its queryset |
| Filters.DefaultOrderingSpec | backend/api/filters.py:61-67 | the default ordering keeps every recipe and puts them in descending order of id |
| Permissions.AdminOrReadOnlySpec | backend/api/permissions.py:10-14 | every safe method is allowed to anybody; an unsafe method is allowed exactly when the is_admin flag is set, whatever else the user is |
| Permissions.AuthorOrReadOnlySpec | backend/api/permissions.py:24-28 | access is allowed if and only if the method is safe or the user is authenticated |
| Permissions.AuthorOfObjectSpec | backend/api/permissions.py:30-31 | object access is allowed if and only if the user is the recipe's author, for every method; an anonymous user never has it |
| Settings.GetBoolEnvSpec | backend/backend/methods.py:7-11 | unset gives the default; once set the default is ignored, and the answer is true exactly for "1" and for "true" in any case |
| Settings.GetBoolEnvExamples | backend/backend/methods.py:11 | "TRUE", "True" and "1" read as true; "", "yes", "0", "false" and " true" read as false |
| Seqs.Filter | backend/api/filters.py:40-58 | a filtered queryset holds only rows of the queryset that satisfy the condition, each row that satisfies it, and never more copies than the queryset |
| Seqs.FilterCount | backend/api/filters.py:40-58 | each row occurs in a filtered queryset as often as in the queryset when it satisfies the condition, and not at all otherwise |
| Seqs.FilterAppend | backend/api/filters.py:40-58 | filtering a concatenation filters each part in turn, so the queryset's order is kept |
| Seqs.FindFirst | backend/api/utils.py:16 | a lookup finds a row if and only if some row matches, and what it finds matches |
| Seqs.ElemSetSize | backend/api/serializers.py:171 | len(set(xs)) never exceeds len(xs), and equals it exactly when nothing repeats |
| Seqs.SortSorted | backend/recipes/models.py:82 | ordering by a total comparator gives an ordered sequence |
| Text.Lower | backend/api/filters.py:14 | lower-casing keeps the length and maps each ASCII capital to its small letter |
| Text.StrLeTotal | backend/recipes/models.py:82 | any two names are ordered one way or the other |
| Text.NatToString | backend/api/views.py:185 | str(n) is a non-empty string of digits that starts with 0 only for 0 |
| Text.ParseNatToString | backend/api/views.py:185 | int(str(n)) == n |
| Text.NatToStringInjective | backend/api/views.py:185 | different numbers are rendered differently |

## Left out

- HTTP plumbing: response objects, status codes and the Content-Disposition header. Each handler returns an `Outcome`; the shopping list keeps only the body text.
- Images are opaque values (`Image`); Base64 decoding and storage are not modelled.
- The djoser user endpoints, tokens, and the `subscriptions` list view with its pagination (backend/api/views.py:35-38, 85-106).
- Transactions and concurrency: one request runs at a time and nothing is rolled back. Whether `ATOMIC_REQUESTS` would undo a failed step is not part of this model.
- Utils.AddDelEffect: the serializer's validation of the POST body is a boolean parameter; its field checks are not modelled.
- Utils.CreateUpdateEffect: the `tags` and `ingredientin_recipe` keys are passed as separate optional parameters. Their removal from the caller's `validated_data` is not modelled, because nothing reads that dictionary afterwards.
- Serializers.ValidateIngredients: ids are compared as integers. JSON type coercion of raw `initial_data` values, where "1" and 1 differ, is not modelled.
- Serializers.ParseLimit: only numerals with an optional leading minus are read. Other spellings that Python's int() accepts (surrounding spaces, a plus sign, underscores, non-ASCII digits) are reported as `InvalidLimit`.
- Serializers.IsSubscribed: the requester is a user id or nothing. An anonymous user object in the request is not modelled. The RecipeFilter methods do take an anonymous requester, as `None`.
- Views.ShoppingGroups: the ingredient name order is code-point order, not the database collation. Groups with the same name keep no particular order, as with SQL ORDER BY on a non-unique column.
- Serializers.GetRecipes: recipes with equal names keep no particular order, as with SQL ORDER BY on a non-unique column, so which of them a limit keeps is not defined; names are compared by code point, not by the database collation.
- Text.Lower: lower-casing and `istartswith` are ASCII only; Unicode case folding is not modelled.
- Permissions.AdminOrReadOnlySpec: `is_admin` is not defined on the user model, so the model takes it as an opaque flag of the requester.
- DRF's `|` composition of the permission classes (backend/api/views.py:134) is not modelled. Each class is modelled on its own.
- RecipeSerializer's read-side fields (get_ingredients, get_is_favorited, get_is_in_shopping_cart) and `to_representation` are not modelled.
- The declared `tags` and `author` filters of RecipeFilter are not modelled (backend/api/filters.py:23-27, 38). They are declarations handled by django-filter.
- Field lengths and the email and username validators of the models are not modelled.
- The admin configuration, the migration, the ingredient loading script and the URL table are not modelled.

