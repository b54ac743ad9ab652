/** backend/api/views.py: the serializer choice of RecipesViewSet, the
    shopping-list download (aggregation of the cart's join rows and the text
    it renders), and subscribe / delete_subscribe. */
module Views {
  import opened Outcomes
  import opened Seqs
  import opened Text
  import opened UserModels
  import opened RecipeModels
  import opened Store
  import opened Serializers

  // ---------------------------------------------------------------------
  // RecipesViewSet.get_serializer_class

  datatype SerializerClass = RecipeSerializer | RecipeAddSerializer

  function GetSerializerClass(action: string): (c: SerializerClass)
    ensures c == RecipeAddSerializer <==> action == "create" || action == "partial_update"
    ensures c == RecipeSerializer <==> action != "create" && action != "partial_update"
  {
    if action in ["create", "partial_update"] then RecipeAddSerializer else RecipeSerializer
  }

  // ---------------------------------------------------------------------
  // download_shopping_cart: the query

  /** One row of the shopping query: ingredient name, measurement unit and amount. */
  datatype Entry = Entry(name: string, unit: string, amount: nat)

  /** The join rows of the recipes in `user`'s cart, in table order. */
  function CartRows(rows: seq<IngredientInRecipe>, carts: set<(UserId, RecipeId)>, user: UserId): seq<IngredientInRecipe> {
    Filter(rows, (row: IngredientInRecipe) => (user, row.recipe) in carts)
  }

  /** Each join row with its ingredient's name and unit (the join with the
      ingredient table, which drops a row whose ingredient is missing). */
  function Entries(ingredients: seq<Ingredient>, rows: seq<IngredientInRecipe>): seq<Entry> {
    if rows == [] then []
    else
      var rest := Entries(ingredients, rows[1..]);
      match FindIngredient(ingredients, rows[0].ingredient)
      case None => rest
      case Some(ing) => [Entry(ing.name, ing.measurementUnit, rows[0].amount)] + rest
  }

  /** The sum of the amounts of some join rows. */
  function RowsAmount(rows: seq<IngredientInRecipe>): nat {
    if rows == [] then 0 else rows[0].amount + RowsAmount(rows[1..])
  }

  /** The sum of the amounts of some entries or groups. */
  function TotalAmount(es: seq<Entry>): nat {
    if es == [] then 0 else es[0].amount + TotalAmount(es[1..])
  }

  /** The sum of the amounts of the entries with this name and unit. */
  function SumFor(es: seq<Entry>, name: string, unit: string): nat {
    if es == [] then 0
    else (if es[0].name == name && es[0].unit == unit then es[0].amount else 0) + SumFor(es[1..], name, unit)
  }

  /** The (name, unit) pairs that occur. */
  function Keys(es: seq<Entry>): set<(string, string)> {
    set i | 0 <= i < |es| :: (es[i].name, es[i].unit)
  }

  /** No two groups share a name and a unit. */
  predicate DistinctKeys(es: seq<Entry>) {
    forall i, j :: 0 <= i < j < |es| ==> es[i].name != es[j].name || es[i].unit != es[j].unit
  }

  /** Adds one entry to its (name, unit) group, or opens a new group for it. */
  function AddEntry(groups: seq<Entry>, e: Entry): seq<Entry> {
    if groups == [] then [e]
    else if groups[0].name == e.name && groups[0].unit == e.unit then
      [groups[0].(amount := groups[0].amount + e.amount)] + groups[1..]
    else [groups[0]] + AddEntry(groups[1..], e)
  }

  /** values_list('ingredient__name', 'ingredient__measurement_unit')
      .annotate(amount=Sum('amount')): one group per (name, unit) pair. */
  function Aggregate(es: seq<Entry>): seq<Entry> {
    if es == [] then [] else AddEntry(Aggregate(es[1..]), es[0])
  }

  /** order_by('ingredient__name'). */
  predicate EntryByName(a: Entry, b: Entry) {
    StrLe(a.name, b.name)
  }

  /** What the query yields for `user`: the groups of their cart's rows in name order. */
  function ShoppingGroups(db: Db, user: UserId): seq<Entry> {
    Sort(Aggregate(Entries(db.ingredients, CartRows(db.joinRows, db.carts, user))), EntryByName)
  }

  // Facts about the aggregation.

  lemma KeysCons(e: Entry, es: seq<Entry>)
    ensures Keys([e] + es) == {(e.name, e.unit)} + Keys(es)
  {
    var s := [e] + es;
    forall k | k in Keys(s) ensures k in {(e.name, e.unit)} + Keys(es) {
      var i :| 0 <= i < |s| && k == (s[i].name, s[i].unit);
      if i > 0 {
        assert s[i] == es[i - 1];
        assert k == (es[i - 1].name, es[i - 1].unit);
      }
    }
    forall k | k in {(e.name, e.unit)} + Keys(es) ensures k in Keys(s) {
      if k == (e.name, e.unit) {
        assert k == (s[0].name, s[0].unit);
      } else {
        var i :| 0 <= i < |es| && k == (es[i].name, es[i].unit);
        assert s[i + 1] == es[i];
        assert k == (s[i + 1].name, s[i + 1].unit);
      }
    }
  }

  lemma DistinctKeysCons(e: Entry, es: seq<Entry>)
    ensures DistinctKeys([e] + es) <==> DistinctKeys(es) && (e.name, e.unit) !in Keys(es)
  {
    var s := [e] + es;
    if DistinctKeys(s) {
      forall i, j | 0 <= i < j < |es| ensures es[i].name != es[j].name || es[i].unit != es[j].unit {
        assert s[i + 1] == es[i] && s[j + 1] == es[j];
      }
      forall j | 0 <= j < |es| ensures (es[j].name, es[j].unit) != (e.name, e.unit) {
        assert s[0] == e && s[j + 1] == es[j];
      }
    }
    if DistinctKeys(es) && (e.name, e.unit) !in Keys(es) {
      forall i, j | 0 <= i < j < |s| ensures s[i].name != s[j].name || s[i].unit != s[j].unit {
        assert s[j] == es[j - 1];
        if i > 0 { assert s[i] == es[i - 1]; }
        else { assert (s[j].name, s[j].unit) in Keys(es); }
      }
    }
  }

  /** Adding an entry adds its key to the keys. */
  lemma {:induction false} AddEntryKeys(groups: seq<Entry>, e: Entry)
    ensures Keys(AddEntry(groups, e)) == Keys(groups) + {(e.name, e.unit)}
  {
    if groups == [] {
      KeysCons(e, []);
    } else if groups[0].name == e.name && groups[0].unit == e.unit {
      KeysCons(groups[0].(amount := groups[0].amount + e.amount), groups[1..]);
      KeysCons(groups[0], groups[1..]);
      assert groups == [groups[0]] + groups[1..];
    } else {
      AddEntryKeys(groups[1..], e);
      KeysCons(groups[0], AddEntry(groups[1..], e));
      KeysCons(groups[0], groups[1..]);
      assert groups == [groups[0]] + groups[1..];
    }
  }

  /** Adding an entry never makes two groups with one key. */
  lemma {:induction false} AddEntryDistinct(groups: seq<Entry>, e: Entry)
    requires DistinctKeys(groups)
    ensures DistinctKeys(AddEntry(groups, e))
  {
    if groups == [] {
      DistinctKeysCons(e, []);
    } else {
      assert groups == [groups[0]] + groups[1..];
      DistinctKeysCons(groups[0], groups[1..]);
      if groups[0].name == e.name && groups[0].unit == e.unit {
        DistinctKeysCons(groups[0].(amount := groups[0].amount + e.amount), groups[1..]);
      } else {
        AddEntryDistinct(groups[1..], e);
        AddEntryKeys(groups[1..], e);
        DistinctKeysCons(groups[0], AddEntry(groups[1..], e));
      }
    }
  }

  /** Adding an entry adds its amount to the total. */
  lemma {:induction false} AddEntryTotal(groups: seq<Entry>, e: Entry)
    ensures TotalAmount(AddEntry(groups, e)) == TotalAmount(groups) + e.amount
  {
    if groups != [] && !(groups[0].name == e.name && groups[0].unit == e.unit) {
      AddEntryTotal(groups[1..], e);
    }
  }

  /** Adding an entry adds its amount to its own key's sum and to no other. */
  lemma {:induction false} AddEntrySumFor(groups: seq<Entry>, e: Entry, name: string, unit: string)
    ensures SumFor(AddEntry(groups, e), name, unit) ==
            SumFor(groups, name, unit) + (if e.name == name && e.unit == unit then e.amount else 0)
  {
    if groups != [] && !(groups[0].name == e.name && groups[0].unit == e.unit) {
      AddEntrySumFor(groups[1..], e, name, unit);
    }
  }

  /** The groups have exactly the keys of the entries, one group per key,
      each key's sum is the sum of its entries, and nothing is lost. */
  lemma {:induction false} AggregateSpec(es: seq<Entry>)
    ensures Keys(Aggregate(es)) == Keys(es)
    ensures DistinctKeys(Aggregate(es))
    ensures TotalAmount(Aggregate(es)) == TotalAmount(es)
  {
    if es != [] {
      AggregateSpec(es[1..]);
      AddEntryKeys(Aggregate(es[1..]), es[0]);
      AddEntryDistinct(Aggregate(es[1..]), es[0]);
      AddEntryTotal(Aggregate(es[1..]), es[0]);
      KeysCons(es[0], es[1..]);
      assert es == [es[0]] + es[1..];
    } else {
      assert Keys([]) == {};
    }
  }

  lemma {:induction false} AggregateSumFor(es: seq<Entry>, name: string, unit: string)
    ensures SumFor(Aggregate(es), name, unit) == SumFor(es, name, unit)
  {
    if es != [] {
      AggregateSumFor(es[1..], name, unit);
      AddEntrySumFor(Aggregate(es[1..]), es[0], name, unit);
    }
  }

  /** With distinct keys, a group's sum is its own amount. */
  lemma {:induction false} SumForDistinct(gs: seq<Entry>, i: nat)
    requires DistinctKeys(gs) && i < |gs|
    ensures SumFor(gs, gs[i].name, gs[i].unit) == gs[i].amount
  {
    assert gs == [gs[0]] + gs[1..];
    DistinctKeysCons(gs[0], gs[1..]);
    if i == 0 {
      SumForAbsent(gs[1..], gs[0].name, gs[0].unit);
    } else {
      SumForDistinct(gs[1..], i - 1);
      assert gs[1..][i - 1] == gs[i];
      assert (gs[i].name, gs[i].unit) in Keys(gs[1..]);
    }
  }

  lemma {:induction false} SumForAbsent(es: seq<Entry>, name: string, unit: string)
    requires (name, unit) !in Keys(es)
    ensures SumFor(es, name, unit) == 0
  {
    if es != [] {
      assert es == [es[0]] + es[1..];
      KeysCons(es[0], es[1..]);
      SumForAbsent(es[1..], name, unit);
    }
  }

  /** Insertion (and so sorting) moves groups around without changing keys,
      distinctness, sums or the total. */
  lemma {:induction false} InsertKeepsKeys(x: Entry, s: seq<Entry>)
    ensures Keys(Insert(x, s, EntryByName)) == Keys([x] + s)
    ensures DistinctKeys(Insert(x, s, EntryByName)) == DistinctKeys([x] + s)
  {
    if s != [] && !EntryByName(x, s[0]) {
      var t := s[1..];
      InsertKeepsKeys(x, t);
      var it := Insert(x, t, EntryByName);
      assert s == [s[0]] + t;
      KeysCons(s[0], it);
      KeysCons(x, t);
      KeysCons(x, s);
      KeysCons(s[0], t);
      DistinctKeysCons(s[0], it);
      DistinctKeysCons(x, s);
      DistinctKeysCons(s[0], t);
      DistinctKeysCons(x, t);
      DistinctKeysCons(s[0], [x] + t);
      KeysCons(s[0], [x] + t);
      DistinctKeysCons(x, [s[0]] + t);
    }
  }

  lemma {:induction false} InsertKeepsSums(x: Entry, s: seq<Entry>, name: string, unit: string)
    ensures TotalAmount(Insert(x, s, EntryByName)) == x.amount + TotalAmount(s)
    ensures SumFor(Insert(x, s, EntryByName), name, unit) == SumFor([x] + s, name, unit)
  {
    if s != [] && !EntryByName(x, s[0]) {
      InsertKeepsSums(x, s[1..], name, unit);
      assert ([x] + s)[1..] == s;
    }
  }

  lemma {:induction false} SortKeepsKeys(s: seq<Entry>)
    ensures Keys(Sort(s, EntryByName)) == Keys(s)
    ensures DistinctKeys(Sort(s, EntryByName)) == DistinctKeys(s)
  {
    if s != [] {
      var t := s[1..];
      SortKeepsKeys(t);
      InsertKeepsKeys(s[0], Sort(t, EntryByName));
      KeysCons(s[0], Sort(t, EntryByName));
      KeysCons(s[0], t);
      DistinctKeysCons(s[0], Sort(t, EntryByName));
      DistinctKeysCons(s[0], t);
      assert s == [s[0]] + t;
    }
  }

  lemma {:induction false} SortKeepsSums(s: seq<Entry>, name: string, unit: string)
    ensures TotalAmount(Sort(s, EntryByName)) == TotalAmount(s)
    ensures SumFor(Sort(s, EntryByName), name, unit) == SumFor(s, name, unit)
  {
    if s != [] {
      SortKeepsSums(s[1..], name, unit);
      InsertKeepsSums(s[0], Sort(s[1..], EntryByName), name, unit);
    }
  }

  lemma EntryByNameTotal()
    ensures Seqs.Total(EntryByName)
  {
    forall a: Entry, b: Entry ensures EntryByName(a, b) || EntryByName(b, a) {
      StrLeTotal(a.name, b.name);
    }
  }

  /** When every join row's ingredient exists, every row becomes one entry
      and the amounts add up to the same. */
  lemma {:induction false} EntriesKeepAmounts(ingredients: seq<Ingredient>, rows: seq<IngredientInRecipe>)
    requires forall i :: 0 <= i < |rows| ==> FindIngredient(ingredients, rows[i].ingredient).Some?
    ensures |Entries(ingredients, rows)| == |rows|
    ensures TotalAmount(Entries(ingredients, rows)) == RowsAmount(rows)
  {
    if rows != [] {
      assert forall i :: 1 <= i < |rows| ==> rows[1..][i - 1] == rows[i];
      EntriesKeepAmounts(ingredients, rows[1..]);
    }
  }

  /** The shopping list of `user`: one group per (name, unit) among the
      ingredients of the recipes in their cart, each with the sum of those
      rows' amounts, in name order; the amounts of all groups add up to the
      amounts of all the cart's join rows. */
  lemma ShoppingGroupsSpec(db: Db, user: UserId)
    requires db.Valid()
    ensures var rows := CartRows(db.joinRows, db.carts, user);
      var es := Entries(db.ingredients, rows);
      var groups := ShoppingGroups(db, user);
      && (forall i :: 0 <= i < |rows| ==> (user, rows[i].recipe) in db.carts && rows[i] in db.joinRows)
      && Keys(groups) == Keys(es)
      && DistinctKeys(groups)
      && (forall i :: 0 <= i < |groups| ==> groups[i].amount == SumFor(es, groups[i].name, groups[i].unit))
      && (forall i :: 0 < i < |groups| ==> StrLe(groups[i - 1].name, groups[i].name))
      && TotalAmount(groups) == RowsAmount(rows)
  {
    var rows := CartRows(db.joinRows, db.carts, user);
    var es := Entries(db.ingredients, rows);
    var agg := Aggregate(es);
    var groups := ShoppingGroups(db, user);
    AggregateSpec(es);
    SortKeepsKeys(agg);
    SortKeepsSums(agg, "", "");
    EntryByNameTotal();
    SortSorted(agg, EntryByName);
    forall i | 0 <= i < |groups| ensures groups[i].amount == SumFor(es, groups[i].name, groups[i].unit) {
      SumForDistinct(groups, i);
      SortKeepsSums(agg, groups[i].name, groups[i].unit);
      AggregateSumFor(es, groups[i].name, groups[i].unit);
    }
    forall i | 0 < i < |groups| ensures StrLe(groups[i - 1].name, groups[i].name) {
      assert EntryByName(groups[i - 1], groups[i]);
    }
    forall i | 0 <= i < |rows| ensures FindIngredient(db.ingredients, rows[i].ingredient).Some? {
      var k :| 0 <= k < |db.joinRows| && db.joinRows[k] == rows[i];
    }
    EntriesKeepAmounts(db.ingredients, rows);
  }

  /** The same ingredient name with two different units gives two lines. */
  lemma TwoUnitsTwoLines(es: seq<Entry>, i: nat, j: nat)
    requires i < |es| && j < |es|
    requires es[i].name == es[j].name && es[i].unit != es[j].unit
    ensures var groups := Sort(Aggregate(es), EntryByName);
      exists p, q :: 0 <= p < |groups| && 0 <= q < |groups| && p != q &&
        groups[p].name == es[i].name && groups[p].unit == es[i].unit &&
        groups[q].name == es[j].name && groups[q].unit == es[j].unit
  {
    AggregateSpec(es);
    SortKeepsKeys(Aggregate(es));
    var groups := Sort(Aggregate(es), EntryByName);
    assert (es[i].name, es[i].unit) in Keys(es);
    assert (es[j].name, es[j].unit) in Keys(es);
    var p :| 0 <= p < |groups| && (groups[p].name, groups[p].unit) == (es[i].name, es[i].unit);
    var q :| 0 <= q < |groups| && (groups[q].name, groups[q].unit) == (es[j].name, es[j].unit);
  }

  // ---------------------------------------------------------------------
  // download_shopping_cart: the text

  function Header(username: string): string {
    "Список покупок " + username + ":\n"
  }

  /** The line of the n-th group. */
  function Line(n: nat, g: Entry): string {
    "\n " + NatToString(n) + ". " + g.name + " (" + g.unit + ") - " + NatToString(g.amount)
  }

  /** The lines of the groups, numbered from 1. */
  function Lines(groups: seq<Entry>): string {
    if groups == [] then "" else Lines(groups[..|groups| - 1]) + Line(|groups|, groups[|groups| - 1])
  }

  /** The loop of download_shopping_cart, appending one line per group. */
  method RenderShoppingList(username: string, groups: seq<Entry>) returns (text: string)
    ensures text == Header(username) + Lines(groups)
  {
    text := Header(username);
    for i := 0 to |groups|
      invariant text == Header(username) + Lines(groups[..i])
    {
      assert groups[..i + 1][..i] == groups[..i];
      text := text + Line(i + 1, groups[i]);
    }
    assert groups[..|groups|] == groups;
  }

  /** How many times c occurs in s. */
  function Count(s: string, c: char): nat {
    if s == [] then 0 else (if s[0] == c then 1 else 0) + Count(s[1..], c)
  }

  lemma {:induction false} CountAppend(a: string, b: string, c: char)
    ensures Count(a + b, c) == Count(a, c) + Count(b, c)
  {
    if a != [] {
      assert (a + b)[1..] == a[1..] + b;
      CountAppend(a[1..], b, c);
    } else {
      assert a + b == b;
    }
  }

  lemma {:induction false} CountDigits(s: string)
    requires AllDigits(s)
    ensures Count(s, '\n') == 0
  {
    if s != [] {
      CountDigits(s[1..]);
    }
  }

  /** One line break per group: each line opens with one, when no name or
      unit holds a line break of its own. */
  lemma {:induction false} LinesCount(groups: seq<Entry>)
    requires forall i :: 0 <= i < |groups| ==> Count(groups[i].name, '\n') == 0 && Count(groups[i].unit, '\n') == 0
    ensures Count(Lines(groups), '\n') == |groups|
  {
    if groups != [] {
      var n := |groups|;
      var g := groups[n - 1];
      LinesCount(groups[..n - 1]);
      CountDigits(NatToString(n));
      CountDigits(NatToString(g.amount));
      var parts := ["\n ", NatToString(n), ". ", g.name, " (", g.unit, ") - ", NatToString(g.amount)];
      CountAppend("\n ", NatToString(n), '\n');
      CountAppend("\n " + NatToString(n), ". ", '\n');
      CountAppend("\n " + NatToString(n) + ". ", g.name, '\n');
      CountAppend("\n " + NatToString(n) + ". " + g.name, " (", '\n');
      CountAppend("\n " + NatToString(n) + ". " + g.name + " (", g.unit, '\n');
      CountAppend("\n " + NatToString(n) + ". " + g.name + " (" + g.unit, ") - ", '\n');
      CountAppend("\n " + NatToString(n) + ". " + g.name + " (" + g.unit + ") - ", NatToString(g.amount), '\n');
      CountAppend(Lines(groups[..n - 1]), Line(n, g), '\n');
    }
  }

  /** A cart with 5 g and 3 g of salt, for user ivan, downloads as one line of 8 g. */
  lemma SaltExample()
    ensures var groups := Sort(Aggregate([Entry("соль", "г", 5), Entry("соль", "г", 3)]), EntryByName);
      && groups == [Entry("соль", "г", 8)]
      && Header("ivan") + Lines(groups) == "Список покупок ivan:\n\n 1. соль (г) - 8"
  {
    SaltGroups();
    SaltText();
  }

  lemma SaltGroups()
    ensures Sort(Aggregate([Entry("соль", "г", 5), Entry("соль", "г", 3)]), EntryByName) == [Entry("соль", "г", 8)]
  {
    var salt := [Entry("соль", "г", 5), Entry("соль", "г", 3)];
    assert Aggregate(salt[1..]) == [Entry("соль", "г", 3)];
    assert Aggregate(salt) == [Entry("соль", "г", 8)];
    assert Sort([Entry("соль", "г", 8)], EntryByName) == [Entry("соль", "г", 8)];
  }

  lemma SaltText()
    ensures Header("ivan") + Lines([Entry("соль", "г", 8)]) == "Список покупок ivan:\n\n 1. соль (г) - 8"
  {
    assert Lines([Entry("соль", "г", 8)]) == Line(1, Entry("соль", "г", 8));
    assert NatToString(1) == "1";
    assert NatToString(8) == "8";
  }

  /** download_shopping_cart: the body of the text file for the requesting user. */
  method DownloadShoppingCart(s: Store, user: User) returns (text: string)
    ensures text == Header(UserStr(user)) + Lines(ShoppingGroups(s.State(), user.id))
  {
    var groups := ShoppingGroups(s.State(), user.id);
    text := RenderShoppingList(UserStr(user), groups);
  }

  // ---------------------------------------------------------------------
  // subscribe and delete_subscribe

  /** What subscribe does: 404 for an unknown author; the serializer's
      validation error, changing nothing; otherwise the follow row is created
      and then the author is rendered (which can still raise on a bad
      recipes_limit, after the row was stored). */
  function SubscribeEffect(db: Db, user: UserId, authorId: UserId, rawLimit: Option<string>): Step<AuthorView> {
    match FindUser(db.users, authorId)
    case None => Step(db, Fail(NotFound))
    case Some(author) =>
      match ValidateFollow(user, authorId, db.follows)
      case Fail(e) => Step(db, Fail(e))
      case Ok(_) =>
        var after := db.(follows := db.follows + {(user, authorId)});
        Step(after, FollowRepresentation(after, author, Some(user), rawLimit))
  }

  /** An unknown author is reported before anything changes. */
  lemma SubscribeUnknownAuthor(db: Db, user: UserId, authorId: UserId, rawLimit: Option<string>)
    requires forall i :: 0 <= i < |db.users| ==> db.users[i].id != authorId
    ensures SubscribeEffect(db, user, authorId, rawLimit) == Step(db, Fail(NotFound))
  {
  }

  /** A validated subscription adds exactly the one follow (user, author);
      the answer, when it renders, says the user is subscribed and counts all
      of the author's recipes. A rejected one adds nothing. */
  lemma SubscribeAddsOneFollow(db: Db, user: UserId, authorId: UserId, rawLimit: Option<string>)
    requires FindUser(db.users, authorId).Some?
    ensures var step := SubscribeEffect(db, user, authorId, rawLimit);
      && (user != authorId && (user, authorId) !in db.follows ==>
            && step.db == db.(follows := db.follows + {(user, authorId)})
            && |step.db.follows| == |db.follows| + 1
            && (step.out.Ok? ==>
                  step.out.value.isSubscribed && step.out.value.id == authorId &&
                  step.out.value.recipesCount == RecipesCount(db.recipes, authorId)))
      && (user == authorId ==> step == Step(db, Fail(ValidationError(SelfFollow))))
      && ((user, authorId) in db.follows ==> step.db == db && step.out.Fail?)
  {
  }

  /** Subscribing twice: the second attempt is refused as a repeat. */
  lemma SubscribeTwice(db: Db, user: UserId, authorId: UserId, rawLimit: Option<string>)
    ensures var first := SubscribeEffect(db, user, authorId, rawLimit);
      first.db != db ==>
        SubscribeEffect(first.db, user, authorId, rawLimit) == Step(first.db, Fail(ValidationError(AlreadyFollowing)))
  {
  }

  lemma SubscribeKeepsValid(db: Db, user: UserId, authorId: UserId, rawLimit: Option<string>)
    requires db.Valid()
    ensures SubscribeEffect(db, user, authorId, rawLimit).db.Valid()
  {
  }

  method Subscribe(s: Store, user: UserId, authorId: UserId, rawLimit: Option<string>) returns (r: Outcome<AuthorView>)
    requires s.Valid()
    modifies s
    ensures s.Valid()
    ensures Step(s.State(), r) == SubscribeEffect(old(s.State()), user, authorId, rawLimit)
  {
    SubscribeKeepsValid(s.State(), user, authorId, rawLimit);
    var author := FindUser(s.users, authorId);
    if author.None? {
      return Fail(NotFound);
    }
    var verdict := ValidateFollow(user, authorId, s.follows);
    if verdict.Fail? {
      return Fail(verdict.error);
    }
    s.follows := s.follows + {(user, authorId)};
    r := FollowRepresentation(s.State(), author.value, Some(user), rawLimit);
  }

  /** What delete_subscribe does: 404 when the follow does not exist,
      otherwise it is removed. (The 400 branch cannot be reached: delete()
      returns a non-empty tuple.) */
  function DeleteSubscribeEffect(db: Db, user: UserId, authorId: UserId): Step<()> {
    if (user, authorId) !in db.follows then Step(db, Fail(NotFound))
    else Step(db.(follows := db.follows - {(user, authorId)}), Ok(()))
  }

  /** Unsubscribing removes exactly that follow, or reports it missing. */
  lemma DeleteSubscribeSpec(db: Db, user: UserId, authorId: UserId)
    ensures var step := DeleteSubscribeEffect(db, user, authorId);
      && (step.out.Ok? <==> (user, authorId) in db.follows)
      && (step.out.Ok? ==> step.db.follows == db.follows - {(user, authorId)} && |step.db.follows| == |db.follows| - 1)
      && (step.out.Fail? ==> step == Step(db, Fail(NotFound)))
      && step.db == db.(follows := step.db.follows)
  {
  }

  /** Unsubscribing right after a subscription that stored its follow gives
      back the tables as they were. */
  lemma SubscribeThenDelete(db: Db, user: UserId, authorId: UserId, rawLimit: Option<string>)
    ensures var first := SubscribeEffect(db, user, authorId, rawLimit);
      first.db != db ==> DeleteSubscribeEffect(first.db, user, authorId) == Step(db, Ok(()))
  {
    var first := SubscribeEffect(db, user, authorId, rawLimit);
    if first.db != db {
      assert (user, authorId) !in db.follows;
      assert first.db.follows - {(user, authorId)} == db.follows;
    }
  }

  lemma DeleteSubscribeKeepsValid(db: Db, user: UserId, authorId: UserId)
    requires db.Valid()
    ensures DeleteSubscribeEffect(db, user, authorId).db.Valid()
  {
  }

  method DeleteSubscribe(s: Store, user: UserId, authorId: UserId) returns (r: Outcome<()>)
    requires s.Valid()
    modifies s
    ensures s.Valid()
    ensures Step(s.State(), r) == DeleteSubscribeEffect(old(s.State()), user, authorId)
  {
    if (user, authorId) !in s.follows {
      return Fail(NotFound);
    }
    s.follows := s.follows - {(user, authorId)};
    r := Ok(());
  }
}
