/**
 * The list handlers of App.tsx, as functions of explicit list arguments:
 * adding ingredients (one, or a batch), removing one, toggling a favourite
 * recipe, and translating the ingredient list between the English and
 * Spanish catalogues when the language changes.
 */
module IngredientLists {
  import opened Wrappers
  import opened Text
  import opened RecipeTypes

  /** `list.map(i => i.toLowerCase()).includes(item.toLowerCase())` */
  predicate ContainsIgnoringCase(list: seq<string>, item: string)
  {
    exists k :: 0 <= k < |list| && EqualsIgnoringCase(list[k], item)
  }

  /** No two entries are equal up to case. */
  ghost predicate NoCaseDuplicates(list: seq<string>)
  {
    forall i, j :: 0 <= i < j < |list| ==> !EqualsIgnoringCase(list[i], list[j])
  }

  // ---------------------------------------------------------------------------
  // handleAddIngredient
  // ---------------------------------------------------------------------------

  /**
   * `handleAddIngredient`: appends a non-empty item that is not already
   * present up to case; otherwise the list is unchanged.
   */
  function AddIngredient(list: seq<string>, item: string): (r: seq<string>)
    ensures list <= r && |r| <= |list| + 1
    ensures r != list <==> item != "" && !ContainsIgnoringCase(list, item)
    ensures r != list ==> r[|list|] == item
    ensures item != "" ==> ContainsIgnoringCase(r, item)
  {
    if item != "" && !ContainsIgnoringCase(list, item) then
      var r := list + [item];
      assert EqualsIgnoringCase(r[|list|], item);
      r
    else list
  }

  /** Adding keeps a list free of duplicates up to case, and free of empty entries. */
  lemma AddKeepsListClean(list: seq<string>, item: string)
    requires NoCaseDuplicates(list) && "" !in list
    ensures NoCaseDuplicates(AddIngredient(list, item)) && "" !in AddIngredient(list, item)
  {
    var r := AddIngredient(list, item);
    if r != list {
      forall i, j | 0 <= i < j < |r|
        ensures !EqualsIgnoringCase(r[i], r[j])
      {
        if j == |list| {
          assert !EqualsIgnoringCase(list[i], item);
        }
      }
    }
  }

  // ---------------------------------------------------------------------------
  // handleAddMultipleIngredients
  // ---------------------------------------------------------------------------

  /** `newIngredients.filter(n => !snapshot...includes(n.toLowerCase()))` */
  function NotListed(snapshot: seq<string>, batch: seq<string>): (r: seq<string>)
    ensures |r| <= |batch|
  {
    if batch == [] then []
    else if ContainsIgnoringCase(snapshot, batch[0]) then NotListed(snapshot, batch[1..])
    else [batch[0]] + NotListed(snapshot, batch[1..])
  }

  /** The filter keeps exactly the batch items the snapshot does not hold. */
  lemma {:induction false} NotListedMembers(snapshot: seq<string>, batch: seq<string>)
    ensures forall x :: x in NotListed(snapshot, batch) <==> x in batch && !ContainsIgnoringCase(snapshot, x)
  {
    if batch != [] {
      NotListedMembers(snapshot, batch[1..]);
      assert batch == [batch[0]] + batch[1..];
    }
  }

  /** Every batch item the snapshot does not hold is kept as often as the batch repeats it; the others are dropped. */
  lemma {:induction false} NotListedCounts(snapshot: seq<string>, batch: seq<string>)
    ensures forall x :: multiset(NotListed(snapshot, batch))[x] ==
                        if ContainsIgnoringCase(snapshot, x) then 0 else multiset(batch)[x]
  {
    if batch != [] {
      NotListedCounts(snapshot, batch[1..]);
      assert batch == [batch[0]] + batch[1..];
      assert multiset(batch) == multiset{batch[0]} + multiset(batch[1..]);
    }
  }

  /** The filter keeps the batch order: it distributes over concatenation. */
  lemma {:induction false} NotListedConcat(snapshot: seq<string>, a: seq<string>, b: seq<string>)
    ensures NotListed(snapshot, a + b) == NotListed(snapshot, a) + NotListed(snapshot, b)
  {
    if a != [] {
      var t := a[1..];
      assert (a + b)[0] == a[0] && (a + b)[1..] == t + b;
      var head := if ContainsIgnoringCase(snapshot, a[0]) then [] else [a[0]];
      assert NotListed(snapshot, a + b) == head + NotListed(snapshot, t + b);
      assert NotListed(snapshot, a) == head + NotListed(snapshot, t);
      NotListedConcat(snapshot, t, b);
      assert head + (NotListed(snapshot, t) + NotListed(snapshot, b))
          == (head + NotListed(snapshot, t)) + NotListed(snapshot, b);
    } else {
      assert a + b == b;
    }
  }

  /**
   * `handleAddMultipleIngredients`: the batch is filtered against the list of
   * the render (`snapshot`) and appended to the current state (`current`).
   * Duplicates within the batch itself are not filtered.
   */
  function AddMultipleIngredients(snapshot: seq<string>, current: seq<string>, batch: seq<string>): (r: seq<string>)
    ensures current <= r
    ensures r[|current|..] == NotListed(snapshot, batch)
    ensures forall x :: x in r[|current|..] <==> x in batch && !ContainsIgnoringCase(snapshot, x)
    ensures forall x :: multiset(r[|current|..])[x] == if ContainsIgnoringCase(snapshot, x) then 0 else multiset(batch)[x]
  {
    NotListedCounts(snapshot, batch);
    NotListedMembers(snapshot, batch);
    var r := current + NotListed(snapshot, batch);
    assert r[|current|..] == NotListed(snapshot, batch);
    r
  }

  /** Items of the batch that repeat one another, even up to case, are all appended. */
  lemma BatchDuplicatesKept()
    ensures AddMultipleIngredients([], [], ["Kale", "kale"]) == ["Kale", "kale"]
  {
    assert !ContainsIgnoringCase([], "kale");
  }

  /** Exact repeats within the batch are all appended too. */
  lemma BatchRepeatsKept()
    ensures AddMultipleIngredients([], [], ["Kale", "Kale"]) == ["Kale", "Kale"]
  {
    assert !ContainsIgnoringCase([], "Kale");
  }
  // ---------------------------------------------------------------------------
  // handleRemoveIngredient (and the modal's own remove)
  // ---------------------------------------------------------------------------

  /** `list.filter(i => i !== x)`: every exact, case-sensitive match goes, the rest stay. */
  function RemoveAll(list: seq<string>, x: string): (r: seq<string>)
    ensures x !in r
    ensures forall y :: y != x ==> multiset(r)[y] == multiset(list)[y]
  {
    if list == [] then []
    else
      assert list == [list[0]] + list[1..];
      if list[0] == x then RemoveAll(list[1..], x)
      else [list[0]] + RemoveAll(list[1..], x)
  }

  /** The entries that stay keep their order. */
  lemma {:induction false} RemoveAllConcat(a: seq<string>, b: seq<string>, x: string)
    ensures RemoveAll(a + b, x) == RemoveAll(a, x) + RemoveAll(b, x)
  {
    if a != [] {
      var t := a[1..];
      assert (a + b)[0] == a[0] && (a + b)[1..] == t + b;
      RemoveAllConcat(t, b, x);
      assert [a[0]] + (RemoveAll(t, x) + RemoveAll(b, x)) == ([a[0]] + RemoveAll(t, x)) + RemoveAll(b, x);
    } else {
      assert a + b == b;
    }
  }

  /** Removing an absent entry leaves the list as it was. */
  lemma {:induction false} RemoveAbsent(list: seq<string>, x: string)
    requires x !in list
    ensures RemoveAll(list, x) == list
  {
    if list != [] {
      RemoveAbsent(list[1..], x);
    }
  }

  // ---------------------------------------------------------------------------
  // handleToggleFavorite
  // ---------------------------------------------------------------------------

  /** `favs.some(r => r.id === id)` */
  predicate IsFavorite(favs: seq<Recipe>, id: string)
  {
    exists k :: 0 <= k < |favs| && favs[k].id == id
  }

  /** `favs.filter(r => r.id !== id)` (`WithoutIdMembers` states what it keeps). */
  function WithoutId(favs: seq<Recipe>, id: string): (r: seq<Recipe>)
    ensures |r| <= |favs|
  {
    if favs == [] then []
    else if favs[0].id == id then WithoutId(favs[1..], id)
    else [favs[0]] + WithoutId(favs[1..], id)
  }

  /** No recipe with the id is left, and every recipe with another id is kept. */
  lemma {:induction false} WithoutIdMembers(favs: seq<Recipe>, id: string)
    ensures !IsFavorite(WithoutId(favs, id), id)
    ensures forall f :: f in WithoutId(favs, id) <==> f in favs && f.id != id
  {
    if favs != [] {
      WithoutIdMembers(favs[1..], id);
      assert forall f :: f in favs <==> f == favs[0] || f in favs[1..];
    }
  }

  /**
   * `handleToggleFavorite`: removes every recipe with the same id if one is
   * present, otherwise appends the recipe at the end.
   */
  function ToggleFavorite(favs: seq<Recipe>, recipe: Recipe): (r: seq<Recipe>)
    ensures IsFavorite(r, recipe.id) <==> !IsFavorite(favs, recipe.id)
    ensures forall f: Recipe :: f.id != recipe.id ==> (f in r <==> f in favs)
    ensures !IsFavorite(favs, recipe.id) ==> r == favs + [recipe]
    ensures IsFavorite(favs, recipe.id) ==> r == WithoutId(favs, recipe.id)
  {
    if IsFavorite(favs, recipe.id) then
      WithoutIdMembers(favs, recipe.id);
      WithoutId(favs, recipe.id)
    else
      var r := favs + [recipe];
      assert r[|favs|].id == recipe.id;
      r
  }

  /** The filter works piecewise, so the kept recipes stay in order. */
  lemma {:induction false} WithoutIdConcat(a: seq<Recipe>, b: seq<Recipe>, id: string)
    ensures WithoutId(a + b, id) == WithoutId(a, id) + WithoutId(b, id)
  {
    if a == [] {
      assert a + b == b;
    } else {
      var t := a[1..];
      assert (a + b)[0] == a[0] && (a + b)[1..] == t + b;
      WithoutIdConcat(t, b, id);
      if a[0].id != id {
        assert [a[0]] + (WithoutId(t, id) + WithoutId(b, id)) == ([a[0]] + WithoutId(t, id)) + WithoutId(b, id);
      }
    }
  }

  lemma {:induction false} WithoutAbsentId(favs: seq<Recipe>, id: string)
    requires !IsFavorite(favs, id)
    ensures WithoutId(favs, id) == favs
  {
    if favs != [] {
      WithoutAbsentId(favs[1..], id);
    }
  }

  lemma {:induction false} WithoutIdAppend(favs: seq<Recipe>, recipe: Recipe)
    ensures WithoutId(favs + [recipe], recipe.id) == WithoutId(favs, recipe.id)
  {
    if favs == [] {
      assert [recipe][1..] == [];
    } else {
      assert (favs + [recipe])[1..] == favs[1..] + [recipe];
      WithoutIdAppend(favs[1..], recipe);
    }
  }

  /** Toggling a recipe that is not a favourite twice restores the original list. */
  lemma ToggleTwiceRestores(favs: seq<Recipe>, recipe: Recipe)
    requires !IsFavorite(favs, recipe.id)
    ensures ToggleFavorite(ToggleFavorite(favs, recipe), recipe) == favs
  {
    WithoutIdAppend(favs, recipe);
    WithoutAbsentId(favs, recipe.id);
  }

  // ---------------------------------------------------------------------------
  // Catalogue translation on a language change
  // ---------------------------------------------------------------------------

  /** `allEnIngredients`: proteins, vegetables, then carbs and fats. */
  const EnglishCatalogue: seq<string> := [
    "Chicken Breast", "Salmon", "Tofu", "Black Beans", "Greek Yogurt", "Eggs", "Lentils",
    "Broccoli", "Spinach", "Kale", "Bell Pepper", "Onion", "Tomato", "Sweet Potato", "Zucchini",
    "Quinoa", "Brown Rice", "Avocado", "Olive Oil", "Almonds", "Oats"]

  /** `allEsIngredients`, index for index the same items in Spanish. */
  const SpanishCatalogue: seq<string> := [
    "Pechuga de Pollo", "Salm\U{F3}n", "Tofu", "Frijoles Negros", "Yogur Griego", "Huevos", "Lentejas",
    "Br\U{F3}coli", "Espinacas", "Kale", "Pimiento", "Cebolla", "Tomate", "Batata", "Calabac\U{ED}n",
    "Quinoa", "Arroz Integral", "Aguacate", "Aceite de Oliva", "Almendras", "Avena"]

  /** `list.findIndex(x => x.toLowerCase() === item.toLowerCase())`, as an option. */
  function FindIndexIgnoringCase(list: seq<string>, item: string): (r: Option<nat>)
    ensures r.Some? ==> (r.value < |list| && EqualsIgnoringCase(list[r.value], item)
                         && forall k :: 0 <= k < r.value ==> !EqualsIgnoringCase(list[k], item))
    ensures r.None? <==> !ContainsIgnoringCase(list, item)
  {
    if list == [] then None
    else if EqualsIgnoringCase(list[0], item) then Some(0)
    else match FindIndexIgnoringCase(list[1..], item)
      case Some(k) => assert list[1..][k] == list[k + 1]; Some(k + 1)
      case None => None
  }

  /** `translateIngredient` for a change from `prev` to `lang`. */
  function TranslateIngredient(prev: Language, lang: Language, item: string): (r: string)
    ensures prev == lang ==> r == item
    ensures prev == En && lang == Es ==>
      (if ContainsIgnoringCase(EnglishCatalogue, item) then r in SpanishCatalogue else r == item)
    ensures prev == Es && lang == En ==>
      (if ContainsIgnoringCase(SpanishCatalogue, item) then r in EnglishCatalogue else r == item)
  {
    if prev == En && lang == Es then
      match FindIndexIgnoringCase(EnglishCatalogue, item)
      case Some(k) => SpanishCatalogue[k]
      case None => item
    else if prev == Es && lang == En then
      match FindIndexIgnoringCase(SpanishCatalogue, item)
      case Some(k) => EnglishCatalogue[k]
      case None => item
    else item
  }

  /**
   * The language-change effect: nothing happens when the language did not
   * change or a shared recipe is shown; otherwise every item is translated.
   */
  function TranslateIngredients(prev: Language, lang: Language, showingShared: bool, list: seq<string>): (r: seq<string>)
    ensures |r| == |list|
    ensures prev == lang || showingShared ==> r == list
    ensures forall k :: 0 <= k < |list| ==>
      r[k] == (if prev == lang || showingShared then list[k] else TranslateIngredient(prev, lang, list[k]))
  {
    if prev == lang || showingShared then list
    else seq(|list|, k requires 0 <= k < |list| => TranslateIngredient(prev, lang, list[k]))
  }

  /** Items outside the source catalogue are kept as they are. */
  lemma TranslateKeepsUnknown(prev: Language, lang: Language, item: string)
    requires prev == En ==> !ContainsIgnoringCase(EnglishCatalogue, item)
    requires prev == Es ==> !ContainsIgnoringCase(SpanishCatalogue, item)
    ensures TranslateIngredient(prev, lang, item) == item
  {
  }

  /** What tells the catalogue items apart: length and first two letters, up to case. */
  function CatalogueKey(s: string): (int, char, char)
    requires |s| >= 2
  {
    (|s|, LowerChar(s[0]), LowerChar(s[1]))
  }

  /** Strings whose keys differ are different up to case. */
  lemma DifferentKeyDifferentItem(a: string, b: string)
    requires |a| >= 2 && |b| >= 2
    ensures CatalogueKey(a) != CatalogueKey(b) ==> !EqualsIgnoringCase(a, b)
  {
    if EqualsIgnoringCase(a, b) {
      assert ToLower(a)[0] == ToLower(b)[0] && ToLower(a)[1] == ToLower(b)[1];
    }
  }

  /** No two items of either catalogue are equal up to case. */
  lemma CataloguesDistinct()
    ensures NoCaseDuplicates(EnglishCatalogue) && NoCaseDuplicates(SpanishCatalogue)
  {
    EnglishDistinct();
    SpanishDistinct();
  }

  lemma EnglishDistinct()
    ensures NoCaseDuplicates(EnglishCatalogue)
  {
    forall i, j | 0 <= i < j < |EnglishCatalogue|
      ensures !EqualsIgnoringCase(EnglishCatalogue[i], EnglishCatalogue[j])
    {
      DifferentKeyDifferentItem(EnglishCatalogue[i], EnglishCatalogue[j]);
    }
  }

  lemma SpanishDistinct()
    ensures NoCaseDuplicates(SpanishCatalogue)
  {
    forall i, j | 0 <= i < j < |SpanishCatalogue|
      ensures !EqualsIgnoringCase(SpanishCatalogue[i], SpanishCatalogue[j])
    {
      DifferentKeyDifferentItem(SpanishCatalogue[i], SpanishCatalogue[j]);
    }
  }

  /** In a list without duplicates up to case, an item is found at the index of its match. */
  lemma IndexOfDistinctItem(list: seq<string>, k: nat, item: string)
    requires NoCaseDuplicates(list)
    requires k < |list| && EqualsIgnoringCase(item, list[k])
    ensures FindIndexIgnoringCase(list, item) == Some(k)
  {
    assert ContainsIgnoringCase(list, item) by {
      assert EqualsIgnoringCase(list[k], item);
    }
    var j := FindIndexIgnoringCase(list, item).value;
    if j > k {
      assert EqualsIgnoringCase(list[k], item);
      assert false;
    } else if j < k {
      assert EqualsIgnoringCase(list[j], list[k]);
      assert false;
    }
  }

  /**
   * A catalogue item, in any case, maps to the item at the same index of the
   * other language's catalogue, and translating back restores the catalogue
   * spelling.
   */
  lemma TranslateCatalogueItem(k: nat, item: string)
    requires k < |EnglishCatalogue|
    ensures |EnglishCatalogue| == |SpanishCatalogue|
    ensures EqualsIgnoringCase(item, EnglishCatalogue[k]) ==>
              (TranslateIngredient(En, Es, item) == SpanishCatalogue[k]
               && TranslateIngredient(Es, En, TranslateIngredient(En, Es, item)) == EnglishCatalogue[k])
    ensures EqualsIgnoringCase(item, SpanishCatalogue[k]) ==>
              (TranslateIngredient(Es, En, item) == EnglishCatalogue[k]
               && TranslateIngredient(En, Es, TranslateIngredient(Es, En, item)) == SpanishCatalogue[k])
  {
    CataloguesDistinct();
    if EqualsIgnoringCase(item, EnglishCatalogue[k]) {
      IndexOfDistinctItem(EnglishCatalogue, k, item);
      IndexOfDistinctItem(SpanishCatalogue, k, SpanishCatalogue[k]);
    }
    if EqualsIgnoringCase(item, SpanishCatalogue[k]) {
      IndexOfDistinctItem(SpanishCatalogue, k, item);
      IndexOfDistinctItem(EnglishCatalogue, k, EnglishCatalogue[k]);
    }
  }
}
