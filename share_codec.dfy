/**
 * The share-link codec of App.tsx: `compactRecipe` maps a recipe (without
 * its image) to a versioned record with short keys and ingredient tuples,
 * and `expandRecipe` checks the version and rebuilds the full record.
 */
module ShareCodec {
  import opened Wrappers
  import opened RecipeTypes

  /** The only version the codec writes and accepts. */
  const Version: int := 1

  /** `[name, quantity, 0|1]` */
  type IngredientTuple = (string, string, int)

  /** `[protein, carbs, fats]` */
  type NutritionTuple = (string, string, string)

  /** The compact shape, field for field with its short JSON keys. */
  datatype CompactRecipe = CompactRecipe(
    v: int,
    id: string,
    n: string,
    d: string,
    g: seq<IngredientTuple>,
    i: seq<string>,
    pt: string,
    ct: string,
    c: int,
    df: string,
    h: string,
    s: int,
    nu: Option<NutritionTuple>)

  /** `expandRecipe` throws "Unsupported recipe version". */
  datatype CodecError = UnsupportedVersion

  /** `i.isStaple ? 1 : 0`: only a present `true` is truthy. */
  function StapleFlag(isStaple: Option<bool>): (flag: int)
    ensures flag == 1 <==> isStaple == Some(true)
    ensures flag == 0 || flag == 1
  {
    if isStaple == Some(true) then 1 else 0
  }

  function CompactIngredients(ings: seq<Ingredient>): (g: seq<IngredientTuple>)
    ensures |g| == |ings|
    ensures forall k :: 0 <= k < |g| ==>
      g[k] == (ings[k].name, ings[k].quantity, StapleFlag(ings[k].isStaple))
  {
    if ings == [] then []
    else [(ings[0].name, ings[0].quantity, StapleFlag(ings[0].isStaple))] + CompactIngredients(ings[1..])
  }

  function ExpandIngredients(g: seq<IngredientTuple>): (ings: seq<Ingredient>)
    ensures |ings| == |g|
    ensures forall k :: 0 <= k < |ings| ==>
      ings[k] == Ingredient(g[k].0, g[k].1, Some(g[k].2 == 1))
  {
    if g == [] then []
    else [Ingredient(g[0].0, g[0].1, Some(g[0].2 == 1))] + ExpandIngredients(g[1..])
  }

  /** `compactRecipe`; it never reads `imageUrl`. */
  function Compact(r: Recipe): (c: CompactRecipe)
    ensures c.v == Version
  {
    CompactRecipe(
      Version, r.id, r.recipeName, r.description,
      CompactIngredients(r.ingredients), r.instructions,
      r.prepTime, r.cookTime, r.calories, r.difficulty, r.healthTip, r.servings,
      match r.nutrition
      case Some(nu) => Some((nu.protein, nu.carbs, nu.fats))
      case None => None)
  }

  /** `expandRecipe`: any version other than 1 is refused, never coerced. */
  function Expand(c: CompactRecipe): (r: Result<Recipe, CodecError>)
    ensures r.Failure? <==> c.v != Version
    ensures r.Success? ==> r.value.imageUrl == None && |r.value.ingredients| == |c.g|
  {
    if c.v != Version then Failure(UnsupportedVersion)
    else
      Success(Recipe(
        c.id, c.n, c.d, ExpandIngredients(c.g), c.i, c.pt, c.ct, c.c, c.df, c.h, c.s,
        match c.nu
        case Some(t) => Some(NutritionInfo(t.0, t.1, t.2))
        case None => None,
        None))
  }

  /** `const { imageUrl, ...recipeToShare } = recipe` */
  function WithoutImage(r: Recipe): Recipe
  {
    r.(imageUrl := None)
  }

  /** What a share round trip keeps: everything but the image, with staple flags made definite. */
  function Normalized(r: Recipe): Recipe
  {
    r.(ingredients := NormalizedIngredients(r.ingredients), imageUrl := None)
  }

  function NormalizedIngredients(ings: seq<Ingredient>): (r: seq<Ingredient>)
    ensures |r| == |ings|
    ensures forall k :: 0 <= k < |ings| ==>
      r[k] == ings[k].(isStaple := Some(ings[k].isStaple == Some(true)))
  {
    seq(|ings|, k requires 0 <= k < |ings| => ings[k].(isStaple := Some(ings[k].isStaple == Some(true))))
  }

  /** Stripping the image before compaction changes nothing in the compact form. */
  lemma CompactIgnoresImage(r: Recipe)
    ensures Compact(WithoutImage(r)) == Compact(r)
  {
  }

  lemma {:induction false} ExpandCompactIngredients(ings: seq<Ingredient>)
    ensures ExpandIngredients(CompactIngredients(ings)) == NormalizedIngredients(ings)
  {
    if ings != [] {
      ExpandCompactIngredients(ings[1..]);
      assert CompactIngredients(ings)[1..] == CompactIngredients(ings[1..]);
      assert NormalizedIngredients(ings)[1..] == NormalizedIngredients(ings[1..]);
    }
  }

  /**
   * Round trip: expanding the compact form gives back the recipe in every
   * field except that the image is not carried and an absent staple flag
   * returns as `false`; order and number of ingredients and the presence of
   * nutrition are preserved.
   */
  lemma ShareRoundTrip(r: Recipe)
    ensures Expand(Compact(WithoutImage(r))) == Success(Normalized(r))
  {
    ExpandCompactIngredients(r.ingredients);
  }

  /** Tuples whose flag is 0 or 1, as `compactRecipe` writes them. */
  predicate WellFormedFlags(g: seq<IngredientTuple>)
  {
    forall k :: 0 <= k < |g| ==> g[k].2 == 0 || g[k].2 == 1
  }

  lemma {:induction false} CompactExpandIngredients(g: seq<IngredientTuple>)
    requires WellFormedFlags(g)
    ensures CompactIngredients(ExpandIngredients(g)) == g
  {
    if g != [] {
      CompactExpandIngredients(g[1..]);
      assert ExpandIngredients(g)[1..] == ExpandIngredients(g[1..]);
    }
  }

  /** The converse round trip: a version-1 record with 0/1 flags is recovered exactly. */
  lemma CompactRoundTrip(c: CompactRecipe)
    requires c.v == Version && WellFormedFlags(c.g)
    ensures Expand(c).Success? && Compact(Expand(c).value) == c
  {
    CompactExpandIngredients(c.g);
  }

  /** A shared recipe, once loaded, shares back to the same compact record. */
  lemma NormalizedIsStable(r: Recipe)
    ensures Normalized(Normalized(r)) == Normalized(r)
    ensures Compact(Normalized(r)) == Compact(r)
  {
    ShareRoundTrip(r);
    CompactFlagsWellFormed(r.ingredients);
    CompactRoundTrip(Compact(r));
  }

  lemma {:induction false} CompactFlagsWellFormed(ings: seq<Ingredient>)
    ensures WellFormedFlags(CompactIngredients(ings))
  {
    if ings != [] {
      CompactFlagsWellFormed(ings[1..]);
    }
  }
}
