/**
 * `handleGenerateRecipes` of App.tsx: refuse an empty ingredient list, ask
 * the service for recipes, give them fresh ids, then fetch one image per
 * recipe in order, writing each into the recipe with the same id and
 * stopping at the first quota error.
 */
module RecipeGeneration {
  import opened Wrappers
  import opened Text
  import opened RecipeTypes
  import opened GeminiService

  /** The error banner the handler sets. */
  datatype AppError =
    | EmptyIngredients            // t.errorEmptyIngredients
    | ServiceFailure(message: string)
    | QuotaExceededNotice         // t.errorQuotaExceeded

  /** `currentRecipes.map(r => r.id === id ? { ...r, imageUrl } : r)` */
  function WithImage(recipes: seq<Recipe>, id: string, url: string): (r: seq<Recipe>)
    ensures |r| == |recipes|
    ensures forall k :: 0 <= k < |r| ==>
      r[k] == (if recipes[k].id == id then recipes[k].(imageUrl := Some(url)) else recipes[k])
  {
    seq(|recipes|, k requires 0 <= k < |recipes| =>
      if recipes[k].id == id then recipes[k].(imageUrl := Some(url)) else recipes[k])
  }

  /** `imgErr.message.includes("quota exceeded")` */
  predicate IsQuotaFailure(result: Result<string, ServiceError>)
    ensures IsQuotaFailure(result) <==> result == Failure(ImageQuotaExceeded)
  {
    result.Failure? && (QuotaMessageIdentifiesQuota(result.error);
                        Contains(ErrorMessage(result.error), QuotaExceededText))
  }

  /**
   * The image loop from the recipe `todo[0]` on, with one image result per
   * recipe: the final recipe list and whether a quota error stopped it.
   */
  function FillFrom(recipes: seq<Recipe>, todo: seq<Recipe>, results: seq<Result<string, ServiceError>>): (r: (seq<Recipe>, bool))
    requires |results| == |todo|
    ensures |r.0| == |recipes|
    ensures r.1 <==> exists j :: 0 <= j < |results| && IsQuotaFailure(results[j])
    decreases |todo|
  {
    if todo == [] then (recipes, false)
    else if IsQuotaFailure(results[0]) then (recipes, true)
    else if results[0].Success? then FillFrom(WithImage(recipes, todo[0].id, results[0].value), todo[1..], results[1..])
    else FillFrom(recipes, todo[1..], results[1..])
  }

  /** The result of each recipe's `generateRecipeImage` call. */
  function ImageResults(replies: seq<seq<ImageReply>>): (r: seq<Result<string, ServiceError>>)
    requires forall k :: 0 <= k < |replies| ==> |replies[k]| >= MaxRetries
    ensures |r| == |replies|
  {
    seq(|replies|, k requires 0 <= k < |replies| => RetryFrom(replies[k], 1, InitialDelay).result)
  }

  /**
   * The `for ... of` loop over the generated recipes. `replies[k]` are the
   * client replies the image call for recipe `k` receives.
   */
  method FillImages(generated: seq<Recipe>, replies: seq<seq<ImageReply>>) returns (recipes: seq<Recipe>, quotaHit: bool)
    requires |replies| == |generated|
    requires forall k :: 0 <= k < |replies| ==> |replies[k]| >= MaxRetries
    ensures (recipes, quotaHit) == FillFrom(generated, generated, ImageResults(replies))
  {
    ghost var results := ImageResults(replies);
    recipes, quotaHit := generated, false;
    var i := 0;
    while i < |generated|
      invariant 0 <= i <= |generated|
      invariant FillFrom(recipes, generated[i..], results[i..]) == FillFrom(generated, generated, results)
    {
      var recipe := generated[i];
      var result, _, _ := GenerateRecipeImage(replies[i]);
      assert result == results[i];
      if result.Success? {
        recipes := WithImage(recipes, recipe.id, result.value);
      } else if Contains(ErrorMessage(result.error), QuotaExceededText) {
        quotaHit := true;
        break;
      }
      assert generated[i..][1..] == generated[i + 1..] && results[i..][1..] == results[i + 1..];
      i := i + 1;
    }
  }

  /** `generated.map(r => ({ ...r, id }))` with the ids the handler draws. */
  function WithIds(generated: seq<Recipe>, ids: seq<string>): (r: seq<Recipe>)
    requires |ids| == |generated|
    ensures |r| == |generated|
    ensures forall k :: 0 <= k < |r| ==> r[k] == generated[k].(id := ids[k])
  {
    seq(|generated|, k requires 0 <= k < |generated| => generated[k].(id := ids[k]))
  }

  /**
   * `handleGenerateRecipes`. `previous` is the recipe list before the click,
   * `call` the recipe call's outcome, `ids` the ids drawn for the generated
   * recipes and `imageReplies` the client replies of each image call.
   */
  method HandleGenerateRecipes(
    ingredients: seq<string>, previous: seq<Recipe>, call: Call<seq<Recipe>>,
    ids: seq<string>, imageReplies: seq<seq<ImageReply>>)
    returns (recipes: seq<Recipe>, error: Option<AppError>)
    requires call.Returned? ==> |ids| == |call.value| && |imageReplies| == |call.value|
    requires forall k :: 0 <= k < |imageReplies| ==> |imageReplies[k]| >= MaxRetries
    ensures ingredients == [] ==> recipes == previous && error == Some(EmptyIngredients)
    ensures ingredients != [] && call.Raised? ==>
              recipes == [] && error == Some(ServiceFailure(ErrorMessage(GenerateRecipes(ingredients, call).error)))
    ensures ingredients != [] && call.Returned? ==>
              (recipes, error == Some(QuotaExceededNotice))
                == FillFrom(WithIds(call.value, ids), WithIds(call.value, ids), ImageResults(imageReplies))
              && (error == None || error == Some(QuotaExceededNotice))
  {
    if |ingredients| == 0 {
      recipes, error := previous, Some(EmptyIngredients);
      return;
    }
    error := None;
    recipes := [];
    var generated := GenerateRecipes(ingredients, call);
    if generated.Failure? {
      error := Some(ServiceFailure(ErrorMessage(generated.error)));
      return;
    }
    var withIds := WithIds(generated.value, ids);
    var quotaHit;
    recipes, quotaHit := FillImages(withIds, imageReplies);
    if quotaHit {
      error := Some(QuotaExceededNotice);
    }
  }

  // ---------------------------------------------------------------------------
  // Properties of the image loop
  // ---------------------------------------------------------------------------

  /** `a` is `b` with at most the images changed. */
  ghost predicate SameButImages(a: seq<Recipe>, b: seq<Recipe>)
  {
    |a| == |b| && forall k :: 0 <= k < |a| ==> a[k].(imageUrl := b[k].imageUrl) == b[k]
  }

  predicate HasId(todo: seq<Recipe>, id: string)
  {
    exists j :: 0 <= j < |todo| && todo[j].id == id
  }

  /**
   * The loop changes images only: every other field of every recipe, and the
   * order and number of recipes, stay; and a recipe whose id is not among the
   * processed ones keeps its image too.
   */
  lemma {:induction false} FillChangesOnlyImages(recipes: seq<Recipe>, todo: seq<Recipe>, results: seq<Result<string, ServiceError>>)
    requires |results| == |todo|
    decreases |todo|
    ensures SameButImages(FillFrom(recipes, todo, results).0, recipes)
    ensures forall k :: 0 <= k < |recipes| && !HasId(todo, recipes[k].id) ==>
      FillFrom(recipes, todo, results).0[k] == recipes[k]
  {
    if todo != [] && !IsQuotaFailure(results[0]) {
      var next := if results[0].Success? then WithImage(recipes, todo[0].id, results[0].value) else recipes;
      FillChangesOnlyImages(next, todo[1..], results[1..]);
      var out := FillFrom(recipes, todo, results).0;
      assert out == FillFrom(next, todo[1..], results[1..]).0;
      forall k | 0 <= k < |recipes| && !HasId(todo, recipes[k].id)
        ensures out[k] == recipes[k]
      {
        assert todo[0].id != recipes[k].id;
        assert !HasId(todo[1..], recipes[k].id);
      }
    }
  }

  /** No quota error among the first `j` results. */
  predicate NoQuotaBefore(results: seq<Result<string, ServiceError>>, j: nat)
    requires j <= |results|
  {
    forall i :: 0 <= i < j ==> !IsQuotaFailure(results[i])
  }

  /**
   * The first quota error stops the loop: results after it are never looked
   * at, and the list is what the earlier recipes made of it.
   */
  lemma {:induction false} QuotaStopsLoop(recipes: seq<Recipe>, todo: seq<Recipe>, results: seq<Result<string, ServiceError>>, j: nat)
    requires |results| == |todo| && j < |todo|
    requires IsQuotaFailure(results[j]) && NoQuotaBefore(results, j)
    ensures FillFrom(recipes, todo, results) == (FillFrom(recipes, todo[..j], results[..j]).0, true)
    decreases j
  {
    if j > 0 {
      var next := if results[0].Success? then WithImage(recipes, todo[0].id, results[0].value) else recipes;
      assert !IsQuotaFailure(results[0]);
      assert todo[..j][1..] == todo[1..][..j - 1] && results[..j][1..] == results[1..][..j - 1];
      QuotaStopsLoop(next, todo[1..], results[1..], j - 1);
    }
  }

  /** The processed recipes have pairwise different ids (the handler draws fresh ones). */
  ghost predicate DistinctIds(todo: seq<Recipe>)
  {
    forall i, j :: 0 <= i < j < |todo| ==> todo[i].id != todo[j].id
  }

  /**
   * A successful image call for recipe `j`, reached before any quota error,
   * ends up in every recipe carrying that id.
   */
  lemma {:induction false} SuccessLandsInRecipe(recipes: seq<Recipe>, todo: seq<Recipe>, results: seq<Result<string, ServiceError>>, j: nat, k: nat)
    requires |results| == |todo| && j < |todo| && k < |recipes|
    requires DistinctIds(todo) && NoQuotaBefore(results, j)
    requires results[j].Success? && recipes[k].id == todo[j].id
    ensures FillFrom(recipes, todo, results).0[k].imageUrl == Some(results[j].value)
    decreases j
  {
    var next := if results[0].Success? then WithImage(recipes, todo[0].id, results[0].value) else recipes;
    assert !IsQuotaFailure(results[0]);
    assert FillFrom(recipes, todo, results).0 == FillFrom(next, todo[1..], results[1..]).0;
    assert |next| == |recipes| && next[k].id == recipes[k].id;
    if j == 0 {
      SuccessAtHead(recipes, todo, results, k);
    } else {
      DistinctTail(todo);
      NoQuotaBeforeTail(results, j);
      SuccessLandsInRecipe(next, todo[1..], results[1..], j - 1, k);
    }
  }

  /** The first recipe's image, when its call succeeds, survives the rest of the loop. */
  lemma SuccessAtHead(recipes: seq<Recipe>, todo: seq<Recipe>, results: seq<Result<string, ServiceError>>, k: nat)
    requires |results| == |todo| && 0 < |todo| && k < |recipes|
    requires DistinctIds(todo) && results[0].Success? && recipes[k].id == todo[0].id
    ensures FillFrom(WithImage(recipes, todo[0].id, results[0].value), todo[1..], results[1..]).0[k].imageUrl
            == Some(results[0].value)
  {
    var next := WithImage(recipes, todo[0].id, results[0].value);
    assert next[k].imageUrl == Some(results[0].value) && next[k].id == todo[0].id;
    TailLacksHeadId(todo);
    FillChangesOnlyImages(next, todo[1..], results[1..]);
  }

  lemma DistinctTail(todo: seq<Recipe>)
    requires |todo| > 0 && DistinctIds(todo)
    ensures DistinctIds(todo[1..])
  {
    forall i, i' | 0 <= i < i' < |todo| - 1
      ensures todo[1..][i].id != todo[1..][i'].id
    {
      assert todo[1..][i] == todo[i + 1] && todo[1..][i'] == todo[i' + 1];
    }
  }

  lemma NoQuotaBeforeTail(results: seq<Result<string, ServiceError>>, j: nat)
    requires 0 < j <= |results| && NoQuotaBefore(results, j)
    ensures NoQuotaBefore(results[1..], j - 1)
  {
    forall i | 0 <= i < j - 1
      ensures !IsQuotaFailure(results[1..][i])
    {
      assert results[1..][i] == results[i + 1];
    }
  }

  lemma TailLacksHeadId(todo: seq<Recipe>)
    requires |todo| > 0 && DistinctIds(todo)
    ensures !HasId(todo[1..], todo[0].id)
  {
    forall i | 0 <= i < |todo[1..]|
      ensures todo[1..][i].id != todo[0].id
    {
      assert todo[1..][i] == todo[i + 1];
    }
  }

  /** An empty ingredient list is refused before any call, whatever the service would answer. */
  lemma EmptyIngredientsAbort(call: Call<seq<Recipe>>)
    ensures GenerateRecipes([], call) == Failure(MissingIngredients)
  {
  }
}
