/**
 * The entities of types.ts. Every field of `Recipe` is required except
 * `nutrition` and `imageUrl`; an ingredient's `isStaple` flag is optional,
 * so it has three states (absent, true, false).
 */
module RecipeTypes {
  import opened Wrappers

  /** The five difficulty values of the `Difficulty` union type. */
  datatype Difficulty = VeryEasy | Easy | Medium | Hard | Expert

  /** The string literal that stands for each difficulty. */
  function DifficultyName(d: Difficulty): string
  {
    match d
    case VeryEasy => "Very Easy"
    case Easy => "Easy"
    case Medium => "Medium"
    case Hard => "Hard"
    case Expert => "Expert"
  }

  /** Which difficulty a runtime string names, if any. */
  function ParseDifficulty(s: string): Option<Difficulty>
  {
    if s == "Very Easy" then Some(VeryEasy)
    else if s == "Easy" then Some(Easy)
    else if s == "Medium" then Some(Medium)
    else if s == "Hard" then Some(Hard)
    else if s == "Expert" then Some(Expert)
    else None
  }

  /** Exactly five strings are difficulties, and each names exactly one value. */
  lemma DifficultyNamesBijective(s: string, d: Difficulty)
    ensures ParseDifficulty(DifficultyName(d)) == Some(d)
    ensures ParseDifficulty(s) == Some(d) <==> s == DifficultyName(d)
    ensures ParseDifficulty(s).Some? <==> s in {"Very Easy", "Easy", "Medium", "Hard", "Expert"}
  {
  }

  /** The two languages of the user interface (`'en' | 'es'`). */
  datatype Language = En | Es

  datatype NutritionInfo = NutritionInfo(protein: string, carbs: string, fats: string)

  datatype Ingredient = Ingredient(name: string, quantity: string, isStaple: Option<bool>)

  /**
   * A recipe. `difficulty` is the string the program holds at run time: the
   * declared type is `Difficulty`, but values arrive from parsed JSON that is
   * never validated, so consumers fall back for unknown strings.
   * `calories` and `servings` are unconstrained numbers (no sign is assumed).
   */
  datatype Recipe = Recipe(
    id: string,
    recipeName: string,
    description: string,
    ingredients: seq<Ingredient>,
    instructions: seq<string>,
    prepTime: string,
    cookTime: string,
    calories: int,
    difficulty: string,
    healthTip: string,
    servings: int,
    nutrition: Option<NutritionInfo>,
    imageUrl: Option<string>)
}
