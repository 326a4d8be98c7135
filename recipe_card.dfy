/**
 * The text helpers of the PDF export in components/RecipeCard.tsx: the
 * difficulty level and label, the bar fill, the ingredient and instruction
 * lines and the file name; and the `isDownloadingPdf` flag around the export.
 */
module RecipeCard {
  import opened Wrappers
  import opened Text
  import opened RecipeTypes
  import opened DifficultyMeter

  /** `difficultyMap[recipe.difficulty] || 3`: the PDF falls back to Medium's level. */
  function PdfLevel(difficulty: string): (level: nat)
    ensures 1 <= level <= MaxLevel
    ensures ParseDifficulty(difficulty).None? ==> level == LevelOf(Medium)
    ensures ParseDifficulty(difficulty).Some? ==> level == LevelOf(ParseDifficulty(difficulty).value)
  {
    match ParseDifficulty(difficulty)
    case Some(d) => LevelOf(d)
    case None => 3
  }

  /** The PDF and the on-screen meter agree except on unknown difficulties, where they always differ. */
  lemma PdfAndMeterLevels(difficulty: string)
    ensures PdfLevel(difficulty) == MeterLevel(difficulty) <==> ParseDifficulty(difficulty).Some?
    ensures ParseDifficulty(difficulty).None? ==> MeterLevel(difficulty) == 1 && PdfLevel(difficulty) == 3
  {
  }

  /** One entry of `difficultyTextMap`. */
  function DifficultyLabel(d: Difficulty, language: Language): (caption: string)
    ensures language == En ==> caption == DifficultyName(d)
    ensures caption != ""
  {
    match (d, language)
    case (VeryEasy, Es) => "Muy F\U{E1}cil"
    case (Easy, Es) => "F\U{E1}cil"
    case (Medium, Es) => "Media"
    case (Hard, Es) => "Dif\U{ED}cil"
    case (Expert, Es) => "Experta"
    case (_, En) => DifficultyName(d)
  }

  /** `(difficultyTextMap[recipe.difficulty] || difficultyTextMap['Medium'])[language]` */
  function PdfLabel(difficulty: string, language: Language): (caption: string)
    ensures ParseDifficulty(difficulty).None? ==> caption == DifficultyLabel(Medium, language)
    ensures ParseDifficulty(difficulty).Some? ==> caption == DifficultyLabel(ParseDifficulty(difficulty).value, language)
  {
    match ParseDifficulty(difficulty)
    case Some(d) => DifficultyLabel(d, language)
    case None => DifficultyLabel(Medium, language)
  }

  /** The English label is the difficulty itself; an unknown difficulty reads as Medium. */
  lemma EnglishLabelIsName(difficulty: string)
    ensures ParseDifficulty(difficulty).Some? ==> PdfLabel(difficulty, En) == difficulty
    ensures ParseDifficulty(difficulty).None? ==> PdfLabel(difficulty, En) == "Medium"
  {
    if ParseDifficulty(difficulty).Some? {
      DifficultyNamesBijective(difficulty, ParseDifficulty(difficulty).value);
    }
  }

  /** Different difficulties get different labels in each language. */
  lemma LabelsDistinct(a: Difficulty, b: Difficulty, language: Language)
    requires a != b
    ensures DifficultyLabel(a, language) != DifficultyLabel(b, language)
  {
  }

  /** The PDF's five bars: bar `i` filled when `i < level`; as many filled as the level. */
  lemma PdfBarsShowLevel(difficulty: string)
    ensures |Bars(PdfLevel(difficulty))| == MaxLevel
    ensures forall i :: 0 <= i < MaxLevel ==> (Bars(PdfLevel(difficulty))[i] <==> i < PdfLevel(difficulty))
    ensures CountFilled(Bars(PdfLevel(difficulty))) == PdfLevel(difficulty)
  {
    FilledCountIsLevel(MaxLevel, PdfLevel(difficulty));
  }

  /** `ing.isStaple ? (language === 'es' ? ' (sugerido)' : ' (suggested)') : ''` */
  function StapleText(isStaple: Option<bool>, language: Language): (note: string)
    ensures note != "" <==> isStaple == Some(true)
    ensures note != "" ==> |note| > 2 && note[..2] == " (" && note[|note| - 1] == ')'
  {
    if isStaple == Some(true) then (if language == Es then " (sugerido)" else " (suggested)") else ""
  }

  /** `` `• ${ing.quantity} ${ing.name}${stapleText}` `` */
  function IngredientLine(ing: Ingredient, language: Language): (line: string)
    ensures |line| == 3 + |ing.quantity| + |ing.name| + |StapleText(ing.isStaple, language)|
    ensures line[..2] == "\U{2022} " && line[2..2 + |ing.quantity|] == ing.quantity
    ensures line[2 + |ing.quantity|] == ' '
    ensures line[3 + |ing.quantity|..3 + |ing.quantity| + |ing.name|] == ing.name
    ensures line[3 + |ing.quantity| + |ing.name|..] == StapleText(ing.isStaple, language)
  {
    "\U{2022} " + ing.quantity + " " + ing.name + StapleText(ing.isStaple, language)
  }

  /** Only a staple flagged true gets the note, and the note follows the language. */
  lemma StapleNoteOnlyWhenFlagged(ing: Ingredient, language: Language)
    ensures StapleText(ing.isStaple, language) != "" <==> ing.isStaple == Some(true)
    ensures ing.isStaple != Some(true) ==>
              IngredientLine(ing, En) == IngredientLine(ing, Es)
  {
  }

  /** `` `${index + 1}. ${step}` `` for every step, in order. */
  function InstructionLines(steps: seq<string>): (lines: seq<string>)
    ensures |lines| == |steps|
  {
    seq(|steps|, k requires 0 <= k < |steps| => DecimalString(k + 1) + ". " + steps[k])
  }

  /**
   * Line `k` is the number `k + 1` in decimal, then ". ", then step `k`:
   * the digits before the first '.' read back as `k + 1`.
   */
  lemma InstructionNumbering(steps: seq<string>, k: nat)
    requires k < |steps|
    ensures var line := InstructionLines(steps)[k];
            var n := |DecimalString(k + 1)|;
            n + 2 <= |line| && ParseDecimal(line[..n]) == k + 1
            && '.' !in line[..n] && line[n..n + 2] == ". " && line[n + 2..] == steps[k]
  {
    var line := InstructionLines(steps)[k];
    var digits := DecimalString(k + 1);
    var n := |digits|;
    assert line[..n] == digits;
    assert line[n..n + 2] == ". ";
    assert line[n + 2..] == steps[k];
    DecimalRoundTrip(k + 1);
  }

  /** `` `${recipe.recipeName.replace(/\s+/g, '_').toLowerCase()}.pdf` `` */
  function PdfFileName(recipeName: string): (name: string)
    ensures |name| >= 4 && name[|name| - 4..] == ".pdf"
    ensures forall k :: 0 <= k < |name| ==> !IsWhitespace(name[k])
    ensures |name| <= |recipeName| + 4
    ensures name[..|name| - 4] == ToLower(ReplaceWhitespaceRuns(recipeName, '_'))
    ensures forall k :: 0 <= k < |name| ==> LowerChar(name[k]) == name[k]
  {
    var base := ToLower(ReplaceWhitespaceRuns(recipeName, '_'));
    LowerKeepsNonWhitespace(ReplaceWhitespaceRuns(recipeName, '_'));
    base + ".pdf"
  }

  /** Lowercasing never produces whitespace from a non-whitespace character. */
  lemma LowerKeepsNonWhitespace(s: string)
    requires forall k :: 0 <= k < |s| ==> !IsWhitespace(s[k])
    ensures forall k :: 0 <= k < |ToLower(s)| ==> !IsWhitespace(ToLower(s)[k])
  {
  }

  /** Two words separated by a space: both are lowered and the space becomes '_'. */
  lemma TwoWordName(a: string, b: string)
    requires forall k :: 0 <= k < |a| ==> !IsWhitespace(a[k])
    requires forall k :: 0 <= k < |b| ==> !IsWhitespace(b[k])
    ensures PdfFileName(a + " " + b) == ToLower(a) + "_" + ToLower(b) + ".pdf"
  {
    RunBecomesUnderscore(a, " ", b);
    ReplaceWithoutWhitespace(b, '_');
    assert ToLower(a + "_" + b) == ToLower(a) + "_" + ToLower(b);
  }

  /** "Green Salad" is saved as "green_salad.pdf". */
  lemma CapitalisedNameLowered(recipeName: string)
    requires recipeName == "Green Salad"
    ensures PdfFileName(recipeName) == "green_salad.pdf"
  {
    var a, b := "Green", "Salad";
    assert forall k :: 0 <= k < |a| ==> !IsWhitespace(a[k]);
    assert forall k :: 0 <= k < |b| ==> !IsWhitespace(b[k]);
    TwoWordName(a, b);
    assert a + " " + b == recipeName;
    assert ToLower(a) == "green" && ToLower(b) == "salad";
  }

  /** A lower-case name without whitespace is kept as it is. */
  lemma PlainNameKept(recipeName: string)
    requires forall k :: 0 <= k < |recipeName| ==> !IsWhitespace(recipeName[k]) && LowerChar(recipeName[k]) == recipeName[k]
    ensures PdfFileName(recipeName) == recipeName + ".pdf"
  {
    ReplaceWithoutWhitespace(recipeName, '_');
  }

  /** A whitespace run between two words becomes one '_'. */
  lemma RunBecomesUnderscore(a: string, run: string, b: string)
    requires run != [] && AllWhitespace(run)
    requires b == [] || !IsWhitespace(b[0])
    requires forall k :: 0 <= k < |a| ==> !IsWhitespace(a[k])
    ensures ReplaceWhitespaceRuns(a + run + b, '_') == a + "_" + ReplaceWhitespaceRuns(b, '_')
  {
    var rest := run + b;
    ReplaceAfterWord(a, rest);
    ReplaceRun(run, b, '_');
    var tail := ReplaceWhitespaceRuns(b, '_');
    assert ReplaceWhitespaceRuns(rest, '_') == ['_'] + tail;
    assert a + run + b == a + rest;
    assert a + (['_'] + tail) == a + "_" + tail;
  }

  lemma {:induction false} ReplaceAfterWord(a: string, s: string)
    requires forall k :: 0 <= k < |a| ==> !IsWhitespace(a[k])
    ensures ReplaceWhitespaceRuns(a + s, '_') == a + ReplaceWhitespaceRuns(s, '_')
    decreases |a|
  {
    if a != [] {
      var whole := a + s;
      assert whole[0] == a[0] && whole[1..] == a[1..] + s;
      assert ReplaceWhitespaceRuns(whole, '_') == [a[0]] + ReplaceWhitespaceRuns(a[1..] + s, '_');
      ReplaceAfterWord(a[1..], s);
      assert [a[0]] + (a[1..] + ReplaceWhitespaceRuns(s, '_')) == a + ReplaceWhitespaceRuns(s, '_');
    } else {
      assert a + s == s;
    }
  }

  /** The export's flag: true while the PDF is built, false afterwards. */
  class PdfExport {
    var isDownloadingPdf: bool
    /** Every value written to the flag, in order. */
    ghost var flagWrites: seq<bool>

    constructor()
      ensures !isDownloadingPdf && flagWrites == []
    {
      isDownloadingPdf := false;
      flagWrites := [];
    }

    /**
     * `handleDownloadPdf`. `fails` says whether building the document throws;
     * the result is the file saved, if any. The flag is set first and reset
     * in `finally`, so it ends false whether or not the export fails.
     */
    method DownloadPdf(recipe: Recipe, fails: bool) returns (saved: Option<string>)
      modifies this
      ensures !isDownloadingPdf
      ensures flagWrites == old(flagWrites) + [true, false]
      ensures fails ==> saved == None
      ensures !fails ==> saved == Some(PdfFileName(recipe.recipeName))
    {
      isDownloadingPdf := true;
      flagWrites := flagWrites + [true];
      saved := None;
      if !fails {
        saved := Some(PdfFileName(recipe.recipeName));
      }
      isDownloadingPdf := false;
      flagWrites := flagWrites + [false];
    }
  }
}
