/**
 * components/DifficultyMeter.tsx: a difficulty is shown as a level from 1
 * to 5, drawn as five bars of which the first `level` are filled.
 */
module DifficultyMeter {
  import opened Wrappers
  import opened RecipeTypes

  /** `maxLevel`: the number of bars. */
  const MaxLevel := 5

  /** The `difficultyLevels` table. */
  function LevelOf(d: Difficulty): (n: nat)
    ensures 1 <= n <= MaxLevel
  {
    match d
    case VeryEasy => 1
    case Easy => 2
    case Medium => 3
    case Hard => 4
    case Expert => 5
  }

  /** The difficulties from easiest to hardest, as the `Difficulty` union lists them. */
  const Scale: seq<Difficulty> := [VeryEasy, Easy, Medium, Hard, Expert]

  /** The table numbers the scale 1, 2, ..., 5: each level is one more than the last. */
  lemma LevelIsPosition(i: nat)
    requires i < |Scale|
    ensures LevelOf(Scale[i]) == i + 1
    ensures i > 0 ==> LevelOf(Scale[i]) == LevelOf(Scale[i - 1]) + 1
  {
  }

  /** Every difficulty is on the scale, at the position its level gives. */
  lemma ScaleCoversDifficulties(d: Difficulty)
    ensures |Scale| == MaxLevel && Scale[LevelOf(d) - 1] == d
  {
  }

  /** `difficultyLevels[difficulty] || 1`: an unknown string falls back to level 1. */
  function MeterLevel(difficulty: string): (level: nat)
    ensures 1 <= level <= MaxLevel
    ensures ParseDifficulty(difficulty).None? ==> level == 1
    ensures ParseDifficulty(difficulty).Some? ==> level == LevelOf(ParseDifficulty(difficulty).value)
  {
    match ParseDifficulty(difficulty)
    case Some(d) => LevelOf(d)
    case None => 1
  }

  /** `n` bars, bar `i` filled when `i < level`. */
  function FillFlags(n: nat, level: int): (bars: seq<bool>)
    ensures |bars| == n
  {
    seq(n, i requires 0 <= i < n => i < level)
  }

  /** The meter's bars, left to right. */
  function Bars(level: int): (bars: seq<bool>)
    ensures |bars| == MaxLevel
  {
    FillFlags(MaxLevel, level)
  }

  /** How many bars are filled. */
  function CountFilled(bars: seq<bool>): (n: nat)
    ensures n <= |bars|
  {
    if bars == [] then 0 else CountFilled(bars[..|bars| - 1]) + (if bars[|bars| - 1] then 1 else 0)
  }

  /** The filled bars form a prefix whose length is the level, cut to `0..n`. */
  lemma {:induction false} FilledCountIsLevel(n: nat, level: int)
    ensures CountFilled(FillFlags(n, level)) == if level < 0 then 0 else if level > n then n else level
  {
    if n > 0 {
      assert FillFlags(n, level)[..n - 1] == FillFlags(n - 1, level);
      FilledCountIsLevel(n - 1, level);
    }
  }

  /** The meter fills exactly as many bars as the difficulty's level, all on the left. */
  lemma MeterShowsLevel(difficulty: string)
    ensures CountFilled(Bars(MeterLevel(difficulty))) == MeterLevel(difficulty)
    ensures forall i, j :: 0 <= i < j < MaxLevel && Bars(MeterLevel(difficulty))[j] ==> Bars(MeterLevel(difficulty))[i]
  {
    FilledCountIsLevel(MaxLevel, MeterLevel(difficulty));
  }
}
