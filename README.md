# NutriChefAI core, modelled in Dafny

NutriChefAI is a React application that asks a generative model for recipes
built from the user's ingredients, illustrates each with a generated image,
and lets the user share, save and export recipes as PDF. This project models
its deterministic core and proves properties of it:

- the share-link codec (`compactRecipe` / `expandRecipe` in `App.tsx`) with
  its version guard and round trip;
- the ingredient and favourites list handlers of `App.tsx`: the
  case-insensitive add, the batch add, the remove and the favourite toggle;
  the English/Spanish catalogue translation; and the image-fill loop of
  `handleGenerateRecipes`;
- the service layer (`services/geminiService.ts`) with the generative client
  replaced by supplied outcomes. The single-attempt recipe and
  identification calls are modelled with their error mapping. The image
  call's retry loop is a method, proved against a specification function:
  at most three attempts, sleeps of 1000 ms then 2000 ms, and failing fast
  on quota and API-key errors;
- the comma-separated ingredient entry (`components/IngredientInput.tsx`),
  as a parser plus a class holding the text box's state;
- the confirmation dialog (`components/ConfirmationModal.tsx`) as a class
  with open/reset, remove, confirm and close;
- the difficulty meter (`components/DifficultyMeter.tsx`) and the PDF text
  helpers and busy flag of `components/RecipeCard.tsx`.

One module per source file or concern:

- `Wrappers`: `Option` and `Result`.
- `Text`: the JavaScript string operations the code relies on:
  - `includes`, `toLowerCase`, `trim`;
  - `split` and `join`;
  - `replace(/\s+/g, …)`;
  - decimal formatting.
- `RecipeTypes`: the records of `types.ts`.
- `ShareCodec`.
- `IngredientLists`.
- `RecipeGeneration`.
- `GeminiService`.
- `IngredientEntry`.
- `ConfirmationDialog`.
- `DifficultyMeter`.
- `RecipeCard`.

Modelling choices:

- React state that the source replaces wholesale (lists of ingredients,
  recipes and favourites) is modelled as function arguments and results.
- State that a component keeps and updates step by step is a class field:
  - the text box;
  - the dialog's list and open flag;
  - the PDF busy flag.
- `Recipe.difficulty` is kept as a string. Its declared type is the
  `Difficulty` union, but values come from parsed JSON and are never
  checked. Both difficulty lookups therefore have a fallback for other
  strings, and the model includes those fallbacks.
- The recipe ids (`recipe-${Date.now()}-${Math.random()}`) are a supplied
  sequence. The lemma about where a successful image lands assumes these
  ids are pairwise different.

## Model

| member | source | states |
|---|---|---|
| RecipeTypes.DifficultyNamesBijective | types.ts:1 | exactly the five strings "Very Easy", "Easy", "Medium", "Hard", "Expert" are difficulties, and each names exactly one value |
| ShareCodec.StapleFlag | App.tsx:93 | the tuple's flag is 1 exactly when `isStaple` is present and true, otherwise 0 |
| ShareCodec.CompactIngredients | App.tsx:93 | one tuple per ingredient, in order: its name, its quantity and its 0/1 staple flag |
| ShareCodec.ExpandIngredients | App.tsx:111-115 | one ingredient per tuple, in order: its name, its quantity, and a staple flag that is present and true exactly when the tuple's flag is 1 |
| ShareCodec.Compact | App.tsx:87-103 | the compact record always carries version 1 |
| ShareCodec.Expand | App.tsx:105-129 | fails exactly when the version is not 1; on success the image is absent and the ingredient count is kept |
| ShareCodec.CompactIgnoresImage | App.tsx:337 | stripping `imageUrl` before compaction does not change the compact record |
| ShareCodec.ExpandCompactIngredients | App.tsx:93-114 | expanding compacted ingredients gives them back in order, with an absent staple flag turned into `false` |
| ShareCodec.ShareRoundTrip | App.tsx:87-129 | expand(compact(recipe without image)) succeeds and equals the recipe in every field except that the image is not carried and absent staple flags become false; ingredient order and count and the presence of nutrition are kept |
| ShareCodec.CompactExpandIngredients | App.tsx:93-114 | compacting expanded tuples whose flags are 0 or 1 gives the tuples back |
| ShareCodec.CompactRoundTrip | App.tsx:105-129 | a version-1 compact record with 0/1 flags expands successfully and compacts back to itself |
| ShareCodec.CompactFlagsWellFormed | App.tsx:93 | compaction writes only 0/1 flags |
| ShareCodec.NormalizedIsStable | App.tsx:87-129 | a recipe loaded from a link shares back to the same compact record, and a second round trip changes nothing |
| Text.ToLower | App.tsx:239 | same length; each character lowercased on its own |
| Text.TrimStartShape | components/IngredientInput.tsx:17 | the result is a suffix of the input, the dropped prefix is all whitespace, and the result does not start with whitespace |
| Text.TrimEndShape | components/IngredientInput.tsx:17 | the result is a prefix of the input, the dropped suffix is all whitespace, and the result does not end with whitespace |
| Text.Trim | components/IngredientInput.tsx:17 | neither end of the result is whitespace |
| Text.TrimShape | components/IngredientInput.tsx:17 | the input is whitespace, then the trimmed text, then whitespace |
| Text.TrimIdempotent | components/IngredientInput.tsx:17-19 | trimming twice is trimming once |
| Text.Split | components/IngredientInput.tsx:19 | at least one piece, and no piece contains the separator |
| Text.JoinSplit | components/IngredientInput.tsx:19 | joining the pieces with the separator gives the input back |
| Text.SplitAtSeparator | components/IngredientInput.tsx:19 | splitting `a + sep + b` is splitting `a` followed by splitting `b` |
| Text.ReplaceWhitespaceRuns | components/RecipeCard.tsx:300 | the result contains no whitespace and is no longer than the input |
| Text.ReplaceWithoutWhitespace | components/RecipeCard.tsx:300 | text without whitespace is unchanged |
| Text.ReplaceRun | components/RecipeCard.tsx:300 | a whole whitespace run becomes one replacement character |
| Text.DecimalString | components/RecipeCard.tsx:258 | decimal digits only, no leading zero |
| Text.DecimalRoundTrip | components/RecipeCard.tsx:258 | reading the decimal string back gives the number |
| Text.OccurrenceIsContained | services/geminiService.ts:164 | `includes` holds when the text occurs at some position |
| Text.MissingCharNotContained | services/geminiService.ts:164 | `includes` fails when a character of the pattern is absent from the text |
| IngredientLists.AddIngredient | App.tsx:238-242 | the list is extended by at most the item itself; it changes exactly when the item is non-empty and not already present ignoring case; afterwards a non-empty item is present |
| IngredientLists.AddKeepsListClean | App.tsx:238-242 | a list free of empty entries and case-insensitive duplicates stays so |
| IngredientLists.NotListedMembers | App.tsx:245-247 | keeps exactly the batch items not present, ignoring case, in the existing list |
| IngredientLists.NotListedConcat | App.tsx:245-247 | the filter keeps batch order |
| IngredientLists.NotListedCounts | App.tsx:245-247 | the filter keeps each unlisted batch item as often as the batch has it and drops every listed one |
| IngredientLists.AddMultipleIngredients | App.tsx:244-249 | the current list is kept as a prefix and the appended part is the batch filter: in batch order, each batch item not already listed (in any case) kept as many times as the batch repeats it, every listed one dropped |
| IngredientLists.BatchDuplicatesKept | App.tsx:244-249 | duplicates within the batch itself are not filtered ("Kale", "kale" both kept) |
| IngredientLists.BatchRepeatsKept | App.tsx:244-249 | exact repeats in the batch ("Kale", "Kale") are both appended |
| IngredientLists.RemoveAll | App.tsx:251-253 | the removed string is gone and every other string keeps its number of occurrences |
| IngredientLists.RemoveAllConcat | App.tsx:251-253 | removal works piecewise, so the kept items stay in order |
| IngredientLists.RemoveAbsent | App.tsx:251-253 | removing an absent item changes nothing |
| IngredientLists.WithoutIdMembers | App.tsx:257-259 | no recipe with the id is left and every other recipe is kept |
| IngredientLists.WithoutIdConcat | App.tsx:259 | the id filter works piecewise, so the kept favourites stay in order |
| IngredientLists.ToggleFavorite | App.tsx:255-264 | the recipe's favourite status flips; an absent recipe is appended at the end as given, a present one is removed together with every entry sharing its id, and the other recipes are untouched and keep their order |
| IngredientLists.ToggleTwiceRestores | App.tsx:255-264 | toggling an absent recipe twice restores the original list |
| IngredientLists.FindIndexIgnoringCase | App.tsx:224-227 | the first index whose entry equals the item ignoring case; none exactly when there is no such entry |
| IngredientLists.TranslateIngredients | App.tsx:216-235 | the list keeps its length; nothing changes when the language did not change or a shared recipe is shown; otherwise each item is translated on its own |
| IngredientLists.TranslateKeepsUnknown | App.tsx:220-231 | an item that is not in the source language's catalogue is kept |
| IngredientLists.TranslateIngredient | App.tsx:220-231 | an item is kept when the language did not change or the item is not in the source language's catalogue; a catalogue item becomes an item of the target language's catalogue |
| IngredientLists.CataloguesDistinct | App.tsx:54-76 | neither catalogue has two entries equal ignoring case |
| IngredientLists.IndexOfDistinctItem | App.tsx:224 | in such a catalogue the lookup finds the one matching index |
| IngredientLists.TranslateCatalogueItem | App.tsx:220-231 | the catalogues have the same length; a catalogue item becomes the other catalogue's item at the same index, and translating back returns the catalogue's spelling |
| GeminiService.SingleShotError | services/geminiService.ts:126-132 | an `Error` whose message names an invalid API key becomes API_KEY_INVALID; anything else becomes the call's generic error |
| GeminiService.MarkersFoundAnywhere | services/geminiService.ts:164-167 | a message containing "429" or "RESOURCE_EXHAUSTED" anywhere is a quota message, and one containing "API key not valid" or "API_KEY_INVALID" anywhere is an API-key message |
| GeminiService.GenerateRecipes | services/geminiService.ts:97-133 | an empty list fails with "Please provide at least one ingredient." before any call; otherwise the one call's reply is returned, and a failure becomes API_KEY_INVALID exactly for API-key messages, otherwise GENERATION_FAILED |
| GeminiService.IdentifyIngredients | services/geminiService.ts:183-226 | a non-array reply yields []; a failure becomes API_KEY_INVALID exactly for API-key messages, otherwise IDENTIFICATION_FAILED |
| GeminiService.SingleAttemptErrors | services/geminiService.ts:126-132 | both single-attempt calls classify a failure the same way; a thrown non-`Error` always becomes the generic error |
| GeminiService.FirstDecisive | services/geminiService.ts:142-173 | the first attempt whose reply is not a retryable failure, or the last attempt; all earlier replies are retryable |
| GeminiService.RetryFrom | services/geminiService.ts:142-177 | a run that starts at a given attempt ends at an attempt between that one and three, having slept once for each later attempt |
| GeminiService.DecisiveResult | services/geminiService.ts:154-172 | the outcome of a decisive reply succeeds exactly when the reply has an image; a failure is only the quota error, API_KEY_INVALID or IMAGE_GENERATION_FAILED |
| GeminiService.RetryCharacterised | services/geminiService.ts:139-176 | the call ends at the first decisive reply with that reply's outcome, having slept once before each later attempt, the delay doubling from its start value |
| GeminiService.GenerateRecipeImage | services/geminiService.ts:136-181 | the loop's result, delays and attempt count equal the retry specification; the throw after the loop is unreachable |
| GeminiService.ImageAttemptBounds | services/geminiService.ts:139-142 | between one and three attempts, and one sleep fewer than attempts |
| GeminiService.ImageDelays | services/geminiService.ts:140-176 | the sleeps are a prefix of 1000 ms, 2000 ms |
| GeminiService.QuotaFailsFast | services/geminiService.ts:164-166 | a "429"/"RESOURCE_EXHAUSTED" failure ends the call at once with the quota error, without sleeping |
| GeminiService.ApiKeyFailsFast | services/geminiService.ts:167-169 | an API-key failure without a quota marker ends the call at once with API_KEY_INVALID |
| GeminiService.ImageRetriesExhausted | services/geminiService.ts:171-173 | three retryable failures give IMAGE_GENERATION_FAILED after sleeping 1000 and 2000 ms |
| GeminiService.EmptyImageListIsRetried | services/geminiService.ts:154-158 | a reply without images is a retryable failure |
| GeminiService.NoImageMessageNotQuota | services/geminiService.ts:158 | the no-image message is not a quota message |
| GeminiService.NoImageMessageNotApiKey | services/geminiService.ts:158 | the no-image message is not an API-key message |
| GeminiService.ImageSuccessIsDataUrl | services/geminiService.ts:154-156 | the call succeeds exactly when the last attempt's reply has an image, and returns "data:image/jpeg;base64," followed by the first image |
| GeminiService.QuotaMessageIdentifiesQuota | services/geminiService.ts:165 | of all service errors, only the quota error's message contains "quota exceeded" |
| RecipeGeneration.WithImage | App.tsx:284-288 | only recipes with the given id get the image; the others are unchanged |
| RecipeGeneration.WithIds | App.tsx:277 | the recipes keep their number and order, and recipe k gets the k-th drawn id with every other field unchanged |
| RecipeGeneration.IsQuotaFailure | App.tsx:291 | the message test on "quota exceeded" holds exactly for the service's quota error |
| RecipeGeneration.FillFrom | App.tsx:281-296 | the recipe list keeps its length, and the loop reports a quota stop exactly when some image result is a quota failure |
| RecipeGeneration.FillImages | App.tsx:281-296 | the loop over the recipes computes the image-fill specification, calling the image service once per recipe until a quota error |
| RecipeGeneration.HandleGenerateRecipes | App.tsx:266-302 | empty ingredients set the empty-list error and keep the previous recipes; a failed recipe call empties the list and shows its message; otherwise ids are assigned, images filled, and the only possible error is the quota notice |
| RecipeGeneration.FillChangesOnlyImages | App.tsx:284-288 | the loop changes images only; a recipe whose id was not processed is unchanged |
| RecipeGeneration.QuotaStopsLoop | App.tsx:290-294 | at the first quota failure the loop stops, and later results have no effect |
| RecipeGeneration.SuccessLandsInRecipe | App.tsx:283-288 | with distinct ids, a successful image reached before any quota error ends up in the recipe with that id |
| RecipeGeneration.EmptyIngredientsAbort | services/geminiService.ts:98-100 | generation with no ingredients fails before any call, whatever the service would answer |
| IngredientEntry.Clean | components/IngredientInput.tsx:19 | every item is non-empty and trimmed, and there are no more items than pieces |
| IngredientEntry.CleanConcat | components/IngredientInput.tsx:19 | cleaning keeps the pieces' order |
| IngredientEntry.ParseIngredients | components/IngredientInput.tsx:17-19 | every emitted ingredient is non-empty, trimmed and free of ',' |
| IngredientEntry.ParseInOrder | components/IngredientInput.tsx:17-20 | items are emitted left to right: parsing `a,b` is parsing `a` followed by parsing `b` |
| IngredientEntry.TrimIgnored | components/IngredientInput.tsx:17-19 | the outer trim makes no difference to the items, since each piece is trimmed again |
| IngredientEntry.BlankEntryYieldsNothing | components/IngredientInput.tsx:17-18 | whitespace-only input trims to nothing and emits nothing |
| IngredientEntry.OnlyCommasYieldNothing | components/IngredientInput.tsx:18-21 | ",,," is non-blank yet emits nothing |
| IngredientEntry.ParseTwoWords | components/IngredientInput.tsx:19-20 | "a, b" emits a then b |
| IngredientEntry.IngredientInput.HandleAdd | components/IngredientInput.tsx:16-23 | emits the parsed items, in order; clears the box when its trimmed text is non-empty (even if nothing is emitted) and leaves blank text as it was |
| IngredientEntry.IngredientInput.HandleKeyDown | components/IngredientInput.tsx:25-30 | Enter does exactly what the add button does; other keys change nothing |
| IngredientEntry.IngredientInput.Change | components/IngredientInput.tsx:38 | the box holds the typed value |
| IngredientEntry.AddEachFromSnapshot | App.tsx:238-242 | the list after one add call per emitted item as written: the snapshot plus at most one item |
| IngredientEntry.SnapshotLosesEarlierItems | App.tsx:238-242 | emitting "Tofu" then "Kale" into an empty list leaves only ["Kale"] |
| IngredientEntry.LastPassingItemWins | App.tsx:238-242 | of several emitted items, the list ends as the snapshot plus the last one that is non-empty and not already in the snapshot |
| IngredientEntry.NoPassingItemKeepsSnapshot | App.tsx:238-242 | when no emitted item passes the check, the list stays the snapshot |
| IngredientEntry.AddEach | App.tsx:238-242 | each item added to the list the previous add left; the list is kept as a prefix |
| IngredientEntry.AddEachAddsAll | App.tsx:238-242 | every non-empty emitted item ends up in the list, and a clean list stays clean |
| IngredientEntry.SingleItemAgrees | App.tsx:238-242 | for one item, the as-written and the intended list agree with the single add |
| ConfirmationDialog.RemoveKeepsConfirmEnabled | components/ConfirmationModal.tsx:83 | after a removal the confirm button is enabled exactly when an entry other than the removed one remains |
| ConfirmationDialog.RemoveEach | components/ConfirmationModal.tsx:40-42 | none of the removed strings remains, and every other string keeps its number of occurrences |
| ConfirmationDialog.RemovalsKeepDetected | components/ConfirmationModal.tsx:40-45 | whatever was removed, every remaining entry was detected |
| ConfirmationDialog.ConfirmationModal.constructor | components/ConfirmationModal.tsx:30 | the list starts as the initial ingredients |
| ConfirmationDialog.ConfirmationModal.Render | components/ConfirmationModal.tsx:34-38 | the list resets to the initial ingredients exactly when the dialog is open and a prop changed |
| ConfirmationDialog.ConfirmationModal.Remove | components/ConfirmationModal.tsx:40-42 | every entry equal to the string is removed, the others kept in order |
| ConfirmationDialog.ConfirmationModal.Confirm | components/ConfirmationModal.tsx:44-47 | with a non-empty list, hands the list on and closes; with an empty list (button disabled) does nothing |
| ConfirmationDialog.ConfirmationModal.Close | components/ConfirmationModal.tsx:89 | closes, keeping the list |
| DifficultyMeter.LevelOf | components/DifficultyMeter.tsx:9-15 | every level is between 1 and 5 |
| DifficultyMeter.LevelIsPosition | components/DifficultyMeter.tsx:9-15 | Very Easy=1, Easy=2, Medium=3, Hard=4, Expert=5: strictly increasing by one |
| DifficultyMeter.ScaleCoversDifficulties | components/DifficultyMeter.tsx:9-15 | the table is a bijection between the five difficulties and 1..5 |
| DifficultyMeter.MeterLevel | components/DifficultyMeter.tsx:18 | always within 1..5; a known difficulty gets its table level, an unknown string level 1 |
| DifficultyMeter.FilledCountIsLevel | components/DifficultyMeter.tsx:27-30 | the number of filled bars is the level, cut to the bar count |
| DifficultyMeter.MeterShowsLevel | components/DifficultyMeter.tsx:19-30 | of the five bars exactly `level` are filled, all at the left |
| RecipeCard.PdfLevel | components/RecipeCard.tsx:187-188 | always within 1..5; a known difficulty gets the meter's table level, an unknown one Medium's level 3 |
| RecipeCard.PdfAndMeterLevels | components/RecipeCard.tsx:188 | the PDF and the meter agree exactly on known difficulties; on unknown ones the meter shows 1 and the PDF 3 |
| RecipeCard.PdfLabel | components/RecipeCard.tsx:189-190 | the label of the difficulty in the chosen language, Medium's label for an unknown one |
| RecipeCard.EnglishLabelIsName | components/RecipeCard.tsx:189-190 | the English label is the difficulty string itself; an unknown difficulty reads "Medium" |
| RecipeCard.LabelsDistinct | components/RecipeCard.tsx:189 | different difficulties get different labels in each language |
| RecipeCard.DifficultyLabel | components/RecipeCard.tsx:189 | never empty; the English label is the difficulty's own name |
| RecipeCard.PdfBarsShowLevel | components/RecipeCard.tsx:203-207 | five bars, bar i filled exactly when i < level, so the filled count is the level |
| RecipeCard.IngredientLine | components/RecipeCard.tsx:234-235 | the line is "• ", the quantity, a space, the name, then the staple note |
| RecipeCard.StapleNoteOnlyWhenFlagged | components/RecipeCard.tsx:234 | the note appears exactly when `isStaple` is true; without it the line is the same in both languages |
| RecipeCard.StapleText | components/RecipeCard.tsx:234 | a note exists exactly when `isStaple` is true, and it is wrapped as " (...)" |
| RecipeCard.InstructionLines | components/RecipeCard.tsx:258-259 | one line per step, in order |
| RecipeCard.InstructionNumbering | components/RecipeCard.tsx:258-259 | line k starts with the decimal number k + 1, which reads back as k + 1, then ". ", then step k |
| RecipeCard.PdfFileName | components/RecipeCard.tsx:300 | the base is the name with whitespace runs replaced by '_' and then lowercased, followed by ".pdf"; the result has no whitespace and no capital, and is at most four characters longer than the name |
| RecipeCard.TwoWordName | components/RecipeCard.tsx:300 | two words separated by a space become both words lowercased, joined by '_', plus ".pdf" |
| RecipeCard.CapitalisedNameLowered | components/RecipeCard.tsx:300 | "Green Salad" is saved as "green_salad.pdf" |
| RecipeCard.PlainNameKept | components/RecipeCard.tsx:300 | a lower-case name without whitespace just gets ".pdf" appended |
| RecipeCard.RunBecomesUnderscore | components/RecipeCard.tsx:300 | a whitespace run after a word becomes a single '_' |
| RecipeCard.PdfExport.DownloadPdf | components/RecipeCard.tsx:68-306 | the flag is written true and then false, and ends false whether or not the export fails; the file is saved under the derived name only when it does not fail |

## Left out

- The generative client, its prompts and response schemas are not modelled. Each call's outcome (the parsed reply, or the thrown value) is a parameter.
- How the image loop derives a message from what was thrown is not modelled: `error.message`, or else `JSON.stringify(error)` (services/geminiService.ts:162). `ImageCallRaised` carries the message directly. So one path is missing: a thrown `undefined` stringifies to `undefined`, the `.includes` test then throws a TypeError, and that error leaves the loop without a retry.
- Sleeping with `setTimeout` is not modelled. The retry method returns the list of delays it would sleep.
- Compression with pako, `JSON.stringify`/`JSON.parse`, `btoa`/`atob` and the share URL are not modelled. The codec is modelled between the recipe record and the compact record only, so no URL-level round trip is claimed.
- Missing or ill-typed fields in a compact record read from a link are not modelled. The compact record is a typed datatype.
- Browser I/O is not modelled: localStorage, clipboard, toast timer, `window.history`, FileReader and the canvas image download.
- `getRandomIngredients` is not modelled, since it depends on `Math.random`.
- The PDF layout is not modelled: jsPDF calls, millimetre coordinates and page breaks. Only the text helpers and the busy flag are.
- The fire-and-forget image refresh of a shared recipe is not modelled. It runs asynchronously, beside the UI.
- Loading flags and messages (`isLoading`, `loadingMessage`, `isScanning`) are not modelled.
- Rendering, locale tables and the logo (`NutriChefLogo.tsx`) are not modelled.
- `prevLangRef` is a parameter of the translation. Its update after the effect runs is not modelled.
- React's scheduling is modelled only where the Findings below need it: queued state updates keep the last write.
- Text.ToLower: lowercases ASCII and Latin-1 capitals only, not the full Unicode case mapping of `toLowerCase`.
- `calories` and `servings` are unbounded integers. The source's floating-point numbers are not modelled, and no sign is assumed.
- Lookups of `difficultyLevels` and `difficultyMap` treat every string other than the five difficulties as unknown. Inherited object keys such as "constructor" are not modelled.
- ConfirmationDialog.ConfirmationModal.Render: compares `initialIngredients` by value, whereas React's effect compares array identity.
- RecipeGeneration.SuccessLandsInRecipe: assumes the drawn ids are distinct. The source makes that likely through `Date.now()` and `Math.random()` but does not guarantee it.

## Findings

| source | as written | input that shows it | evidently intended | confidence | as-written member | corrected member |
|---|---|---|---|---|---|---|
| App.tsx:238-242 | each `onAddIngredient` call builds `[...ingredients, item]` from the same render's `ingredients`, so of several items typed at once only the last write survives | typing "Tofu, Kale" into an empty list leaves ["Kale"] | every typed item is added, each checked against the list the previous add left (a functional `setIngredients(prev => …)` update) | not executed | IngredientEntry.SnapshotLosesEarlierItems | IngredientEntry.AddEachAddsAll |
