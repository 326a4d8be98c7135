/**
 * services/geminiService.ts with the generative client abstracted away: each
 * call to the client (and the JSON parse of its reply) is a supplied outcome.
 * `generateRecipes` and `identifyIngredientsFromImage` make one attempt;
 * `generateRecipeImage` makes up to three, sleeping 1000 ms and then 2000 ms
 * between retryable failures and failing fast on quota and API-key errors.
 */
module GeminiService {
  import opened Wrappers
  import opened Text
  import opened RecipeTypes

  /** The errors the service throws, one per distinct message. */
  datatype ServiceError =
    | MissingIngredients
    | ApiKeyInvalid
    | GenerationFailed
    | IdentificationFailed
    | ImageQuotaExceeded
    | ImageGenerationFailed

  /** The `message` of each thrown error. */
  function ErrorMessage(e: ServiceError): string
  {
    match e
    case MissingIngredients => "Please provide at least one ingredient."
    case ApiKeyInvalid => "API_KEY_INVALID"
    case GenerationFailed => "GENERATION_FAILED"
    case IdentificationFailed => "IDENTIFICATION_FAILED"
    case ImageQuotaExceeded => "Image generation " + QuotaExceededText + ". Please check your plan and billing details."
    case ImageGenerationFailed => "IMAGE_GENERATION_FAILED"
  }

  /** The text the application looks for to recognise a quota error. */
  const QuotaExceededText: string := "quota exceeded"

  /** A caught value: whether it is an `Error` instance, and the message text the handler inspects. */
  datatype Thrown = Thrown(isError: bool, message: string)

  /** The outcome of one client call together with the parse of its reply. */
  datatype Call<+T> = Returned(value: T) | Raised(thrown: Thrown)

  // ---------------------------------------------------------------------------
  // Classification
  // ---------------------------------------------------------------------------

  /** The message names an invalid API key. */
  predicate IsApiKeyMessage(m: string)
  {
    Contains(m, "API key not valid") || Contains(m, "API_KEY_INVALID")
  }

  /** The message names an exhausted quota. */
  predicate IsQuotaMessage(m: string)
  {
    Contains(m, "429") || Contains(m, "RESOURCE_EXHAUSTED")
  }

  /** The catch block of the single-attempt calls: API-key errors are kept apart, all else is `generic`. */
  function SingleShotError(t: Thrown, generic: ServiceError): (e: ServiceError)
    ensures e == ApiKeyInvalid <==> (t.isError && IsApiKeyMessage(t.message)) || generic == ApiKeyInvalid
    ensures e != ApiKeyInvalid ==> e == generic
  {
    if t.isError && IsApiKeyMessage(t.message) then ApiKeyInvalid else generic
  }

  // ---------------------------------------------------------------------------
  // generateRecipes and identifyIngredientsFromImage: one attempt each
  // ---------------------------------------------------------------------------

  /**
   * `generateRecipes`: an empty list is refused before any call; otherwise
   * the one call's parsed reply is returned, and any failure (including a
   * parse failure) becomes API_KEY_INVALID or GENERATION_FAILED.
   */
  function GenerateRecipes(ingredients: seq<string>, call: Call<seq<Recipe>>): (r: Result<seq<Recipe>, ServiceError>)
    ensures ingredients == [] ==> r == Failure(MissingIngredients)
    ensures ingredients != [] && call.Returned? ==> r == Success(call.value)
    ensures ingredients != [] && call.Raised? ==>
              r.Failure? && (r.error == ApiKeyInvalid <==> call.thrown.isError && IsApiKeyMessage(call.thrown.message))
              && (r.error == ApiKeyInvalid || r.error == GenerationFailed)
  {
    if ingredients == [] then Failure(MissingIngredients)
    else match call
      case Returned(recipes) => Success(recipes)
      case Raised(t) => Failure(SingleShotError(t, GenerationFailed))
  }

  /** The parsed reply of the identification call: an array of names, or some other JSON value. */
  datatype IdentifyReply = JsonArray(items: seq<string>) | NotAnArray

  /**
   * `identifyIngredientsFromImage`: a non-array reply yields `[]`; any
   * failure becomes API_KEY_INVALID or IDENTIFICATION_FAILED.
   */
  function IdentifyIngredients(call: Call<IdentifyReply>): (r: Result<seq<string>, ServiceError>)
    ensures call.Returned? ==> r.Success? && r.value == (if call.value.JsonArray? then call.value.items else [])
    ensures call.Raised? ==>
              r.Failure? && (r.error == ApiKeyInvalid <==> call.thrown.isError && IsApiKeyMessage(call.thrown.message))
              && (r.error == ApiKeyInvalid || r.error == IdentificationFailed)
  {
    match call
    case Returned(JsonArray(items)) => Success(items)
    case Returned(NotAnArray) => Success([])
    case Raised(t) => Failure(SingleShotError(t, IdentificationFailed))
  }

  /** The single-attempt calls never retry: whatever the client reports is final, and the calls differ only in the generic error. */
  lemma SingleAttemptErrors(t: Thrown, ingredients: seq<string>)
    requires ingredients != []
    ensures GenerateRecipes(ingredients, Raised(t)).error == ApiKeyInvalid
        <==> IdentifyIngredients(Raised(t)).error == ApiKeyInvalid
    ensures !t.isError ==> (GenerateRecipes(ingredients, Raised(t)) == Failure(GenerationFailed)
                            && IdentifyIngredients(Raised(t)) == Failure(IdentificationFailed))
  {
  }

  // ---------------------------------------------------------------------------
  // generateRecipeImage: bounded retries with a doubling delay
  // ---------------------------------------------------------------------------

  const MaxRetries: nat := 3
  const InitialDelay: int := 1000
  const DataUrlPrefix: string := "data:image/jpeg;base64,"
  const NoImageMessage: string := "No image was generated by the API."

  /** One reply of the image call: the list of generated images' bytes, or a raised error's message text. */
  datatype ImageReply = Images(imageBytes: seq<string>) | ImageCallRaised(message: string)

  /** The reply carries at least one image. */
  predicate IsImageSuccess(reply: ImageReply)
  {
    reply.Images? && reply.imageBytes != []
  }

  /** The message the catch block classifies: an empty image list throws its own error. */
  function FailureMessage(reply: ImageReply): string
  {
    if reply.Images? then NoImageMessage else reply.message
  }

  /** A marker anywhere in a message classifies it, whatever surrounds it. */
  lemma MarkersFoundAnywhere(a: string, z: string)
    ensures IsQuotaMessage(a + "429" + z) && IsQuotaMessage(a + "RESOURCE_EXHAUSTED" + z)
    ensures IsApiKeyMessage(a + "API key not valid" + z) && IsApiKeyMessage(a + "API_KEY_INVALID" + z)
  {
    InfixContained(a, "429", z);
    InfixContained(a, "RESOURCE_EXHAUSTED", z);
    InfixContained(a, "API key not valid", z);
    InfixContained(a, "API_KEY_INVALID", z);
  }

  /** A failure that is neither a quota nor an API-key error is retried. */
  predicate IsRetryable(reply: ImageReply)
  {
    !IsImageSuccess(reply) && !IsQuotaMessage(FailureMessage(reply)) && !IsApiKeyMessage(FailureMessage(reply))
  }

  /** The outcome of a reply that ends the call (or of the last attempt). */
  function DecisiveResult(reply: ImageReply): (r: Result<string, ServiceError>)
    ensures r.Success? <==> IsImageSuccess(reply)
    ensures r.Failure? ==> r.error in {ImageQuotaExceeded, ApiKeyInvalid, ImageGenerationFailed}
  {
    if IsImageSuccess(reply) then Success(DataUrlPrefix + reply.imageBytes[0])
    else if IsQuotaMessage(FailureMessage(reply)) then Failure(ImageQuotaExceeded)
    else if IsApiKeyMessage(FailureMessage(reply)) then Failure(ApiKeyInvalid)
    else Failure(ImageGenerationFailed)
  }

  /** What a call did: its result, the delays it slept, and how many attempts it made. */
  datatype ImageRun = ImageRun(result: Result<string, ServiceError>, delays: seq<int>, attempts: nat)

  /** The loop of `generateRecipeImage` from attempt `attempt` with the current `delay`. */
  function RetryFrom(replies: seq<ImageReply>, attempt: nat, delay: int): (run: ImageRun)
    requires 1 <= attempt <= MaxRetries <= |replies|
    ensures attempt <= run.attempts <= MaxRetries && |run.delays| == run.attempts - attempt
    decreases MaxRetries - attempt
  {
    var reply := replies[attempt - 1];
    if !IsRetryable(reply) || attempt == MaxRetries then
      ImageRun(DecisiveResult(reply), [], attempt)
    else
      var rest := RetryFrom(replies, attempt + 1, delay * 2);
      ImageRun(rest.result, [delay] + rest.delays, rest.attempts)
  }

  function Pow2(k: nat): nat
  {
    if k == 0 then 1 else 2 * Pow2(k - 1)
  }

  /**
   * The index of the first reply that ends the call: the first that is not a
   * retryable failure, or the last attempt's.
   */
  function FirstDecisive(replies: seq<ImageReply>, from: nat): (k: nat)
    requires from < MaxRetries <= |replies|
    ensures from <= k < MaxRetries
    ensures forall j :: from <= j < k ==> IsRetryable(replies[j])
    ensures k < MaxRetries - 1 ==> !IsRetryable(replies[k])
    decreases MaxRetries - from
  {
    if !IsRetryable(replies[from]) || from == MaxRetries - 1 then from
    else FirstDecisive(replies, from + 1)
  }

  /**
   * The retry loop, stated without recursion: the call ends at the first
   * decisive reply, its result is that reply's outcome, and it slept once
   * before each later attempt, starting at the given delay and doubling.
   */
  lemma {:induction false} RetryCharacterised(replies: seq<ImageReply>, attempt: nat, delay: int)
    requires 1 <= attempt <= MaxRetries <= |replies|
    ensures var run := RetryFrom(replies, attempt, delay);
      && run.attempts == FirstDecisive(replies, attempt - 1) + 1
      && run.result == DecisiveResult(replies[run.attempts - 1])
      && |run.delays| == run.attempts - attempt
      && forall k :: 0 <= k < |run.delays| ==> run.delays[k] == delay * Pow2(k)
    decreases MaxRetries - attempt
  {
    var reply := replies[attempt - 1];
    if IsRetryable(reply) && attempt < MaxRetries {
      RetryCharacterised(replies, attempt + 1, delay * 2);
      var rest := RetryFrom(replies, attempt + 1, delay * 2);
      var run := RetryFrom(replies, attempt, delay);
      forall k | 0 <= k < |run.delays|
        ensures run.delays[k] == delay * Pow2(k)
      {
        if k > 0 {
          assert run.delays[k] == rest.delays[k - 1] == delay * 2 * Pow2(k - 1);
        }
      }
    }
  }

  /**
   * `generateRecipeImage`, consuming one supplied reply per attempt. Returns
   * the data URL or the error it throws, the delays it slept, and the number
   * of attempts made.
   */
  method GenerateRecipeImage(replies: seq<ImageReply>) returns (result: Result<string, ServiceError>, delays: seq<int>, attempts: nat)
    requires |replies| >= MaxRetries
    ensures ImageRun(result, delays, attempts) == RetryFrom(replies, 1, InitialDelay)
  {
    delays := [];
    attempts := 0;
    var delay := InitialDelay;
    var attempt := 1;
    while attempt <= MaxRetries
      invariant 1 <= attempt <= MaxRetries
      invariant var rest := RetryFrom(replies, attempt, delay);
        RetryFrom(replies, 1, InitialDelay) == ImageRun(rest.result, delays + rest.delays, rest.attempts)
    {
      attempts := attempt;
      var reply := replies[attempt - 1];
      if reply.Images? && |reply.imageBytes| > 0 {
        result := Success(DataUrlPrefix + reply.imageBytes[0]);
        return;
      }
      var errorMessage := FailureMessage(reply);
      if IsQuotaMessage(errorMessage) {
        result := Failure(ImageQuotaExceeded);
        return;
      }
      if IsApiKeyMessage(errorMessage) {
        result := Failure(ApiKeyInvalid);
        return;
      }
      if attempt == MaxRetries {
        result := Failure(ImageGenerationFailed);
        return;
      }
      delays := delays + [delay];
      delay := delay * 2;
      attempt := attempt + 1;
    }
    // The throw after the loop is unreachable: the last attempt always returns or throws.
    assert false;
  }

  /** At most three attempts, at least one, and no sleep after the last. */
  lemma ImageAttemptBounds(replies: seq<ImageReply>)
    requires |replies| >= MaxRetries
    ensures var run := RetryFrom(replies, 1, InitialDelay);
      1 <= run.attempts <= MaxRetries && |run.delays| == run.attempts - 1
  {
    RetryCharacterised(replies, 1, InitialDelay);
  }

  /** The delays slept are 1000 ms and then 2000 ms, as many as there were retries. */
  lemma ImageDelays(replies: seq<ImageReply>)
    requires |replies| >= MaxRetries
    ensures RetryFrom(replies, 1, InitialDelay).delays <= [1000, 2000]
  {
    RetryCharacterised(replies, 1, InitialDelay);
    var run := RetryFrom(replies, 1, InitialDelay);
    assert Pow2(1) == 2;
  }

  /** A quota error ends the call at once, before the API-key check and without sleeping. */
  lemma QuotaFailsFast(replies: seq<ImageReply>)
    requires |replies| >= MaxRetries
    requires !IsImageSuccess(replies[0]) && IsQuotaMessage(FailureMessage(replies[0]))
    ensures RetryFrom(replies, 1, InitialDelay) == ImageRun(Failure(ImageQuotaExceeded), [], 1)
  {
  }

  /** An API-key error (without a quota marker) ends the call at once, without sleeping. */
  lemma ApiKeyFailsFast(replies: seq<ImageReply>)
    requires |replies| >= MaxRetries
    requires !IsImageSuccess(replies[0]) && !IsQuotaMessage(FailureMessage(replies[0]))
    requires IsApiKeyMessage(FailureMessage(replies[0]))
    ensures RetryFrom(replies, 1, InitialDelay) == ImageRun(Failure(ApiKeyInvalid), [], 1)
  {
  }

  /** Three retryable failures exhaust the budget: IMAGE_GENERATION_FAILED after sleeping 1000 and 2000 ms. */
  lemma ImageRetriesExhausted(replies: seq<ImageReply>)
    requires |replies| >= MaxRetries
    requires IsRetryable(replies[0]) && IsRetryable(replies[1]) && IsRetryable(replies[2])
    ensures RetryFrom(replies, 1, InitialDelay) == ImageRun(Failure(ImageGenerationFailed), [1000, 2000], 3)
  {
    RetryCharacterised(replies, 1, InitialDelay);
    assert Pow2(1) == 2;
  }

  /** The empty-image message has no digit 4, no underscore and no 'k'. */
  lemma NoImageMessageLacksFour()
    ensures '4' !in NoImageMessage
  {
  }

  lemma NoImageMessageLacksUnderscore()
    ensures '_' !in NoImageMessage
  {
  }

  lemma NoImageMessageLacksK()
    ensures 'k' !in NoImageMessage
  {
  }

  lemma NoImageMessageNotQuota()
    ensures !IsQuotaMessage(NoImageMessage)
  {
    NoImageMessageLacksFour();
    NoImageMessageLacksUnderscore();
    MissingCharNotContained(NoImageMessage, "429", 0);
    MissingCharNotContained(NoImageMessage, "RESOURCE_EXHAUSTED", 8);
  }

  lemma NoImageMessageNotApiKey()
    ensures !IsApiKeyMessage(NoImageMessage)
  {
    NoImageMessageLacksK();
    NoImageMessageLacksUnderscore();
    MissingCharNotContained(NoImageMessage, "API key not valid", 4);
    MissingCharNotContained(NoImageMessage, "API_KEY_INVALID", 3);
  }

  /** An empty image list counts as a retryable failure. */
  lemma EmptyImageListIsRetried()
    ensures IsRetryable(Images([]))
  {
    NoImageMessageNotQuota();
    NoImageMessageNotApiKey();
  }

  /** A recovered call returns the data URL of the first image of the successful reply. */
  lemma ImageSuccessIsDataUrl(replies: seq<ImageReply>)
    requires |replies| >= MaxRetries
    ensures var run := RetryFrom(replies, 1, InitialDelay);
      run.result.Success? <==> IsImageSuccess(replies[run.attempts - 1])
    ensures var run := RetryFrom(replies, 1, InitialDelay);
      run.result.Success? ==> run.result.value == DataUrlPrefix + replies[run.attempts - 1].imageBytes[0]
  {
    RetryCharacterised(replies, 1, InitialDelay);
  }

  /** The quota error's message carries the quota text. */
  lemma QuotaMessageHasQuotaText()
    ensures Contains(ErrorMessage(ImageQuotaExceeded), QuotaExceededText)
  {
    InfixContained("Image generation ", QuotaExceededText, ". Please check your plan and billing details.");
  }

  /** No other error's message holds a 'q', so none carries the quota text. */
  lemma OtherMessagesLackQuotaText(e: ServiceError)
    requires e != ImageQuotaExceeded
    ensures !Contains(ErrorMessage(e), QuotaExceededText)
  {
    match e
    case MissingIngredients => PromptLacksQ();
    case ApiKeyInvalid => IdentifierLacksQ("API_KEY_INVALID");
    case GenerationFailed => IdentifierLacksQ("GENERATION_FAILED");
    case IdentificationFailed => IdentifierLacksQ("IDENTIFICATION_FAILED");
    case ImageGenerationFailed => IdentifierLacksQ("IMAGE_GENERATION_FAILED");
  }

  lemma PromptLacksQ()
    ensures !Contains(ErrorMessage(MissingIngredients), QuotaExceededText)
  {
    assert 'q' !in ErrorMessage(MissingIngredients);
    MissingCharNotContained(ErrorMessage(MissingIngredients), QuotaExceededText, 0);
  }

  /** An upper-case identifier holds no lower-case 'q'. */
  lemma IdentifierLacksQ(m: string)
    requires forall k :: 0 <= k < |m| ==> 'A' <= m[k] <= 'Z' || m[k] == '_'
    ensures !Contains(m, QuotaExceededText)
  {
    MissingCharNotContained(m, QuotaExceededText, 0);
  }

  /**
   * Only the quota error's message contains "quota exceeded", the text the
   * callers look for.
   */
  lemma QuotaMessageIdentifiesQuota(e: ServiceError)
    ensures Contains(ErrorMessage(e), QuotaExceededText) <==> e == ImageQuotaExceeded
  {
    if e == ImageQuotaExceeded {
      QuotaMessageHasQuotaText();
    } else {
      OtherMessagesLackQuotaText(e);
    }
  }
}
