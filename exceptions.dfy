/**
 * The error classes of exceptions.py. Each constructor keeps its arguments as
 * fields and builds the message (the exception's string form) by concatenation,
 * adding a suffix only when the optional argument is given.
 *
 * An `original_error` exception object is represented by its string form
 * `str(original_error)`; Python exception objects are always truthy, so the
 * `if original_error:` tests become "is `Some`".
 */
module Exceptions {
  import opened Wrappers

  const ConnectionPrefix := "Failed to connect to Ollama server at "
  const ModelPrefix := "Model '"
  const NotFound := "' not found"
  const AvailablePrefix := ". Available models: "
  const GenerationPrefix := "Generation failed for model '"
  const Quote := "'"
  const CauseSeparator := ": "
  const ListSeparator := ", "

  /** Sum of the lengths of `parts`. */
  function TotalLength(parts: seq<string>): nat
  {
    if parts == [] then 0 else |parts[0]| + TotalLength(parts[1..])
  }

  /**
   * Python's `sep.join(parts)`: the parts in order, with `sep` between each two
   * neighbours and nowhere else, so `|parts| - 1` separators in all.
   */
  function Join(sep: string, parts: seq<string>): (r: string)
    ensures parts == [] ==> r == ""
    ensures parts != [] ==> |r| >= |parts[0]| && r[..|parts[0]|] == parts[0]
    ensures parts != [] ==> |r| + |sep| == TotalLength(parts) + |parts| * |sep|
  {
    if parts == [] then ""
    else if |parts| == 1 then parts[0]
    else parts[0] + sep + Join(sep, parts[1..])
  }

  lemma {:induction false} TotalLengthAppend(parts: seq<string>, last: string)
    ensures TotalLength(parts + [last]) == TotalLength(parts) + |last|
  {
    if parts != [] {
      assert (parts + [last])[1..] == parts[1..] + [last];
      TotalLengthAppend(parts[1..], last);
    }
  }

  /** Joining one more name appends exactly one separator and that name, at the end. */
  lemma {:induction false} JoinAppend(sep: string, parts: seq<string>, last: string)
    requires parts != []
    ensures Join(sep, parts + [last]) == Join(sep, parts) + sep + last
  {
    var ps := parts + [last];
    assert ps[0] == parts[0];
    if |parts| > 1 {
      assert ps[1..] == parts[1..] + [last];
      JoinAppend(sep, parts[1..], last);
    } else {
      assert ps == [parts[0], last] && ps[1..] == [last];
    }
  }

  /** The Python truthiness test `if available_models:` (neither `None` nor `[]`). */
  predicate HasModelList(availableModels: Option<seq<string>>)
  {
    availableModels.Some? && availableModels.value != []
  }

  /** `f"Failed to connect to Ollama server at {base_url}"` plus `f": {original_error}"` when given. */
  function ConnectionMessage(baseUrl: string, originalError: Option<string>): (m: string)
    ensures |m| >= |ConnectionPrefix| + |baseUrl|
    ensures m[..|ConnectionPrefix + baseUrl|] == ConnectionPrefix + baseUrl
    ensures m[..|ConnectionPrefix|] == ConnectionPrefix
    ensures m[|ConnectionPrefix|..|ConnectionPrefix| + |baseUrl|] == baseUrl
    ensures originalError.None? <==> |m| == |ConnectionPrefix| + |baseUrl|
    ensures originalError.Some? ==>
              m[|ConnectionPrefix| + |baseUrl|..] == CauseSeparator + originalError.value
  {
    var message := ConnectionPrefix + baseUrl;
    if originalError.Some? then message + CauseSeparator + originalError.value else message
  }

  /**
   * `f"Model '{model_name}' not found"` plus
   * `f". Available models: {', '.join(available_models)}"` when the list is non-empty.
   */
  function ModelNotFoundMessage(modelName: string, availableModels: Option<seq<string>>): (m: string)
    ensures |m| >= |ModelPrefix| + |modelName| + |NotFound|
    ensures m[..|ModelPrefix + modelName + NotFound|] == ModelPrefix + modelName + NotFound
    ensures m[..|ModelPrefix|] == ModelPrefix
    ensures m[|ModelPrefix|..|ModelPrefix| + |modelName|] == modelName
    ensures m[|ModelPrefix| + |modelName|..|ModelPrefix| + |modelName| + |NotFound|] == NotFound
    ensures !HasModelList(availableModels) <==> |m| == |ModelPrefix| + |modelName| + |NotFound|
    ensures HasModelList(availableModels) ==>
              m[|ModelPrefix| + |modelName| + |NotFound|..]
              == AvailablePrefix + Join(ListSeparator, availableModels.value)
  {
    var message := ModelPrefix + modelName + NotFound;
    if HasModelList(availableModels)
    then message + AvailablePrefix + Join(ListSeparator, availableModels.value)
    else message
  }

  /** `f"Generation failed for model '{model_name}'"` plus `f": {original_error}"` when given. */
  function GenerationMessage(modelName: string, originalError: Option<string>): (m: string)
    ensures |m| >= |GenerationPrefix| + |modelName| + |Quote|
    ensures m[..|GenerationPrefix + modelName + Quote|] == GenerationPrefix + modelName + Quote
    ensures m[..|GenerationPrefix|] == GenerationPrefix
    ensures m[|GenerationPrefix|..|GenerationPrefix| + |modelName|] == modelName
    ensures m[|GenerationPrefix| + |modelName|..|GenerationPrefix| + |modelName| + |Quote|] == Quote
    ensures originalError.None? <==> |m| == |GenerationPrefix| + |modelName| + |Quote|
    ensures originalError.Some? ==>
              m[|GenerationPrefix| + |modelName| + |Quote|..] == CauseSeparator + originalError.value
  {
    var message := GenerationPrefix + modelName + Quote;
    if originalError.Some? then message + CauseSeparator + originalError.value else message
  }

  /**
   * The exception hierarchy: `OllamaError` is the base class, the other three
   * derive from it. Each variant holds exactly the fields its constructor stores.
   */
  datatype OllamaError =
    | OllamaError(message: string)
    | OllamaConnectionError(baseUrl: string, originalError: Option<string>)
    | ModelNotFoundError(modelName: string, availableModels: Option<seq<string>>)
    | GenerationError(modelName: string, prompt: string, originalError: Option<string>)
  {
    /**
     * The `message` attribute, which is also `str(e)`: the base class keeps the
     * given text, and each subclass's message opens with its fixed text and the
     * stored URL or model name.
     */
    function Message(): (m: string)
      ensures OllamaError? ==> m == message
      ensures OllamaConnectionError? ==>
                |m| >= |ConnectionPrefix + baseUrl| && m[..|ConnectionPrefix + baseUrl|] == ConnectionPrefix + baseUrl
      ensures ModelNotFoundError? ==>
                |m| >= |ModelPrefix + modelName + NotFound|
                && m[..|ModelPrefix + modelName + NotFound|] == ModelPrefix + modelName + NotFound
      ensures GenerationError? ==>
                |m| >= |GenerationPrefix + modelName + Quote|
                && m[..|GenerationPrefix + modelName + Quote|] == GenerationPrefix + modelName + Quote
    {
      match this
      case OllamaError(message) => message
      case OllamaConnectionError(baseUrl, originalError) => ConnectionMessage(baseUrl, originalError)
      case ModelNotFoundError(modelName, availableModels) => ModelNotFoundMessage(modelName, availableModels)
      case GenerationError(modelName, _, originalError) => GenerationMessage(modelName, originalError)
    }
  }

  /** The base class passes its message to `Exception` unchanged. */
  lemma BaseMessageVerbatim(message: string)
    ensures OllamaError(message).Message() == message
  {
  }

  /** `None` and `[]` for the available models both leave the message without a suffix. */
  lemma ModelNotFoundNoneLikeEmpty(modelName: string)
    ensures ModelNotFoundError(modelName, None).Message()
            == ModelNotFoundError(modelName, Some([])).Message()
            == ModelPrefix + modelName + NotFound
  {
  }

  /** A non-empty list of available models is appended, joined by ", " in the given order. */
  lemma ModelNotFoundWithList(modelName: string, models: seq<string>)
    requires models != []
    ensures ModelNotFoundError(modelName, Some(models)).Message()
            == ModelPrefix + modelName + NotFound + AvailablePrefix + Join(ListSeparator, models)
  {
  }

  /** The prompt is stored but has no influence on the message. */
  lemma GenerationMessageIgnoresPrompt(modelName: string, p1: string, p2: string, originalError: Option<string>)
    ensures GenerationError(modelName, p1, originalError).Message()
            == GenerationError(modelName, p2, originalError).Message()
  {
  }

  // The demo messages below are written as the concatenation of their printed
  // pieces; each side spells out the same characters.

  /** The first demo of exceptions.py: a connection error without a cause. */
  lemma ConnectionDemo()
    ensures OllamaConnectionError("http://localhost:11434", None).Message()
            == "Failed to connect to Ollama server at " + "http://localhost:11434"
  {
  }

  /** `', '.join(['llama2', 'mistral'])` keeps the order of the list. */
  lemma JoinDemo()
    ensures Join(ListSeparator, ["llama2", "mistral"]) == "llama2" + ", " + "mistral"
  {
    assert ["llama2", "mistral"][1..] == ["mistral"];
  }

  /** The second demo: "Model 'llama3' not found. Available models: llama2, mistral". */
  lemma ModelNotFoundDemo()
    ensures ModelNotFoundError("llama3", Some(["llama2", "mistral"])).Message()
            == "Model '" + "llama3" + "' not found" + ". Available models: " + "llama2" + ", " + "mistral"
  {
    JoinDemo();
  }

  /** The third demo: the cause's string form follows a colon. */
  lemma NestedConnectionDemo()
    ensures OllamaConnectionError("http://localhost:11434", Some("Network timeout")).Message()
            == "Failed to connect to Ollama server at " + "http://localhost:11434" + ": " + "Network timeout"
  {
  }
}
