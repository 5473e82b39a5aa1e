# Ollama client, model probing, error messages and the analyze/summarize graph

This project models the parts of the crewai-playground service that have behaviour of their own. The rest of the service is a thin HTTP layer over the Ollama inference daemon and two orchestration libraries. The modelled parts are:

- **`OllamaClient`** (`ollama_client.dfy`, module `Client`). A class whose one mutable field, `model`, names the active model. `ChangeModel` overwrites the field only when the daemon's catalog lists the requested name exactly. Otherwise it returns `false` and leaves the field alone. The catalog that `ollama.list()` returns is a `seq<string>` parameter of each call. The answers of `ollama.generate`, `ollama.list` and `ollama.ps` are parameters too, so `Generate`, `ListAvailableModels` and `HealthCheck` have no `modifies` clause: they cannot change `model`. The pure function `SwitchModel` specifies `ChangeModel`. `SwitchAll` replays a series of switch requests, each with its own catalog. The lemmas about it show that the active model is only ever the constructor's model or a name that passed the catalog check.
- **`probe_models`** (`utils.dfy`, module `Utils`). A recursive filter that keeps the supported names that are also available. Lemmas prove soundness, completeness, exact multiplicities, order (a subsequence of the supported list), the empty cases, idempotence and the docstring example.
- **The error classes** (`exceptions.dfy`, module `Exceptions`). A datatype with one variant per class. Each variant holds exactly the fields its constructor stores, so field retention holds by construction. `Message()` builds the message the way each `__init__` does. Three functions state the shape of each message: its fixed text, the stored name or URL in place, and a suffix that is present exactly when the optional argument is given. `Join` is Python's `str.join`, with its length and its append law proved. Lemmas reproduce the three messages of the module's demo. Each expected message is written as the concatenation of its printed pieces, which spells out the same characters and keeps the proofs cheap.
- **The analyze → summarize graph** (`langgraph_agents.dfy`, module `LanggraphAgents`). `GraphState` has `text` and two optional keys. `AnalyzeText` and `Summarize` each write exactly one key. `Summarize` fails with `MissingKey("analysis")` when that key is absent, just as `state['analysis']` raises. The LLM is the uninterpreted function `gen`, from prompt to response text. The graph is built with `AddNode`, `SetEntryPoint` and `AddEdge`, and `Workflow` states the topology the program builds. `Walk` follows the edges from a node until an edge leads to `END`. It records the nodes it has run, so it always terminates and returns each node at most once. `Invoke` walks the graph and then runs the nodes in that order. For any graph of the two nodes, a successful invocation has run `analyze` first and exactly once.

Two points about the code that the model keeps as they are:

- `_check_model` tests exact membership (`model in models_in_client`, app/services/ollama_client.py:37). It does no prefix or substring matching, so `Listed` is exact membership. `CheckModelIsExact` shows that `llama2` and `llama2:latest` do not match in either direction.
- `list_available_models` returns the raw `ollama.list()` response without normalisation (app/services/ollama_client.py:22-25). `ListAvailableModels` returns its input unchanged.

Representation choices:

- An `original_error` exception is represented by its string form `str(original_error)`, as an `Option<string>`. A Python exception object is always truthy, so `if original_error:` becomes "is `Some`".
- `available_models` is an `Option<seq<string>>`. The suffix is added exactly when the value is `Some` and non-empty (`HasModelList`), which is Python's truthiness test on a list.

## Model

| member | source | states |
|---|---|---|
| Client.OllamaClient.constructor | app/services/ollama_client.py:11-12 | the active model is exactly the name given |
| Client.OllamaClient.ListAvailableModels | app/services/ollama_client.py:14-25 | returns the daemon's listing unchanged (no normalisation) and modifies nothing |
| Client.OllamaClient.Generate | app/services/ollama_client.py:27-31 | the daemon is asked with the current active model, the prompt and the `think`/`stream` flags (default false); the client is not modified |
| Client.OllamaClient.CheckModel | app/services/ollama_client.py:33-40 | true exactly when the requested name is an entry of the catalog |
| Client.OllamaClient.ChangeModel | app/services/ollama_client.py:42-47 | listed name: the model becomes that name and the result is true; otherwise the result is false and the model is unchanged |
| Client.OllamaClient.HealthCheck | app/services/ollama_client.py:49-50 | returns the process status unchanged and modifies nothing |
| Client.SwitchModel | app/services/ollama_client.py:42-47 | accepted iff some catalog entry equals the name; the new model is the old one or the name, the name exactly when accepted |
| Client.SwitchEmptyCatalog | app/services/ollama_client.py:33-47 | with an empty catalog the request is refused and the model stays |
| Client.SwitchIdempotent | app/services/ollama_client.py:42-47 | repeating a request with the same catalog gives the same result and model as doing it once |
| Client.CheckModelIsExact | app/services/ollama_client.py:37 | matching is exact: no prefix, tag or empty-string match |
| Client.SwitchAll | app/services/ollama_client.py:42-47 | the model after a series of `change_model` calls: the initial one with no calls, the last name when its call was granted, and always the initial one or a requested name |
| Client.SwitchAllLastGranted | app/services/ollama_client.py:42-47 | after a series of requests the model is the initial one if none was granted, else the name of the last granted request |
| Client.SwitchAllValidated | app/services/ollama_client.py:42-47 | after any series of requests the model is the initial one or a name that its catalog listed |
| Utils.ProbeModels | app/utils.py:38-55 | the result is no longer than the supported list, and each element is both supported and available |
| Utils.ProbeModelsCount | app/utils.py:55 | each name occurs as often as in the supported list if available, else not at all |
| Utils.ProbeModelsComplete | app/utils.py:55 | every supported name that is available appears in the result |
| Utils.ProbeModelsSubsequence | app/utils.py:55 | the result is a subsequence of the supported list: order and duplicates kept |
| Utils.ProbeModelsEmpty | app/utils.py:55 | no available models or no supported models gives the empty list |
| Utils.ProbeModelsIdempotent | app/utils.py:55 | probing the result again against the same available list returns it unchanged |
| Utils.ProbeModelsDocExample | app/utils.py:49-53 | the docstring example yields `["llama2"]` |
| Exceptions.Join | exceptions.py:32 | empty list gives `""`; the result starts with the first name; length is the names' total plus `n - 1` separators |
| Exceptions.JoinAppend | exceptions.py:32 | joining one more name appends exactly one separator and that name at the end |
| Exceptions.OllamaError.Message | exceptions.py:7-46 | the base error's message is its text; each subclass's message opens with its fixed text and the stored URL or model name |
| Exceptions.BaseMessageVerbatim | exceptions.py:7-9 | the base error's message (its string form) is the given message verbatim |
| Exceptions.ConnectionMessage | exceptions.py:15-21 | "Failed to connect to Ollama server at " then the URL; `": "` and the cause follow iff a cause is given |
| Exceptions.ModelNotFoundMessage | exceptions.py:27-33 | "Model '" name "' not found"; ". Available models: " and the joined names follow iff the list is non-empty |
| Exceptions.ModelNotFoundNoneLikeEmpty | exceptions.py:31 | `None` and `[]` both give the message without suffix |
| Exceptions.ModelNotFoundWithList | exceptions.py:30-33 | with a non-empty list the message is the not-found text followed by ". Available models: " and the names joined by ", " in the given order |
| Exceptions.GenerationMessage | exceptions.py:39-46 | "Generation failed for model '" name "'" then `": "` and the cause iff a cause is given |
| Exceptions.GenerationMessageIgnoresPrompt | exceptions.py:39-46 | the stored prompt has no influence on the message |
| Exceptions.JoinDemo | exceptions.py:32 | `', '.join(['llama2', 'mistral'])` is "llama2", then ", ", then "mistral" |
| Exceptions.ConnectionDemo | exceptions.py:53 | the first demo's message, "Failed to connect to Ollama server at http://localhost:11434" |
| Exceptions.ModelNotFoundDemo | exceptions.py:60 | the second demo's message, "Model 'llama3' not found. Available models: llama2, mistral" |
| Exceptions.NestedConnectionDemo | exceptions.py:67-68 | the third demo's message, "Failed to connect to Ollama server at http://localhost:11434: Network timeout" |
| LanggraphAgents.AnalyzeText | app/agents/langgraph_agents.py:13-18 | `analysis` becomes gen("Analyze this text: " + text); `text` and `summary` pass through |
| LanggraphAgents.Summarize | app/agents/langgraph_agents.py:20-25 | fails iff `analysis` is absent; otherwise `summary` becomes gen("Summarize: " + analysis) and `text`, `analysis` pass through |
| LanggraphAgents.NewStateGraph | app/agents/langgraph_agents.py:28 | a new graph has no nodes, no entry point and no edges |
| LanggraphAgents.AddNode | app/agents/langgraph_agents.py:31-32 | adds the node and changes nothing else |
| LanggraphAgents.SetEntryPoint | app/agents/langgraph_agents.py:35 | sets the entry point and changes nothing else |
| LanggraphAgents.AddEdge | app/agents/langgraph_agents.py:36-37 | the node's edge leads to the target; every other edge is kept |
| LanggraphAgents.Workflow | app/agents/langgraph_agents.py:28-37 | the built graph has both nodes, entry `analyze`, and exactly the edges `analyze -> summarize`, `summarize -> END` |
| LanggraphAgents.Walk | app/agents/langgraph_agents.py:35-39 | a successful walk starts at the given node, follows the edges to `END`, runs no node twice and no node already visited |
| LanggraphAgents.WalkBound | app/agents/langgraph_agents.py:35-39 | a walk takes at most one step per node not yet visited |
| LanggraphAgents.RunAtMostTwoSteps | app/agents/langgraph_agents.py:31-39 | with these two nodes, any successful walk from the entry point has at most two steps |
| LanggraphAgents.Run | app/agents/langgraph_agents.py:39 | no entry point is an error; a successful run is a duplicate-free path from the entry point that follows the edges to `END` |
| LanggraphAgents.WalkFromAnalyze | app/agents/langgraph_agents.py:35-37 | with the workflow's edges, the walk from `analyze` is `[analyze, summarize]` |
| LanggraphAgents.WorkflowWalk | app/agents/langgraph_agents.py:35-39 | the compiled workflow runs `analyze`, then `summarize`, once each, and stops after two steps |
| LanggraphAgents.Execute | app/agents/langgraph_agents.py:13-25 | running nodes in order keeps `text`; once `analyze` has run, `analysis` stays present |
| LanggraphAgents.ExecutePassesThrough | app/agents/langgraph_agents.py:17-24 | over any run of nodes, a key that no node of the run writes passes through unchanged |
| LanggraphAgents.SummarizeNeedsAnalysis | app/agents/langgraph_agents.py:23 | `summarize` run before `analyze` fails on the missing `analysis` key |
| LanggraphAgents.Invoke | app/agents/langgraph_agents.py:39-41 | a graph that cannot be walked fails; a successful invocation keeps `text` and has written `analysis` |
| LanggraphAgents.InvokeAnalysis | app/agents/langgraph_agents.py:13-41 | for any graph of the two nodes, a successful invocation's `analysis` is gen("Analyze this text: " + text): `analyze` ran first and once |
| LanggraphAgents.InvokeWorkflow | app/agents/langgraph_agents.py:13-41 | invoking on `{text: t}` gives text t, analysis gen("Analyze this text: " + t), summary gen("Summarize: " + analysis) |

## Left out

- All calls to the `ollama` package (`list`, `generate`, `ps`) are network calls. Their results are parameters of the methods that use them. The shape of the real `ollama.list()` response is not part of this model: the catalog is taken to be a sequence of model names.
- Errors raised by the daemon calls (an unreachable server, a failed generation) are not modelled. The source does not catch them, so they propagate to the caller.
- Logging in `ollama_client.py` is left out because it has no effect on state or results. The unused `SUPPORTED_MODELS` constant is left out too.
- `OllamaClient()` is called without its required `model` argument in the graph nodes (app/agents/langgraph_agents.py:15,22) and in the routes. That call raises a `TypeError` at run time. The model assumes instead that the nodes have a working client, whose responses `gen` gives.
- The node functions assign into the state dictionary in place and return it. The model returns an updated value instead. Aliasing of that dictionary is not captured.
- The graph is modelled only as far as this program uses it. A node has at most one outgoing edge, and a second `add_edge` from the same node replaces the first. Fan-out, conditional edges, `compile` validation and the library's recursion limit are not part of this model. On a cycle, `Walk` returns a `Cycle` error.
- The module-level `app.invoke(...)` and `print` in langgraph_agents.py are left out, and so is the `__main__` demo of exceptions.py. The demo's three messages are proved as lemmas.
- The exception objects passed as `original_error` are represented by their string form. The stored field keeps that string, not the object.
- `load_config` and `setup_logging` in app/utils.py are left out because they do file I/O and logging configuration.
- The HTTP routes, the schemas, the CrewAI pipeline and the test script are not part of this model.
