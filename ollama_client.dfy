/**
 * `OllamaClient` from app/services/ollama_client.py: a client object whose only
 * state is the name of the active model. The daemon calls are not modelled:
 * the catalog that `ollama.list()` returns and the responses of
 * `ollama.generate` and `ollama.ps` are given to the methods as inputs.
 */
module Client {

  /** The test of `_check_model`: the name is exactly one of the catalog's entries. */
  predicate Listed(catalog: seq<string>, requested: string)
  {
    requested in catalog
  }

  /** Outcome of a switch request: whether it was accepted and the model afterwards. */
  datatype Switch = Switch(accepted: bool, model: string)

  /**
   * What `change_model` does to the active model `current`: the request is
   * accepted exactly when the catalog lists the name, and then the name
   * becomes the active model; otherwise nothing changes.
   */
  function SwitchModel(current: string, catalog: seq<string>, requested: string): (r: Switch)
    ensures r.accepted <==> exists i :: 0 <= i < |catalog| && catalog[i] == requested
    ensures r.model == current || r.model == requested
    ensures r.accepted ==> r.model == requested
    ensures !r.accepted ==> r.model == current
  {
    if Listed(catalog, requested) then Switch(true, requested) else Switch(false, current)
  }

  class OllamaClient {
    /** The active model, sent with every generation request. */
    var model: string

    constructor (model: string)
      ensures this.model == model
    {
      this.model := model;
    }

    /** The raw `ollama.list()` response is returned as it is. */
    method ListAvailableModels<L>(listing: L) returns (models: L)
      ensures models == listing
    {
      models := listing;
    }

    /**
     * `ollama.generate(model=self.model, prompt=user_input, think=think, stream=stream)`,
     * with the daemon's answer to those arguments given as `daemon`.
     */
    method Generate<R>(daemon: (string, string, bool, bool) -> R, userInput: string,
                       think: bool := false, stream: bool := false)
      returns (response: R)
      ensures response == daemon(model, userInput, think, stream)
    {
      response := daemon(model, userInput, think, stream);
    }

    /** `_check_model` against the catalog listed at the time of the call. */
    method CheckModel(catalog: seq<string>, requested: string) returns (found: bool)
      ensures found == Listed(catalog, requested)
    {
      if requested in catalog {
        found := true;
      } else {
        found := false;
      }
    }

    /** `change_model`: switches only when the catalog lists the name. */
    method ChangeModel(catalog: seq<string>, requested: string) returns (ok: bool)
      modifies this
      ensures Switch(ok, model) == SwitchModel(old(model), catalog, requested)
      ensures ok ==> model == requested
      ensures !ok ==> model == old(model)
    {
      var found := CheckModel(catalog, requested);
      if found {
        model := requested;
        ok := true;
      } else {
        ok := false;
      }
    }

    /** `ollama.ps()` is returned as it is. */
    method HealthCheck<P>(processStatus: P) returns (status: P)
      ensures status == processStatus
    {
      status := processStatus;
    }
  }

  /** With an empty catalog every switch request is refused and the model stays. */
  lemma SwitchEmptyCatalog(current: string, requested: string)
    ensures SwitchModel(current, [], requested) == Switch(false, current)
  {
  }

  /** Repeating a switch request with the same catalog changes nothing more. */
  lemma SwitchIdempotent(current: string, catalog: seq<string>, requested: string)
    ensures var once := SwitchModel(current, catalog, requested);
            SwitchModel(once.model, catalog, requested) == once
  {
  }

  /** Matching is exact: a tagged catalog entry does not match its bare name, nor the reverse. */
  lemma CheckModelIsExact()
    ensures !Listed(["llama2:latest"], "llama2")
    ensures !Listed(["llama2"], "llama2:latest")
    ensures !Listed(["llama2"], "")
    ensures Listed(["mistral", "llama2"], "llama2")
  {
  }

  /** One switch request: the catalog listed at that moment and the name asked for. */
  datatype Request = Request(catalog: seq<string>, name: string)

  /**
   * The active model after a series of `change_model` calls, starting from
   * `initial`: with no calls it is `initial`, and a granted last call decides it.
   */
  function SwitchAll(initial: string, requests: seq<Request>): (m: string)
    ensures requests == [] ==> m == initial
    ensures requests != [] && Granted(requests[|requests| - 1]) ==> m == requests[|requests| - 1].name
    ensures m == initial || exists r :: r in requests && r.name == m
  {
    if requests == [] then initial
    else
      var last := requests[|requests| - 1];
      SwitchModel(SwitchAll(initial, requests[..|requests| - 1]), last.catalog, last.name).model
  }

  /** A request is granted when its name was in the catalog listed for it. */
  predicate Granted(r: Request)
  {
    Listed(r.catalog, r.name)
  }

  /**
   * The active model is never set without the catalog check: after any series
   * of requests it is either the constructor's model (no request was granted)
   * or the name of the last granted request.
   */
  lemma {:induction false} SwitchAllLastGranted(initial: string, requests: seq<Request>)
    ensures (forall i :: 0 <= i < |requests| ==> !Granted(requests[i])) ==> SwitchAll(initial, requests) == initial
    ensures forall i :: 0 <= i < |requests| && Granted(requests[i]) &&
                        (forall j :: i < j < |requests| ==> !Granted(requests[j]))
                        ==> SwitchAll(initial, requests) == requests[i].name
  {
    if requests != [] {
      var n := |requests| - 1;
      var prefix := requests[..n];
      SwitchAllLastGranted(initial, prefix);
      assert forall i :: 0 <= i < n ==> prefix[i] == requests[i];
    }
  }

  /** The active model is always the initial one or a name some catalog listed. */
  lemma {:induction false} SwitchAllValidated(initial: string, requests: seq<Request>)
    ensures var m := SwitchAll(initial, requests);
            m == initial || exists i :: 0 <= i < |requests| && Granted(requests[i]) && requests[i].name == m
  {
    if requests != [] {
      var n := |requests| - 1;
      SwitchAllValidated(initial, requests[..n]);
      var before := SwitchAll(initial, requests[..n]);
      if before != initial && SwitchAll(initial, requests) == before {
        var i :| 0 <= i < n && Granted(requests[..n][i]) && requests[..n][i].name == before;
        assert requests[i] == requests[..n][i];
      }
    }
  }
}
