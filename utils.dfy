/**
 * `probe_models` from app/utils.py: the supported models that the inference
 * daemon also reports as available, in the order of the supported list.
 */
module Utils {

  /** `xs` can be obtained from `ys` by deleting elements (order and repeats kept). */
  predicate IsSubsequence<T(==)>(xs: seq<T>, ys: seq<T>)
    decreases |ys|
  {
    xs == [] ||
    (ys != [] &&
     ((xs[0] == ys[0] && IsSubsequence(xs[1..], ys[1..])) || IsSubsequence(xs, ys[1..])))
  }

  /**
   * The list comprehension `[model for model in supported if model in available]`:
   * keeps each supported name, in place, when it is exactly in `available`.
   */
  function ProbeModels(available: seq<string>, supported: seq<string>): (r: seq<string>)
    ensures |r| <= |supported|
    ensures forall m :: m in r ==> m in supported && m in available
  {
    if supported == [] then []
    else if supported[0] in available then [supported[0]] + ProbeModels(available, supported[1..])
    else ProbeModels(available, supported[1..])
  }

  /**
   * Each name occurs in the result exactly as often as in `supported` when it is
   * available, and not at all otherwise: duplicates are kept, nothing is invented.
   */
  lemma {:induction false} ProbeModelsCount(available: seq<string>, supported: seq<string>, m: string)
    ensures multiset(ProbeModels(available, supported))[m]
            == if m in available then multiset(supported)[m] else 0
  {
    if supported != [] {
      ProbeModelsCount(available, supported[1..], m);
      assert supported == [supported[0]] + supported[1..];
    }
  }

  /** Every supported name that is also available appears in the result. */
  lemma {:induction false} ProbeModelsComplete(available: seq<string>, supported: seq<string>, m: string)
    requires m in supported && m in available
    ensures m in ProbeModels(available, supported)
  {
    if supported[0] != m {
      ProbeModelsComplete(available, supported[1..], m);
    }
  }

  /** The result keeps the order of `supported`: it is a subsequence of it. */
  lemma {:induction false} ProbeModelsSubsequence(available: seq<string>, supported: seq<string>)
    ensures IsSubsequence(ProbeModels(available, supported), supported)
  {
    if supported != [] {
      var rest := ProbeModels(available, supported[1..]);
      ProbeModelsSubsequence(available, supported[1..]);
      if supported[0] in available {
        var r := [supported[0]] + rest;
        assert r[0] == supported[0] && r[1..] == rest;
      }
    }
  }

  /** No daemon models, or no supported models, means no usable models. */
  lemma {:induction false} ProbeModelsEmpty(available: seq<string>, supported: seq<string>)
    requires available == [] || supported == []
    ensures ProbeModels(available, supported) == []
  {
    if supported != [] {
      ProbeModelsEmpty(available, supported[1..]);
    }
  }

  /** Probing an already probed list against the same daemon list changes nothing. */
  lemma {:induction false} ProbeModelsIdempotent(available: seq<string>, supported: seq<string>)
    ensures ProbeModels(available, ProbeModels(available, supported)) == ProbeModels(available, supported)
  {
    if supported != [] {
      var rest := ProbeModels(available, supported[1..]);
      ProbeModelsIdempotent(available, supported[1..]);
      if supported[0] in available {
        var r := [supported[0]] + rest;
        assert r[0] == supported[0] && r[1..] == rest;
      }
    }
  }

  /** The example from the docstring of `probe_models`. */
  lemma ProbeModelsDocExample()
    ensures ProbeModels(["llama2", "mistral", "random-model"], ["llama2", "codellama"]) == ["llama2"]
  {
  }
}
