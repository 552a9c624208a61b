/** The worker's checkpoint loop. */
module InferenceRunner {
  import opened Prelude

  datatype Status = ModelError | Other

  /** One answer of the runtime; `marked` says that its message names an
      infrastructure failure. */
  datatype RunResult = RunResult(status: Status, marked: bool) {
    predicate Infrastructure() { status.ModelError? && marked }
  }

  datatype Prediction = Prediction(caseId: string, result: RunResult)

  function CaseIds(ps: seq<Prediction>): (ids: seq<string>)
    ensures |ids| == |ps|
  {
    seq(|ps|, i requires 0 <= i < |ps| => ps[i].caseId)
  }

  predicate IsPrefix(xs: seq<string>, ys: seq<string>) { |xs| <= |ys| && xs == ys[..|xs|] }

  /** The old predictions are those of the first cases, in order, and at least one new case is allowed. */
  predicate Runnable(cases: seq<string>, initial: seq<Prediction>, maxNew: Option<int>) {
    && |initial| <= |cases| && (forall i | 0 <= i < |initial| :: initial[i].caseId == cases[i])
    && (maxNew.Some? ==> maxNew.value > 0)
  }

  /** `ps` is the old predictions and `k` more, each the service's result for the case of its place. */
  predicate Extends(cases: seq<string>, service: nat -> RunResult, initial: seq<Prediction>, ps: seq<Prediction>, k: nat) {
    && |initial| + k <= |cases| && |ps| == |initial| + k && ps[..|initial|] == initial
    && forall j | |initial| <= j < |ps| :: ps[j].caseId == cases[j] && ps[j].result == service(j)
  }

  lemma OneMore(cases: seq<string>, service: nat -> RunResult, initial: seq<Prediction>, ps: seq<Prediction>, k: nat)
    requires Extends(cases, service, initial, ps, k) && |initial| + k < |cases|
    ensures Extends(cases, service, initial, ps + [Prediction(cases[|initial| + k], service(|initial| + k))], k + 1)
  {
    var more := ps + [Prediction(cases[|initial| + k], service(|initial| + k))];
    assert more[..|initial|] == ps[..|initial|];
  }

  /** `run_inference`: `files` are the contents the checkpoint file takes, in order.
      A refused call writes nothing.  Otherwise the k-th write holds the old
      predictions and the first k new ones; the run stops before checkpointing the
      first infrastructure failure, and at nothing else. */
  method RunInference(cases: seq<string>, service: nat -> RunResult, initial: seq<Prediction>, maxNew: Option<int>)
    returns (r: Result<seq<Prediction>>, files: seq<seq<Prediction>>)
    ensures !Runnable(cases, initial, maxNew) ==> r.Err? && files == []
    ensures Runnable(cases, initial, maxNew) ==>
      var left := |cases| - |initial|;
      var n := if maxNew.None? || left < maxNew.value then left else maxNew.value;
      && |files| <= n
      && (forall k | 0 <= k < |files| :: Extends(cases, service, initial, files[k], k + 1))
      && (forall j | |initial| <= j < |initial| + |files| :: !(service(j).status.ModelError? && service(j).marked))
      && (r.Ok? <==> |files| == n)
      && (r.Err? ==> service(|initial| + |files|).status.ModelError? && service(|initial| + |files|).marked)
      && (r.Ok? ==> Extends(cases, service, initial, r.value, n))
  {
    files := [];
    var predictions := initial;
    if !IsPrefix(CaseIds(predictions), cases) {
      return Err("Existing predictions are not a valid manifest prefix"), files;
    }
    var remaining := cases[|predictions|..];
    if maxNew.Some? {
      if maxNew.value < 1 {
        return Err("max_new_cases must be positive"), files;
      }
      if maxNew.value < |remaining| {
        remaining := remaining[..maxNew.value];
      }
    }
    for i := 0 to |remaining|
      invariant |files| == i && Extends(cases, service, initial, predictions, i)
      invariant forall k | 0 <= k < i :: Extends(cases, service, initial, files[k], k + 1)
      invariant forall j | |initial| <= j < |initial| + i :: !service(j).Infrastructure()
    {
      var prediction := Prediction(remaining[i], service(|initial| + i));
      if prediction.result.Infrastructure() {
        return Err("Infrastructure stop before checkpoint"), files;
      }
      assert remaining[i] == cases[|initial| + i];
      OneMore(cases, service, initial, predictions, i);
      predictions := predictions + [prediction];
      files := files + [predictions];
    }
    return Ok(predictions), files;
  }

  /** Every checkpoint such a run writes is a manifest prefix one longer than the
      one before: a crash at any moment leaves a valid prefix, and with
      `max_new_cases = 1` at most one case longer. */
  lemma CheckpointsArePrefixes(cases: seq<string>, service: nat -> RunResult, initial: seq<Prediction>, ps: seq<Prediction>, k: nat)
    requires Runnable(cases, initial, None) && Extends(cases, service, initial, ps, k)
    ensures var ids := CaseIds(ps);
            |ids| == |initial| + k && ids == cases[..|ids|] && CaseIds(initial) == ids[..|initial|]
  {
    forall i | 0 <= i < |ps| ensures ps[i].caseId == cases[i] {
      if i < |initial| { assert ps[i] == ps[..|initial|][i] == initial[i]; }
    }
    assert forall i | 0 <= i < |initial| :: ps[i] == ps[..|initial|][i];
  }
}
