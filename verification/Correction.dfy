/** The bounded correction loop of layer 5. */
module Correction {
  import opened Prelude
  import opened Validation

  /** A normalized statement; its fingerprint identifies it. */
  datatype Candidate = Candidate(fingerprint: string)

  /** A candidate with the report and the preview it got. */
  datatype Checked = Checked(candidate: Candidate, report: ValidationReport, preview: Option<nat>)

  datatype Stop = Valid | NotEligible | MaxRepairs | CallBudget | Deadline | RepeatedSql | RepeatedError | ModelError

  datatype Outcome = Outcome(
    attempted: bool, recovered: bool, stop: Stop, repairs: nat, llmCalls: nat, attempts: seq<Checked>, answer: Checked)

  /** The corrector's answer to call k (None: it raised), the report and preview of
      repair k, and whether the deadline is exhausted before call k. */
  datatype World = World(correct: nat -> Option<Candidate>, validate: nat -> (ValidationReport, Option<nat>), late: nat -> bool)

  datatype State = State(
    repairs: nat, calls: nat, seenSql: set<string>, seenErrors: set<(Option<ErrorClass>, seq<string>)>, attempts: seq<Checked>,
    current: Checked)

  datatype Bounds = Bounds(maxRepairs: int, maxCalls: int)

  /** `LoopController.before_repair`. */
  function BeforeRepair(b: Bounds, s: State, w: World): Option<Stop> {
    if s.repairs >= b.maxRepairs then Some(MaxRepairs)
    else if s.calls >= b.maxCalls then Some(CallBudget)
    else if w.late(s.calls) then Some(Deadline)
    else None
  }

  function Stopped(s: State, stop: Stop, attempted: bool, answer: Checked): Outcome {
    Outcome(attempted, stop.Valid?, stop, s.repairs, s.calls, s.attempts, answer)
  }

  datatype Progress = Done(outcome: Outcome) | More(state: State)

  /** One turn of the loop. */
  function Turn(b: Bounds, s: State, w: World): Progress {
    var stop := BeforeRepair(b, s, w);
    if stop.Some? then Done(Stopped(s, stop.value, s.calls > 0, s.current))
    else if !Repairable(s.current.report) then Done(Stopped(s, NotEligible, s.calls > 0, s.current))
    else
      var called := s.(calls := s.calls + 1);
      var corrected := w.correct(s.calls);
      if corrected.None? then Done(Stopped(called, ModelError, true, s.current))
      else
        var repaired := called.(repairs := s.repairs + 1);
        if corrected.value.fingerprint in s.seenSql then
          Done(Stopped(repaired, RepeatedSql, true, s.current.(candidate := corrected.value)))
        else
          var (report, preview) := w.validate(s.repairs);
          var now := Checked(corrected.value, report, preview);
          var tried := repaired.(seenSql := s.seenSql + {corrected.value.fingerprint}, attempts := s.attempts + [now], current := now);
          if report.accepted then Done(Stopped(tried, Valid, true, now))
          else if ErrorFingerprint(report) in s.seenErrors then Done(Stopped(tried, RepeatedError, true, now))
          else More(tried.(seenErrors := s.seenErrors + {ErrorFingerprint(report)}))
  }

  /** The whole loop from a state. */
  function Outcomes(b: Bounds, s: State, w: World): Outcome
    decreases b.maxRepairs - s.repairs
  {
    match Turn(b, s, w)
    case Done(o) => o
    case More(t) => Outcomes(b, t, w)
  }

  function Begin(failed: Checked): State {
    State(0, 0, {failed.candidate.fingerprint}, {ErrorFingerprint(failed.report)}, [], failed)
  }

  /** What a run answers; None is the controller's refusal of its bounds. */
  function Answer(b: Bounds, failed: Checked, w: World): Option<Outcome> {
    if !Repairable(failed.report) then Some(Outcome(false, false, NotEligible, 0, 0, [], failed))
    else if !(0 <= b.maxRepairs <= 2) || b.maxCalls < 0 then None
    else Some(Outcomes(b, Begin(failed), w))
  }

  /** `CorrectionService.run`. */
  method Run(b: Bounds, failed: Checked, w: World) returns (r: Result<Outcome>)
    requires failed.preview.None?
    ensures var answer := Answer(b, failed, w);
            if answer.None? then r.Err? else r == Ok(answer.value)
  {
    if !Repairable(failed.report) {
      return Ok(Outcome(false, false, NotEligible, 0, 0, [], failed));
    }
    if !(0 <= b.maxRepairs <= 2) {
      return Err("max_repairs must be between 0 and 2");
    }
    if b.maxCalls < 0 {
      return Err("max_llm_calls cannot be negative");
    }
    var attempts: seq<Checked> := [];
    var seenSql := {failed.candidate.fingerprint};
    var seenErrors := {ErrorFingerprint(failed.report)};
    var current, currentReport, result := failed.candidate, failed.report, failed.preview;
    var repairs: nat, llmCalls: nat := 0, 0;
    while true
      invariant repairs <= b.maxRepairs
      invariant Outcomes(b, State(repairs, llmCalls, seenSql, seenErrors, attempts, Checked(current, currentReport, result)), w)
             == Outcomes(b, Begin(failed), w)
      decreases b.maxRepairs - repairs
    {
      var here := Checked(current, currentReport, result);
      if repairs >= b.maxRepairs {
        return Ok(Outcome(llmCalls > 0, false, MaxRepairs, repairs, llmCalls, attempts, here));
      }
      if llmCalls >= b.maxCalls {
        return Ok(Outcome(llmCalls > 0, false, CallBudget, repairs, llmCalls, attempts, here));
      }
      if w.late(llmCalls) {
        return Ok(Outcome(llmCalls > 0, false, Deadline, repairs, llmCalls, attempts, here));
      }
      if !Repairable(currentReport) {
        return Ok(Outcome(llmCalls > 0, false, NotEligible, repairs, llmCalls, attempts, here));
      }
      var corrected := w.correct(llmCalls);
      llmCalls := llmCalls + 1;
      if corrected.None? {
        return Ok(Outcome(true, false, ModelError, repairs, llmCalls, attempts, here));
      }
      repairs := repairs + 1;
      if corrected.value.fingerprint in seenSql {
        return Ok(Outcome(true, false, RepeatedSql, repairs, llmCalls, attempts, Checked(corrected.value, currentReport, result)));
      }
      seenSql := seenSql + {corrected.value.fingerprint};
      var (report, preview) := w.validate(repairs - 1);
      result := preview;
      attempts := attempts + [Checked(corrected.value, report, preview)];
      current := corrected.value;
      currentReport := report;
      if report.accepted {
        return Ok(Outcome(true, true, Valid, repairs, llmCalls, attempts, attempts[|attempts| - 1]));
      }
      var fingerprint := ErrorFingerprint(report);
      if fingerprint in seenErrors {
        return Ok(Outcome(true, false, RepeatedError, repairs, llmCalls, attempts, attempts[|attempts| - 1]));
      }
      seenErrors := seenErrors + {fingerprint};
    }
  }

  // ------------------------------------------------------------- what a run keeps

  /** Everything checked in a run, the failed draft first. */
  function History(failed: Checked, attempts: seq<Checked>): seq<Checked> { [failed] + attempts }

  ghost predicate NewSql(h: seq<Checked>) {
    forall i, j | 0 <= i < j < |h| :: h[i].candidate.fingerprint != h[j].candidate.fingerprint
  }

  ghost predicate NewErrors(h: seq<Checked>) {
    forall i, j | 0 <= i < j < |h| :: ErrorFingerprint(h[i].report) != ErrorFingerprint(h[j].report)
  }

  ghost predicate Kept(b: Bounds, failed: Checked, s: State) {
    var h := History(failed, s.attempts);
    && s.repairs == s.calls == |s.attempts| && s.repairs <= b.maxRepairs && s.calls <= b.maxCalls
    && (forall f :: f in s.seenSql <==> exists i | 0 <= i < |h| :: h[i].candidate.fingerprint == f)
    && (forall e :: e in s.seenErrors <==> exists i | 0 <= i < |h| :: ErrorFingerprint(h[i].report) == e)
    && s.current == h[|h| - 1]
    && NewSql(h) && NewErrors(h)
    && (forall i | 0 <= i < |s.attempts| :: !s.attempts[i].report.accepted)
  }

  /** What every outcome satisfies. */
  ghost predicate Sound(b: Bounds, failed: Checked, o: Outcome) {
    var h := History(failed, o.attempts);
    && o.repairs <= b.maxRepairs && o.llmCalls <= b.maxCalls
    && o.repairs <= o.llmCalls <= o.repairs + 1 && |o.attempts| <= o.repairs
    && (o.attempted <==> o.llmCalls > 0)
    && NewSql(h) && NewErrors(h[..|h| - 1])
    && (!o.stop.Valid? && !o.stop.RepeatedError? ==> NewErrors(h))
    && (forall i | 0 <= i < |o.attempts| - 1 :: !o.attempts[i].report.accepted)
    && (o.recovered <==> o.stop.Valid?)
    && (o.stop.Valid? <==> o.attempts != [] && o.attempts[|o.attempts| - 1].report.accepted)
    && (o.stop.RepeatedError? ==> exists i | 0 <= i < |h| - 1 :: ErrorFingerprint(h[i].report) == ErrorFingerprint(h[|h| - 1].report))
    && (!o.stop.RepeatedSql? ==> o.answer == h[|h| - 1])
    && (o.stop.RepeatedSql? ==> o.answer == h[|h| - 1].(candidate := o.answer.candidate)
                                && |o.attempts| + 1 == o.repairs
                                && exists i | 0 <= i < |h| :: h[i].candidate.fingerprint == o.answer.candidate.fingerprint)
  }

  /** A state reached by checking one more candidate and failing anew. */
  ghost predicate Advanced(s: State, t: State) {
    && t.attempts == s.attempts + [t.current] && t.repairs == s.repairs + 1 && t.calls == s.calls + 1
    && !t.current.report.accepted
    && t.current.candidate.fingerprint !in s.seenSql && ErrorFingerprint(t.current.report) !in s.seenErrors
    && t.seenSql == s.seenSql + {t.current.candidate.fingerprint}
    && t.seenErrors == s.seenErrors + {ErrorFingerprint(t.current.report)}
  }

  lemma TurnAdvances(b: Bounds, s: State, w: World)
    requires Turn(b, s, w).More?
    ensures Advanced(s, Turn(b, s, w).state) && s.repairs < b.maxRepairs && s.calls < b.maxCalls
  {
  }

  lemma AdvancedKept(b: Bounds, failed: Checked, s: State, t: State)
    requires Kept(b, failed, s) && Advanced(s, t) && s.repairs < b.maxRepairs && s.calls < b.maxCalls
    ensures Kept(b, failed, t)
  {
    var h := History(failed, s.attempts);
    assert History(failed, t.attempts) == h + [t.current];
    SeenGrows(h, t.current, s, t);
    TriedHistory(h, t.current);
    forall i | 0 <= i < |t.attempts| ensures !t.attempts[i].report.accepted {
      if i < |s.attempts| { assert t.attempts[i] == s.attempts[i]; }
    }
  }

  lemma SeenGrows(h: seq<Checked>, now: Checked, s: State, t: State)
    requires forall f :: f in s.seenSql <==> exists i | 0 <= i < |h| :: h[i].candidate.fingerprint == f
    requires forall e :: e in s.seenErrors <==> exists i | 0 <= i < |h| :: ErrorFingerprint(h[i].report) == e
    requires t.seenSql == s.seenSql + {now.candidate.fingerprint} && t.seenErrors == s.seenErrors + {ErrorFingerprint(now.report)}
    requires now.candidate.fingerprint !in s.seenSql && ErrorFingerprint(now.report) !in s.seenErrors
    ensures forall i | 0 <= i < |h| :: h[i].candidate.fingerprint != now.candidate.fingerprint
    ensures forall i | 0 <= i < |h| :: ErrorFingerprint(h[i].report) != ErrorFingerprint(now.report)
    ensures var k := h + [now];
      && (forall f :: f in t.seenSql <==> exists i | 0 <= i < |k| :: k[i].candidate.fingerprint == f)
      && (forall e :: e in t.seenErrors <==> exists i | 0 <= i < |k| :: ErrorFingerprint(k[i].report) == e)
  {
    var k := h + [now];
    assert k[|h|] == now && forall i | 0 <= i < |h| :: k[i] == h[i];
  }

  lemma TurnKept(b: Bounds, failed: Checked, s: State, w: World)
    requires Kept(b, failed, s) && Turn(b, s, w).More?
    ensures Kept(b, failed, Turn(b, s, w).state)
  {
    TurnAdvances(b, s, w);
    AdvancedKept(b, failed, s, Turn(b, s, w).state);
  }

  lemma EarlySound(b: Bounds, failed: Checked, s: State, w: World)
    requires Kept(b, failed, s) && Turn(b, s, w).Done? && Turn(b, s, w).outcome.attempts == s.attempts
    ensures Sound(b, failed, Turn(b, s, w).outcome)
  {
    var h := History(failed, s.attempts);
    if s.attempts != [] { assert h[|h| - 1] == s.attempts[|s.attempts| - 1]; }
  }

  lemma TriedHistory(h: seq<Checked>, now: Checked)
    requires NewSql(h) && NewErrors(h) && forall i | 0 <= i < |h| :: h[i].candidate.fingerprint != now.candidate.fingerprint
    ensures NewSql(h + [now]) && NewErrors((h + [now])[..|h|])
    ensures (forall i | 0 <= i < |h| :: ErrorFingerprint(h[i].report) != ErrorFingerprint(now.report)) ==> NewErrors(h + [now])
  {
    assert (h + [now])[..|h|] == h;
  }

  /** An outcome reached by checking one more candidate. */
  ghost predicate Tried(s: State, o: Outcome) {
    && o.attempts == s.attempts + [o.answer] && o.repairs == o.llmCalls == s.repairs + 1 && o.attempted
    && (if o.answer.report.accepted then o.stop.Valid? && o.recovered
        else o.stop.RepeatedError? && !o.recovered && ErrorFingerprint(o.answer.report) in s.seenErrors)
    && o.answer.candidate.fingerprint !in s.seenSql
  }

  lemma TurnTries(b: Bounds, failed: Checked, s: State, w: World)
    requires Kept(b, failed, s) && Turn(b, s, w).Done? && Turn(b, s, w).outcome.attempts != s.attempts
    ensures Tried(s, Turn(b, s, w).outcome) && s.repairs < b.maxRepairs && s.calls < b.maxCalls
  {
  }

  lemma TriedSound(b: Bounds, failed: Checked, s: State, o: Outcome)
    requires Kept(b, failed, s) && Tried(s, o) && s.repairs < b.maxRepairs && s.calls < b.maxCalls
    ensures Sound(b, failed, o)
  {
    var h, k := History(failed, s.attempts), History(failed, o.attempts);
    assert k == h + [o.answer];
    forall i | 0 <= i < |h| ensures h[i].candidate.fingerprint != o.answer.candidate.fingerprint { }
    TriedHistory(h, o.answer);
    if o.stop.RepeatedError? {
      var i :| 0 <= i < |h| && ErrorFingerprint(h[i].report) == ErrorFingerprint(o.answer.report);
      assert k[i] == h[i];
    }
  }

  lemma TurnSound(b: Bounds, failed: Checked, s: State, w: World)
    requires Kept(b, failed, s) && Turn(b, s, w).Done?
    ensures Sound(b, failed, Turn(b, s, w).outcome)
  {
    if Turn(b, s, w).outcome.attempts == s.attempts {
      EarlySound(b, failed, s, w);
    } else {
      TurnTries(b, failed, s, w);
      TriedSound(b, failed, s, Turn(b, s, w).outcome);
    }
  }

  lemma {:induction false} OutcomesSound(b: Bounds, failed: Checked, s: State, w: World)
    requires Kept(b, failed, s)
    ensures Sound(b, failed, Outcomes(b, s, w))
    decreases b.maxRepairs - s.repairs
  {
    match Turn(b, s, w)
    case Done(_) => TurnSound(b, failed, s, w);
    case More(t) =>
      TurnKept(b, failed, s, w);
      OutcomesSound(b, failed, t, w);
  }

  /** Every run, for all bounds and whatever the model and the validator answer: the
      repairs and model calls stay within their bounds; every validated statement is
      new, and every failure but the last is; a run recovers exactly when it stops
      VALID, with an accepted report; and the report returned is that of the candidate
      returned unless the run stops on repeated SQL. */
  lemma CorrectionSound(b: Bounds, failed: Checked, w: World)
    requires Answer(b, failed, w).Some? && Repairable(failed.report)
    ensures Sound(b, failed, Answer(b, failed, w).value)
  {
    var h := History(failed, []);
    assert h == [failed];
    assert h[0] == failed;
    OutcomesSound(b, failed, Begin(failed), w);
  }

  // --------------------------------------------------------- why a run stops

  /** Every statement tried is the model's answer to its call, with the report it got; every
      call is in time and about a report that can be repaired; and the stop is for cause. */
  ghost predicate Explained(b: Bounds, failed: Checked, w: World, o: Outcome) {
    var h := History(failed, o.attempts);
    var n := |o.attempts|;
    && Answered(w, o.attempts)
    && (forall k: nat | k < o.llmCalls :: !w.late(k) && k <= n && MayRepair(h[k].report))
    && match o.stop
       case Valid => n > 0 && h[n].report.accepted
       case NotEligible => o.llmCalls == n && !MayRepair(h[n].report) && n < b.maxRepairs && n < b.maxCalls && !w.late(n)
       case MaxRepairs => o.llmCalls == n == b.maxRepairs
       case CallBudget => o.llmCalls == n == b.maxCalls && n < b.maxRepairs
       case Deadline => o.llmCalls == n && w.late(n) && n < b.maxRepairs && n < b.maxCalls
       case ModelError => o.llmCalls == n + 1 && w.correct(n).None?
       case RepeatedSql => o.llmCalls == n + 1 && w.correct(n) == Some(o.answer.candidate)
       case RepeatedError => o.llmCalls == n > 0 && !h[n].report.accepted
  }

  ghost predicate Answered(w: World, attempts: seq<Checked>) {
    forall k | 0 <= k < |attempts| ::
      w.correct(k).Some? && attempts[k] == Checked(w.correct(k).value, w.validate(k).0, w.validate(k).1)
  }

  ghost predicate Traced(failed: Checked, w: World, s: State) {
    var h := History(failed, s.attempts);
    && s.repairs == s.calls == |s.attempts| && s.current == h[|s.attempts|] && Answered(w, s.attempts)
    && (forall k: nat | k < s.calls :: !w.late(k) && MayRepair(h[k].report))
  }

  lemma TurnExplained(b: Bounds, failed: Checked, s: State, w: World)
    requires Traced(failed, w, s) && s.repairs <= b.maxRepairs && s.calls <= b.maxCalls
    ensures Turn(b, s, w).Done? ==> Explained(b, failed, w, Turn(b, s, w).outcome)
    ensures Turn(b, s, w).More? ==>
      Traced(failed, w, Turn(b, s, w).state) && s.repairs < b.maxRepairs && s.calls < b.maxCalls
      && Turn(b, s, w).state.repairs == s.repairs + 1
  {
    RepairableMeans(s.current.report);
    var h := History(failed, s.attempts);
    if BeforeRepair(b, s, w).None? && Repairable(s.current.report) && w.correct(s.calls).Some? {
      var n := s.calls;
      var now := Checked(w.correct(n).value, w.validate(n).0, w.validate(n).1);
      assert History(failed, s.attempts + [now]) == h + [now];
      assert forall k: nat | k <= n :: !w.late(k) && MayRepair(h[k].report);
      assert forall k: nat | k <= n :: (h + [now])[k] == h[k];
    }
  }

  lemma {:induction false} OutcomesExplained(b: Bounds, failed: Checked, s: State, w: World)
    requires Traced(failed, w, s) && s.repairs <= b.maxRepairs && s.calls <= b.maxCalls
    ensures Explained(b, failed, w, Outcomes(b, s, w))
    decreases b.maxRepairs - s.repairs
  {
    TurnExplained(b, failed, s, w);
    if Turn(b, s, w).More? { OutcomesExplained(b, failed, Turn(b, s, w).state, w); }
  }

  /** A draft that cannot be repaired is answered unchanged without a call; the bounds are
      refused exactly outside 0..2 repairs and 0.. calls; and any other run is explained. */
  lemma CorrectionExplained(b: Bounds, failed: Checked, w: World)
    ensures !MayRepair(failed.report) ==> Answer(b, failed, w) == Some(Outcome(false, false, NotEligible, 0, 0, [], failed))
    ensures MayRepair(failed.report) ==> (Answer(b, failed, w).Some? <==> 0 <= b.maxRepairs <= 2 && b.maxCalls >= 0)
    ensures MayRepair(failed.report) && Answer(b, failed, w).Some? ==> Explained(b, failed, w, Answer(b, failed, w).value)
  {
    RepairableMeans(failed.report);
    if MayRepair(failed.report) && Answer(b, failed, w).Some? {
      assert History(failed, []) == [failed];
      OutcomesExplained(b, failed, Begin(failed), w);
    }
  }

  // ------------------------------------------------------------ repeated SQL

  /** On repeated SQL the answer pairs a candidate with its own report. */
  ghost predicate OwnReport(b: Bounds, failed: Checked, w: World) {
    Repairable(failed.report) && Answer(b, failed, w).Some? && Answer(b, failed, w).value.stop.RepeatedSql? ==>
      Answer(b, failed, w).value.answer in History(failed, Answer(b, failed, w).value.attempts)
  }

  /** With one repair or one call, SQL that repeats repeats the draft. */
  lemma OneRepairOwns(b: Bounds, failed: Checked, w: World)
    requires b.maxRepairs <= 1 || b.maxCalls <= 1
    ensures OwnReport(b, failed, w)
  {
    if Repairable(failed.report) && Answer(b, failed, w).Some? && Answer(b, failed, w).value.stop.RepeatedSql? {
      CorrectionSound(b, failed, w);
      var o := Answer(b, failed, w).value;
      assert o.attempts == [];
      assert History(failed, o.attempts) == [failed];
    }
  }

  /** With two of each the report can belong to another statement: the model answers the
      draft again, and gets the report of the statement in between. */
  lemma ForeignReport(b: Bounds) returns (failed: Checked, w: World)
    requires b.maxRepairs == 2 && b.maxCalls >= 2
    ensures Repairable(failed.report) && Answer(b, failed, w).Some?
    ensures var o := Answer(b, failed, w).value;
      o.stop.RepeatedSql? && o.answer.candidate == failed.candidate && o.answer.report != failed.report && !OwnReport(b, failed, w)
  {
    failed := Checked(Candidate("a"), ValidationReport(false, Some(SyntaxError), [], false), None);
    var other := ValidationReport(false, Some(UnknownTable), [], false);
    w := World(k => Some(Candidate(if k == 0 then "b" else "a")), k => (other, None), k => false);
    var s := Begin(failed);
    var t := Turn(b, s, w);
    assert t.More?;
    var u := Turn(b, t.state, w);
    assert u.Done?;
    assert Outcomes(b, s, w) == Outcomes(b, t.state, w) == u.outcome;
    var o := Answer(b, failed, w).value;
    assert History(failed, o.attempts) == [failed, Checked(Candidate("b"), other, None)];
  }

  /** For the bounds the controller admits: on repeated SQL the returned report always
      belongs to the returned candidate if and only if one repair or one call is allowed. */
  lemma RepeatedSqlReport(b: Bounds)
    requires 0 <= b.maxRepairs <= 2 && b.maxCalls >= 0
    ensures (forall failed, w :: OwnReport(b, failed, w)) <==> b.maxRepairs <= 1 || b.maxCalls <= 1
  {
    if b.maxRepairs <= 1 || b.maxCalls <= 1 {
      forall failed, w ensures OwnReport(b, failed, w) { OneRepairOwns(b, failed, w); }
    } else {
      var failed, w := ForeignReport(b);
    }
  }
}
