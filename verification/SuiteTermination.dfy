/** When the loop of a launch ends, and what it leaves. */
module SuiteTermination {
  import opened Prelude
  import opened InferenceRunner
  import opened GuardedSuite

  /** The state a finished launch leaves: COMPLETE only for the whole manifest with a
      matching report. */
  predicate Settled(f: Files, l: Local) {
    && f.state.Some? && f.state.value.phase in {Complete, Failed, Paused, ResourceStop}
    && (f.state.value.phase.Complete? ==>
          f.checkpoint == l.args.config.ids && Reported(f, l) && !l.needsFinal)
  }

  /** The final report lists just the cases of the manifest, and counts them. */
  predicate Reported(f: Files, l: Local) {
    f.report.Some? && f.report.value.details == Some(l.args.config.ids) && f.report.value.caseCount == |l.args.config.ids|
  }

  /** What the state on disk says of a launch that ends with this turn. */
  predicate Told(f: Files, l: Local, g: Files) {
    g.state.Some? &&
    var s, done := g.state.value, |f.checkpoint| == |l.args.config.ids| && f.report.Some? && !l.needsFinal;
    && s.phase == (if done then (if Reported(f, l) then Complete else Failed)
                   else if Pauses(f, l) then Paused
                   else if g.latch then ResourceStop else Failed)
    && (s.phase in {Complete, Paused, ResourceStop} || !done ==> s.completed == |g.checkpoint| && s.childPid == None)
  }

  /** The head ends the launch: the manifest is done, or the launch pauses. */
  predicate Ends(f: Files, l: Local) { (|f.checkpoint| == |l.args.config.ids| && f.report.Some? && !l.needsFinal) || Pauses(f, l) }

  /** The batch does what it has to: it ends well, and saves the case that is left. */
  predicate Succeeds(f: Files, l: Local, o: Outcome) {
    o.ok && !o.latches && (|f.checkpoint| < |l.args.config.ids| ==> o.saves)
  }

  /** A turn settles the launch, or is a successful batch that leads back to the head. */
  ghost predicate TurnKept(f: Files, l: Local, o: Outcome, g: Files, m: Local, next: Next) {
    && IsPrefix(g.checkpoint, l.args.config.ids) && |f.checkpoint| <= |g.checkpoint| <= |f.checkpoint| + 1
    && m.args == l.args
    && (next.Batch? <==> !Ends(f, l) && Succeeds(f, l, o))
    && (next.Gone? ==> Settled(g, m) && m.batches == l.batches && Told(f, l, g))
    && (next.Batch? ==>
          (&& m.batches == l.batches + 1 && !m.needsFinal && g.pause == f.pause && m.signalled == (l.signalled || o.pauses)
           && |g.checkpoint| == (if |f.checkpoint| < |l.args.config.ids| then |f.checkpoint| + 1 else |f.checkpoint|)
           && g.report == (if |g.checkpoint| == |l.args.config.ids| && o.report.Some? then o.report else f.report)))
  }

  /** Exactly when a turn leads back to the loop head, and what it changes. */
  lemma OneTurn(f: Files, l: Local, o: Outcome, now: real, deadline: real)
    requires IsPrefix(f.checkpoint, l.args.config.ids)
    ensures var (g, m, next) := Turned(f, l, o, now, deadline); TurnKept(f, l, o, g, m, next)
  {
    var (g, m, next) := Headed(f, l, now);
    if next.Batch? {
      assert !Ends(f, l) && m.start == |f.checkpoint|;
      OneBatch(g, m, o, now, deadline);
    }
  }

  lemma OneBatch(f: Files, l: Local, o: Outcome, now: real, deadline: real)
    requires IsPrefix(f.checkpoint, l.args.config.ids) && l.start == |f.checkpoint|
    ensures var ids := l.args.config.ids;
      var (g, m, raised) := Cooled(Worked(f, ids, o), l.(signalled := l.signalled || o.pauses), false, deadline, now);
      var (h, k, next) := Judged(g, m, o.ok && !o.latches && !raised, false, now);
      && IsPrefix(h.checkpoint, ids) && |f.checkpoint| <= |h.checkpoint| <= |f.checkpoint| + 1
      && k.args == l.args
      && (next.Batch? <==> Succeeds(f, l, o))
      && (next.Gone? ==> Settled(h, k) && k.batches == l.batches)
      && (next.Gone? ==> h.state.value.phase == (if h.latch then ResourceStop else Failed)
                         && h.state.value.completed == |h.checkpoint| && h.state.value.childPid == None)
      && (next.Batch? ==>
            (&& k.batches == l.batches + 1 && !k.needsFinal && h.pause == f.pause && k.signalled == (l.signalled || o.pauses)
             && |h.checkpoint| == (if |f.checkpoint| < |ids| then |f.checkpoint| + 1 else |f.checkpoint|)
             && h.report == (if |h.checkpoint| == |ids| && o.report.Some? then o.report else f.report)))
  {
  }

  // ---------------------------------------------------------------------- what is left

  /** A step that turns the loop with the given batches. */
  ghost predicate Turns(step: Step, outcome: nat -> Outcome) {
    forall f: Files, l: Local {:trigger step(f, l)} | IsPrefix(f.checkpoint, l.args.config.ids) ::
      TurnKept(f, l, outcome(l.batches), step(f, l).0, step(f, l).1, step(f, l).2)
  }

  lemma ScriptTurn(s: Script, f: Files, l: Local)
    requires IsPrefix(f.checkpoint, l.args.config.ids)
    ensures var (g, m, next) := TurnBy(s)(f, l); TurnKept(f, l, s.outcome(l.batches), g, m, next)
  {
    OneTurn(f, l, s.outcome(l.batches), s.clock(l.batches), s.clock(l.batches) + s.cooldown);
  }

  lemma LoopTurns(s: Script)
    ensures Turns(TurnBy(s), s.outcome)
  {
    forall f: Files, l: Local | IsPrefix(f.checkpoint, l.args.config.ids)
      ensures TurnKept(f, l, s.outcome(l.batches), TurnBy(s)(f, l).0, TurnBy(s)(f, l).1, TurnBy(s)(f, l).2)
    {
      ScriptTurn(s, f, l);
    }
  }

  ghost predicate KeptSince(f: Files, l: Local, g: Files, m: Local, next: Next, n: nat) {
    && IsPrefix(g.checkpoint, l.args.config.ids) && |f.checkpoint| <= |g.checkpoint| <= |f.checkpoint| + n
    && m.args == l.args && l.batches <= m.batches <= l.batches + n
    && (next.Batch? ==> m.batches == l.batches + n)
    && (next.Gone? ==> Settled(g, m))
  }

  lemma KeptOnce(f: Files, l: Local, g: Files, m: Local, h: Files, k: Local, again: Next, o: Outcome, n: nat)
    requires KeptSince(f, l, g, m, Batch, n) && TurnKept(g, m, o, h, k, again)
    ensures KeptSince(f, l, h, k, again, n + 1)
  {
  }

  /** What a launch leaves after `n` turns: the checkpoint is a manifest prefix that grew
      by at most one case a turn, and an ended launch has settled. */
  lemma {:induction false} AfterKeeps(step: Step, outcome: nat -> Outcome, f: Files, l: Local, n: nat)
    requires Turns(step, outcome) && IsPrefix(f.checkpoint, l.args.config.ids)
    ensures var (g, m, next) := After(step, f, l, n); KeptSince(f, l, g, m, next, n)
  {
    if n > 0 {
      AfterKeeps(step, outcome, f, l, n - 1);
      var (g, m, next) := After(step, f, l, n - 1);
      if next.Batch? {
        var (h, k, again) := step(g, m);
        KeptOnce(f, l, g, m, h, k, again, outcome(m.batches), n - 1);
      }
    }
  }

  /** A launch runs no more batches than it is allowed. */
  lemma {:induction false} BatchesBounded(step: Step, outcome: nat -> Outcome, f: Files, l: Local, n: nat)
    requires Turns(step, outcome) && IsPrefix(f.checkpoint, l.args.config.ids)
    ensures l.args.maxBatches.Some? && l.batches <= l.args.maxBatches.value ==> After(step, f, l, n).1.batches <= l.args.maxBatches.value
    ensures l.args.pilot && l.batches <= 1 ==> After(step, f, l, n).1.batches <= 1
  {
    if n > 0 {
      BatchesBounded(step, outcome, f, l, n - 1);
      AfterKeeps(step, outcome, f, l, n - 1);
    }
  }

  // ------------------------------------------------------------------------ the measure

  /** How many batches the loop can still run. */
  function Measure(f: Files, l: Local): int {
    2 * (|l.args.config.ids| - |f.checkpoint|) + if l.needsFinal || f.report.None? then 1 else 0
  }

  /** A turn with a worker that leaves a report when the checkpoint is full ends the
      launch or lowers the measure. */
  lemma MeasureFalls(f: Files, l: Local, o: Outcome, g: Files, m: Local, next: Next)
    requires IsPrefix(f.checkpoint, l.args.config.ids) && TurnKept(f, l, o, g, m, next) && o.report.Some? && next.Batch?
    ensures 0 <= Measure(g, m) < Measure(f, l)
  {
  }

  lemma {:induction false} MeasureBounds(step: Step, outcome: nat -> Outcome, f: Files, l: Local, n: nat)
    requires Turns(step, outcome) && IsPrefix(f.checkpoint, l.args.config.ids) && forall k :: outcome(k).report.Some?
    ensures var (g, m, next) := After(step, f, l, n);
      next.Batch? ==> IsPrefix(g.checkpoint, l.args.config.ids) && m.args == l.args && 0 <= Measure(g, m) <= Measure(f, l) - n
  {
    if n > 0 {
      MeasureBounds(step, outcome, f, l, n - 1);
      var (g, m, next) := After(step, f, l, n - 1);
      var (h, k, again) := After(step, f, l, n);
      if again.Batch? { MeasureFalls(g, m, outcome(m.batches), h, k, again); }
    }
  }

  /** With a worker that always leaves a report the launch has ended after as many turns
      as the measure allows, and one more, and has then settled. */
  lemma DiligentEnds(s: Script, f: Files, l: Local)
    requires IsPrefix(f.checkpoint, l.args.config.ids) && forall k :: s.outcome(k).report.Some?
    ensures Measure(f, l) >= 0 && !Forever(TurnBy(s), f, l)
    ensures var (g, m, next) := After(TurnBy(s), f, l, Measure(f, l) + 1); next.Gone? && KeptSince(f, l, g, m, next, Measure(f, l) + 1)
  {
    LoopTurns(s);
    var n: nat := Measure(f, l) + 1;
    MeasureBounds(TurnBy(s), s.outcome, f, l, n);
    AfterKeeps(TurnBy(s), s.outcome, f, l, n);
    assert After(TurnBy(s), f, l, n).2.Gone?;
  }

  // ------------------------------------------------------------------- loops without end

  function Left(f: Files, l: Local): int { |l.args.config.ids| - |f.checkpoint| }

  /** Batch k keeps an endless launch going: it succeeds, nobody pauses, and once the
      checkpoint is full it leaves no report. */
  predicate Idle(o: Outcome, k: nat, left: int) {
    o.ok && !o.latches && !o.pauses && (k < left ==> o.saves) && (k + 1 >= left ==> o.report.None?)
  }

  predicate IdleAt(outcome: nat -> Outcome, first: nat, k: nat, left: int) { Idle(outcome(first + k), k, left) }

  /** Nothing in the launch bounds the loop, and no report exists. */
  predicate Unbounded(f: Files, l: Local) {
    !l.signalled && f.pause.None? && l.args.maxBatches.None? && !l.args.pilot && f.report.None?
  }

  ghost predicate Endless(outcome: nat -> Outcome, f: Files, l: Local) {
    Unbounded(f, l) && forall k :: IdleAt(outcome, l.batches, k, Left(f, l))
  }

  function Min(a: int, b: int): int { if a < b then a else b }

  /** The files and locals of a launch that has gone on for `n` turns. */
  ghost predicate GoneOn(f: Files, l: Local, g: Files, m: Local, n: nat) {
    && IsPrefix(g.checkpoint, l.args.config.ids) && m.args == l.args && m.batches == l.batches + n
    && |g.checkpoint| == |f.checkpoint| + Min(n, Left(f, l))
    && g.pause == f.pause && (l.signalled ==> m.signalled) && (f.report.Some? ==> g.report.Some?)
    && (n > 0 ==> !m.needsFinal)
  }

  lemma {:induction false} StillOn(step: Step, outcome: nat -> Outcome, f: Files, l: Local, n: nat)
    requires Turns(step, outcome) && IsPrefix(f.checkpoint, l.args.config.ids) && After(step, f, l, n).2.Batch?
    ensures GoneOn(f, l, After(step, f, l, n).0, After(step, f, l, n).1, n)
  {
    if n > 0 { StillOn(step, outcome, f, l, n - 1); }
  }

  /** What one more turn of a launch that goes on tells. */
  lemma NextTurn(step: Step, outcome: nat -> Outcome, f: Files, l: Local, n: nat)
    requires Turns(step, outcome) && IsPrefix(f.checkpoint, l.args.config.ids) && Forever(step, f, l)
    ensures var (g, m, next) := After(step, f, l, n);
      var (h, k, again) := After(step, f, l, n + 1);
      GoneOn(f, l, g, m, n) && again.Batch? && TurnKept(g, m, outcome(l.batches + n), h, k, again)
  {
    assert After(step, f, l, n).2.Batch? && After(step, f, l, n + 1).2.Batch?;
    StillOn(step, outcome, f, l, n);
  }

  lemma ForeverIdles(step: Step, outcome: nat -> Outcome, f: Files, l: Local, k: nat)
    requires Turns(step, outcome) && IsPrefix(f.checkpoint, l.args.config.ids) && Forever(step, f, l)
    ensures IdleAt(outcome, l.batches, k, Left(f, l))
  {
    NextTurn(step, outcome, f, l, k);
    NextTurn(step, outcome, f, l, k + 1);
  }

  lemma ForeverUnbounded(step: Step, outcome: nat -> Outcome, f: Files, l: Local)
    requires Turns(step, outcome) && IsPrefix(f.checkpoint, l.args.config.ids) && Forever(step, f, l)
    ensures Unbounded(f, l)
  {
    NextTurn(step, outcome, f, l, 0);
    NextTurn(step, outcome, f, l, 1);
    if l.args.maxBatches.Some? {
      var n: nat := l.args.maxBatches.value - l.batches;
      NextTurn(step, outcome, f, l, n);
    }
    NextTurn(step, outcome, f, l, Left(f, l) + 1);
  }

  ghost predicate Idling(f: Files, l: Local, g: Files, m: Local, n: nat) { GoneOn(f, l, g, m, n) && !m.signalled && g.report.None? }

  lemma IdleTurn(f: Files, l: Local, g: Files, m: Local, h: Files, k: Local, again: Next, o: Outcome, n: nat)
    requires Idling(f, l, g, m, n) && IsPrefix(f.checkpoint, l.args.config.ids)
    requires Unbounded(f, l) && Idle(o, n, Left(f, l)) && TurnKept(g, m, o, h, k, again)
    ensures again.Batch? && Idling(f, l, h, k, n + 1)
  {
  }

  lemma IdleStep(step: Step, outcome: nat -> Outcome, f: Files, l: Local, g: Files, m: Local, n: nat)
    requires Turns(step, outcome) && Idling(f, l, g, m, n) && IsPrefix(f.checkpoint, l.args.config.ids)
    requires Unbounded(f, l) && IdleAt(outcome, l.batches, n, Left(f, l))
    ensures var (h, k, again) := step(g, m); again.Batch? && Idling(f, l, h, k, n + 1)
  {
    var (h, k, again) := step(g, m);
    IdleTurn(f, l, g, m, h, k, again, outcome(m.batches), n);
  }

  lemma {:induction false} EndlessGoesOn(step: Step, outcome: nat -> Outcome, f: Files, l: Local, n: nat)
    requires Turns(step, outcome) && IsPrefix(f.checkpoint, l.args.config.ids) && Endless(outcome, f, l)
    ensures var (g, m, next) := After(step, f, l, n); next.Batch? && Idling(f, l, g, m, n)
  {
    if n > 0 {
      EndlessGoesOn(step, outcome, f, l, n - 1);
      var (g, m, next) := After(step, f, l, n - 1);
      assert IdleAt(outcome, l.batches, n - 1, Left(f, l));
      IdleStep(step, outcome, f, l, g, m, n - 1);
    }
  }

  /** The loop runs batch after batch without end -- n batches in n turns, for every n --
      if and only if nothing in the launch bounds it, no report exists, and every batch
      succeeds, pauses nothing and, once the checkpoint is full, leaves no report. */
  lemma EndlessExactly(s: Script, f: Files, l: Local)
    requires IsPrefix(f.checkpoint, l.args.config.ids)
    ensures Forever(TurnBy(s), f, l) <==> Endless(s.outcome, f, l)
    ensures Forever(TurnBy(s), f, l) ==> forall n: nat :: After(TurnBy(s), f, l, n).1.batches == l.batches + n
  {
    LoopTurns(s);
    if Forever(TurnBy(s), f, l) {
      ForeverUnbounded(TurnBy(s), s.outcome, f, l);
      forall k ensures IdleAt(s.outcome, l.batches, k, Left(f, l)) { ForeverIdles(TurnBy(s), s.outcome, f, l, k); }
      forall n: nat ensures After(TurnBy(s), f, l, n).1.batches == l.batches + n { NextTurn(TurnBy(s), s.outcome, f, l, n); }
    }
    if Endless(s.outcome, f, l) {
      forall n ensures After(TurnBy(s), f, l, n).2.Batch? { EndlessGoesOn(TurnBy(s), s.outcome, f, l, n); }
    }
  }

  /** A full checkpoint whose worker exits cleanly but never leaves a report: after every
      number of turns the launch has run as many batches. */
  lemma NoReportNoEnd(s: Script, f: Files, l: Local, n: nat)
    requires f.checkpoint == l.args.config.ids && Unbounded(f, l)
    requires forall k :: s.outcome(k) == Outcome(false, None, true, false, false)
    ensures After(TurnBy(s), f, l, n).2.Batch? && After(TurnBy(s), f, l, n).1.batches == l.batches + n
  {
    EndlessExactly(s, f, l);
  }
}
