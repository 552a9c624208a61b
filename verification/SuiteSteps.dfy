/** What each stretch of the suite needs, decides and leaves on disk. */
module SuiteSteps {
  import opened Prelude
  import opened InferenceRunner
  import opened GuardedSuite

  /** What a launch needs: distinct cases, a checkpoint that is a prefix of them, the same
      configuration as before, no latch, no live worker of this boot, and after an unclean
      stop with cases to go the pilot flag. */
  predicate MayStart(f: Files, a: Args, boot: nat, alive: bool) {
    && a.config.ids != [] && (forall i, j | 0 <= i < j < |a.config.ids| :: a.config.ids[i] != a.config.ids[j])
    && (a.maxBatches.None? || a.maxBatches.value > 0)
    && f.checkpoint <= a.config.ids && !f.latch
    && (f.state.Some? ==>
          var s := f.state.value;
          && s.identity == a.config
          && (s.boot == boot ==> !alive)
          && (|f.checkpoint| == |a.config.ids| || a.pilot
              || (s.boot == boot && !s.recoveryRequired && !s.phase.Running? && !s.phase.Cooling?)))
  }

  /** A launch starts exactly when it may, and then as READY, with no batch behind it, the
      cool-down still to be kept and, after an unclean stop, the recovery still to be proved. */
  lemma StartsExactly(f: Files, a: Args, boot: nat, alive: bool, now: real)
    ensures Started(f, a, boot, alive, now).Some? <==> MayStart(f, a, boot, alive)
    ensures MayStart(f, a, boot, alive) ==>
      var (g, l) := Started(f, a, boot, alive, now).value;
      var m := l.mem;
      var until := if f.state.Some? then f.state.value.cooldownUntil else 0.0;
      && g.checkpoint == f.checkpoint && g.report == f.report && !g.latch && g.state == Some(m)
      && m == SuiteState(Ready, |f.checkpoint|, |a.config.ids|, a.config, boot, None, until, m.recoveryRequired, l.needsFinal, now)
      && l.args == a && l.batches == 0 && !l.signalled
      && (m.recoveryRequired <==>
            (&& |f.checkpoint| < |a.config.ids| && f.state.Some?
             && (f.state.value.recoveryRequired || f.state.value.boot != boot || f.state.value.phase in {Running, Cooling})))
      && (l.needsFinal <==>
            (&& |f.checkpoint| == |a.config.ids|
             && (f.state.Some? ==> f.state.value.cleanupPending || f.state.value.phase == Running)))
  {
  }

  /** The head of the loop ends the launch COMPLETE or FAILED by the final report, or PAUSED,
      and otherwise announces a batch; what it decides is on disk. */
  lemma HeadDecides(f: Files, l: Local, now: real)
    ensures var (g, m, next) := Headed(f, l, now);
      var n := |f.checkpoint|;
      var final := n == |l.args.config.ids| && f.report.Some? && !l.needsFinal;
      && (!(f.checkpoint <= l.args.config.ids) ==> g == f && next.Gone?)
      && (f.checkpoint <= l.args.config.ids ==>
            && g == f.(state := Some(m.mem)) && m.mem.updatedAt == now && m.mem.cooldownUntil == l.mem.cooldownUntil
            && (next.Gone? <==>
                  (|| final || l.signalled || f.pause.Some?
                   || (l.args.maxBatches.Some? && l.batches >= l.args.maxBatches.value) || (l.args.pilot && l.batches > 0)))
            && m.mem.phase == (if next.Batch? then Running else if !final then Paused
                               else if f.report.value == Report(Some(l.args.config.ids), n) then Complete else Failed)
            && (m.mem.phase != Failed ==> m.mem.completed == n && m.mem.childPid == None)
            && (next.Batch? ==> m.mem.cleanupPending && m.start == n))
  {
  }

  /** `cooling` raises exactly on a checkpoint that is no prefix, and then writes nothing;
      otherwise the deadline is on disk, and a dead worker is forgotten. */
  lemma DeadlineRecorded(f: Files, l: Local, alive: bool, deadline: real, now: real)
    ensures var (g, m, raised) := Cooled(f, l, alive, deadline, now);
      && (raised <==> !(f.checkpoint <= l.args.config.ids))
      && (raised ==> g == f)
      && (!raised ==>
            && g == f.(state := Some(m.mem))
            && m.mem.phase == Cooling && m.mem.cooldownUntil == deadline && m.mem.completed == |f.checkpoint| && m.mem.updatedAt == now
            && m.mem.childPid == (if alive then l.mem.childPid else None) && (m.mem.cleanupPending <==> alive && l.mem.cleanupPending))
  {
  }

  /** A batch succeeds exactly when the guard did and the checkpoint holds one case more, or
      the same full one; any other ends the launch as RESOURCE_STOP or FAILED, and a
      recovery that was required stays required. */
  lemma BatchSucceedsExactly(f: Files, l: Local, ok: bool, alive: bool, now: real)
    ensures var (g, m, next) := Judged(f, l, ok, alive, now);
      var n := |f.checkpoint|;
      && (next.Batch? <==>
            (&& ok && f.checkpoint <= l.args.config.ids
             && n == l.start + (if l.start < |l.args.config.ids| then 1 else 0)))
      && (next.Batch? ==> g == f && m.batches == l.batches + 1 && !m.needsFinal && !m.mem.recoveryRequired && !m.mem.cleanupPending)
      && (next.Gone? && f.checkpoint <= l.args.config.ids ==>
            && g == f.(state := Some(m.mem))
            && m.mem == l.mem.(phase := if f.latch then ResourceStop else Failed, completed := n,
                               childPid := if alive then l.mem.childPid else None, updatedAt := now))
      && (next.Gone? && !(f.checkpoint <= l.args.config.ids) ==> g == f)
  {
  }
}
