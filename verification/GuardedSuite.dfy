/** The one-case-at-a-time suite with durable pause, crash and reboot. */
module GuardedSuite {
  import opened Prelude
  import opened InferenceRunner

  // ------------------------------------------------------------ durable entities

  datatype Phase = Ready | Running | Cooling | Paused | Complete | Failed | ResourceStop {
    predicate Busy() { Running? || Cooling? }
  }

  /** The configuration; its hash identifies the suite, and hashes are injective. */
  datatype Config = Config(ids: seq<string>, settings: string) {
    predicate Unique() { ids != [] && forall i, j | 0 <= i < j < |ids| :: ids[i] != ids[j] }
  }

  datatype SuiteState = SuiteState(
    phase: Phase, completed: nat, total: nat, identity: Config, boot: nat, childPid: Option<nat>,
    cooldownUntil: real, recoveryRequired: bool, cleanupPending: bool, updatedAt: real)

  /** `details` is None when it is not a list. */
  datatype Report = Report(details: Option<seq<string>>, caseCount: int)

  /** `require_complete_report`. */
  predicate Matches(r: Report, ids: seq<string>) { r.details == Some(ids) && r.caseCount == |ids| }

  /** The files: checkpoint, suite state, stop latch, report, pause request (its
      modification time). */
  datatype Files = Files(checkpoint: seq<string>, state: Option<SuiteState>, latch: bool, report: Option<Report>, pause: Option<real>)

  /** `select_case_ids`. */
  function SelectCaseIds(ids: seq<string>, requested: seq<string>): Result<seq<string>> {
    if exists i, j :: 0 <= i < j < |requested| && requested[i] == requested[j] then Err("Duplicate selected case IDs")
    else if exists x | x in requested :: x !in ids then Err("Unknown selected case IDs")
    else Ok(Filtered(ids, requested))
  }

  function Filtered(ids: seq<string>, requested: seq<string>): seq<string> {
    if ids == [] then []
    else (if requested == [] || ids[0] in requested then [ids[0]] else []) + Filtered(ids[1..], requested)
  }

  lemma {:induction false} FilteredKeepsOrder(ids: seq<string>, requested: seq<string>) returns (at: seq<nat>)
    ensures var r := Filtered(ids, requested);
      && |at| == |r|
      && (forall k | 0 <= k < |r| :: at[k] < |ids| && r[k] == ids[at[k]])
      && (forall j, k | 0 <= j < k < |r| :: at[j] < at[k])
      && (forall x :: x in r <==> x in ids && (requested == [] || x in requested))
  {
    at := [];
    if ids != [] {
      var rest := FilteredKeepsOrder(ids[1..], requested);
      var tail := Filtered(ids[1..], requested);
      at := seq(|rest|, k requires 0 <= k < |rest| => rest[k] + 1);
      if requested == [] || ids[0] in requested {
        at := [0] + at;
        assert Filtered(ids, requested) == [ids[0]] + tail;
      }
      assert ids == [ids[0]] + ids[1..];
    }
  }

  /** A selection is refused exactly when it repeats or invents a case; otherwise it
      keeps just the requested cases (all, when none is requested), each once, in
      manifest order. */
  lemma SelectKeepsManifestOrder(config: Config, requested: seq<string>) returns (at: seq<nat>)
    requires config.Unique()
    ensures var ids := config.ids;
      var r := SelectCaseIds(ids, requested);
      && (r.Err? <==> (exists i, j :: 0 <= i < j < |requested| && requested[i] == requested[j]) || exists x | x in requested :: x !in ids)
      && (r.Ok? ==>
            (&& config.(ids := r.value).Unique()
             && |at| == |r.value|
             && (forall k | 0 <= k < |at| :: at[k] < |ids| && r.value[k] == ids[at[k]])
             && (forall j, k | 0 <= j < k < |at| :: at[j] < at[k])
             && (forall x :: x in r.value <==> if requested == [] then x in ids else x in requested)))
  {
    at := FilteredKeepsOrder(config.ids, requested);
    var r := SelectCaseIds(config.ids, requested);
    if r.Ok? {
      var witness0 := if requested == [] then config.ids[0] else requested[0];
      assert witness0 in config.ids && witness0 in r.value;
    }
  }

  // -------------------------------------------------------- the stretches of main

  datatype Args = Args(config: Config, pilot: bool, maxBatches: Option<int>)

  /** The local variables of a launch; `mem` is the suite state in memory and `start`
      the checkpoint length the current batch began with. */
  datatype Local = Local(args: Args, mem: SuiteState, batches: nat, needsFinal: bool, signalled: bool, start: nat)

  datatype Next = Gone | Batch

  function Written(f: Files, mem: SuiteState): Files { f.(state := Some(mem)) }

  predicate Unclean(s: SuiteState, boot: nat) { s.recoveryRequired || s.boot != boot || s.phase.Busy() }

  predicate Refuses(f: Files, a: Args, boot: nat, alive: bool) {
    || !a.config.Unique() || (a.maxBatches.Some? && a.maxBatches.value < 1)
    || !IsPrefix(f.checkpoint, a.config.ids)
    || (f.state.Some? && f.state.value.identity != a.config)
    || f.latch
    || (f.state.Some? && f.state.value.boot == boot && alive)
    || (f.state.Some? && Unclean(f.state.value, boot) && |f.checkpoint| < |a.config.ids| && !a.pilot)
  }

  /** From the start of `main` to the first state written; `alive` is the answer of
      `process_group_alive` for the recorded worker. */
  function Started(f: Files, a: Args, boot: nat, alive: bool, now: real): Option<(Files, Local)> {
    if Refuses(f, a, boot, alive) then None
    else
      var done, n := |f.checkpoint|, |a.config.ids|;
      var unclean := f.state.Some? && Unclean(f.state.value, boot);
      var needsFinal := done == n && (f.state.None? || f.state.value.cleanupPending || f.state.value.phase.Running?);
      var stale := f.state.Some? && f.state.value.phase.Paused? && f.pause.Some? && f.pause.value <= f.state.value.updatedAt;
      var until := if f.state.Some? then f.state.value.cooldownUntil else 0.0;
      var mem := SuiteState(Ready, done, n, a.config, boot, None, until, unclean && done < n, needsFinal, now);
      Some((Written(f.(pause := if stale then None else f.pause), mem), Local(a, mem, 0, needsFinal, false, 0)))
  }

  predicate Pauses(f: Files, l: Local) {
    l.signalled || f.pause.Some? || (l.args.maxBatches.Some? && l.batches >= l.args.maxBatches.value) || (l.args.pilot && l.batches >= 1)
  }

  /** The head of the loop: complete, fail, pause, or announce a batch. */
  function Headed(f: Files, l: Local, now: real): (Files, Local, Next) {
    var done, ids := |f.checkpoint|, l.args.config.ids;
    if !IsPrefix(f.checkpoint, ids) then (f, l, Gone)
    else if done == |ids| && f.report.Some? && !l.needsFinal then
      var mem := if Matches(f.report.value, ids) then l.mem.(phase := Complete, completed := done, childPid := None, updatedAt := now)
                 else l.mem.(phase := Failed, updatedAt := now);
      (Written(f, mem), l.(mem := mem), Gone)
    else if Pauses(f, l) then
      var mem := l.mem.(phase := Paused, completed := done, childPid := None, updatedAt := now);
      (Written(f, mem), l.(mem := mem), Gone)
    else
      var mem := l.mem.(phase := Running, completed := done, childPid := None, cleanupPending := true, updatedAt := now);
      (Written(f, mem), l.(mem := mem, start := done), Batch)
  }

  /** `spawned`. */
  function Recorded(f: Files, l: Local, pid: nat, now: real): (Files, Local) {
    var mem := l.mem.(childPid := Some(pid), updatedAt := now);
    (Written(f, mem), l.(mem := mem))
  }

  /** `cooling`; the flag says that it raised. */
  function Cooled(f: Files, l: Local, alive: bool, deadline: real, now: real): (Files, Local, bool) {
    var mem := l.mem.(phase := Cooling);
    var mem := if alive then mem else mem.(childPid := None, cleanupPending := false);
    if !IsPrefix(f.checkpoint, l.args.config.ids) then (f, l.(mem := mem), true)
    else
      var mem := mem.(completed := |f.checkpoint|, cooldownUntil := deadline, updatedAt := now);
      (Written(f, mem), l.(mem := mem), false)
  }

  predicate Expected(f: Files, l: Local) {
    IsPrefix(f.checkpoint, l.args.config.ids)
    && |f.checkpoint| == if l.start < |l.args.config.ids| then l.start + 1 else l.start
  }

  /** After the guard: the batch persisted what it had to, or the suite stops. */
  function Judged(f: Files, l: Local, ok: bool, alive: bool, now: real): (Files, Local, Next) {
    if ok && Expected(f, l) then
      (f, l.(needsFinal := false, mem := l.mem.(recoveryRequired := false, cleanupPending := false), batches := l.batches + 1), Batch)
    else
      var mem := l.mem.(phase := if f.latch then ResourceStop else Failed);
      if !IsPrefix(f.checkpoint, l.args.config.ids) then (f, l.(mem := mem), Gone)
      else
        var mem := mem.(completed := |f.checkpoint|, childPid := if alive then mem.childPid else None, updatedAt := now);
        (Written(f, mem), l.(mem := mem), Gone)
  }

  /** What a batch does: whether its worker saves a case, the report it leaves, and
      how the guard ends. */
  datatype Outcome = Outcome(saves: bool, report: Option<Report>, ok: bool, latches: bool, pauses: bool)

  function Saved(checkpoint: seq<string>, ids: seq<string>): seq<string> {
    if |checkpoint| < |ids| then checkpoint + [ids[|checkpoint|]] else checkpoint
  }

  /** The driver of a suite: its files and one launch's local variables. */
  class SuiteDriver {
    var files: Files
    var mem: SuiteState
    var batches: nat
    var needsFinal: bool
    var requestedPause: bool
    var completed: nat
    const args: Args

    function Locals(): Local
      reads this
    {
      Local(args, mem, batches, needsFinal, requestedPause, completed)
    }

    constructor (files: Files, args: Args)
      ensures this.files == files && this.args == args
    {
      this.files, this.args := files, args;
      mem := SuiteState(Ready, 0, 0, args.config, 0, None, 0.0, false, false, 0.0);
      batches, needsFinal, requestedPause, completed := 0, false, false, 0;
    }

    method WriteState(now: real)
      modifies this`files, this`mem
      ensures mem == old(mem).(updatedAt := now) && files == Written(old(files), mem)
    {
      mem := mem.(updatedAt := now);
      files := files.(state := Some(mem));
    }

    method Start(boot: nat, alive: bool, now: real) returns (ok: bool)
      modifies this
      ensures var s := Started(old(files), args, boot, alive, now);
        && ok == s.Some?
        && (if s.None? then files == old(files) else (files, Locals()) == s.value)
    {
      var previous := files.state;
      if !args.config.Unique() || (args.maxBatches.Some? && args.maxBatches.value < 1) {
        return false;
      }
      if !IsPrefix(files.checkpoint, args.config.ids) {
        return false;
      }
      var done := |files.checkpoint|;
      if previous.Some? && previous.value.identity != args.config {
        return false;
      }
      if files.latch {
        return false;
      }
      if previous.Some? && previous.value.boot == boot && alive {
        return false;
      }
      var unclean := previous.Some? &&
                     (previous.value.recoveryRequired || previous.value.boot != boot || previous.value.phase.Running? || previous.value.phase.Cooling?);
      assert unclean <==> previous.Some? && Unclean(previous.value, boot);
      if unclean && done < |args.config.ids| && !args.pilot {
        return false;
      }
      assert !Refuses(files, args, boot, alive);
      needsFinal := done == |args.config.ids| && (previous.None? || previous.value.cleanupPending || previous.value.phase.Running?);
      if previous.Some? && previous.value.phase.Paused? && files.pause.Some? && files.pause.value <= previous.value.updatedAt {
        files := files.(pause := None);
      }
      mem := SuiteState(
        Ready, done, |args.config.ids|, args.config, boot, None, if previous.Some? then previous.value.cooldownUntil else 0.0,
        unclean && done < |args.config.ids|, needsFinal, now);
      batches, requestedPause, completed := 0, false, 0;
      assert Locals() == Started(old(files), args, boot, alive, now).value.1;
      WriteState(now);
      return true;
    }

    /** A phase of the state, written at once. */
    method Enter(phase: Phase, done: nat, now: real)
      modifies this`files, this`mem
      ensures mem == old(mem).(phase := phase, completed := done, childPid := None, updatedAt := now) && files == Written(old(files), mem)
    {
      mem := mem.(phase := phase, completed := done, childPid := None);
      WriteState(now);
    }

    method Head(now: real) returns (next: Next)
      modifies this`files, this`mem, this`completed
      ensures (files, Locals(), next) == Headed(old(files), old(Locals()), now)
    {
      if !IsPrefix(files.checkpoint, args.config.ids) {
        return Gone;
      }
      var done := |files.checkpoint|;
      if done == |args.config.ids| && files.report.Some? && !needsFinal {
        if !Matches(files.report.value, args.config.ids) {
          mem := mem.(phase := Failed);
          WriteState(now);
          return Gone;
        }
        Enter(Complete, done, now);
        return Gone;
      }
      if requestedPause || files.pause.Some? || (args.maxBatches.Some? && batches >= args.maxBatches.value) || (args.pilot && batches >= 1) {
        Enter(Paused, done, now);
        return Gone;
      }
      mem := mem.(cleanupPending := true);
      completed := done;
      Enter(Running, done, now);
      return Batch;
    }

    method Spawned(pid: nat, now: real)
      modifies this`files, this`mem
      ensures (files, Locals()) == Recorded(old(files), old(Locals()), pid, now)
    {
      mem := mem.(childPid := Some(pid));
      WriteState(now);
    }

    method Cooldown(alive: bool, deadline: real, now: real) returns (raised: bool)
      modifies this`files, this`mem
      ensures (files, Locals(), raised) == Cooled(old(files), old(Locals()), alive, deadline, now)
    {
      mem := mem.(phase := Cooling);
      if !alive {
        mem := mem.(childPid := None);
        mem := mem.(cleanupPending := false);
      }
      if !IsPrefix(files.checkpoint, args.config.ids) {
        return true;
      }
      mem := mem.(completed := |files.checkpoint|, cooldownUntil := deadline);
      WriteState(now);
      return false;
    }

    method Judge(ok: bool, alive: bool, now: real) returns (next: Next)
      modifies this
      ensures (files, Locals(), next) == Judged(old(files), old(Locals()), ok, alive, now)
    {
      if ok && IsPrefix(files.checkpoint, args.config.ids) {
        var after := |files.checkpoint|;
        var expected := if completed < |args.config.ids| then completed + 1 else completed;
        if after == expected {
          needsFinal := false;
          mem := mem.(recoveryRequired := false, cleanupPending := false);
          batches := batches + 1;
          return Batch;
        }
      }
      mem := mem.(phase := if files.latch then ResourceStop else Failed);
      if !IsPrefix(files.checkpoint, args.config.ids) {
        return Gone;
      }
      mem := mem.(completed := |files.checkpoint|);
      if !alive {
        mem := mem.(childPid := None);
      }
      WriteState(now);
      return Gone;
    }

    /** One turn of the loop, with the worker and the guard as `o` has them. */
    method Turn(o: Outcome, now: real, deadline: real) returns (next: Next)
      modifies this
      ensures (files, Locals(), next) == Turned(old(files), old(Locals()), o, now, deadline)
    {
      next := Head(now);
      if next.Batch? {
        files := Worked(files, args.config.ids, o);
        requestedPause := requestedPause || o.pauses;
        var raised := Cooldown(false, deadline, now);
        next := Judge(o.ok && !o.latches && !raised, false, now);
      }
    }

    /** The turn after the first `n`. */
    method NextTurn(s: Script, ghost f0: Files, ghost l0: Local, ghost n: nat) returns (next: Next)
      requires (files, Locals(), Batch) == After(TurnBy(s), f0, l0, n)
      modifies this
      ensures (files, Locals(), next) == After(TurnBy(s), f0, l0, n + 1)
    {
      next := Turn(s.outcome(batches), s.clock(batches), s.clock(batches) + s.cooldown);
    }

    /** The loop of a launch without a crash.  Unless the turns go on forever it ends, and
        with what the turns make of the files. */
    method Loop(s: Script)
      requires !Forever(TurnBy(s), files, Locals())
      modifies this
      ensures exists n :: After(TurnBy(s), old(files), old(Locals()), n) == (files, Locals(), Gone)
    {
      var next := Batch;
      ghost var f0, l0 := files, Locals();
      ghost var last: nat :| After(TurnBy(s), f0, l0, last).2.Gone?;
      ghost var n: nat := 0;
      while next.Batch?
        invariant After(TurnBy(s), f0, l0, n) == (files, Locals(), next) && n <= last
        decreases last - n, next.Batch?
      {
        next := NextTurn(s, f0, l0, n);
        n := n + 1;
      }
    }
  }

  /** The worker's and the guard's effect on the files in one batch. */
  function Worked(f: Files, ids: seq<string>, o: Outcome): Files {
    var cp := if o.saves then Saved(f.checkpoint, ids) else f.checkpoint;
    f.(checkpoint := cp, report := if |cp| == |ids| && o.report.Some? then o.report else f.report, latch := f.latch || o.latches)
  }

  function Turned(f: Files, l: Local, o: Outcome, now: real, deadline: real): (Files, Local, Next) {
    var (g, m, next) := Headed(f, l, now);
    if next.Gone? then (g, m, next)
    else
      var (h, k, raised) := Cooled(Worked(g, m.args.config.ids, o), m.(signalled := m.signalled || o.pauses), false, deadline, now);
      Judged(h, k, o.ok && !o.latches && !raised, false, now)
  }

  /** What each batch of a launch does, and when. */
  datatype Script = Script(outcome: nat -> Outcome, clock: nat -> real, cooldown: real)

  type Step = (Files, Local) -> (Files, Local, Next)

  /** One turn of the loop, with the worker and the guard of the next batch. */
  function TurnBy(s: Script): Step {
    (f: Files, l: Local) => Turned(f, l, s.outcome(l.batches), s.clock(l.batches), s.clock(l.batches) + s.cooldown)
  }

  /** The files and local variables after `n` turns, or when the launch ended before. */
  function After(step: Step, f: Files, l: Local, n: nat): (Files, Local, Next) {
    if n == 0 then (f, l, Batch)
    else
      var (g, m, next) := After(step, f, l, n - 1);
      if next.Gone? then (g, m, next) else step(g, m)
  }

  ghost predicate Forever(step: Step, f: Files, l: Local) { forall n :: After(step, f, l, n).2.Batch? }
}
