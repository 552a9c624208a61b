/** Whole histories of a suite: launches, batches, pauses, crashes and reboots. */
module SuiteHistory {
  import opened Prelude
  import opened InferenceRunner
  import opened GuardedSuite

  // ------------------------------------------------------------------ the machine

  /** The worker's process group: the checkpoint it loaded, and whether it has
      written it back with its one case. */
  datatype Worker = Worker(pid: nat, ids: seq<string>, loaded: seq<string>, saved: bool)

  /** Where a launch stands.  `Stopped`: the guard has stopped the worker and unloaded
      the models; `Ended`: it has written the latch, if it had to. */
  datatype Point =
    | AtCooldown | AtHead | Guarding | Spawned | Watching
    | Stopped(ok: bool, latches: bool) | Ended(ok: bool) | CoolingDown(ok: bool)

  datatype Driver = Off | On(local: Local, at: Point)

  /** A batch that started: whether a pilot's, its index within its launch, the length
      of the checkpoint, whether cases were left and an unclean stop was unresolved,
      whether a latch, another worker or an orphan was there, when it started and when the
      recorded cool-down ended. */
  datatype Entry = Entry(
    pilot: bool, index: nat, start: nat, left: bool, suspect: bool, latched: bool, worker: bool, orphan: bool, at: real, deadline: real)

  /** `orphan` is a worker that outlived a crash before its number was on disk: no launch
      can know of it.  `dirty`: a worker was started that no clean-up has followed; `suspect`: a batch was
      cut short, or the machine rebooted, and no batch has succeeded since. */
  datatype World = World(
    files: Files, driver: Driver, worker: Option<Worker>, orphan: Option<Worker>, boot: nat, now: real, dirty: bool, suspect: bool, log: seq<Entry>)

  datatype Event =
    | Launch(args: Args, reused: bool)
    | CooldownOver
    | Decide
    | Spawn(pid: nat)
    | LeaseBusy(reused: bool)
    | RecordPid
    | Saves
    | Reports(report: Report)
    | Exits
    | GuardStops(ok: bool, latches: bool, stopFails: bool, unloadFails: bool)
    | GuardLatches
    | Cool(reused: bool, seconds: real)
    | Judge(reused: bool)
    | Signal
    | PauseRequest
    | PauseRemoved
    | Tick(seconds: real)
    | Crash(survives: bool)
    | OrphanSaves
    | OrphanReports(report: Report)
    | OrphanExits
    | Reboot
    | Remedy

  /** `process_group_alive`; `reused` says that a stranger now has the number. */
  predicate Alive(pid: Option<nat>, w: World, reused: bool) {
    pid.Some? && (reused || (w.worker.Some? && w.worker.value.pid == pid.value))
  }

  function RecordedPid(f: Files): Option<nat> { if f.state.Some? then f.state.value.childPid else None }

  /** The guard is holding, or has just released, a worker. */
  predicate InBatch(d: Driver) {
    d.On? && (!d.at.AtCooldown? && (d.at.AtHead? ==> d.local.batches > 0))
  }

  /** The number of the worker, if there is one, is on disk. */
  predicate Tracked(w: World) { w.worker.None? || RecordedPid(w.files) == Some(w.worker.value.pid) }

  /** The driver is gone.  A worker whose number is on disk runs on; another one ends with
      the driver, or, when it `survives`, becomes an orphan. */
  function Killed(w: World, survives: bool): World {
    w.(driver := Off, suspect := w.suspect || InBatch(w.driver),
       worker := if Tracked(w) then w.worker else None,
       orphan := if !Tracked(w) && survives then w.worker else w.orphan)
  }

  /** The entry of a batch that starts now. */
  function NewEntry(w: World, l: Local): Entry {
    var n := |w.files.checkpoint|;
    Entry(l.args.pilot, l.batches, n, n < |l.args.config.ids|, w.suspect, w.files.latch, w.worker.Some?, w.orphan.Some?, w.now,
          if w.files.state.Some? then w.files.state.value.cooldownUntil else 0.0)
  }

  function DriverStep(w: World, l: Local, at: Point, e: Event): World {
    match (at, e)
    case (AtCooldown, CooldownOver) =>
      if w.now < l.mem.cooldownUntil then w else w.(driver := On(l, AtHead))
    case (AtHead, Decide) =>
      var (f, m, next) := Headed(w.files, l, w.now);
      w.(files := f, driver := if next.Gone? then Off else On(m, Guarding))
    case (Guarding, Spawn(pid)) =>
      if w.files.latch then w.(driver := On(l, Ended(false)))
      else
        w.(driver := On(l.(mem := l.mem.(childPid := Some(pid))), Spawned),
           worker := Some(Worker(pid, l.args.config.ids, w.files.checkpoint, false)), dirty := true, log := w.log + [NewEntry(w, l)])
    case (Guarding, LeaseBusy(reused)) =>
      var (f, m, next) := Judged(w.files, l, false, Alive(l.mem.childPid, w, reused), w.now);
      w.(files := f, driver := Off)
    case (Spawned, RecordPid) =>
      var (f, m) := Recorded(w.files, l, if l.mem.childPid.Some? then l.mem.childPid.value else 0, w.now);
      w.(files := f, driver := On(m, Watching))
    case (_, GuardStops(ok, latches, stopFails, unloadFails)) =>
      if !(at.Guarding? || at.Spawned? || at.Watching?) then w
      else
        var fails := (w.worker.Some? && stopFails) || unloadFails;
        w.(driver := On(l, Stopped(ok && at.Watching? && w.worker.None? && !latches && !fails, latches || fails)),
           worker := if stopFails then w.worker else None, dirty := w.dirty && fails)
    case (Stopped(ok, latches), GuardLatches) =>
      w.(files := w.files.(latch := w.files.latch || latches), driver := On(l, Ended(ok)))
    case (Ended(ok), Cool(reused, seconds)) =>
      var (f, m, raised) := Cooled(w.files, l, Alive(l.mem.childPid, w, reused), w.now + seconds, w.now);
      w.(files := f, driver := On(m, CoolingDown(ok && !raised)))
    case (CoolingDown(ok), Judge(reused)) =>
      if w.now < l.mem.cooldownUntil then w
      else
        var (f, m, next) := Judged(w.files, l, ok, Alive(l.mem.childPid, w, reused), w.now);
        if next.Gone? then w.(files := f, driver := Off)
        else w.(files := f, driver := On(m, AtHead), suspect := false)
    case _ => w
  }

  /** One step of anyone: the driver, the worker, the operator, the machine. */
  function Step(w: World, e: Event): World {
    match e
    case Launch(args, reused) =>
      if w.driver.On? then w
      else
        var s := Started(w.files, args, w.boot, Alive(RecordedPid(w.files), w, reused), w.now);
        if s.None? then w else w.(files := s.value.0, driver := On(s.value.1, AtCooldown))
    case Saves =>
      if w.worker.None? || w.worker.value.saved then w
      else
        w.(files := w.files.(checkpoint := Saved(w.worker.value.loaded, w.worker.value.ids)),
           worker := Some(w.worker.value.(saved := true)))
    case Reports(report) => if w.worker.None? then w else w.(files := w.files.(report := Some(report)))
    case Exits => w.(worker := None)
    case Signal => if w.driver.Off? then w else w.(driver := On(w.driver.local.(signalled := true), w.driver.at))
    case PauseRequest => w.(files := w.files.(pause := Some(w.now)))
    case PauseRemoved => w.(files := w.files.(pause := None))
    case Tick(seconds) => if seconds < 0.0 then w else w.(now := w.now + seconds)
    case Crash(survives) => Killed(w, survives)
    case OrphanSaves =>
      if w.orphan.None? || w.orphan.value.saved then w
      else
        w.(files := w.files.(checkpoint := Saved(w.orphan.value.loaded, w.orphan.value.ids)),
           orphan := Some(w.orphan.value.(saved := true)))
    case OrphanReports(report) => if w.orphan.None? then w else w.(files := w.files.(report := Some(report)))
    case OrphanExits => w.(orphan := None)
    case Reboot => Killed(w, false).(boot := w.boot + 1, worker := None, orphan := None, dirty := false, suspect := w.suspect || w.files.state.Some?)
    case Remedy => w.(files := w.files.(latch := false), worker := None, orphan := None, dirty := false)
    case _ => if w.driver.Off? then w else DriverStep(w, w.driver.local, w.driver.at, e)
  }

  /** Nothing has been launched; the files may hold anything else. */
  predicate Initial(w: World) {
    w.files.state.None? && w.driver.Off? && w.worker.None? && w.orphan.None? && !w.dirty && !w.suspect && w.log == []
  }

  function Runs(w: World, events: seq<Event>): World {
    if events == [] then w else Step(Runs(w, events[..|events| - 1]), events[|events| - 1])
  }

  // ---------------------------------------------------------------- the invariant

  function Ids(w: World): seq<string> { if w.files.state.Some? then w.files.state.value.identity.ids else [] }

  predicate Full(w: World) { |w.files.checkpoint| == |Ids(w)| }

  predicate PrefixKept(w: World) {
    if w.files.state.None? then w.log == [] && w.worker.None? && w.driver.Off? && !w.dirty && !w.suspect
    else w.files.state.value.identity.Unique() && IsPrefix(w.files.checkpoint, Ids(w)) && w.files.state.value.boot <= w.boot
  }

  /** The one worker there can be belongs to the last batch, and its process number is
      recorded or about to be. */
  predicate WorkerKept(w: World) {
    w.worker.Some? ==>
      (var k := w.worker.value;
       && w.files.state.Some? && w.dirty
       && k.ids == Ids(w) && IsPrefix(k.loaded, k.ids)
       && w.files.checkpoint == (if k.saved then Saved(k.loaded, k.ids) else k.loaded)
       && w.log != [] && w.log[|w.log| - 1].start == |k.loaded|
       && w.files.state.value.boot == w.boot && w.files.state.value.cleanupPending
       && (w.driver.Off? ==> w.files.state.value.childPid == Some(k.pid))
       && (w.driver.On? ==> w.driver.local.mem.childPid == Some(k.pid) && w.driver.local.mem.cleanupPending
                            && !(w.driver.at.AtCooldown? || w.driver.at.AtHead? || w.driver.at.Guarding?)))
  }

  /** An unresolved unclean stop is visible to the next launch. */
  predicate SuspectKept(w: World) {
    w.suspect && w.files.state.Some? && !Full(w) ==>
      (&& Unclean(w.files.state.value, w.boot)
       && (w.driver.On? ==> w.driver.local.mem.recoveryRequired))
  }

  /** Outside a batch, an uncleaned worker of a full suite is remembered in the state
      or by the latch. */
  predicate DirtKept(w: World) {
    w.dirty && w.files.state.Some? && !w.files.latch ==>
      match w.driver
      case Off => Full(w) ==> w.files.state.value.cleanupPending || w.files.state.value.phase.Running?
      case On(l, at) =>
        match at
        case Stopped(ok, latches) => latches
        case Ended(_) => false
        case CoolingDown(_) => false
        case AtCooldown => Full(w) ==> l.needsFinal
        case AtHead => Full(w) ==> l.needsFinal
        case _ => true
  }

  predicate CompleteKept(w: World) {
    w.files.state.Some? && w.files.state.value.phase.Complete? ==>
      (&& w.driver.Off? && w.worker.None? && !w.dirty
       && w.files.checkpoint == Ids(w)
       && w.files.report.Some? && Matches(w.files.report.value, Ids(w))
       && !w.files.state.value.cleanupPending
       && w.files.state.value.completed == |Ids(w)| && w.files.state.value.childPid == None)
  }

  /** The driver's memory agrees with the state on disk. */
  predicate DriverKept(w: World) {
    w.driver.On? ==>
      (var l, at := w.driver.local, w.driver.at;
       && w.files.state.Some?
       && var s := w.files.state.value;
          (&& s.identity == l.args.config && l.mem.identity == l.args.config
           && s.boot == w.boot && l.mem.boot == w.boot
           && (l.mem.recoveryRequired ==> l.args.pilot && l.batches == 0)
           && (s.phase.Busy() || s.recoveryRequired == l.mem.recoveryRequired)
           && s.cooldownUntil == l.mem.cooldownUntil
           && PointKept(w, s, l, at)))
  }

  predicate PointKept(w: World, s: SuiteState, l: Local, at: Point) {
    match at
    case AtCooldown => s.phase.Ready? && l.mem.cleanupPending == s.cleanupPending == l.needsFinal && l.batches == 0 && !w.files.latch
    case AtHead =>
      && l.mem.cooldownUntil <= w.now && l.mem.cleanupPending == l.needsFinal && !w.files.latch
      && (if l.batches == 0 then s.phase.Ready? && s.cleanupPending == l.needsFinal else s.phase.Cooling? && !l.needsFinal && !w.dirty)
    case Guarding =>
      && l.mem.cooldownUntil <= w.now && s.phase.Running? && s.cleanupPending && l.mem.cleanupPending && !w.files.latch
      && l.start == |w.files.checkpoint| && l.mem.phase.Running?
    case CoolingDown(ok) => s.phase.Cooling? && (ok ==> !w.files.latch) && s.cleanupPending == l.mem.cleanupPending
    case Ended(ok) => s.phase.Running? && s.cleanupPending && l.mem.cleanupPending && (ok ==> !w.files.latch)
    case Stopped(ok, latches) => s.phase.Running? && s.cleanupPending && l.mem.cleanupPending && !w.files.latch && (ok ==> !latches)
    case _ => s.phase.Running? && s.cleanupPending && l.mem.cleanupPending && !w.files.latch && l.mem.phase.Running?
  }

  /** What every batch that ever started satisfied. */
  predicate EntryOk(b: Entry) {
    && !b.latched && !b.worker && b.deadline <= b.at
    && (b.suspect && b.left ==> b.pilot && b.index == 0)
  }

  ghost predicate LogKept(w: World) {
    && (forall i | 0 <= i < |w.log| :: EntryOk(w.log[i]))
    && (forall i | 0 < i < |w.log| :: w.log[i - 1].start <= w.log[i].start <= w.log[i - 1].start + 1)
    && (w.log != [] ==> w.log[|w.log| - 1].start <= |w.files.checkpoint| <= w.log[|w.log| - 1].start + 1)
  }

  ghost predicate Valid(w: World) {
    PrefixKept(w) && WorkerKept(w) && SuspectKept(w) && DirtKept(w) && CompleteKept(w) && DriverKept(w) && LogKept(w)
  }

  lemma LaunchValid(w: World, args: Args, reused: bool)
    requires Valid(w)
    ensures Valid(Step(w, Launch(args, reused)))
  {
  }

  lemma DecideValid(w: World)
    requires Valid(w)
    ensures Valid(Step(w, Decide))
  {
  }

  /** Only a spawn without a latch adds to the log. */
  lemma LogGrows(w: World, e: Event)
    ensures var v := Step(w, e);
      if e.Spawn? && w.driver.On? && w.driver.at.Guarding? && !w.files.latch
      then v.log == w.log + [NewEntry(w, w.driver.local)] && v.files == w.files else v.log == w.log
  {
  }

  lemma SpawnFiles(w: World, pid: nat)
    requires Valid(w)
    ensures var v := Step(w, Spawn(pid)); PrefixKept(v) && CompleteKept(v)
  {
  }

  lemma SpawnLog(w: World, pid: nat)
    requires Valid(w)
    ensures LogKept(Step(w, Spawn(pid)))
  {
    LogGrows(w, Spawn(pid));
  }

  lemma SpawnWorker(w: World, pid: nat)
    requires Valid(w)
    ensures var v := Step(w, Spawn(pid)); WorkerKept(v) && SuspectKept(v) && DirtKept(v)
  {
  }

  lemma SpawnDriver(w: World, pid: nat)
    requires Valid(w)
    ensures DriverKept(Step(w, Spawn(pid)))
  {
  }

  lemma SpawnValid(w: World, pid: nat)
    requires Valid(w)
    ensures Valid(Step(w, Spawn(pid)))
  {
    SpawnFiles(w, pid);
    SpawnLog(w, pid);
    SpawnWorker(w, pid);
    SpawnDriver(w, pid);
  }

  lemma GuardStopsWorld(w: World, ok: bool, latches: bool, stopFails: bool, unloadFails: bool)
    ensures var v := Step(w, GuardStops(ok, latches, stopFails, unloadFails));
      && v.files == w.files && v.log == w.log && v.boot == w.boot && v.suspect == w.suspect
      && (v.driver.On? <==> w.driver.On?)
      && (v.worker == w.worker || v.worker.None?)
      && (v.dirty ==> w.dirty)
      && (v == w || (w.driver.On? && v.driver.On? && v.driver.at.Stopped? && v.driver.local == w.driver.local))
      && (v.worker.Some? && v != w ==> w.dirty ==> v.dirty)
  {
  }

  lemma GuardStopsFiles(w: World, ok: bool, latches: bool, stopFails: bool, unloadFails: bool)
    requires Valid(w)
    ensures var v := Step(w, GuardStops(ok, latches, stopFails, unloadFails)); PrefixKept(v) && WorkerKept(v) && CompleteKept(v) && LogKept(v)
  {
    GuardStopsWorld(w, ok, latches, stopFails, unloadFails);
    SameFiles(w, Step(w, GuardStops(ok, latches, stopFails, unloadFails)));
  }

  lemma SameFiles(w: World, v: World)
    requires PrefixKept(w) && WorkerKept(w) && CompleteKept(w) && LogKept(w)
    requires v.files == w.files && v.log == w.log && v.boot == w.boot && (v.driver.On? <==> w.driver.On?)
    requires v.worker == w.worker || v.worker.None?
    requires v.dirty ==> w.dirty
    requires v == w || (w.driver.On? && v.driver.On? && v.driver.at.Stopped? && v.driver.local == w.driver.local)
    requires v.worker.Some? && v != w ==> w.dirty ==> v.dirty
    requires v.suspect == w.suspect
    ensures PrefixKept(v) && WorkerKept(v) && CompleteKept(v) && LogKept(v)
  {
  }

  lemma GuardStopsSuspect(w: World, ok: bool, latches: bool, stopFails: bool, unloadFails: bool)
    requires Valid(w)
    ensures SuspectKept(Step(w, GuardStops(ok, latches, stopFails, unloadFails)))
  {
    GuardStopsWorld(w, ok, latches, stopFails, unloadFails);
  }

  lemma GuardStopsDriver(w: World, ok: bool, latches: bool, stopFails: bool, unloadFails: bool)
    requires Valid(w)
    ensures DriverKept(Step(w, GuardStops(ok, latches, stopFails, unloadFails)))
  {
    var v := Step(w, GuardStops(ok, latches, stopFails, unloadFails));
    if v != w { StoppedKept(w, v); }
  }

  /** The guard's stop changes nothing the driver remembers. */
  lemma StoppedKept(w: World, v: World)
    requires DriverKept(w) && w.driver.On? && (w.driver.at.Guarding? || w.driver.at.Spawned? || w.driver.at.Watching?)
    requires v.files == w.files && v.boot == w.boot
    requires v.driver.On? && v.driver.local == w.driver.local && v.driver.at.Stopped? && (v.driver.at.ok ==> !v.driver.at.latches)
    ensures DriverKept(v)
  {
  }

  lemma GuardStopsDirt(w: World, ok: bool, latches: bool, stopFails: bool, unloadFails: bool)
    requires Valid(w)
    ensures DirtKept(Step(w, GuardStops(ok, latches, stopFails, unloadFails)))
  {
  }

  lemma GuardStopsValid(w: World, ok: bool, latches: bool, stopFails: bool, unloadFails: bool)
    requires Valid(w)
    ensures Valid(Step(w, GuardStops(ok, latches, stopFails, unloadFails)))
  {
    GuardStopsFiles(w, ok, latches, stopFails, unloadFails);
    GuardStopsSuspect(w, ok, latches, stopFails, unloadFails);
    GuardStopsDriver(w, ok, latches, stopFails, unloadFails);
    GuardStopsDirt(w, ok, latches, stopFails, unloadFails);
  }

  lemma CoolFiles(w: World, reused: bool, seconds: real)
    requires Valid(w)
    ensures var v := Step(w, Cool(reused, seconds)); PrefixKept(v) && LogKept(v)
  {
    CoolSame(w, reused, seconds);
    if Step(w, Cool(reused, seconds)) != w { SameCheckpointKeeps(w, Step(w, Cool(reused, seconds))); }
  }

  lemma CoolWorker(w: World, reused: bool, seconds: real)
    requires Valid(w)
    ensures var v := Step(w, Cool(reused, seconds)); WorkerKept(v) && CompleteKept(v)
  {
  }

  lemma CoolDriver(w: World, reused: bool, seconds: real)
    requires Valid(w)
    ensures DriverKept(Step(w, Cool(reused, seconds)))
  {
    CoolStep(w, reused, seconds);
    if w.driver.On? && w.driver.at.Ended? {
      CooledKept(w, Step(w, Cool(reused, seconds)), Alive(w.driver.local.mem.childPid, w, reused), w.now + seconds);
    }
  }

  lemma CoolStep(w: World, reused: bool, seconds: real)
    ensures var v := Step(w, Cool(reused, seconds));
      if w.driver.On? && w.driver.at.Ended? then
        var l := w.driver.local;
        var (f, m, raised) := Cooled(w.files, l, Alive(l.mem.childPid, w, reused), w.now + seconds, w.now);
        v == w.(files := f, driver := On(m, CoolingDown(w.driver.at.ok && !raised)))
      else v == w
  {
  }

  /** What the cooling callback writes and remembers agrees. */
  lemma CooledKept(w: World, v: World, alive: bool, deadline: real)
    requires DriverKept(w) && PrefixKept(w) && w.driver.On? && w.driver.at.Ended?
    requires var (f, m, raised) := Cooled(w.files, w.driver.local, alive, deadline, w.now);
      v == w.(files := f, driver := On(m, CoolingDown(w.driver.at.ok && !raised)))
    ensures DriverKept(v)
  {
  }

  lemma CoolDirt(w: World, reused: bool, seconds: real)
    requires Valid(w)
    ensures var v := Step(w, Cool(reused, seconds)); SuspectKept(v) && DirtKept(v)
  {
  }

  lemma CoolValid(w: World, reused: bool, seconds: real)
    requires Valid(w)
    ensures Valid(Step(w, Cool(reused, seconds)))
  {
    CoolFiles(w, reused, seconds);
    CoolWorker(w, reused, seconds);
    CoolDriver(w, reused, seconds);
    CoolDirt(w, reused, seconds);
  }

  /** Only the suite state may differ, and not in what it is the state of. */
  predicate SameCheckpoint(w: World, v: World) {
    && v.files.checkpoint == w.files.checkpoint && v.log == w.log && v.boot == w.boot
    && w.files.state.Some? && v.files.state.Some?
    && v.files.state.value.identity == w.files.state.value.identity && v.files.state.value.boot == w.files.state.value.boot
  }

  lemma SameCheckpointKeeps(w: World, v: World)
    requires PrefixKept(w) && LogKept(w) && SameCheckpoint(w, v)
    ensures PrefixKept(v) && LogKept(v)
  {
  }

  lemma JudgeSame(w: World, reused: bool)
    requires DriverKept(w)
    ensures Step(w, Judge(reused)) == w || SameCheckpoint(w, Step(w, Judge(reused)))
  {
  }

  lemma CoolSame(w: World, reused: bool, seconds: real)
    requires DriverKept(w)
    ensures Step(w, Cool(reused, seconds)) == w || SameCheckpoint(w, Step(w, Cool(reused, seconds)))
  {
  }

  lemma JudgeFiles(w: World, reused: bool)
    requires Valid(w)
    ensures var v := Step(w, Judge(reused)); PrefixKept(v) && LogKept(v)
  {
    JudgeSame(w, reused);
    if Step(w, Judge(reused)) != w { SameCheckpointKeeps(w, Step(w, Judge(reused))); }
  }

  lemma JudgeWorker(w: World, reused: bool)
    requires Valid(w)
    ensures var v := Step(w, Judge(reused)); WorkerKept(v) && CompleteKept(v)
  {
  }

  lemma JudgeDriver(w: World, reused: bool)
    requires Valid(w)
    ensures var v := Step(w, Judge(reused)); SuspectKept(v) && DirtKept(v) && DriverKept(v)
  {
  }

  lemma JudgeValid(w: World, reused: bool)
    requires Valid(w)
    ensures Valid(Step(w, Judge(reused)))
  {
    JudgeFiles(w, reused);
    JudgeWorker(w, reused);
    JudgeDriver(w, reused);
  }

  lemma LeaseValid(w: World, reused: bool)
    requires Valid(w)
    ensures Valid(Step(w, LeaseBusy(reused)))
  {
  }

  lemma SavesFiles(w: World)
    requires Valid(w)
    ensures var v := Step(w, Saves); PrefixKept(v) && WorkerKept(v) && CompleteKept(v) && LogKept(v)
  {
  }

  lemma SavesDriver(w: World)
    requires Valid(w)
    ensures var v := Step(w, Saves); SuspectKept(v) && DirtKept(v) && DriverKept(v)
  {
  }

  lemma SavesValid(w: World)
    requires Valid(w)
    ensures Valid(Step(w, Saves))
  {
    SavesFiles(w);
    SavesDriver(w);
  }

  lemma ReportsValid(w: World, report: Report)
    requires Valid(w)
    ensures Valid(Step(w, Reports(report)))
  {
  }

  lemma ExitsValid(w: World)
    requires Valid(w)
    ensures Valid(Step(w, Exits))
  {
  }

  lemma CooldownOverValid(w: World)
    requires Valid(w)
    ensures Valid(Step(w, CooldownOver))
  {
  }

  lemma RecordPidValid(w: World)
    requires Valid(w)
    ensures Valid(Step(w, RecordPid))
  {
  }

  lemma GuardLatchesValid(w: World)
    requires Valid(w)
    ensures Valid(Step(w, GuardLatches))
  {
  }

  lemma SignalValid(w: World)
    requires Valid(w)
    ensures Valid(Step(w, Signal))
  {
  }

  lemma PauseRequestValid(w: World)
    requires Valid(w)
    ensures Valid(Step(w, PauseRequest))
  {
  }

  lemma PauseRemovedValid(w: World)
    requires Valid(w)
    ensures Valid(Step(w, PauseRemoved))
  {
  }

  lemma CrashValid(w: World, survives: bool)
    requires Valid(w)
    ensures Valid(Step(w, Crash(survives)))
  {
  }

  /** An orphan that does not write leaves everything else alone. */
  lemma QuietSteps(w: World, e: Event)
    requires Quiet(w, e) && (e.OrphanSaves? || e.OrphanReports? || e.OrphanExits?)
    ensures Step(w, e) == w.(orphan := None) || Step(w, e) == w
  {
  }

  lemma RebootValid(w: World)
    requires Valid(w)
    ensures Valid(Step(w, Reboot))
  {
  }

  lemma RemedyValid(w: World)
    requires Valid(w)
    ensures Valid(Step(w, Remedy))
  {
  }

  lemma TickValid(w: World, seconds: real)
    requires Valid(w)
    ensures Valid(Step(w, Tick(seconds)))
  {
  }

  /** The step leaves no orphan behind. */
  predicate LeavesNoOrphan(w: World, e: Event) { e == Crash(true) ==> Tracked(w) }

  /** The step is no orphan's writing to the checkpoint or the report. */
  predicate Quiet(w: World, e: Event) { e.OrphanSaves? || e.OrphanReports? ==> w.orphan.None? }

  predicate OfDriver(e: Event) {
    e.CooldownOver? || e.Decide? || e.Spawn? || e.LeaseBusy? || e.RecordPid? || e.GuardStops? || e.GuardLatches? || e.Cool? || e.Judge?
  }

  lemma DriverEventValid(w: World, e: Event)
    requires Valid(w) && OfDriver(e)
    ensures Valid(Step(w, e))
  {
    match e
    case CooldownOver => CooldownOverValid(w);
    case Decide => DecideValid(w);
    case Spawn(pid) => SpawnValid(w, pid);
    case LeaseBusy(reused) => LeaseValid(w, reused);
    case RecordPid => RecordPidValid(w);
    case GuardStops(ok, latches, stopFails, unloadFails) => GuardStopsValid(w, ok, latches, stopFails, unloadFails);
    case GuardLatches => GuardLatchesValid(w);
    case Cool(reused, seconds) => CoolValid(w, reused, seconds);
    case Judge(reused) => JudgeValid(w, reused);
  }

  predicate OfWorker(e: Event) {
    e.Saves? || e.Reports? || e.Exits? || e.OrphanSaves? || e.OrphanReports? || e.OrphanExits?
  }

  lemma WorkerEventValid(w: World, e: Event)
    requires Valid(w) && OfWorker(e) && Quiet(w, e)
    ensures Valid(Step(w, e))
  {
    match e
    case Saves => SavesValid(w);
    case Reports(report) => ReportsValid(w, report);
    case Exits => ExitsValid(w);
    case _ => QuietSteps(w, e);
  }

  lemma OutsideEventValid(w: World, e: Event)
    requires Valid(w) && !OfDriver(e) && !OfWorker(e)
    ensures Valid(Step(w, e))
  {
    match e
    case Launch(args, reused) => LaunchValid(w, args, reused);
    case Signal => SignalValid(w);
    case PauseRequest => PauseRequestValid(w);
    case PauseRemoved => PauseRemovedValid(w);
    case Tick(seconds) => TickValid(w, seconds);
    case Crash(survives) => CrashValid(w, survives);
    case Reboot => RebootValid(w);
    case Remedy => RemedyValid(w);
  }

  lemma StepValid(w: World, e: Event)
    requires Valid(w) && Quiet(w, e)
    ensures Valid(Step(w, e))
  {
    if OfDriver(e) { DriverEventValid(w, e); }
    else if OfWorker(e) { WorkerEventValid(w, e); }
    else { OutsideEventValid(w, e); }
  }

  /** No worker outlives a crash that comes before its number is on disk. */
  ghost predicate NoOrphans(w: World, events: seq<Event>) {
    forall i | 0 <= i < |events| :: LeavesNoOrphan(Runs(w, events[..i]), events[i])
  }

  /** No orphan writes.  An orphan may exist, and end. */
  ghost predicate QuietOrphans(w: World, events: seq<Event>) {
    forall i | 0 <= i < |events| :: Quiet(Runs(w, events[..i]), events[i])
  }

  lemma {:induction false} HistoryValid(w: World, events: seq<Event>)
    requires Initial(w) && QuietOrphans(w, events)
    ensures Valid(Runs(w, events))
  {
    if events != [] {
      var init := events[..|events| - 1];
      forall i | 0 <= i < |init| ensures Quiet(Runs(w, init[..i]), init[i]) { assert init[..i] == events[..i]; }
      HistoryValid(w, init);
      StepValid(Runs(w, events[..|events| - 1]), events[|events| - 1]);
    }
  }

  // ------------------------------------------------------------ what histories keep

  /** Every history in which no orphan writes, with crashes, reboots and pauses anywhere:
      from the first launch on, the checkpoint is a duplicate-free manifest prefix; it
      never shrinks, and grows by at most one case per batch. */
  lemma CheckpointIsPrefix(w: World, events: seq<Event>)
    requires Initial(w) && QuietOrphans(w, events)
    ensures var r := Runs(w, events);
      && (r.files.state.Some? ==>
            var ids, n := r.files.state.value.identity.ids, |r.files.checkpoint|;
            n <= |ids| && r.files.checkpoint == ids[..n] && forall i, j | 0 <= i < j < |ids| :: ids[i] != ids[j])
      && (r.files.state.None? ==> r.log == [])
      && (forall i, j | 0 <= i < j < |r.log| :: r.log[i].start <= r.log[j].start <= r.log[i].start + (j - i))
      && (forall i | 0 <= i < |r.log| :: r.log[i].start <= |r.files.checkpoint| <= r.log[i].start + (|r.log| - i))
  {
    HistoryValid(w, events);
    LogSpread(Runs(w, events));
  }

  lemma LogSpread(r: World)
    requires LogKept(r)
    ensures forall i, j | 0 <= i < j < |r.log| :: r.log[i].start <= r.log[j].start <= r.log[i].start + (j - i)
    ensures forall i | 0 <= i < |r.log| :: r.log[i].start <= |r.files.checkpoint| <= r.log[i].start + (|r.log| - i)
  {
    forall i, j | 0 <= i < j < |r.log| ensures r.log[i].start <= r.log[j].start <= r.log[i].start + (j - i) { Spread(r, i, j); }
    forall i | 0 <= i < |r.log| ensures r.log[i].start <= |r.files.checkpoint| <= r.log[i].start + (|r.log| - i) {
      Spread(r, i, |r.log| - 1);
    }
  }

  lemma {:induction false} Spread(w: World, i: nat, j: nat)
    requires LogKept(w) && i <= j < |w.log|
    ensures w.log[i].start <= w.log[j].start <= w.log[i].start + (j - i)
    decreases j
  {
    if i < j { Spread(w, i, j - 1); }
  }

  /** A state COMPLETE on disk means the whole manifest is checkpointed, the report
      matches it, no worker but an orphan is alive, every worker has been cleaned up
      after, and no clean-up is pending. */
  lemma CompleteIsTruthful(w: World, events: seq<Event>)
    requires Initial(w) && QuietOrphans(w, events)
    ensures var r := Runs(w, events);
      r.files.state.Some? && r.files.state.value.phase.Complete? ==>
        (var ids := r.files.state.value.identity.ids;
         && r.files.checkpoint == ids && r.files.state.value.completed == |ids| && r.files.state.value.childPid == None
         && r.files.report.Some? && r.files.report.value.details == Some(ids) && r.files.report.value.caseCount == |ids|
         && r.worker.None? && !r.dirty && !r.files.state.value.cleanupPending)
  {
    HistoryValid(w, events);
  }

  /** Every batch that starts in any history starts without a stop latch, with no other
      worker alive -- nor an orphan, if none was left -- not before the recorded end of
      the last cool-down; and while an unclean stop is unresolved and cases are left, only
      as the first batch of a pilot launch -- which, being a pilot, starts no second. */
  lemma BatchesAreLicensed(w: World, events: seq<Event>, i: nat)
    requires Initial(w) && QuietOrphans(w, events) && i < |Runs(w, events).log|
    ensures EntryOk(Runs(w, events).log[i])
    ensures NoOrphans(w, events) ==> !Runs(w, events).log[i].orphan
  {
    HistoryValid(w, events);
    if NoOrphans(w, events) { NoneLeft(w, events); }
  }

  // ---------------------------------------------------------------- the cool-down

  /** Until when the latest cool-down of the events lasts: `seconds` from its step on. */
  function CoolUntil(w: World, events: seq<Event>): Option<real> {
    if events == [] then None
    else
      var before, e := Runs(w, events[..|events| - 1]), events[|events| - 1];
      if e.Cool? && before.driver.On? && before.driver.at.Ended? then Some(before.now + e.seconds)
      else CoolUntil(w, events[..|events| - 1])
  }

  /** The end of the latest cool-down is on disk. */
  predicate CoolKept(w: World, until: Option<real>) {
    until.Some? ==> w.files.state.Some? && w.files.state.value.cooldownUntil == until.value
  }

  /** In a valid world the cooling callback does not raise: the deadline is written. */
  lemma CoolRecords(w: World, reused: bool, seconds: real)
    requires Valid(w) && w.driver.On? && w.driver.at.Ended?
    ensures CoolKept(Step(w, Cool(reused, seconds)), Some(w.now + seconds))
  {
  }

  /** The driver remembers the deadline on disk. */
  predicate SameDeadline(w: World) {
    w.driver.On? ==> w.files.state.Some? && w.files.state.value.cooldownUntil == w.driver.local.mem.cooldownUntil
  }

  lemma DriverStays(w: World, l: Local, at: Point, e: Event, until: real)
    requires w.files.state.Some? && w.files.state.value.cooldownUntil == l.mem.cooldownUntil == until && !(e.Cool? && at.Ended?)
    ensures CoolKept(DriverStep(w, l, at, e), Some(until))
  {
  }

  lemma CoolStays(w: World, e: Event, until: Option<real>)
    requires SameDeadline(w) && CoolKept(w, until) && !(e.Cool? && w.driver.On? && w.driver.at.Ended?)
    ensures CoolKept(Step(w, e), until)
  {
    if until.Some? && w.driver.On? { DriverStays(w, w.driver.local, w.driver.at, e, until.value); }
  }

  lemma {:induction false} HistoryCools(w: World, events: seq<Event>)
    requires Initial(w) && QuietOrphans(w, events)
    ensures CoolKept(Runs(w, events), CoolUntil(w, events))
  {
    if events != [] {
      var init, e := events[..|events| - 1], events[|events| - 1];
      forall i | 0 <= i < |init| ensures Quiet(Runs(w, init[..i]), init[i]) { assert init[..i] == events[..i]; }
      HistoryCools(w, init);
      HistoryValid(w, init);
      if e.Cool? && Runs(w, init).driver.On? && Runs(w, init).driver.at.Ended? { CoolRecords(Runs(w, init), e.reused, e.seconds); }
      else {
        assert SameDeadline(Runs(w, init));
        CoolStays(Runs(w, init), e, CoolUntil(w, init));
      }
    }
  }

  /** In every history, whatever crashes and relaunches there are: when a batch starts, the
      latest cool-down is over, counted from its own step and not from what is on disk. */
  lemma CooldownIsKept(w: World, events: seq<Event>, e: Event)
    requires Initial(w) && QuietOrphans(w, events)
    requires Step(Runs(w, events), e).log != Runs(w, events).log && CoolUntil(w, events).Some?
    ensures Runs(w, events).now >= CoolUntil(w, events).value
  {
    var v := Runs(w, events);
    HistoryCools(w, events);
    HistoryValid(w, events);
    LogGrows(v, e);
    assert v.log + [NewEntry(v, v.driver.local)] != v.log;
    BatchStartsCool(v);
  }

  /** The guard starts no child before the deadline on disk. */
  lemma BatchStartsCool(w: World)
    requires Valid(w) && w.driver.On? && w.driver.at.Guarding?
    ensures w.files.state.Some? && w.files.state.value.cooldownUntil <= w.now
  {
  }

  // -------------------------------------------------------------------- the pause

  /** While a pause is requested, no loop head starts a batch, and none completes unless the
      manifest is done: it pauses, and says so on disk. */
  lemma PauseStops(w: World)
    requires Valid(w) && w.driver.On? && w.driver.at.AtHead? && w.files.pause.Some?
    ensures var v := Step(w, Decide);
      && v.driver.Off? && v.log == w.log && v.files.pause == w.files.pause && v.files.state.Some?
      && (v.files.state.value.phase.Paused? || |w.files.checkpoint| == |w.driver.local.args.config.ids|)
      && (v.files.state.value.phase.Paused? ==> v.files.state.value.completed == |w.files.checkpoint|)
  {
  }

  /** A requested pause stays until the operator takes it back, or a launch follows a pause
      that was written after it. */
  lemma PauseStays(w: World, e: Event)
    requires w.files.pause.Some?
    ensures var v := Step(w, e);
      || v.files.pause == w.files.pause
      || e.PauseRemoved? || (e.PauseRequest? && v.files.pause == Some(w.now))
      || (e.Launch? && w.driver.Off? && w.files.state.Some? && w.files.state.value.phase.Paused?
          && w.files.pause.value <= w.files.state.value.updatedAt)
  {
  }

  /** ... and such a launch, when it is not refused, takes the old request away. */
  lemma ResumeForgets(w: World, args: Args, reused: bool)
    requires Step(w, Launch(args, reused)).driver.On? && w.driver.Off? && w.files.pause.Some?
    requires w.files.state.Some? && w.files.state.value.phase.Paused? && w.files.pause.value <= w.files.state.value.updatedAt
    ensures Step(w, Launch(args, reused)).files.pause == None
  {
  }

  // --------------------------------------------------------------------- no orphan

  lemma {:induction false} NoneLeft(w: World, events: seq<Event>)
    requires Initial(w) && NoOrphans(w, events)
    ensures Runs(w, events).orphan.None? && forall b | b in Runs(w, events).log :: !b.orphan
  {
    if events != [] {
      var init, last := events[..|events| - 1], events[|events| - 1];
      forall i | 0 <= i < |init| ensures LeavesNoOrphan(Runs(w, init[..i]), init[i]) { assert init[..i] == events[..i]; }
      NoneLeft(w, init);
      NoneLeftStep(Runs(w, init), last);
      StillNone(Runs(w, init), last);
    }
  }

  lemma NoneLeftStep(w: World, e: Event)
    requires w.orphan.None? && LeavesNoOrphan(w, e)
    ensures forall b | b in Step(w, e).log && b !in w.log :: !b.orphan
  {
    LogGrows(w, e);
  }

  lemma StillNone(w: World, e: Event)
    requires w.orphan.None? && LeavesNoOrphan(w, e)
    ensures Step(w, e).orphan.None?
  {
  }

  /** Until the operator removes it, a stop latch lets no batch start, whatever else
      happens. */
  lemma {:induction false} LatchStopsTheSuite(w: World, events: seq<Event>, later: seq<Event>)
    requires Initial(w) && Runs(w, events).files.latch && Remedy !in later
    ensures Runs(w, events + later).files.latch && Runs(w, events + later).log == Runs(w, events).log
  {
    if later == [] {
      assert events + later == events;
    } else {
      var init, last := later[..|later| - 1], later[|later| - 1];
      assert last in later;
      LatchStopsTheSuite(w, events, init);
      assert (events + later)[..|events + later| - 1] == events + init;
      assert Runs(w, events + later) == Step(Runs(w, events + init), last);
      LatchedStep(Runs(w, events + init), last);
    }
  }

  lemma LatchedStep(w: World, e: Event)
    requires w.files.latch && !e.Remedy?
    ensures Step(w, e).files.latch && Step(w, e).log == w.log
  {
  }

  predicate PilotOnce(w: World) {
    w.driver.On? && w.driver.local.args.pilot ==>
      w.driver.local.batches <= 1 && (w.driver.local.batches == 1 ==> w.driver.at.AtHead?)
  }

  lemma PilotDriver(w: World, e: Event)
    requires PilotOnce(w) && w.driver.On?
    ensures PilotOnce(DriverStep(w, w.driver.local, w.driver.at, e))
  {
  }

  lemma PilotStep(w: World, e: Event)
    requires PilotOnce(w)
    ensures PilotOnce(Step(w, e))
  {
    if w.driver.On? { PilotDriver(w, e); }
  }

  lemma PilotLogged(w: World, e: Event)
    requires PilotOnce(w)
    ensures forall b | b in Step(w, e).log && b.pilot && b !in w.log :: b.index == 0
  {
    LogGrows(w, e);
  }

  /** A pilot launch starts at most one batch: all its batches are its first. */
  lemma {:induction false} PilotRunsOnce(w: World, events: seq<Event>)
    requires Initial(w)
    ensures PilotOnce(Runs(w, events))
    ensures forall b | b in Runs(w, events).log && b.pilot :: b.index == 0
  {
    if events != [] {
      var v := Runs(w, events[..|events| - 1]);
      PilotRunsOnce(w, events[..|events| - 1]);
      PilotStep(v, events[|events| - 1]);
      PilotLogged(v, events[|events| - 1]);
    }
  }

  // ---------------------------------------------------------------------- the orphan

  const TWO_CASES := Config(["a", "b"], "")

  function Play(w: World, events: seq<Event>): World
    decreases |events|
  {
    if events == [] then w else Play(Step(w, events[0]), events[1..])
  }

  lemma {:induction false} PlayRuns(w: World, before: seq<Event>, events: seq<Event>)
    ensures Runs(w, before + events) == Play(Runs(w, before), events)
    decreases |events|
  {
    if events == [] {
      assert before + events == before;
    } else {
      var next := before + [events[0]];
      assert before + events == next + events[1..];
      assert next[..|next| - 1] == before;
      PlayRuns(w, next, events[1..]);
    }
  }

  lemma PlayOne(w: World, e: Event, rest: seq<Event>)
    ensures Play(w, [e] + rest) == Play(Step(w, e), rest)
  {
    assert ([e] + rest)[1..] == rest;
  }

  function Idle(args: Args, mem: SuiteState): Local { Local(args, mem, 0, false, false, 0) }

  /** A state of the suite over two cases. */
  function At(phase: Phase, done: nat, pid: Option<nat>, recovery: bool, cleanup: bool): SuiteState {
    SuiteState(phase, done, 2, TWO_CASES, 0, pid, 0.0, recovery, cleanup, 0.0)
  }

  function Disk(checkpoint: seq<string>, state: Option<SuiteState>): Files { Files(checkpoint, state, false, None, None) }

  const FRESH := World(Disk([], None), Off, None, None, 0, 0.0, false, false, [])

  function Launched(pilot: bool): seq<Event> { [Launch(Args(TWO_CASES, pilot, None), false), CooldownOver, Decide] }

  lemma {:induction false} PlaySplit(w: World, a: seq<Event>, b: seq<Event>)
    ensures Play(w, a + b) == Play(Play(w, a), b)
    decreases |a|
  {
    if a == [] { assert a + b == b; }
    else {
      assert (a + b)[1..] == a[1..] + b;
      PlaySplit(Step(w, a[0]), a[1..], b);
    }
  }

  /** From a launchable state to the announced batch. */
  lemma Announced(w: World, args: Args, s: Option<SuiteState>, checkpoint: seq<string>)
    requires w.files == Disk(checkpoint, s) && w.driver.Off? && w.worker.None? && w.boot == 0 && w.now == 0.0
    requires args.config == TWO_CASES && args.maxBatches.None? && |checkpoint| < 2 && IsPrefix(checkpoint, TWO_CASES.ids)
    requires s.Some? ==> s.value.identity == TWO_CASES && s.value.childPid.None? && s.value.cooldownUntil == 0.0 && s.value.boot == 0
                         && (Unclean(s.value, 0) ==> args.pilot)
    ensures var unclean := s.Some? && Unclean(s.value, 0);
      var mem := At(Running, |checkpoint|, None, unclean, true);
      Play(w, [Launch(args, false), CooldownOver, Decide])
      == w.(files := Disk(checkpoint, Some(mem)), driver := On(Local(args, mem, 0, false, false, |checkpoint|), Guarding))
  {
    var unclean := s.Some? && Unclean(s.value, 0);
    var ready := At(Ready, |checkpoint|, None, unclean, false);
    PlayOne(w, Launch(args, false), [CooldownOver, Decide]);
    var one := Step(w, Launch(args, false));
    assert one == w.(files := Disk(checkpoint, Some(ready)), driver := On(Idle(args, ready), AtCooldown));
    PlayOne(one, CooldownOver, [Decide]);
    var two := Step(one, CooldownOver);
    PlayOne(two, Decide, []);
  }

  /** The worker of an announced batch, and the crash that makes it an orphan. */
  lemma Orphaned(w: World, l: Local)
    requires w.driver == On(l, Guarding) && !w.files.latch && w.worker.None? && w.files.state.Some? && w.files.state.value.childPid.None?
    ensures var v := Play(w, [Spawn(1), Crash(true)]);
      && v.files == w.files && v.driver.Off? && v.worker.None? && v.boot == w.boot && v.now == w.now
      && v.orphan == Some(Worker(1, l.args.config.ids, w.files.checkpoint, false))
  {
    PlayOne(w, Spawn(1), [Crash(true)]);
    PlayOne(Step(w, Spawn(1)), Crash(true), []);
  }

  /** The worker of an announced batch saves its case. */
  lemma CaseSaved(w: World, l: Local, pid: nat)
    requires w.driver == On(l, Guarding) && !w.files.latch && w.worker.None? && l.args.config == TWO_CASES
    requires w.files.state == Some(l.mem) && l.mem.updatedAt == w.now
    ensures var v := Play(w, [Spawn(pid), RecordPid, Saves]);
      var mem := l.mem.(childPid := Some(pid));
      && v.files == w.files.(checkpoint := Saved(w.files.checkpoint, TWO_CASES.ids), state := Some(mem))
      && v.driver == On(l.(mem := mem), Watching) && v.orphan == w.orphan && v.now == w.now && v.boot == w.boot
  {
    PlayOne(w, Spawn(pid), [RecordPid, Saves]);
    var one := Step(w, Spawn(pid));
    PlayOne(one, RecordPid, [Saves]);
    PlayOne(Step(one, RecordPid), Saves, []);
  }

  function Closing(): seq<Event> { [Exits, GuardStops(true, false, false, false), GuardLatches, Cool(false, 0.0), Judge(false), Decide] }

  /** A successful pilot batch ends, and the pilot launch pauses. */
  lemma PilotCloses(w: World, l: Local, pid: nat)
    requires w.driver == On(l, Watching) && l.args == Args(TWO_CASES, true, None) && l.batches == 0 && l.start == 0 && !l.signalled && !l.needsFinal
    requires w.boot == 0 && w.now == 0.0
    requires l.mem == At(Running, 0, Some(pid), true, true) && w.files == Disk(["a"], Some(l.mem))
    ensures var v := Play(w, Closing());
      && v.files == Disk(["a"], Some(At(Paused, 1, None, false, false))) && v.driver.Off? && v.worker.None?
      && v.orphan == w.orphan && v.boot == 0 && v.now == 0.0
  {
    var e := Closing();
    var one := Step(w, e[0]);
    PlayOne(w, e[0], e[1..]);
    assert e == [e[0]] + e[1..];
    var two := Step(one, e[1]);
    PlayOne(one, e[1], e[2..]);
    assert e[1..] == [e[1]] + e[2..];
    assert two.driver == On(l, Stopped(true, false)) && two.files == w.files && two.worker.None?;
    PilotCools(two, l, pid);
    assert e[2..] == [GuardLatches, Cool(false, 0.0), Judge(false), Decide];
  }

  /** The state the pilot's cool-down writes. */
  lemma PilotCooled(w: World, l: Local, pid: nat)
    requires w.driver == On(l, Ended(true)) && l.args.config == TWO_CASES && w.now == 0.0 && w.worker.None?
    requires l.mem == At(Running, 0, Some(pid), true, true) && w.files == Disk(["a"], Some(l.mem))
    ensures var mem := At(Cooling, 1, None, true, false);
      Step(w, Cool(false, 0.0)) == w.(files := Disk(["a"], Some(mem)), driver := On(l.(mem := mem), CoolingDown(true)))
  {
  }

  /** The pilot's batch is judged a success. */
  lemma PilotJudged(w: World, l: Local)
    requires w.driver == On(l, CoolingDown(true)) && l.args.config == TWO_CASES && l.batches == 0 && l.start == 0 && w.now == 0.0
    requires l.mem == At(Cooling, 1, None, true, false) && w.files == Disk(["a"], Some(l.mem))
    ensures Step(w, Judge(false)) ==
      w.(driver := On(l.(mem := At(Cooling, 1, None, false, false), batches := 1, needsFinal := false), AtHead), suspect := false)
  {
  }

  /** A pilot pauses after its batch. */
  lemma PilotPauses(w: World, l: Local)
    requires w.driver == On(l, AtHead) && l.args == Args(TWO_CASES, true, None) && l.batches == 1 && w.now == 0.0
    requires l.mem == At(Cooling, 1, None, false, false) && w.files.checkpoint == ["a"] && w.files.report.None?
    ensures Step(w, Decide) == w.(files := w.files.(state := Some(At(Paused, 1, None, false, false))), driver := Off)
  {
  }

  lemma PilotCools(w: World, l: Local, pid: nat)
    requires w.driver == On(l, Stopped(true, false)) && l.args == Args(TWO_CASES, true, None) && l.batches == 0 && l.start == 0
    requires w.boot == 0 && w.now == 0.0 && w.worker.None?
    requires l.mem == At(Running, 0, Some(pid), true, true) && w.files == Disk(["a"], Some(l.mem))
    ensures var v := Play(w, [GuardLatches, Cool(false, 0.0), Judge(false), Decide]);
      && v.files == Disk(["a"], Some(At(Paused, 1, None, false, false))) && v.driver.Off? && v.worker.None?
      && v.orphan == w.orphan && v.boot == 0 && v.now == 0.0
  {
    PlayOne(w, GuardLatches, [Cool(false, 0.0), Judge(false), Decide]);
    var one := w.(driver := On(l, Ended(true)));
    assert Step(w, GuardLatches) == one;
    PlayOne(one, Cool(false, 0.0), [Judge(false), Decide]);
    PilotCooled(one, l, pid);
    PilotFinishes(Step(one, Cool(false, 0.0)), l.(mem := At(Cooling, 1, None, true, false)));
  }

  lemma PilotFinishes(w: World, l: Local)
    requires w.driver == On(l, CoolingDown(true)) && l.args == Args(TWO_CASES, true, None) && l.batches == 0 && l.start == 0 && w.now == 0.0
    requires l.mem == At(Cooling, 1, None, true, false) && w.files == Disk(["a"], Some(l.mem))
    ensures var v := Play(w, [Judge(false), Decide]);
      && v.files == Disk(["a"], Some(At(Paused, 1, None, false, false))) && v.driver.Off? && v.worker == w.worker
      && v.orphan == w.orphan && v.boot == w.boot && v.now == 0.0
  {
    PlayOne(w, Judge(false), [Decide]);
    PilotJudged(w, l);
    var two := Step(w, Judge(false));
    PlayOne(two, Decide, []);
    PilotPauses(two, two.driver.local);
  }

  function Batched(pid: nat): seq<Event> { [Spawn(pid), RecordPid, Saves] }

  /** The first launch leaves an orphan that has loaded the empty checkpoint. */
  lemma FirstLaunch() returns (v: World)
    ensures v == Play(FRESH, Launched(false) + [Spawn(1), Crash(true)])
    ensures v.files == Disk([], Some(At(Running, 0, None, false, true))) && v.driver.Off? && v.worker.None?
    ensures v.orphan == Some(Worker(1, TWO_CASES.ids, [], false)) && v.boot == 0 && v.now == 0.0
  {
    PlaySplit(FRESH, Launched(false), [Spawn(1), Crash(true)]);
    Announced(FRESH, Args(TWO_CASES, false, None), None, []);
    var announced := Play(FRESH, Launched(false));
    Orphaned(announced, announced.driver.local);
    v := Play(announced, [Spawn(1), Crash(true)]);
  }

  /** A pilot launch beside the orphan saves the first case and pauses. */
  lemma PilotLaunch(w: World) returns (v: World)
    requires w.files == Disk([], Some(At(Running, 0, None, false, true))) && w.driver.Off? && w.worker.None? && w.boot == 0 && w.now == 0.0
    ensures v == Play(w, Launched(true) + (Batched(2) + Closing()))
    ensures v.files == Disk(["a"], Some(At(Paused, 1, None, false, false))) && v.driver.Off? && v.worker.None?
    ensures v.orphan == w.orphan && v.boot == 0 && v.now == 0.0
  {
    PlaySplit(w, Launched(true), Batched(2) + Closing());
    Announced(w, Args(TWO_CASES, true, None), w.files.state, []);
    var announced := Play(w, Launched(true));
    PlaySplit(announced, Batched(2), Closing());
    CaseSaved(announced, announced.driver.local, 2);
    var saved := Play(announced, Batched(2));
    assert Saved([], TWO_CASES.ids) == ["a"];
    PilotCloses(saved, saved.driver.local, 2);
    v := Play(saved, Closing());
  }

  /** A third launch saves the second case. */
  lemma LastLaunch(w: World) returns (v: World)
    requires w.files == Disk(["a"], Some(At(Paused, 1, None, false, false))) && w.driver.Off? && w.worker.None? && w.boot == 0 && w.now == 0.0
    ensures v == Play(w, Launched(false) + Batched(3)) && v.files.checkpoint == ["a", "b"] && v.orphan == w.orphan
  {
    PlaySplit(w, Launched(false), Batched(3));
    assert IsPrefix(["a"], TWO_CASES.ids);
    Announced(w, Args(TWO_CASES, false, None), w.files.state, ["a"]);
    var announced := Play(w, Launched(false));
    CaseSaved(announced, announced.driver.local, 3);
    assert Saved(["a"], TWO_CASES.ids) == ["a", "b"];
    v := Play(announced, Batched(3));
  }

  /** The three launches in a row. */
  lemma ThreeLaunches() returns (events: seq<Event>, v: World)
    ensures v == Play(FRESH, events) && v.files.checkpoint == ["a", "b"] && v.orphan == Some(Worker(1, TWO_CASES.ids, [], false))
  {
    var first := Launched(false) + [Spawn(1), Crash(true)];
    var second := Launched(true) + (Batched(2) + Closing());
    var third := Launched(false) + Batched(3);
    var a := FirstLaunch();
    var b := PilotLaunch(a);
    v := LastLaunch(b);
    events := first + (second + third);
    PlaySplit(FRESH, first, second + third);
    PlaySplit(a, second, third);
  }

  lemma PlayFresh(w: World, events: seq<Event>)
    ensures Runs(w, events) == Play(w, events)
  {
    PlayRuns(w, [], events);
    assert [] + events == events;
  }

  /** Why an orphan's writing must be ruled out: a worker that outlives a crash before its number is
      on disk can write its old checkpoint over a longer one. */
  lemma OrphanShrinks() returns (w: World, events: seq<Event>)
    ensures Initial(w) && Runs(w, events).files.checkpoint == ["a", "b"] && Runs(w, events + [OrphanSaves]).files.checkpoint == ["a"]
  {
    w := FRESH;
    var v;
    events, v := ThreeLaunches();
    PlayFresh(w, events);
    PlayRuns(w, events, [OrphanSaves]);
    PlayOne(v, OrphanSaves, []);
    assert Saved([], TWO_CASES.ids) == ["a"];
  }

  // ------------------------------------------------------------------------ the worker

  /** What `Saves` does to the checkpoint is what the worker's inference loop with one new
      case does: it writes the checkpoint once, with the next case, unless there is none
      left or the case ends in an infrastructure failure, and then writes nothing. */
  method RunWorker(cases: seq<string>, service: nat -> RunResult, initial: seq<Prediction>) returns (checkpoint: seq<string>, ok: bool)
    requires IsPrefix(CaseIds(initial), cases)
    ensures ok <==> |initial| == |cases| || !service(|initial|).Infrastructure()
    ensures checkpoint == if ok then Saved(CaseIds(initial), cases) else CaseIds(initial)
  {
    var r, files := RunInference(cases, service, initial, Some(1));
    checkpoint := CaseIds(if files == [] then initial else files[|files| - 1]);
    ok := r.Ok?;
    assert forall i | 0 <= i < |initial| :: CaseIds(initial)[i] == cases[i];
    if files != [] {
      CheckpointsArePrefixes(cases, service, initial, files[0], 1);
      assert cases[..|initial| + 1] == cases[..|initial|] + [cases[|initial|]];
    }
  }
}
