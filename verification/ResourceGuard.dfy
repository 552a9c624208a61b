/** The fail-closed watchdog around a child process, with its permanent stop latch. */
module ResourceGuard {
  import opened Prelude
  import opened Hardware
  import opened GpuMonitor

  // -------------------------------------------------------------- observations

  function MinOpt(a: Option<real>, b: Option<real>): Option<real> {
    if a.None? then b else if b.None? then a else Some(MinReal(a.value, b.value))
  }

  function MaxOpt(a: Option<real>, b: Option<real>): Option<real> {
    if a.None? then b else if b.None? then a else Some(MaxReal(a.value, b.value))
  }

  /** `merge_peak`. */
  function MergePeak(previous: ResourceSample, current: ResourceSample): ResourceSample {
    ResourceSample(
      MinReal(previous.ram, current.ram), MaxReal(previous.swap, current.swap),
      MaxInt(previous.gpuMemory, current.gpuMemory), MaxInt(previous.gpuTemperature, current.gpuTemperature),
      MaxReal(previous.gpuPower, current.gpuPower), MaxInt(previous.gpuUtilization, current.gpuUtilization),
      if previous.gpuClock.None? then current.gpuClock
      else if current.gpuClock.None? then previous.gpuClock
      else Some(MaxInt(previous.gpuClock.value, current.gpuClock.value)),
      MinOpt(previous.windowsRam, current.windowsRam), MaxOpt(previous.windowsSwap, current.windowsSwap))
  }

  /** `observe_resources`: the taken GPU sample with the host's memory, and the
      Windows host's when it is monitored. */
  function Observe(gpu: ResourceSample, ram: real, swap: real, windows: Option<(real, real)>): ResourceSample {
    var here := ResourceSample(ram, swap, gpu.gpuMemory, gpu.gpuTemperature, gpu.gpuPower, gpu.gpuUtilization, gpu.gpuClock, None, None);
    match windows
    case None => here
    case Some((r, s)) => here.(ram := MinReal(ram, r), swap := MaxReal(swap, s), windowsRam := Some(r), windowsSwap := Some(s))
  }

  /** An attempt to observe: a monitor failure, or a sample. */
  datatype Observation = Broken | Observed(sample: ResourceSample)

  function Verdict(o: Observation, limits: ResourceLimits): Option<string> {
    match o
    case Broken => Some("monitor failure")
    case Observed(s) => UnsafeReason(s, limits)
  }

  /** What a guarded run meets: its observations before the spawn (none when something
      unrelated interrupts that one), while the child runs and at the end; whether the
      spawn succeeds, whether something unrelated interrupts the watch later, how the
      child exits, and which clean-up steps fail. */
  datatype Launch = Launch(
    first: Option<Observation>, spawns: bool, during: seq<Observation>, interrupted: bool, last: Observation, exitCode: int,
    stopFails: bool, unloadFails: bool, hostFails: bool, gpuFails: bool)

  datatype Watch = Watch(peak: Option<ResourceSample>, samples: nat, reason: Option<string>)

  function WatchOne(w: Watch, o: Observation, limits: ResourceLimits): Watch {
    match o
    case Broken => w.(reason := Verdict(o, limits))
    case Observed(s) => Watch(Some(if w.peak.Some? then MergePeak(w.peak.value, s) else s), w.samples + 1, Verdict(o, limits))
  }

  /** Watching stops at the first reason. */
  function WatchAll(w: Watch, obs: seq<Observation>, limits: ResourceLimits): Watch
    decreases |obs|
  {
    if obs == [] || w.reason.Some? then w else WatchAll(WatchOne(w, obs[0], limits), obs[1..], limits)
  }

  const NOTHING := Watch(None, 0, None)

  /** The observations actually made. */
  function UntilBad(obs: seq<Observation>, limits: ResourceLimits): seq<Observation> {
    if obs == [] then [] else [obs[0]] + (if Verdict(obs[0], limits).Some? then [] else UntilBad(obs[1..], limits))
  }

  function Planned(l: Launch): seq<Observation> {
    if l.first.None? then []
    else [l.first.value] + (if l.spawns then l.during + (if l.interrupted then [] else [l.last]) else [])
  }

  function Made(l: Launch, limits: ResourceLimits): seq<Observation> { UntilBad(Planned(l), limits) }

  predicate CleanupFails(l: Launch, spawned: bool) { (spawned && l.stopFails) || l.unloadFails || l.hostFails || l.gpuFails }

  datatype Ending = Ending(watch: Watch, spawned: bool, resourceStop: bool, workloadStop: bool, cleanup: bool) {
    predicate Latches() { resourceStop || cleanup }
    predicate Raises() { resourceStop || workloadStop || cleanup }
  }

  /** How a guarded run that is not refused ends. */
  function End(l: Launch, limits: ResourceLimits): Ending {
    var w := WatchAll(NOTHING, Planned(l), limits);
    var spawned := l.first.Some? && l.spawns && Verdict(l.first.value, limits).None?;
    Ending(w, spawned, w.reason.Some?, w.reason.None? && (l.first.None? || !l.spawns || l.interrupted || l.exitCode != 0),
           CleanupFails(l, spawned))
  }

  datatype Summary = Summary(peak: Option<ResourceSample>, samples: nat, stopped: bool, resourceStop: bool, cleanup: bool)

  function SummaryOf(e: Ending): Summary {
    Summary(e.watch.peak, e.watch.samples, e.resourceStop || e.workloadStop, e.resourceStop || e.cleanup, e.cleanup)
  }

  lemma WatchStep(w: Watch, obs: seq<Observation>, o: Observation, limits: ResourceLimits)
    ensures WatchAll(w, obs + [o], limits) ==
      var v := WatchAll(w, obs, limits); if v.reason.Some? then v else WatchOne(v, o, limits)
    decreases |obs|
  {
    if obs == [] { assert obs + [o] == [o]; assert [o][1..] == []; }
    else if w.reason.None? {
      assert (obs + [o])[1..] == obs[1..] + [o];
      WatchStep(WatchOne(w, obs[0], limits), obs[1..], o, limits);
    }
  }

  const MAX_INTERVAL := 0.5

  /** The durable side of the guard: the stop latch, the workload-error record, the
      journal, and how many children have been started. */
  class Guard {
    var latched: bool
    var workloadError: bool
    var journal: seq<Summary>
    var spawns: nat

    constructor ()
      ensures !latched && !workloadError && journal == [] && spawns == 0
    {
      latched, workloadError, journal, spawns := false, false, [], 0;
    }

    /** `_guarded_process`. */
    method GuardedProcess(l: Launch, limits: ResourceLimits, interval: real) returns (r: Result<Summary>)
      modifies this
      ensures !(0.0 < interval <= MAX_INTERVAL) || old(latched) ==>
        r.Err? && latched == old(latched) && workloadError == old(workloadError) && journal == old(journal) && spawns == old(spawns)
      ensures 0.0 < interval <= MAX_INTERVAL && !old(latched) ==>
        var e := End(l, limits);
        && latched == e.Latches()
        && workloadError == (old(workloadError) || (e.workloadStop && !e.Latches()))
        && journal == old(journal) + [SummaryOf(e)]
        && spawns == old(spawns) + (if e.spawned then 1 else 0)
        && (if e.Raises() then r.Err? else r == Ok(SummaryOf(e)))
    {
      if !(0.0 < interval <= MAX_INTERVAL) {
        return Err("sampling interval must be positive and at most 0.5 seconds");
      }
      if latched {
        return Err("Previous resource-stop latch exists");
      }
      var watch, resourceStop, workloadStop, spawned := Observing(l, limits);
      if spawned {
        spawns := spawns + 1;
      }
      var cleanup := spawned && l.stopFails;
      if l.unloadFails {
        cleanup := true;
      }
      if l.hostFails {
        cleanup := true;
      }
      if l.gpuFails {
        cleanup := true;
      }
      var summary := Summary(watch.peak, watch.samples, resourceStop || workloadStop, resourceStop || cleanup, cleanup);
      journal := journal + [summary];
      if resourceStop || workloadStop || cleanup {
        if resourceStop || cleanup {
          latched := true;
        } else {
          workloadError := true;
        }
        return Err("guarded workload stopped");
      }
      return Ok(summary);
    }
  }

  /** The watch itself: before the spawn, while the child runs, and once more. */
  method Observing(l: Launch, limits: ResourceLimits) returns (watch: Watch, resourceStop: bool, workloadStop: bool, spawned: bool)
    ensures var e := End(l, limits);
            watch == e.watch && resourceStop == e.resourceStop && workloadStop == e.workloadStop && spawned == e.spawned
  {
    watch, resourceStop, workloadStop, spawned := NOTHING, false, false, false;
    if l.first.None? {
      workloadStop := true;
      return;
    }
    watch := WatchOne(NOTHING, l.first.value, limits);
    FirstWatched(l.first.value, limits);
    FirstKept(l, limits);
    if watch.reason.Some? {
      resourceStop := true;
      return;
    }
    if !l.spawns {
      workloadStop := true;
      return;
    }
    spawned := true;
    for i := 0 to |l.during|
      invariant watch == WatchAll(NOTHING, [l.first.value] + l.during[..i], limits) && watch.reason.None?
    {
      assert [l.first.value] + l.during[..i + 1] == ([l.first.value] + l.during[..i]) + [l.during[i]];
      WatchStep(NOTHING, [l.first.value] + l.during[..i], l.during[i], limits);
      watch := WatchOne(watch, l.during[i], limits);
      if watch.reason.Some? {
        resourceStop := true;
        DuringPlanned(l, i + 1);
        StoppedEarly(NOTHING, [l.first.value] + l.during[..i + 1], Planned(l), limits);
        return;
      }
    }
    assert l.during[..|l.during|] == l.during;
    if l.interrupted {
      workloadStop := true;
      assert Planned(l) == [l.first.value] + l.during;
      return;
    }
    assert Planned(l) == ([l.first.value] + l.during) + [l.last];
    WatchStep(NOTHING, [l.first.value] + l.during, l.last, limits);
    watch := WatchOne(watch, l.last, limits);
    if watch.reason.Some? {
      resourceStop := true;
      return;
    }
    if l.exitCode != 0 {
      workloadStop := true;
    }
  }

  lemma FirstWatched(first: Observation, limits: ResourceLimits)
    ensures WatchAll(NOTHING, [first], limits) == WatchOne(NOTHING, first, limits)
    ensures WatchOne(NOTHING, first, limits).reason == Verdict(first, limits)
  {
    assert [first][1..] == [];
  }

  lemma FirstKept(l: Launch, limits: ResourceLimits)
    requires l.first.Some?
    ensures [l.first.value] + l.during[..0] == [l.first.value]
    ensures Verdict(l.first.value, limits).Some? ==> WatchAll(NOTHING, Planned(l), limits) == WatchOne(NOTHING, l.first.value, limits)
    ensures !l.spawns ==> Planned(l) == [l.first.value]
  {
    FirstWatched(l.first.value, limits);
    StoppedEarly(NOTHING, [l.first.value], Planned(l), limits);
  }

  lemma DuringPlanned(l: Launch, n: nat)
    requires l.first.Some? && l.spawns && n <= |l.during|
    ensures n + 1 <= |Planned(l)| && Planned(l)[..n + 1] == [l.first.value] + l.during[..n]
  {
  }

  /** What comes after a reason is not observed. */
  lemma StoppedEarly(w: Watch, some: seq<Observation>, all: seq<Observation>, limits: ResourceLimits)
    requires |some| <= |all| && all[..|some|] == some
    ensures WatchAll(w, some, limits).reason.Some? ==> WatchAll(w, all, limits) == WatchAll(w, some, limits)
    decreases |some|
  {
    if some != [] && w.reason.None? {
      assert all[0] == some[0] && all[1..][..|some| - 1] == some[1..];
      StoppedEarly(WatchOne(w, some[0], limits), some[1..], all[1..], limits);
    }
  }

  // ------------------------------------------------------------- what it proves

  ghost predicate AnyBad(obs: seq<Observation>, limits: ResourceLimits) {
    exists i | 0 <= i < |obs| :: Verdict(obs[i], limits).Some?
  }

  /** The watch ends with a reason exactly when an observation it made was bad, and
      otherwise it made all planned observations. */
  lemma {:induction false} WatchFinds(w: Watch, obs: seq<Observation>, limits: ResourceLimits)
    requires w.reason.None?
    ensures WatchAll(w, obs, limits).reason.Some? <==> AnyBad(UntilBad(obs, limits), limits)
    ensures !AnyBad(UntilBad(obs, limits), limits) ==> UntilBad(obs, limits) == obs
    decreases |obs|
  {
    if obs != [] {
      var rest := UntilBad(obs[1..], limits);
      var made := UntilBad(obs, limits);
      if Verdict(obs[0], limits).Some? {
        assert made[0] == obs[0];
      } else {
        WatchFinds(WatchOne(w, obs[0], limits), obs[1..], limits);
        assert made == [obs[0]] + rest;
        assert AnyBad(made, limits) <==> AnyBad(rest, limits) by {
          assert forall i | 0 < i < |made| :: made[i] == rest[i - 1];
          assert forall i | 0 <= i < |rest| :: rest[i] == made[i + 1];
        }
        assert obs == [obs[0]] + obs[1..];
      }
    }
  }

  /** A monitor failure, or a sample that is not safe. */
  predicate Bad(o: Observation, limits: ResourceLimits) { o.Broken? || UnsafeReason(o.sample, limits).Some? }

  /** Fail closed: the run starts the child exactly after a safe first observation; it latches
      exactly on a bad first one, a bad one while the child runs, a bad last one that no
      interruption forestalled, or a failed clean-up; and it returns a summary exactly when
      all observations were made and safe, the child exited with code 0 and all was
      cleaned up. */
  lemma FailClosed(l: Launch, limits: ResourceLimits)
    ensures var e := End(l, limits);
      && (e.spawned <==> l.first.Some? && !Bad(l.first.value, limits) && l.spawns)
      && (e.Latches() <==>
            || (l.first.Some? && Bad(l.first.value, limits))
            || (e.spawned && exists i :: 0 <= i < |l.during| && Bad(l.during[i], limits))
            || (e.spawned && !l.interrupted && Bad(l.last, limits))
            || (e.spawned && l.stopFails) || l.unloadFails || l.hostFails || l.gpuFails)
      && (!e.Raises() <==>
            && l.first.Some? && !Bad(l.first.value, limits) && l.spawns
            && (forall i | 0 <= i < |l.during| :: !Bad(l.during[i], limits)) && !l.interrupted && !Bad(l.last, limits)
            && l.exitCode == 0 && !l.stopFails && !l.unloadFails && !l.hostFails && !l.gpuFails)
  {
    WatchFinds(NOTHING, Planned(l), limits);
    BadMade(l, limits);
  }

  /** A run latches on every bad observation it made. */
  lemma BadLatches(l: Launch, limits: ResourceLimits)
    requires AnyBad(Made(l, limits), limits)
    ensures End(l, limits).Latches() && End(l, limits).Raises()
  {
    WatchFinds(NOTHING, Planned(l), limits);
  }

  lemma {:induction false} UntilBadFinds(obs: seq<Observation>, limits: ResourceLimits)
    ensures AnyBad(UntilBad(obs, limits), limits) <==> exists i :: 0 <= i < |obs| && Bad(obs[i], limits)
  {
    if obs != [] {
      UntilBadFinds(obs[1..], limits);
      var made := UntilBad(obs, limits);
      assert forall i | 0 <= i < |obs| - 1 :: obs[1..][i] == obs[i + 1];
      if Verdict(obs[0], limits).Some? { assert Verdict(made[0], limits).Some?; }
      else {
        var rest := UntilBad(obs[1..], limits);
        assert made == [obs[0]] + rest && forall i | 0 <= i < |rest| :: made[i + 1] == rest[i];
        assert AnyBad(made, limits) <==> AnyBad(rest, limits) by {
          assert forall i | 0 < i < |made| :: made[i] == rest[i - 1];
        }
      }
    }
  }

  lemma BadMade(l: Launch, limits: ResourceLimits)
    ensures AnyBad(Made(l, limits), limits) <==>
      && l.first.Some?
      && (|| Bad(l.first.value, limits)
          || (l.spawns && ((exists i :: 0 <= i < |l.during| && Bad(l.during[i], limits)) || (!l.interrupted && Bad(l.last, limits)))))
  {
    var obs := Planned(l);
    UntilBadFinds(obs, limits);
    if l.first.Some? {
      assert obs[0] == l.first.value;
      if l.spawns {
        assert forall i | 0 <= i < |l.during| :: obs[i + 1] == l.during[i];
        if !l.interrupted { assert obs[|obs| - 1] == l.last; }
      }
    }
  }

  /** The guard's memory over a history of runs. */
  function Latched(latched: bool, launches: seq<Launch>, limits: ResourceLimits): bool
    decreases |launches|
  {
    if launches == [] then latched
    else Latched(latched || End(launches[0], limits).Latches(), launches[1..], limits)
  }

  function Spawns(latched: bool, launches: seq<Launch>, limits: ResourceLimits): nat
    decreases |launches|
  {
    if launches == [] then 0
    else if latched then Spawns(true, launches[1..], limits)
    else (if End(launches[0], limits).spawned then 1 else 0)
         + Spawns(End(launches[0], limits).Latches(), launches[1..], limits)
  }

  /** On a set latch no later run ever starts a child. */
  lemma {:induction false} LatchIsPermanent(launches: seq<Launch>, limits: ResourceLimits)
    ensures Latched(true, launches, limits) && Spawns(true, launches, limits) == 0
  {
    if launches != [] { LatchIsPermanent(launches[1..], limits); }
  }

  /** The recorded peak is no better than any sample observed. */
  predicate Dominates(p: ResourceSample, s: ResourceSample) {
    && p.ram <= s.ram && p.swap >= s.swap && p.gpuMemory >= s.gpuMemory && p.gpuTemperature >= s.gpuTemperature
    && p.gpuPower >= s.gpuPower && p.gpuUtilization >= s.gpuUtilization
    && (s.gpuClock.Some? ==> p.gpuClock.Some? && p.gpuClock.value >= s.gpuClock.value)
    && (s.windowsRam.Some? ==> p.windowsRam.Some? && p.windowsRam.value <= s.windowsRam.value)
    && (s.windowsSwap.Some? ==> p.windowsSwap.Some? && p.windowsSwap.value >= s.windowsSwap.value)
  }

  lemma MergeDominates(p: ResourceSample, s: ResourceSample)
    ensures Dominates(MergePeak(p, s), p) && Dominates(MergePeak(p, s), s)
  {
  }

  lemma DominatesTransitive(p: ResourceSample, q: ResourceSample, s: ResourceSample)
    requires Dominates(p, q) && Dominates(q, s)
    ensures Dominates(p, s)
  {
  }

  /** The peak the guard records dominates every sample it observed. */
  lemma {:induction false} PeakRecorded(w: Watch, obs: seq<Observation>, limits: ResourceLimits)
    requires w.reason.None?
    ensures var v := WatchAll(w, obs, limits);
      && (w.peak.Some? ==> v.peak.Some? && Dominates(v.peak.value, w.peak.value))
      && (forall o | o in UntilBad(obs, limits) && o.Observed? :: v.peak.Some? && Dominates(v.peak.value, o.sample))
    decreases |obs|
  {
    if obs != [] {
      var v := WatchOne(w, obs[0], limits);
      if obs[0].Observed? && w.peak.Some? { MergeDominates(w.peak.value, obs[0].sample); }
      if Verdict(obs[0], limits).Some? {
        assert WatchAll(w, obs, limits) == v;
        assert UntilBad(obs, limits) == [obs[0]];
      } else {
        PeakRecorded(v, obs[1..], limits);
        var end := WatchAll(v, obs[1..], limits);
        if w.peak.Some? { DominatesTransitive(end.peak.value, v.peak.value, w.peak.value); }
        forall o | o in UntilBad(obs, limits) && o.Observed? ensures end.peak.Some? && Dominates(end.peak.value, o.sample) {
          if o == obs[0] { DominatesTransitive(end.peak.value, v.peak.value, o.sample); }
        }
      }
    }
  }

  /** Each field of `p` is that of one of the samples. */
  ghost predicate Drawn(p: ResourceSample, seen: seq<ResourceSample>) {
    && (exists s | s in seen :: s.ram == p.ram) && (exists s | s in seen :: s.swap == p.swap)
    && (exists s | s in seen :: s.gpuMemory == p.gpuMemory) && (exists s | s in seen :: s.gpuTemperature == p.gpuTemperature)
    && (exists s | s in seen :: s.gpuPower == p.gpuPower) && (exists s | s in seen :: s.gpuUtilization == p.gpuUtilization)
    && (exists s | s in seen :: s.gpuClock == p.gpuClock)
    && (exists s | s in seen :: s.windowsRam == p.windowsRam) && (exists s | s in seen :: s.windowsSwap == p.windowsSwap)
  }

  lemma MergeDrawn(p: ResourceSample, s: ResourceSample, seen: seq<ResourceSample>)
    requires Drawn(p, seen)
    ensures Drawn(MergePeak(p, s), seen + [s])
  {
    var more := seen + [s];
    assert s in more && forall t | t in seen :: t in more;
  }

  /** The samples observed, in order. */
  function Samples(obs: seq<Observation>): seq<ResourceSample> {
    if obs == [] then [] else (if obs[0].Observed? then [obs[0].sample] else []) + Samples(obs[1..])
  }

  function SampleOf(o: Observation): seq<ResourceSample> { if o.Observed? then [o.sample] else [] }

  ghost predicate PeakOf(p: Option<ResourceSample>, seen: seq<ResourceSample>) {
    if p.Some? then Drawn(p.value, seen) else seen == []
  }

  lemma OneObserved(w: Watch, seen: seq<ResourceSample>, o: Observation, limits: ResourceLimits)
    requires PeakOf(w.peak, seen)
    ensures PeakOf(WatchOne(w, o, limits).peak, seen + SampleOf(o)) && WatchOne(w, o, limits).samples == w.samples + |SampleOf(o)|
  {
    if o.Broken? { assert seen + [] == seen; }
    else if w.peak.Some? { MergeDrawn(w.peak.value, o.sample, seen); }
    else { assert o.sample in [o.sample] && seen + [o.sample] == [o.sample]; }
  }

  /** What is made of `o` and later observations, on top of the samples seen. */
  lemma SamplesCons(seen: seq<ResourceSample>, o: Observation, rest: seq<Observation>)
    ensures Samples([o] + rest) == SampleOf(o) + Samples(rest) && seen + Samples([o] + rest) == (seen + SampleOf(o)) + Samples(rest)
  {
    assert ([o] + rest)[1..] == rest;
  }

  lemma WatchOn(w: Watch, o: Observation, obs: seq<Observation>, limits: ResourceLimits)
    requires w.reason.None?
    ensures Verdict(o, limits).Some? ==> WatchAll(w, [o] + obs, limits) == WatchOne(w, o, limits) && UntilBad([o] + obs, limits) == [o] + []
    ensures Verdict(o, limits).None? ==>
      WatchAll(w, [o] + obs, limits) == WatchAll(WatchOne(w, o, limits), obs, limits) && UntilBad([o] + obs, limits) == [o] + UntilBad(obs, limits)
  {
    assert ([o] + obs)[1..] == obs;
  }

  /** ... and no field of it is made up: each was observed. */
  lemma {:induction false} PeakObserved(w: Watch, seen: seq<ResourceSample>, obs: seq<Observation>, limits: ResourceLimits)
    requires w.reason.None? && PeakOf(w.peak, seen)
    ensures var v, made := WatchAll(w, obs, limits), Samples(UntilBad(obs, limits));
      PeakOf(v.peak, seen + made) && v.samples == w.samples + |made|
    decreases |obs|
  {
    if obs == [] { assert seen + [] == seen; }
    else {
      var o, later := obs[0], obs[1..];
      assert obs == [o] + later;
      OneObserved(w, seen, o, limits);
      WatchOn(w, o, later, limits);
      if Verdict(o, limits).None? {
        SamplesCons(seen, o, UntilBad(later, limits));
        PeakObserved(WatchOne(w, o, limits), seen + SampleOf(o), later, limits);
      } else {
        SamplesCons(seen, o, []);
        assert (seen + SampleOf(o)) + [] == seen + SampleOf(o);
      }
    }
  }

  // --------------------------------------------------- the stream and the guard

  predicate SameGpu(s: ResourceSample, gpu: ResourceSample) {
    s.gpuMemory == gpu.gpuMemory && s.gpuTemperature == gpu.gpuTemperature && s.gpuPower == gpu.gpuPower
    && s.gpuUtilization == gpu.gpuUtilization && s.gpuClock == gpu.gpuClock
  }

  /** The host's memory does not touch the GPU fields. */
  lemma ObserveKeepsGpu(gpu: ResourceSample, ram: real, swap: real, windows: Option<(real, real)>)
    ensures SameGpu(Observe(gpu, ram, swap, windows), gpu)
  {
  }

  /** What is judged is the worse of both hosts: an observation is safe only if the memory of
      this host, and of Windows where it is monitored, is within the limits. */
  lemma ObservedHosts(gpu: ResourceSample, ram: real, swap: real, windows: Option<(real, real)>, limits: ResourceLimits)
    requires Verdict(Observed(Observe(gpu, ram, swap, windows)), limits).None?
    ensures ram >= limits.minRam && swap < limits.maxSwap
    ensures windows.Some? ==> windows.value.0 >= limits.minRam && windows.value.1 < limits.maxSwap
    ensures var s := Observe(gpu, ram, swap, windows);
      if windows.None? then s.ram == ram && s.swap == swap && s.windowsRam == None && s.windowsSwap == None
      else s.windowsRam == Some(windows.value.0) && s.windowsSwap == Some(windows.value.1)
           && (s.ram == ram || s.ram == windows.value.0) && (s.swap == swap || s.swap == windows.value.1)
  {
    SafeExactly(Observe(gpu, ram, swap, windows), limits);
  }

  /** What `observe_resources` makes of a sample taken from the stream: the sample with
      some host memory, or a failure of another monitor. */
  ghost predicate FromSample(o: Observation, gpu: ResourceSample) {
    o.Broken? || exists ram, swap, windows :: o == Observed(Observe(gpu, ram, swap, windows))
  }

  /** The guarded run observed the stream: its observations are made, in order, from the
      samples taken, and a failed poll is a failed observation. */
  ghost predicate FedBy(made: seq<Observation>, run: Run) {
    && |run.taken| + (if run.failed then 1 else 0) <= |made|
    && (forall i | 0 <= i < |run.taken| :: FromSample(made[i], run.taken[i]))
    && (run.failed ==> made[|run.taken|] == Broken)
  }

  /** An observation made of a sample over a GPU limit is bad. */
  lemma BreachIsBad(o: Observation, gpu: ResourceSample, limits: ResourceLimits)
    requires FromSample(o, gpu) && GpuBreach(gpu, limits)
    ensures Verdict(o, limits).Some?
  {
    if o.Observed? {
      var ram, swap, windows :| o == Observed(Observe(gpu, ram, swap, windows));
      ObserveKeepsGpu(gpu, ram, swap, windows);
      SafeMeansNoBreach(o.sample, limits);
    }
  }

  /** A failed observation latches, and no later run on that latch starts a child. */
  lemma BrokenObservationLatches(l: Launch, limits: ResourceLimits, later: seq<Launch>)
    requires Broken in Made(l, limits)
    ensures End(l, limits).Latches() && End(l, limits).Raises() && Spawns(End(l, limits).Latches(), later, limits) == 0
  {
    var i :| 0 <= i < |Made(l, limits)| && Made(l, limits)[i] == Broken;
    assert Verdict(Made(l, limits)[i], limits).Some?;
    BadLatches(l, limits);
    LatchIsPermanent(later, limits);
  }

  /** No unsafe GPU reading escapes: in any interleaving of the sensor stream with a guarded
      run, an accepted line with a reading over its limit before the run's last completed
      poll makes the run raise with the stop latch set, however safe the later lines were,
      and no later run on that latch starts a child. */
  lemma NoBreachEscapes(before: seq<Event>, line: Line, now: real, middle: seq<Event>, poll: Event, rest: seq<Event>,
                        l: Launch, limits: ResourceLimits, later: seq<Launch>)
    requires Runs(before).stream.reading && !RejectedLine(Runs(before).stream, line, now) && LineBreach(line, limits)
    requires Completes(Runs(before + [FrameRead(line, now)] + middle), poll)
    requires FedBy(Made(l, limits), Runs(before + [FrameRead(line, now)] + middle + [poll] + rest))
    ensures End(l, limits).Latches() && End(l, limits).Raises()
    ensures Spawns(End(l, limits).Latches(), later, limits) == 0
  {
    AcceptedLine(before, line, now, middle);
    LineBreaches(line, limits);
    NoFrameEscapes(before + [FrameRead(line, now)] + middle, poll, rest, l, limits, ParseGpuSample(line).value, later);
  }

  /** The same of an accepted frame. */
  lemma NoFrameEscapes(before: seq<Event>, poll: Event, rest: seq<Event>, l: Launch,
                        limits: ResourceLimits, f: ResourceSample, later: seq<Launch>)
    requires f in AcceptedFrames(before) && Completes(Runs(before), poll) && GpuBreach(f, limits)
    requires FedBy(Made(l, limits), Runs(before + [poll] + rest))
    ensures End(l, limits).Latches() && End(l, limits).Raises()
    ensures Spawns(End(l, limits).Latches(), later, limits) == 0
  {
    var run := Runs(before + [poll] + rest);
    var made := Made(l, limits);
    var i := AcceptedIsTaken(before, poll, rest, f);
    if run.failed {
      BrokenObservationLatches(l, limits, later);
    } else {
      NoFrameLost(before + [poll] + rest);
      BreachSurvives(run.blocks[i], f, limits);
      BreachIsBad(made[i], run.taken[i], limits);
      assert AnyBad(made, limits);
      BadLatches(l, limits);
      LatchIsPermanent(later, limits);
    }
  }

  /** Nor does a broken stream: when a line is malformed or comes after a gap, and the
      reader has recorded it before the run's next poll, the run raises with the latch
      set, and no later run on that latch starts a child. */
  lemma BrokenStreamLatches(before: seq<Event>, line: Line, now: real, middle: seq<Event>,
                            rest: seq<Event>, l: Launch, limits: ResourceLimits, later: seq<Launch>)
    requires Runs(before).stream.reading && RejectedLine(Runs(before).stream, line, now)
    requires exists i | 0 <= i < |rest| :: rest[i].PollOnce?
    requires FedBy(Made(l, limits), Runs(before + [FrameRead(line, now)] + middle + [ReaderStops] + rest))
    ensures End(l, limits).Latches() && End(l, limits).Raises()
    ensures Spawns(End(l, limits).Latches(), later, limits) == 0
  {
    RejectedLineFails(before, line, now, middle, rest);
    BrokenObservationLatches(l, limits, later);
  }
}
