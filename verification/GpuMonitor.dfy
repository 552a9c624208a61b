/** The GPU sensor stream: a reader that accepts frames, a guard that takes peaks. */
module GpuMonitor {
  import opened Prelude
  import opened Hardware

  const FRESH_SECONDS := 0.5

  function ClockOr0(s: ResourceSample): int { if s.gpuClock.Some? then s.gpuClock.value else 0 }

  /** The retained peak of what was pending and a newer frame. */
  function MergePending(previous: ResourceSample, sample: ResourceSample): ResourceSample {
    sample.(gpuMemory := MaxInt(previous.gpuMemory, sample.gpuMemory),
            gpuTemperature := MaxInt(previous.gpuTemperature, sample.gpuTemperature),
            gpuPower := MaxReal(previous.gpuPower, sample.gpuPower),
            gpuUtilization := MaxInt(previous.gpuUtilization, sample.gpuUtilization),
            gpuClock := Some(MaxInt(ClockOr0(previous), ClockOr0(sample))))
  }

  /** The peak of a block of frames. */
  function Peak(frames: seq<ResourceSample>): ResourceSample
    requires frames != []
  {
    if |frames| == 1 then frames[0] else MergePending(Peak(frames[..|frames| - 1]), frames[|frames| - 1])
  }

  /** Field by field at least as high on the GPU. */
  predicate GpuAtLeast(a: ResourceSample, b: ResourceSample) {
    && a.gpuMemory >= b.gpuMemory && a.gpuTemperature >= b.gpuTemperature && a.gpuPower >= b.gpuPower
    && a.gpuUtilization >= b.gpuUtilization
    && a.gpuClock.Some? && b.gpuClock.Some? && a.gpuClock.value >= b.gpuClock.value
  }

  /** The GPU fields of `a` are each attained by a frame of the block. */
  ghost predicate Attained(a: ResourceSample, frames: seq<ResourceSample>) {
    && (exists f | f in frames :: f.gpuMemory == a.gpuMemory)
    && (exists f | f in frames :: f.gpuTemperature == a.gpuTemperature)
    && (exists f | f in frames :: f.gpuPower == a.gpuPower)
    && (exists f | f in frames :: f.gpuUtilization == a.gpuUtilization)
    && (exists f | f in frames :: f.gpuClock == a.gpuClock)
  }

  predicate IsFrame(s: ResourceSample) { s.gpuClock.Some? && s.gpuClock.value >= 0 }

  lemma AttainedMore(init: seq<ResourceSample>, last: ResourceSample, p: ResourceSample)
    requires Attained(p, init) && IsFrame(p) && IsFrame(last)
    ensures Attained(MergePending(p, last), init + [last]) && IsFrame(MergePending(p, last))
  {
    var frames := init + [last];
    assert last in frames && forall f | f in init :: f in frames;
  }

  /** The peak is the pointwise maximum: it dominates every frame and is attained. */
  lemma {:induction false} PeakIsMaximum(frames: seq<ResourceSample>)
    requires frames != [] && forall f | f in frames :: IsFrame(f)
    ensures forall f | f in frames :: GpuAtLeast(Peak(frames), f)
    ensures Attained(Peak(frames), frames) && IsFrame(Peak(frames))
  {
    var init, last := frames[..|frames| - 1], frames[|frames| - 1];
    assert frames == init + [last];
    assert last in frames && forall f | f in init :: f in frames;
    if |frames| > 1 {
      PeakIsMaximum(init);
      AttainedMore(init, last, Peak(init));
      var p, q := Peak(init), Peak(frames);
      forall f | f in frames ensures GpuAtLeast(q, f) { assert f in init || f == last; }
    }
  }

  /** A breach in any frame of a block is a breach of its peak. */
  lemma BreachSurvives(frames: seq<ResourceSample>, f: ResourceSample, limits: ResourceLimits)
    requires f in frames && (forall x | x in frames :: IsFrame(x)) && GpuBreach(f, limits)
    ensures GpuBreach(Peak(frames), limits)
  {
    PeakIsMaximum(frames);
  }

  // ------------------------------------------------------------------ the stream

  /** The shared fields; `failing` is an exception on its way to `error`. */
  datatype Stream = Stream(pending: Option<ResourceSample>, latestAt: Option<real>, error: bool, failing: bool, reading: bool, closing: bool)

  datatype Polled = Taken(sample: ResourceSample) | Failed | Retry

  predicate Gap(s: Stream, now: real) { s.latestAt.Some? && now - s.latestAt.value > FRESH_SECONDS }

  /** `_accept` of one line by the reader thread. */
  function Accepted(s: Stream, line: Line, now: real): Stream {
    var parsed := ParseGpuSample(line);
    if parsed.Err? || Gap(s, now) then s.(failing := true, reading := false)
    else s.(pending := Some(if s.pending.Some? then MergePending(s.pending.value, parsed.value) else parsed.value), latestAt := Some(now))
  }

  /** The reader's exception handler and its `finally`. */
  function Stopped(s: Stream): Stream {
    s.(reading := false, failing := false, error := s.error || s.failing || !s.closing)
  }

  predicate Stale(s: Stream, now: real) { s.latestAt.Some? && !(0.0 <= now - s.latestAt.value <= FRESH_SECONDS) }

  /** One pass of the loop in `sample` under the lock. */
  function PolledAt(s: Stream, now: real, deadline: real, alive: bool): (Stream, Polled) {
    if s.error || !alive then (s, Failed)
    else if Stale(s, now) then (s.(error := true), Failed)
    else if s.pending.Some? then (s.(pending := None), Taken(s.pending.value))
    else if now >= deadline then (s.(error := true), Failed)
    else (s, Retry)
  }

  /** The object both threads share. */
  class GpuMonitor {
    var pending: Option<ResourceSample>
    var latestAt: Option<real>
    var error: bool
    var failing: bool
    var reading: bool
    var closing: bool

    function State(): Stream
      reads this
    {
      Stream(pending, latestAt, error, failing, reading, closing)
    }

    constructor ()
      ensures State() == Stream(None, None, false, false, true, false)
    {
      pending, latestAt := None, None;
      error, failing, closing := false, false, false;
      reading := true;
    }

    method Accept(line: Line, now: real)
      modifies this
      ensures State() == Accepted(old(State()), line, now)
    {
      var parsed := ParseGpuSample(line);
      if parsed.Err? {
        failing, reading := true, false;
        return;
      }
      if latestAt.Some? && now - latestAt.value > FRESH_SECONDS {
        failing, reading := true, false;
        return;
      }
      var previous := pending;
      pending := Some(if previous.Some? then MergePending(previous.value, parsed.value) else parsed.value);
      latestAt := Some(now);
    }

    method StopReader()
      modifies this
      ensures State() == Stopped(old(State()))
    {
      if failing {
        error := true;
      }
      if !closing {
        error := true;
      }
      failing, reading := false, false;
    }

    method Poll(now: real, deadline: real, alive: bool) returns (r: Polled)
      modifies this
      ensures (State(), r) == PolledAt(old(State()), now, deadline, alive)
    {
      if error || !alive {
        return Failed;
      }
      if latestAt.Some? {
        var age := now - latestAt.value;
        if !(0.0 <= age <= FRESH_SECONDS) {
          error := true;
          return Failed;
        }
      }
      if pending.Some? {
        r := Taken(pending.value);
        pending := None;
        return;
      }
      if now >= deadline {
        error := true;
        return Failed;
      }
      return Retry;
    }
  }

  // ------------------------------------------------------------- interleavings

  /** What either thread, or the owner, does next. */
  datatype Event =
    | FrameRead(line: Line, now: real)
    | ReaderStops
    | PollOnce(now: real, deadline: real, alive: bool)
    | CloseBegins

  /** The stream with its history: the frames accepted, in blocks already taken and
      still waiting; the samples taken; whether a poll has failed. */
  datatype Run = Run(stream: Stream, blocks: seq<seq<ResourceSample>>, waiting: seq<ResourceSample>, taken: seq<ResourceSample>, failed: bool)

  const START := Run(Stream(None, None, false, false, true, false), [], [], [], false)

  function Step(r: Run, e: Event): Run {
    match e
    case FrameRead(line, now) =>
      if !r.stream.reading then r
      else
        var s := Accepted(r.stream, line, now);
        r.(stream := s, waiting := if s.reading then r.waiting + [ParseGpuSample(line).value] else r.waiting)
    case ReaderStops => r.(stream := Stopped(r.stream))
    case CloseBegins => r.(stream := r.stream.(closing := true))
    case PollOnce(now, deadline, alive) =>
      var (s, p) := PolledAt(r.stream, now, deadline, alive);
      match p
      case Taken(sample) => r.(stream := s, blocks := r.blocks + [r.waiting], waiting := [], taken := r.taken + [sample])
      case Failed => r.(stream := s, failed := true)
      case Retry => r.(stream := s)
  }

  function Runs(events: seq<Event>): Run {
    if events == [] then START else Step(Runs(events[..|events| - 1]), events[|events| - 1])
  }

  function Concat(blocks: seq<seq<ResourceSample>>): seq<ResourceSample> {
    if blocks == [] then [] else Concat(blocks[..|blocks| - 1]) + blocks[|blocks| - 1]
  }

  /** The frames the reader accepted during a run, in order. */
  function AcceptedFrames(events: seq<Event>): seq<ResourceSample> {
    if events == [] then []
    else
      var before, e := events[..|events| - 1], events[|events| - 1];
      AcceptedFrames(before) + Added(Runs(before), e)
  }

  /** Samples taken are the peaks of consecutive blocks; what waits is pending. */
  ghost predicate Faithful(r: Run) {
    && |r.taken| == |r.blocks|
    && (forall i | 0 <= i < |r.blocks| :: r.blocks[i] != [] && r.taken[i] == Peak(r.blocks[i]) && forall f | f in r.blocks[i] :: IsFrame(f))
    && (forall f | f in r.waiting :: IsFrame(f))
    && (if r.waiting == [] then r.stream.pending == None else r.stream.pending == Some(Peak(r.waiting)))
  }

  /** What a step adds to the accepted frames. */
  function Added(r: Run, e: Event): seq<ResourceSample> {
    if e.FrameRead? && r.stream.reading && ParseGpuSample(e.line).Ok? && !Gap(r.stream, e.now)
    then [ParseGpuSample(e.line).value] else []
  }

  lemma PeakAppend(frames: seq<ResourceSample>, f: ResourceSample)
    ensures Peak(frames + [f]) == if frames == [] then f else MergePending(Peak(frames), f)
  {
    assert (frames + [f])[..|frames|] == frames;
  }

  lemma FrameFaithful(r: Run, line: Line, now: real)
    requires Faithful(r) && (r.stream.failing ==> !r.stream.reading)
    ensures Faithful(Step(r, FrameRead(line, now)))
    ensures Step(r, FrameRead(line, now)).waiting == r.waiting + Added(r, FrameRead(line, now))
  {
    var s := Accepted(r.stream, line, now);
    if Added(r, FrameRead(line, now)) != [] {
      AddedFaithful(r, ParseGpuSample(line).value, s);
    } else if r.stream.reading {
      assert Step(r, FrameRead(line, now)) == r.(stream := s) && s.pending == r.stream.pending;
    }
  }

  /** One more frame waits, merged into the pending sample. */
  lemma AddedFaithful(r: Run, f: ResourceSample, s: Stream)
    requires Faithful(r) && IsFrame(f)
    requires s.pending == Some(if r.stream.pending.Some? then MergePending(r.stream.pending.value, f) else f)
    ensures Faithful(r.(stream := s, waiting := r.waiting + [f]))
  {
    PeakAppend(r.waiting, f);
  }

  lemma ConcatMore(blocks: seq<seq<ResourceSample>>, block: seq<ResourceSample>)
    ensures Concat(blocks + [block]) == Concat(blocks) + block
  {
    assert (blocks + [block])[..|blocks|] == blocks;
  }

  lemma TakenFaithful(r: Run, sample: ResourceSample, s: Stream)
    requires Faithful(r) && r.stream.pending == Some(sample) && s.pending == None
    ensures Faithful(r.(stream := s, blocks := r.blocks + [r.waiting], waiting := [], taken := r.taken + [sample]))
  {
  }

  lemma PollFaithful(r: Run, now: real, deadline: real, alive: bool)
    requires Faithful(r)
    ensures var q := Step(r, PollOnce(now, deadline, alive));
            Faithful(q) && Concat(q.blocks) + q.waiting == Concat(r.blocks) + r.waiting
  {
    var (s, p) := PolledAt(r.stream, now, deadline, alive);
    if p.Taken? {
      TakenFaithful(r, p.sample, s);
      ConcatMore(r.blocks, r.waiting);
    } else {
      assert Step(r, PollOnce(now, deadline, alive)).blocks == r.blocks;
    }
  }

  lemma OtherFaithful(r: Run, e: Event)
    requires Faithful(r) && (e.ReaderStops? || e.CloseBegins?)
    ensures Faithful(Step(r, e)) && Step(r, e).blocks == r.blocks && Step(r, e).waiting == r.waiting
  {
    assert Step(r, e) == r.(stream := Step(r, e).stream) && Step(r, e).stream.pending == r.stream.pending;
  }

  lemma FailingStops(r: Run, e: Event)
    requires r.stream.failing ==> !r.stream.reading
    ensures Step(r, e).stream.failing ==> !Step(r, e).stream.reading
  {
  }

  lemma StepFaithful(r: Run, e: Event)
    requires Faithful(r) && (r.stream.failing ==> !r.stream.reading)
    ensures Faithful(Step(r, e))
    ensures Concat(Step(r, e).blocks) + Step(r, e).waiting == Concat(r.blocks) + r.waiting + Added(r, e)
  {
    if e.FrameRead? {
      FrameFaithful(r, e.line, e.now);
      assert Step(r, e).blocks == r.blocks;
      assert Concat(r.blocks) + (r.waiting + Added(r, e)) == Concat(r.blocks) + r.waiting + Added(r, e);
    } else if e.PollOnce? {
      PollFaithful(r, e.now, e.deadline, e.alive);
      assert Added(r, e) == [];
    } else {
      OtherFaithful(r, e);
      assert Added(r, e) == [];
    }
  }

  /** In every interleaving of the reader and the guard, the samples taken are the
      pointwise GPU maxima of consecutive disjoint blocks, and these blocks followed
      by what still waits are all accepted frames in order: no frame is lost. */
  lemma {:induction false} NoFrameLost(events: seq<Event>)
    ensures Faithful(Runs(events)) && (Runs(events).stream.failing ==> !Runs(events).stream.reading)
    ensures Concat(Runs(events).blocks) + Runs(events).waiting == AcceptedFrames(events)
  {
    if events != [] {
      NoFrameLost(events[..|events| - 1]);
      StepFaithful(Runs(events[..|events| - 1]), events[|events| - 1]);
      FailingStops(Runs(events[..|events| - 1]), events[|events| - 1]);
    }
  }

  lemma RunsOn(before: seq<Event>, later: seq<Event>)
    requires later != []
    ensures Runs(before + later) == Step(Runs(before + later[..|later| - 1]), later[|later| - 1])
  {
    assert (before + later)[..|before + later| - 1] == before + later[..|later| - 1];
  }

  lemma ErrorStep(r: Run, e: Event)
    requires r.stream.error
    ensures Step(r, e).stream.error && Step(r, e).taken == r.taken
    ensures e.PollOnce? || r.failed ==> Step(r, e).failed
  {
  }

  /** Once an error is set every later poll fails and takes nothing. */
  lemma {:induction false} ErrorIsFinal(before: seq<Event>, later: seq<Event>)
    requires Runs(before).stream.error
    ensures Runs(before + later).stream.error && Runs(before + later).taken == Runs(before).taken
    ensures (exists i | 0 <= i < |later| :: later[i].PollOnce?) ==> Runs(before + later).failed
    ensures Runs(before).failed ==> Runs(before + later).failed
  {
    if later == [] { assert before + later == before; }
    else {
      var init, last := later[..|later| - 1], later[|later| - 1];
      ErrorIsFinal(before, init);
      RunsOn(before, later);
      ErrorStep(Runs(before + init), last);
      if i :| 0 <= i < |later| && later[i].PollOnce? && i < |init| { assert init[i] == later[i]; }
    }
  }

  /** A line the reader may not accept: no good one, or more than half a second after the last. */
  ghost predicate RejectedLine(s: Stream, line: Line, now: real) {
    !GoodLine(line) || (s.latestAt.Some? && now - s.latestAt.value > 0.5)
  }

  /** A line that is not rejected joins the accepted frames, and stays. */
  lemma AcceptedLine(before: seq<Event>, line: Line, now: real, middle: seq<Event>)
    requires Runs(before).stream.reading && !RejectedLine(Runs(before).stream, line, now)
    ensures ParseGpuSample(line).Ok? && ParseGpuSample(line).value in AcceptedFrames(before + [FrameRead(line, now)] + middle)
  {
    SampleReadsLine(line);
    OneMore(before, FrameRead(line, now));
    FramesGrow(before + [FrameRead(line, now)], middle);
    var f := ParseGpuSample(line).value;
    assert AcceptedFrames(before + [FrameRead(line, now)]) == AcceptedFrames(before) + [f];
    assert (AcceptedFrames(before) + [f])[|AcceptedFrames(before)|] == f;
  }

  lemma {:induction false} FramesGrow(before: seq<Event>, later: seq<Event>)
    ensures AcceptedFrames(before) <= AcceptedFrames(before + later)
  {
    if later == [] { assert before + later == before; }
    else {
      var init := later[..|later| - 1];
      FramesGrow(before, init);
      assert (before + later)[..|before + later| - 1] == before + init;
    }
  }

  // ---------------------------------------------------------------- freshness

  /** When the accepted frames were read. */
  function AcceptTimes(events: seq<Event>): seq<real> {
    if events == [] then []
    else
      var before, e := events[..|events| - 1], events[|events| - 1];
      AcceptTimes(before) + if Added(Runs(before), e) != [] && e.FrameRead? then [e.now] else []
  }

  ghost predicate Timely(times: seq<real>, latest: Option<real>) {
    && (latest == if times == [] then None else Some(times[|times| - 1]))
    && forall i | 0 < i < |times| :: times[i] - times[i - 1] <= 0.5
  }

  /** Consecutive frames are read at most half a second apart. */
  lemma {:induction false} FramesAreTimely(events: seq<Event>)
    ensures Timely(AcceptTimes(events), Runs(events).stream.latestAt) && |AcceptTimes(events)| == |AcceptedFrames(events)|
  {
    if events != [] {
      var before, e := events[..|events| - 1], events[|events| - 1];
      FramesAreTimely(before);
      TimelyStep(Runs(before), AcceptTimes(before), e);
    }
  }

  /** The time of an accepted frame is remembered, and nothing else is. */
  lemma TimeKept(r: Run, e: Event)
    ensures Added(r, e) == [] ==> Step(r, e).stream.latestAt == r.stream.latestAt
    ensures Added(r, e) != [] ==> e.FrameRead? && Step(r, e).stream.latestAt == Some(e.now) && !Gap(r.stream, e.now)
  {
  }

  lemma TimelyStep(r: Run, times: seq<real>, e: Event)
    requires Timely(times, r.stream.latestAt)
    ensures Timely(times + if Added(r, e) != [] && e.FrameRead? then [e.now] else [], Step(r, e).stream.latestAt)
  {
    TimeKept(r, e);
    if Added(r, e) == [] { assert times + [] == times; }
  }

  /** A poll takes what waits just when the stream is sound: no error, a live sensor, the
      newest frame no more than half a second old.  With nothing waiting it goes on until the
      deadline; any other poll fails, and for good unless only the sensor has died. */
  lemma PollDecides(s: Stream, now: real, deadline: real, alive: bool)
    ensures var (t, p) := PolledAt(s, now, deadline, alive);
      var sound := !s.error && alive && (s.latestAt.Some? ==> 0.0 <= now - s.latestAt.value <= 0.5);
      && (p.Taken? <==> sound && s.pending.Some?)
      && (p.Taken? ==> s.pending == Some(p.sample) && t == s.(pending := None))
      && (p.Retry? <==> sound && s.pending.None? && now < deadline)
      && (p.Retry? ==> t == s)
      && (p.Failed? ==> t == s.(error := s.error || alive))
  {
  }

  /** The end of the reader leaves an error unless it was asked to close and had not failed. */
  lemma ReaderEnds(s: Stream)
    ensures Stopped(s).error <==> !(s.closing && !s.failing && !s.error)
    ensures !Stopped(s).reading && Stopped(s).pending == s.pending && Stopped(s).latestAt == s.latestAt
  {
  }

  /** A sample is only taken when the newest frame is no more than half a second old. */
  lemma TakenIsFresh(events: seq<Event>, now: real, deadline: real, alive: bool)
    requires PolledAt(Runs(events).stream, now, deadline, alive).1.Taken?
    ensures var times := AcceptTimes(events); times != [] && 0.0 <= now - times[|times| - 1] <= 0.5
  {
    FramesAreTimely(events);
    PendingTimed(events);
    FreshPoll(Runs(events).stream, AcceptTimes(events), now, deadline, alive);
  }

  lemma FreshPoll(s: Stream, times: seq<real>, now: real, deadline: real, alive: bool)
    requires Timely(times, s.latestAt) && (s.pending.Some? ==> times != []) && PolledAt(s, now, deadline, alive).1.Taken?
    ensures times != [] && 0.0 <= now - times[|times| - 1] <= 0.5
  {
    PollDecides(s, now, deadline, alive);
  }

  lemma PendingTimed(events: seq<Event>)
    ensures Runs(events).stream.pending.Some? ==> AcceptTimes(events) != []
  {
    FramesAreTimely(events);
    NoFrameLost(events);
    PendingWaits(Runs(events));
  }

  lemma PendingWaits(r: Run)
    requires Faithful(r)
    ensures r.stream.pending.Some? ==> r.waiting != []
  {
  }

  /** The reader has ended, and its error is recorded or on its way. */
  predicate Doomed(r: Run) { !r.stream.reading && (r.stream.failing || r.stream.error) }

  lemma DoomedStep(r: Run, e: Event)
    requires Doomed(r)
    ensures Doomed(Step(r, e)) && Added(r, e) == []
  {
  }

  lemma OneMore(events: seq<Event>, e: Event)
    ensures Runs(events + [e]) == Step(Runs(events), e) && AcceptedFrames(events + [e]) == AcceptedFrames(events) + Added(Runs(events), e)
  {
    assert (events + [e])[..|events|] == events;
  }

  lemma DoomedOnce(events: seq<Event>, e: Event)
    requires Doomed(Runs(events))
    ensures Doomed(Runs(events + [e])) && AcceptedFrames(events + [e]) == AcceptedFrames(events)
  {
    OneMore(events, e);
    DoomedStep(Runs(events), e);
    assert AcceptedFrames(events) + [] == AcceptedFrames(events);
  }

  lemma {:induction false} StaysDoomed(events: seq<Event>, later: seq<Event>)
    requires Doomed(Runs(events))
    ensures Doomed(Runs(events + later)) && AcceptedFrames(events + later) == AcceptedFrames(events)
    decreases |later|
  {
    if later == [] {
      assert events + later == events;
    } else {
      var next := events + [later[0]];
      assert events + later == next + later[1..];
      DoomedOnce(events, later[0]);
      StaysDoomed(next, later[1..]);
    }
  }

  /** After a rejected line the reader accepts nothing more. */
  lemma RejectedLineDooms(before: seq<Event>, line: Line, now: real, later: seq<Event>)
    requires Runs(before).stream.reading && RejectedLine(Runs(before).stream, line, now)
    ensures var events := before + [FrameRead(line, now)] + later; Doomed(Runs(events)) && AcceptedFrames(events) == AcceptedFrames(before)
  {
    SampleReadsLine(line);
    OneMore(before, FrameRead(line, now));
    StaysDoomed(before + [FrameRead(line, now)], later);
  }

  /** A malformed line or a stream gap: whatever happens until the reader has recorded
      its error, from then on every poll fails and takes nothing. */
  lemma RejectedLineFails(before: seq<Event>, line: Line, now: real, middle: seq<Event>, later: seq<Event>)
    requires Runs(before).stream.reading && RejectedLine(Runs(before).stream, line, now)
    requires exists i | 0 <= i < |later| :: later[i].PollOnce?
    ensures var recorded := before + [FrameRead(line, now)] + middle + [ReaderStops];
      && Runs(recorded).stream.error && Runs(recorded + later).failed
      && Runs(recorded + later).taken == Runs(recorded).taken
      && AcceptedFrames(recorded) == AcceptedFrames(before)
  {
    var doomed := before + [FrameRead(line, now)] + middle;
    var recorded := doomed + [ReaderStops];
    RejectedLineDooms(before, line, now, middle);
    OneMore(doomed, ReaderStops);
    ErrorIsFinal(recorded, later);
  }

  lemma GrowStep(r: Run, e: Event)
    ensures r.taken <= Step(r, e).taken && r.blocks <= Step(r, e).blocks && (r.failed ==> Step(r, e).failed)
  {
  }

  /** What has been taken, and a failure, stay. */
  lemma {:induction false} RunGrows(before: seq<Event>, later: seq<Event>)
    ensures Runs(before).taken <= Runs(before + later).taken && Runs(before).blocks <= Runs(before + later).blocks
    ensures Runs(before).failed ==> Runs(before + later).failed
  {
    if later == [] { assert before + later == before; }
    else {
      var init := later[..|later| - 1];
      RunGrows(before, init);
      RunsOn(before, later);
      GrowStep(Runs(before + init), later[|later| - 1]);
    }
  }

  /** Whether a poll ends the call: it takes a sample or fails. */
  predicate Completes(r: Run, e: Event) {
    e.PollOnce? && !PolledAt(r.stream, e.now, e.deadline, e.alive).1.Retry?
  }

  lemma {:induction false} InSomeBlock(blocks: seq<seq<ResourceSample>>, f: ResourceSample) returns (i: nat)
    requires f in Concat(blocks)
    ensures i < |blocks| && f in blocks[i]
  {
    var init := blocks[..|blocks| - 1];
    if f in blocks[|blocks| - 1] { i := |blocks| - 1; }
    else { i := InSomeBlock(init, f); assert blocks[i] == init[i]; }
  }

  /** A frame accepted before a poll that completes: the poll fails, or the frame is in a
      block whose peak has been taken. */
  lemma AcceptedIsTaken(before: seq<Event>, poll: Event, later: seq<Event>, f: ResourceSample) returns (i: nat)
    requires f in AcceptedFrames(before) && Completes(Runs(before), poll)
    ensures var run := Runs(before + [poll] + later);
      run.failed || (i < |run.taken| == |run.blocks| && f in run.blocks[i])
  {
    var polled := before + [poll];
    CompletedTakes(before, poll, f);
    NoFrameLost(polled + later);
    RunGrows(polled, later);
    i := 0;
    if !Runs(polled).failed { i := InSomeBlock(Runs(polled).blocks, f); }
  }

  /** A completed poll that does not fail leaves nothing waiting. */
  lemma CompletedTakes(before: seq<Event>, poll: Event, f: ResourceSample)
    requires f in AcceptedFrames(before) && Completes(Runs(before), poll)
    ensures var run := Runs(before + [poll]); run.failed || f in Concat(run.blocks)
  {
    OneMore(before, poll);
    NoFrameLost(before);
    NoFrameLost(before + [poll]);
    assert AcceptedFrames(before) + [] == AcceptedFrames(before);
    assert Runs(before + [poll]).failed || Runs(before + [poll]).waiting == [];
  }
}
