/** The Windows host monitor: a requester with fresh nonces and a reader of replies. */
module WindowsMonitor {
  import opened Prelude

  const RESPONSE_TIMEOUT_SECONDS := 1.0

  /** One JSON line: not of the protocol, the ready frame, or a sample. */
  datatype Frame = Foreign | Ready | Sample(requestId: nat, ram: real, swap: real, timestamp: real)

  /** Where the one requester is inside `sample`; `sample_lock` admits no second. */
  datatype Caller = Idle | AtAlive(id: nat, sent: real) | AtResult(id: nat, sent: real) | AtTimeout(id: nat, sent: real) {
    predicate Asking() { !Idle? }
  }

  /** The shared fields; `failing` is a reader exception on its way to `error`. */
  datatype Channel = Channel(
    pending: Option<(nat, real)>, completedId: Option<nat>, latest: Option<(real, real, real)>,
    error: bool, ready: bool, failing: bool, reading: bool, caller: Caller)

  predicate Rejected(c: Channel, f: Frame, now: real) {
    match f
    case Foreign => true
    case Ready => c.ready
    case Sample(id, ram, swap, timestamp) =>
      || ram < 0.0 || swap < 0.0 || timestamp <= 0.0
      || c.pending.None? || c.pending.value.0 != id
      || !(0.0 <= now - c.pending.value.1 <= RESPONSE_TIMEOUT_SECONDS)
  }

  /** `_accept`; `now` is read before the lock is taken. */
  function Accepted(c: Channel, f: Frame, now: real): Channel {
    if Rejected(c, f, now) then c.(failing := true, reading := false)
    else
      match f
      case Foreign => c
      case Ready => c.(ready := true)
      case Sample(id, ram, swap, _) => c.(latest := Some((ram, swap, now)), completedId := Some(id), pending := None)
  }

  /** The reader's handler and its `finally`: whatever ended it, an error is left. */
  function Stopped(c: Channel): Channel { c.(reading := false, failing := false, error := true) }

  datatype Reply = Nothing | Failed | Delivered(ram: real, swap: real)

  /** The start of `sample`: alive, ready, then the request is announced and written. */
  function Began(c: Channel, id: nat, sent: real, alive: bool, written: bool): (Channel, Reply) {
    if c.error || !alive || !c.ready then (c, Failed)
    else if !written then (c.(pending := Some((id, sent)), completedId := None, error := true), Failed)
    else (c.(pending := Some((id, sent)), completedId := None, caller := AtAlive(id, sent)), Nothing)
  }

  /** `_alive` in the polling loop. */
  function LookedAlive(c: Channel, alive: bool): (Channel, Reply) {
    if !c.caller.AtAlive? then (c, Nothing)
    else if c.error || !alive then (c.(caller := Idle), Failed)
    else (c.(caller := AtResult(c.caller.id, c.caller.sent)), Nothing)
  }

  /** The look at the result under the lock. */
  function LookedResult(c: Channel, now: real): (Channel, Reply) {
    if !c.caller.AtResult? then (c, Nothing)
    else if c.completedId == Some(c.caller.id) && c.latest.Some? then
      if now - c.caller.sent > RESPONSE_TIMEOUT_SECONDS then (c.(error := true, caller := Idle), Failed)
      else (c.(caller := Idle), Delivered(c.latest.value.0, c.latest.value.1))
    else (c.(caller := AtTimeout(c.caller.id, c.caller.sent)), Nothing)
  }

  /** The timeout check before the loop sleeps. */
  function LookedTimeout(c: Channel, now: real): (Channel, Reply) {
    if !c.caller.AtTimeout? then (c, Nothing)
    else if now - c.caller.sent >= RESPONSE_TIMEOUT_SECONDS then (c.(error := true, caller := Idle), Failed)
    else (c.(caller := AtAlive(c.caller.id, c.caller.sent)), Nothing)
  }

  /** The object both threads share. */
  class WindowsHostMonitor {
    var pending: Option<(nat, real)>
    var completedId: Option<nat>
    var latest: Option<(real, real, real)>
    var error: bool
    var ready: bool
    var failing: bool
    var reading: bool
    var caller: Caller

    function State(): Channel
      reads this
    {
      Channel(pending, completedId, latest, error, ready, failing, reading, caller)
    }

    constructor ()
      ensures State() == Channel(None, None, None, false, false, false, true, Idle)
    {
      pending, completedId, latest := None, None, None;
      error, ready, failing, reading, caller := false, false, false, true, Idle;
    }

    method Accept(f: Frame, now: real)
      modifies this
      ensures State() == Accepted(old(State()), f, now)
    {
      match f
      case Foreign =>
        failing, reading := true, false;
      case Ready =>
        if ready {
          failing, reading := true, false;
          return;
        }
        ready := true;
      case Sample(id, ram, swap, timestamp) =>
        if ram < 0.0 || swap < 0.0 || timestamp < 0.0 || timestamp == 0.0 {
          failing, reading := true, false;
          return;
        }
        if pending.None? || id != pending.value.0 {
          failing, reading := true, false;
          return;
        }
        var elapsed := now - pending.value.1;
        if !(0.0 <= elapsed <= RESPONSE_TIMEOUT_SECONDS) {
          failing, reading := true, false;
          return;
        }
        latest := Some((ram, swap, now));
        completedId := Some(id);
        pending := None;
    }

    method StopReader()
      modifies this
      ensures State() == Stopped(old(State()))
    {
      error := true;
      failing, reading := false, false;
    }

    method BeginSample(id: nat, sent: real, alive: bool, written: bool) returns (r: Reply)
      requires caller.Idle?
      modifies this
      ensures (State(), r) == Began(old(State()), id, sent, alive, written)
    {
      if error || !alive || !ready {
        return Failed;
      }
      pending := Some((id, sent));
      completedId := None;
      if !written {
        error := true;
        return Failed;
      }
      caller := AtAlive(id, sent);
      return Nothing;
    }

    method LookAlive(alive: bool) returns (r: Reply)
      requires caller.AtAlive?
      modifies this
      ensures (State(), r) == LookedAlive(old(State()), alive)
    {
      if error || !alive {
        caller := Idle;
        return Failed;
      }
      caller := AtResult(caller.id, caller.sent);
      return Nothing;
    }

    method LookResult(now: real) returns (r: Reply)
      requires caller.AtResult?
      modifies this
      ensures (State(), r) == LookedResult(old(State()), now)
    {
      if completedId == Some(caller.id) && latest.Some? {
        if now - caller.sent > RESPONSE_TIMEOUT_SECONDS {
          error, caller := true, Idle;
          return Failed;
        }
        caller := Idle;
        return Delivered(latest.value.0, latest.value.1);
      }
      caller := AtTimeout(caller.id, caller.sent);
      return Nothing;
    }

    method LookTimeout(now: real) returns (r: Reply)
      requires caller.AtTimeout?
      modifies this
      ensures (State(), r) == LookedTimeout(old(State()), now)
    {
      if now - caller.sent >= RESPONSE_TIMEOUT_SECONDS {
        error, caller := true, Idle;
        return Failed;
      }
      caller := AtAlive(caller.id, caller.sent);
      return Nothing;
    }
  }

  // -------------------------------------------------------------- interleavings

  datatype Event =
    | FrameRead(frame: Frame, now: real)
    | ReaderStops
    | Begin(id: nat, sent: real, alive: bool, written: bool)
    | CheckAlive(alive: bool)
    | CheckResult(now: real)
    | CheckTimeout(now: real)

  /** A frame the reader took, with the send time of the request it answers. */
  datatype Taken = Taken(id: nat, sent: real, received: real, ram: real, swap: real)

  /** A value returned by a call of `sample`. */
  datatype Delivery = Delivery(id: nat, sent: real, at: real, ram: real, swap: real)

  datatype Run = Run(channel: Channel, used: set<nat>, taken: seq<Taken>, deliveries: seq<Delivery>, failures: nat)

  const START := Run(Channel(None, None, None, false, false, false, true, Idle), {}, [], [], 0)

  function TakenBy(c: Channel, f: Frame, now: real): seq<Taken> {
    if f.Sample? && c.pending.Some? && !Rejected(c, f, now) then [Taken(f.requestId, c.pending.value.1, now, f.ram, f.swap)] else []
  }

  /** The reply of a step of the call with nonce `id` sent at `sent`. */
  function Replied(r: Run, c: Channel, reply: Reply, id: nat, sent: real, at: real): Run {
    match reply
    case Nothing => r.(channel := c)
    case Failed => r.(channel := c, failures := r.failures + 1)
    case Delivered(ram, swap) => r.(channel := c, deliveries := r.deliveries + [Delivery(id, sent, at, ram, swap)])
  }

  /** One step of either thread.  A nonce is never drawn twice, and `sample_lock`
      lets no call begin inside another. */
  function Step(r: Run, e: Event): Run {
    var c := r.channel;
    match e
    case FrameRead(f, now) =>
      if !c.reading then r else r.(channel := Accepted(c, f, now), taken := r.taken + TakenBy(c, f, now))
    case ReaderStops => r.(channel := Stopped(c))
    case Begin(id, sent, alive, written) =>
      if c.caller.Asking() || id in r.used then r
      else
        var (d, reply) := Began(c, id, sent, alive, written);
        Replied(r.(used := r.used + {id}), d, reply, id, sent, sent)
    case CheckAlive(alive) => var (d, reply) := LookedAlive(c, alive); Replied(r, d, reply, 0, 0.0, 0.0)
    case CheckResult(now) =>
      if !c.caller.AtResult? then r
      else var (d, reply) := LookedResult(c, now); Replied(r, d, reply, c.caller.id, c.caller.sent, now)
    case CheckTimeout(now) => var (d, reply) := LookedTimeout(c, now); Replied(r, d, reply, 0, 0.0, 0.0)
  }

  function Runs(events: seq<Event>): Run {
    if events == [] then START else Step(Runs(events[..|events| - 1]), events[|events| - 1])
  }

  predicate Answers(t: Taken, id: nat, sent: real) {
    t.id == id && t.sent == sent && 0.0 <= t.received - sent <= 1.0
  }

  /** A delivered value comes from a frame that answered this very call in time,
      and was itself delivered in time. */
  ghost predicate Genuine(d: Delivery, taken: seq<Taken>) {
    && d.at - d.sent <= 1.0
    && exists i | 0 <= i < |taken| :: Answers(taken[i], d.id, d.sent) && taken[i].ram == d.ram && taken[i].swap == d.swap
  }

  ghost predicate NoncesOnce(r: Run) {
    && (forall i | 0 <= i < |r.taken| :: r.taken[i].id in r.used)
    && (forall i, j | 0 <= i < j < |r.taken| :: r.taken[i].id != r.taken[j].id)
    && (r.channel.pending.Some? ==>
          (&& r.channel.pending.value.0 in r.used
           && forall i | 0 <= i < |r.taken| :: r.taken[i].id != r.channel.pending.value.0))
  }

  ghost predicate CallConsistent(r: Run) {
    var c := r.channel;
    c.caller.Asking() ==>
      (&& c.caller.id in r.used
       && (c.pending.Some? ==> c.pending.value == (c.caller.id, c.caller.sent))
       && (c.pending.None? ==> c.completedId == Some(c.caller.id) && c.latest.Some?)
       && (c.completedId == Some(c.caller.id) && c.latest.Some? ==>
             (r.taken != [] && var t := r.taken[|r.taken| - 1];
              Answers(t, c.caller.id, c.caller.sent) && c.latest.value == (t.ram, t.swap, t.received))))
  }

  ghost predicate Valid(r: Run) {
    NoncesOnce(r) && CallConsistent(r) && forall i | 0 <= i < |r.deliveries| :: Genuine(r.deliveries[i], r.taken)
  }

  lemma GenuineStays(d: Delivery, taken: seq<Taken>, more: seq<Taken>)
    requires Genuine(d, taken)
    ensures Genuine(d, taken + more)
  {
    var i :| 0 <= i < |taken| && Answers(taken[i], d.id, d.sent) && taken[i].ram == d.ram && taken[i].swap == d.swap;
    assert (taken + more)[i] == taken[i];
  }

  lemma FrameValid(r: Run, f: Frame, now: real)
    requires Valid(r)
    ensures Valid(Step(r, FrameRead(f, now)))
  {
    var s := Step(r, FrameRead(f, now));
    if r.channel.reading {
      var more := TakenBy(r.channel, f, now);
      forall i | 0 <= i < |s.deliveries| ensures Genuine(s.deliveries[i], s.taken) { GenuineStays(r.deliveries[i], r.taken, more); }
    }
  }

  lemma ResultValid(r: Run, now: real)
    requires Valid(r)
    ensures Valid(Step(r, CheckResult(now)))
  {
    var s := Step(r, CheckResult(now));
    if s.deliveries != r.deliveries {
      var d := s.deliveries[|r.deliveries|];
      var i := |r.taken| - 1;
      assert Answers(r.taken[i], d.id, d.sent) && r.taken[i].ram == d.ram && r.taken[i].swap == d.swap;
    }
  }

  lemma StepValid(r: Run, e: Event)
    requires Valid(r)
    ensures Valid(Step(r, e))
  {
    match e
    case FrameRead(f, now) => FrameValid(r, f, now);
    case CheckResult(now) => ResultValid(r, now);
    case _ =>
  }

  /** In every interleaving, with late, duplicate, foreign or malformed frames:
      every value `sample` returns came from a frame that carried the call's own
      nonce and was received within one second of sending, and was delivered within
      one second; and no nonce is accepted twice. */
  lemma {:induction false} OnlyOwnReplies(events: seq<Event>)
    ensures Valid(Runs(events))
  {
    if events != [] {
      OnlyOwnReplies(events[..|events| - 1]);
      StepValid(Runs(events[..|events| - 1]), events[|events| - 1]);
    }
  }

  /** A frame is taken if and only if it is a sample of no negative memory, with a clock
      reading, that carries the pending nonce within a second of its request; any other
      frame but the first ready frame makes the reader fail. */
  lemma TakenExactly(r: Run, f: Frame, now: real)
    requires r.channel.reading
    ensures var s, p := Step(r, FrameRead(f, now)), r.channel.pending;
      var answer := f.Sample? && f.ram >= 0.0 && f.swap >= 0.0 && f.timestamp > 0.0
                    && p.Some? && f.requestId == p.value.0 && p.value.1 <= now <= p.value.1 + 1.0;
      && s.taken == r.taken + (if answer then [Taken(f.requestId, p.value.1, now, f.ram, f.swap)] else [])
      && (s.channel.reading <==> answer || (f.Ready? && !r.channel.ready))
      && (!s.channel.reading ==> s.channel == r.channel.(reading := false, failing := true))
      && s.deliveries == r.deliveries && s.failures == r.failures
  {
  }

  /** The look at the result delivers, within a second of sending, the frame taken for this
      very call, whatever came before or since; later than that the call fails for good, and
      without such a frame it goes on. */
  lemma AnswerDelivered(events: seq<Event>, now: real)
    requires Runs(events).channel.caller.AtResult?
    ensures var r, s := Runs(events), Step(Runs(events), CheckResult(now));
      var c := r.channel.caller;
      && (forall t | t in r.taken && t.id == c.id ::
            if now - c.sent <= 1.0 then
              s.deliveries == r.deliveries + [Delivery(c.id, c.sent, now, t.ram, t.swap)] && s.failures == r.failures && s.channel.caller.Idle?
            else s.deliveries == r.deliveries && s.failures == r.failures + 1 && s.channel.error && s.channel.caller.Idle?)
      && ((forall t | t in r.taken :: t.id != c.id) ==>
            s == r.(channel := r.channel.(caller := AtTimeout(c.id, c.sent))))
  {
    OnlyOwnReplies(events);
    var r := Runs(events);
    var c := r.channel;
    if c.pending.None? {
      var last := r.taken[|r.taken| - 1];
      assert last in r.taken && last.id == c.caller.id;
      forall t | t in r.taken && t.id == c.caller.id ensures t == last {
        var i :| 0 <= i < |r.taken| && r.taken[i] == t;
      }
    } else {
      forall t | t in r.taken ensures t.id != c.caller.id { }
    }
  }

  /** A call begins exactly on a ready channel without an error and with a live helper that
      takes the request; it announces its nonce and forgets the last answer. */
  lemma CallBegins(r: Run, id: nat, sent: real, alive: bool, written: bool)
    requires r.channel.caller.Idle? && id !in r.used
    ensures var s := Step(r, Begin(id, sent, alive, written));
      var open := r.channel.ready && !r.channel.error && alive;
      && s.used == r.used + {id} && s.taken == r.taken && s.deliveries == r.deliveries
      && (s.channel.caller == if open && written then AtAlive(id, sent) else Idle)
      && (s.failures == r.failures + if open && written then 0 else 1)
      && (if open then s.channel.pending == Some((id, sent)) && s.channel.completedId == None && (s.channel.error <==> !written)
          else s.channel == r.channel)
  {
  }

  /** A call under way fails on an error, a dead helper, or an answer a second overdue, and
      otherwise goes round. */
  lemma CallGoesOn(r: Run, alive: bool, now: real)
    ensures r.channel.caller.AtAlive? ==>
      var s, c := Step(r, CheckAlive(alive)), r.channel.caller;
      if alive && !r.channel.error then s == r.(channel := r.channel.(caller := AtResult(c.id, c.sent)))
      else s == r.(channel := r.channel.(caller := Idle), failures := r.failures + 1)
    ensures r.channel.caller.AtTimeout? ==>
      var s, c := Step(r, CheckTimeout(now)), r.channel.caller;
      if now < c.sent + 1.0 then s == r.(channel := r.channel.(caller := AtAlive(c.id, c.sent)))
      else s == r.(channel := r.channel.(caller := Idle, error := true), failures := r.failures + 1)
  {
  }

  /** Only calls with a nonce in `begun` have delivered or are under way. */
  ghost predicate OnlyBegun(r: Run, begun: set<nat>) {
    && r.channel.error && begun <= r.used
    && (r.channel.caller.Asking() ==> r.channel.caller.id in begun)
    && (forall d | d in r.deliveries :: d.id in begun)
  }

  lemma ErrorStep(r: Run, e: Event, begun: set<nat>)
    requires OnlyBegun(r, begun)
    ensures OnlyBegun(Step(r, e), begun)
    ensures e.Begin? && !r.channel.caller.Asking() && e.id !in r.used ==> Step(r, e).failures == r.failures + 1
  {
  }

  /** Once an error is set, only calls that had already begun can still deliver. */
  lemma {:induction false} ErrorIsFinal(before: seq<Event>, later: seq<Event>)
    requires Runs(before).channel.error
    ensures OnlyBegun(Runs(before + later), Runs(before).used)
  {
    if later == [] {
      assert before + later == before;
      OnlyOwnReplies(before);
    } else {
      var init, last := later[..|later| - 1], later[|later| - 1];
      ErrorIsFinal(before, init);
      assert (before + later)[..|before + later| - 1] == before + init;
      assert Runs(before + later) == Step(Runs(before + init), last);
      ErrorStep(Runs(before + init), last, Runs(before).used);
    }
  }

  /** ... and every call that begins later fails. */
  lemma LaterCallsFail(before: seq<Event>, later: seq<Event>, id: nat, sent: real, alive: bool, written: bool)
    requires Runs(before).channel.error && !Runs(before + later).channel.caller.Asking() && id !in Runs(before + later).used
    ensures Step(Runs(before + later), Begin(id, sent, alive, written)).failures == Runs(before + later).failures + 1
  {
    ErrorIsFinal(before, later);
    ErrorStep(Runs(before + later), Begin(id, sent, alive, written), Runs(before).used);
  }

  /** A rejected frame leaves, once the reader has ended, a permanent error. */
  lemma RejectedFrameIsFinal(before: seq<Event>, f: Frame, now: real)
    requires Runs(before).channel.reading && Rejected(Runs(before).channel, f, now)
    ensures Runs(before + [FrameRead(f, now), ReaderStops]).channel.error
    ensures Runs(before + [FrameRead(f, now), ReaderStops]).taken == Runs(before).taken
  {
    var one, two := before + [FrameRead(f, now)], before + [FrameRead(f, now), ReaderStops];
    assert one[..|one| - 1] == before && two[..|two| - 1] == one;
  }
}
