/**
 One exposure of the INDI camera client (camera/indi_camera_client.cpp): the capture loop against the
 image callback and the operator's abort.

 Whatever happens is recorded in a log, by the capturing thread and by its environment. `Allowed` says
 when the capturing thread may take each of its steps. The class is proved to produce only such logs,
 whatever the other threads do between two steps; CaptureLaws.dfy says what such logs have in common.
 */
module CameraCapture {
  import opened Options

  datatype Image = Image(format: string, bytes: string)

  datatype Exposure = Exposure(complete: bool, aborted: bool, image: Image)

  const EMPTY := Exposure(false, false, Image("", ""))
  const ABORTED := Exposure(false, true, Image("", ""))

  /** The length of one wait, in seconds. */
  const WAIT := 0.2

  type Duration = d: real | d >= 0.0

  datatype Reason = ByAbort | ByTimeout

  datatype Outcome = NoCamera | Returned(exposure: Exposure) | TimedOut

  /** What other threads do: an image arrives, the operator aborts, time passes. */
  datatype Interference = Arrival(image: Image) | Abort | Delay(seconds: Duration)

  datatype Event =
    | Blob(image: Image)
    | AbortRequested
    | AbortCommanded
    | Tick(seconds: Duration)
    | Reset
    | AbortCleared
    | ExposureSent(duration: real)
    | Started(timeout: real)
    | Checked
    | WaitBegun
    | WaitFailed
    | Polled(elapsed: real)
    | GaveUp(reason: Reason)
    | AbortSent
    | Ended(outcome: Outcome)

  datatype Log = Start | Then(prior: Log, event: Event)

  /** How far a call is set up: result reset, abort flag cleared, exposure commanded, clock read. */
  datatype Stage = ResultReset | FlagCleared | Commanded | Waiting

  /**
   The progress of the capturing thread: calls begun and ended, the stage and the terms of the current
   call, its waits begun, failed and measured, whether it has found the abort flag clear in this turn
   of the loop, and how it gave up.
   */
  datatype Call = Call(
    active: bool, resets: nat, ended: nat, stage: Stage, duration: real, timeout: real, started: real,
    rounds: nat, failed: nat, polls: nat, polled: real, checked: bool, givenUp: Option<Reason>, sent: nat)

  /**
   What a log amounts to: the steady clock, the last image since the last reset, the last one that
   arrived before the call gave up, the abort flag with the waits begun while it was set, and the call.
   */
  datatype Session = Session(
    now: real, lastImage: Option<Image>, wanted: Option<Image>, pending: bool, lateWaits: nat, call: Call)

  const FRESH := Session(0.0, None, None, false, 0, Call(false, 0, 0, Waiting, 0.0, 0.0, 0.0, 0, 0, 0, 0.0, false, None, 0))

  function Advance(s: Session, e: Event): Session {
    var c := s.call;
    match e
    case Blob(i) =>
      if i.bytes == "" then s
      else s.(lastImage := Some(i), wanted := if c.givenUp.None? then Some(i) else s.wanted)
    case AbortRequested => s.(pending := true)
    case AbortCommanded => s
    case Tick(d) => s.(now := s.now + d)
    case Reset =>
      s.(lastImage := None, wanted := None,
         call := Call(true, c.resets + 1, c.ended, ResultReset, c.duration, c.timeout, c.started,
                      0, 0, 0, 0.0, false, None, 0))
    case AbortCleared => s.(pending := false, lateWaits := 0, call := c.(stage := FlagCleared))
    case ExposureSent(d) => s.(call := c.(duration := d, stage := Commanded))
    case Started(t) => s.(call := c.(timeout := t, started := s.now, stage := Waiting))
    case Checked => s.(call := c.(checked := true))
    case WaitBegun =>
      s.(call := c.(rounds := c.rounds + 1, checked := false),
         lateWaits := if s.pending then s.lateWaits + 1 else s.lateWaits)
    case WaitFailed => s.(call := c.(failed := c.failed + 1), now := s.now + WAIT)
    case Polled(d) => s.(call := c.(polls := c.polls + 1, polled := d))
    case GaveUp(r) => s.(call := c.(givenUp := Some(r)))
    case AbortSent => s.(call := c.(sent := c.sent + 1))
    case Ended(_) => s.(call := c.(active := false, ended := c.ended + 1))
  }

  function SessionOf(l: Log): Session {
    match l
    case Start => FRESH
    case Then(p, e) => Advance(SessionOf(p), e)
  }

  /** At the top of the loop: the last wait, if any, has been measured and found in time. */
  predicate AtLoopTop(c: Call) {
    && c.active && c.stage.Waiting? && c.givenUp.None? && !c.checked
    && c.rounds == c.failed == c.polls
    && (c.polls > 0 ==> c.polled < c.timeout)
  }

  /** When the capturing thread may take step `e`; the environment is free. */
  predicate Allowed(s: Session, e: Event) {
    var started := s.call.active && s.call.stage.Waiting?;
    var running := started && s.call.givenUp.None?;
    var atTop := running && s.wanted.None? && AtLoopTop(s.call);
    match e
    case Blob(_) => true
    case AbortRequested => true
    case AbortCommanded => true
    case Tick(_) => true
    case Reset => !s.call.active
    case AbortCleared => s.call.active && s.call.stage.ResultReset?
    case ExposureSent(_) => s.call.active && s.call.stage.FlagCleared?
    case Started(_) => s.call.active && s.call.stage.Commanded?
    case Checked => atTop && !s.pending
    case WaitBegun => running && s.wanted.None? && s.call.checked
    case WaitFailed => running && s.wanted.None? && s.call.rounds == s.call.failed + 1 == s.call.polls + 1
    case Polled(d) => running && s.call.rounds == s.call.failed == s.call.polls + 1 && d == s.now - s.call.started
    case GaveUp(ByAbort) => atTop && s.pending
    case GaveUp(ByTimeout) =>
      running && s.wanted.None? && s.call.rounds == s.call.polls > 0 && s.call.polled >= s.call.timeout
    case AbortSent => started && s.call.givenUp.Some? && s.call.sent == 0
    case Ended(o) =>
      && started
      && match s.call.givenUp
         case Some(ByAbort) => o == Returned(ABORTED) && s.call.sent == 1
         case Some(ByTimeout) => o == TimedOut && s.call.sent == 1
         case None => s.wanted.Some? && o == Returned(Exposure(true, false, s.wanted.value)) && s.call.sent == 0
  }

  ghost predicate Legal(l: Log) {
    l.Then? ==> Legal(l.prior) && Allowed(SessionOf(l.prior), l.event)
  }

  /** `l` continues `base`. */
  ghost predicate Continues(base: Log, l: Log) {
    l == base || (l.Then? && Continues(base, l.prior))
  }

  /** One step more. */
  lemma Grown(base: Log, l: Log, e: Event)
    requires Legal(l) && Continues(base, l) && Allowed(SessionOf(l), e)
    ensures Legal(Then(l, e)) && Continues(base, Then(l, e)) && SessionOf(Then(l, e)) == Advance(SessionOf(l), e)
  {
    hide Advance;
  }

  /**
   Between `a` and `b` only other threads moved: they cannot advance the capturing thread, take back
   an abort, or deliver an image while the mutex is held.
   */
  predicate Undisturbed(a: Session, b: Session, mutexHeld: bool) {
    && b == a.(now := b.now, lastImage := b.lastImage, wanted := b.wanted, pending := b.pending)
    && a.now <= b.now
    && (a.pending ==> b.pending)
    && (mutexHeld ==> b.lastImage == a.lastImage && b.wanted == a.wanted)
    && (a.call.givenUp.None? && a.wanted == a.lastImage ==> b.wanted == b.lastImage)
  }

  function Ceil(x: real): int {
    -(-x).Floor
  }

  /** The most wait rounds a call with this timeout can take. */
  function MaxRounds(timeout: real): int {
    var n := Ceil(timeout / WAIT);
    if n < 1 then 1 else n
  }

  class CaptureClient {
    var device: string
    var captureDone: bool
    var captureResult: Exposure
    var captureAbort: bool
    var clock: real
    ghost var log: Log

    /** The shared fields are what the log says they are. */
    ghost predicate Valid()
      reads this
    {
      var s := SessionOf(log);
      && Legal(log)
      && clock == s.now
      && captureAbort == s.pending
      && captureDone == captureResult.complete == s.lastImage.Some?
      && captureResult == (if s.lastImage.Some? then Exposure(true, false, s.lastImage.value) else EMPTY)
    }

    constructor (device: string)
      ensures Valid() && this.device == device && log == Start
    {
      this.device := device;
      captureDone, captureResult, captureAbort, clock, log := false, EMPTY, false, 0.0, Start;
    }

    /** The CCD1 branch of handlePropertyUpdate: a blob without data changes nothing. */
    method HandleBlob(image: Image)
      requires Valid()
      modifies this`captureDone, this`captureResult, this`log
      ensures Valid() && log == Then(old(log), Blob(image))
    {
      if |image.bytes| > 0 {
        captureResult := captureResult.(image := image);
        captureResult := captureResult.(complete := true);
        captureDone := true;
      }
      log := Then(log, Blob(image));
    }

    /** abortCapture: the flag, then the command to the driver. */
    method AbortCapture()
      requires Valid()
      modifies this`captureAbort, this`log
      ensures Valid() && log == Then(Then(old(log), AbortRequested), AbortCommanded)
    {
      captureAbort := true;
      log := Then(log, AbortRequested);
      log := Then(log, AbortCommanded);
    }

    /**
     A gap between two steps of the capturing thread, filled by the environment in any way. The image
     callback blocks while the capturing thread holds the mutex.
     */
    method Gap(events: seq<Interference>, mutexHeld: bool, ghost base: Log)
      requires Valid() && Continues(base, log)
      modifies this`captureDone, this`captureResult, this`captureAbort, this`clock, this`log
      ensures Valid() && Continues(base, log) && Undisturbed(old(SessionOf(log)), SessionOf(log), mutexHeld)
    {
      hide SessionOf, Legal, Continues;
      for i := 0 to |events|
        modifies this`captureDone, this`captureResult, this`captureAbort, this`clock, this`log
        invariant Valid() && Continues(base, log) && Undisturbed(old(SessionOf(log)), SessionOf(log), mutexHeld)
      {
        match events[i] {
          case Arrival(image) =>
            if !mutexHeld {
              Grown(base, log, Blob(image));
              HandleBlob(image);
            }
          case Abort =>
            Grown(base, log, AbortRequested);
            Grown(base, Then(log, AbortRequested), AbortCommanded);
            AbortCapture();
          case Delay(seconds) =>
            clock := clock + seconds;
            Grown(base, log, Tick(seconds));
            log := Then(log, Tick(seconds));
        }
      }
    }

    /** The flags of the last call are cleared: result and done flag together, the abort flag later. */
    method ResetFlags(free: nat -> seq<Interference>, ghost base: Log)
      requires Valid() && Continues(base, log) && !SessionOf(log).call.active
      modifies this`captureDone, this`captureResult, this`captureAbort, this`clock, this`log
      ensures Valid() && Continues(base, log) && Begun(SessionOf(log), old(SessionOf(log)))
    {
      hide SessionOf, Legal, Continues;
      Gap(free(0), false, base);
      captureDone := false;
      captureResult := EMPTY;
      Grown(base, log, Reset);
      log := Then(log, Reset);
      Gap(free(1), false, base);
      captureAbort := false;
      Grown(base, log, AbortCleared);
      log := Then(log, AbortCleared);
    }

    /** The exposure is commanded and the clock is read. */
    method Begin(duration: real, timeout: real, free: nat -> seq<Interference>, ghost base: Log, ghost before: Session)
      returns (start: real)
      requires Valid() && Continues(base, log) && Begun(SessionOf(log), before)
      modifies this`captureDone, this`captureResult, this`captureAbort, this`clock, this`log
      ensures Valid() && Continues(base, log) && InLoop(SessionOf(log), before, duration, timeout, start, 0, 0.0)
      ensures captureDone ==> Completes(SessionOf(log), before, duration, timeout)
    {
      hide SessionOf, Legal, Continues;
      Gap(free(2), false, base);
      Grown(base, log, ExposureSent(duration));
      log := Then(log, ExposureSent(duration));
      Gap(free(3), false, base);
      start := clock;
      Grown(base, log, Started(timeout));
      log := Then(log, Started(timeout));
      Gap(free(4), false, base);
    }

    /** The end of an aborted or timed-out call: the abort is sent outside the mutex. */
    method GiveUp(reason: Reason, before: seq<Interference>, after: seq<Interference>, ghost base: Log)
      returns (o: Outcome)
      requires Valid() && Continues(base, log) && Allowed(SessionOf(log), GaveUp(reason)) && SessionOf(log).call.sent == 0
      modifies this`captureDone, this`captureResult, this`captureAbort, this`clock, this`log
      ensures Valid() && Continues(base, log) && log.Then? && log.event == Ended(o) && !SessionOf(log).call.active
      ensures var c := old(SessionOf(log)).call;
              SessionOf(log).call == c.(active := false, ended := c.ended + 1, givenUp := Some(reason), sent := 1)
      ensures o == if reason.ByAbort? then Returned(ABORTED) else TimedOut
    {
      hide SessionOf, Legal, Continues;
      Grown(base, log, GaveUp(reason));
      log := Then(log, GaveUp(reason));
      Gap(before, false, base);
      Grown(base, log, AbortSent);
      log := Then(log, AbortSent);
      Gap(after, false, base);
      o := if reason.ByAbort? then Returned(ABORTED) else TimedOut;
      Grown(base, log, Ended(o));
      log := Then(log, Ended(o));
    }

    /** The abort flag is found clear; it may be set right after. */
    method PassFlag(early: seq<Interference>, ghost base: Log)
      requires Valid() && Continues(base, log) && Allowed(SessionOf(log), Checked)
      modifies this`captureDone, this`captureResult, this`captureAbort, this`clock, this`log
      ensures Valid() && Continues(base, log)
      ensures var s, t := old(SessionOf(log)), SessionOf(log);
              && t.call == s.call.(checked := true) && s.now <= t.now
              && t.lastImage == s.lastImage && t.wanted == s.wanted
    {
      hide SessionOf, Legal, Continues;
      Grown(base, log, Checked);
      log := Then(log, Checked);
      Gap(early, true, base);
    }

    /** The flag was found clear: one wait, and the look at the clock after it when it fails. */
    method Wait(start: real, early: seq<Interference>, gap: seq<Interference>, late: seq<Interference>, ghost base: Log)
      returns (elapsed: real)
      requires Valid() && Continues(base, log) && Allowed(SessionOf(log), Checked)
      requires SessionOf(log).call.started == start && SessionOf(log).wanted == SessionOf(log).lastImage
      modifies this`captureDone, this`captureResult, this`captureAbort, this`clock, this`log
      ensures Valid() && Continues(base, log)
      ensures Waited(old(SessionOf(log)), SessionOf(log), captureDone, elapsed)
    {
      hide SessionOf, Legal, Continues;
      PassFlag(early, base);
      Grown(base, log, WaitBegun);
      log := Then(log, WaitBegun);
      Gap(gap, false, base);
      elapsed := 0.0;
      if captureDone {
        return;
      }
      clock := clock + WAIT;
      Grown(base, log, WaitFailed);
      log := Then(log, WaitFailed);
      Gap(late, true, base);
      elapsed := clock - start;
      Grown(base, log, Polled(elapsed));
      log := Then(log, Polled(elapsed));
    }

    /** The return of a complete exposure. */
    method Finish(ghost duration: real, ghost timeout: real, ghost base: Log, ghost before: Session) returns (o: Outcome)
      requires Valid() && Continues(base, log) && Completes(SessionOf(log), before, duration, timeout)
      modifies this`log
      ensures Valid() && Continues(base, log) && CallOver(log, o, before, duration, timeout)
      ensures o == Returned(captureResult)
    {
      hide SessionOf, Legal, Continues;
      o := Returned(captureResult);
      Grown(base, log, Ended(o));
      log := Then(log, Ended(o));
    }

    /**
     One turn of the loop, with no image yet: it gives up on an abort or on a timeout, or waits. The
     call is over, or an image has come, or the loop goes on.
     */
    method Round(duration: real, timeout: real, start: real, n: nat, elapsed: real, free: nat -> seq<Interference>,
                 held: nat -> seq<Interference>, ghost base: Log, ghost before: Session)
      returns (over: Option<Outcome>, waited: real)
      requires Valid() && Continues(base, log) && !captureDone
      requires InLoop(SessionOf(log), before, duration, timeout, start, n, elapsed)
      modifies this`captureDone, this`captureResult, this`captureAbort, this`clock, this`log
      ensures Valid() && Continues(base, log)
      ensures n < MaxRounds(timeout)
      ensures over.Some? ==> CallOver(log, over.value, before, duration, timeout)
      ensures over.None? && captureDone ==> Completes(SessionOf(log), before, duration, timeout)
      ensures over.None? && !captureDone ==> InLoop(SessionOf(log), before, duration, timeout, start, n + 1, waited)
    {
      hide SessionOf, Legal, Continues, InLoop, Waited, Undisturbed, Allowed, Advance, Completes;
      ghost var top := SessionOf(log);
      RoundsLeft(top, before, duration, timeout, start, n, elapsed);
      waited := 0.0;
      Gap(held(3 * n), true, base);
      StillInLoop(top, SessionOf(log), before, duration, timeout, start, n, elapsed);
      if captureAbort {
        var o := GiveUp(ByAbort, free(2 * n + 6), free(2 * n + 7), base);
        return Some(o), waited;
      }
      ghost var looked := SessionOf(log);
      waited := Wait(start, held(3 * n + 1), free(2 * n + 5), held(3 * n + 2), base);
      RoundEnds(looked, SessionOf(log), before, duration, timeout, start, n, elapsed, captureDone, waited);
      over := None;
      if !captureDone && waited >= timeout {
        var o := GiveUp(ByTimeout, free(2 * n + 6), free(2 * n + 7), base);
        over := Some(o);
      }
    }

    /** The call that followed session `before` has ended with `o`. */
    ghost predicate CallOver(l: Log, o: Outcome, before: Session, duration: real, timeout: real) {
      && l.Then? && l.event == Ended(o) && !SessionOf(l).call.active
      && OfCall(SessionOf(l).call, before, 1, duration, timeout)
    }

    /**
     capture, one call at a time. `free` and `held` fill the gaps in which the mutex is free and held.
     The call ends once, with an outcome that the protocol allows.
     */
    method Capture(duration: real, timeout: real, free: nat -> seq<Interference>, held: nat -> seq<Interference>)
      returns (o: Outcome)
      requires Valid() && !SessionOf(log).call.active
      modifies this`captureDone, this`captureResult, this`captureAbort, this`clock, this`log
      ensures Valid() && Continues(old(log), log) && !SessionOf(log).call.active
      ensures device == "" ==> o == NoCamera && log == old(log)
      ensures device != "" ==> CallOver(log, o, old(SessionOf(log)), duration, timeout)
    {
      ghost var base, before := log, SessionOf(log);
      assert Continues(base, log);
      hide SessionOf, Legal, Continues, Begun, Allowed, Advance, InLoop, Completes;
      if device == "" {
        return NoCamera;
      }
      ResetFlags(free, base);
      var start := Begin(duration, timeout, free, base, before);
      var n, elapsed := 0, 0.0;
      while !captureDone
        modifies this`captureDone, this`captureResult, this`captureAbort, this`clock, this`log
        invariant Valid() && Continues(base, log)
        invariant InLoop(SessionOf(log), before, duration, timeout, start, n, elapsed)
        invariant captureDone ==> Completes(SessionOf(log), before, duration, timeout)
        decreases MaxRounds(timeout) - n
      {
        var over, waited := Round(duration, timeout, start, n, elapsed, free, held, base, before);
        if over.Some? {
          return over.value;
        }
        if captureDone {
          break;
        }
        n, elapsed := n + 1, waited;
      }
      o := Finish(duration, timeout, base, before);
    }
  }

  /** The capturing thread in a call that follows session `b`, after `n` failed waits, the last seen at `elapsed`. */
  function InCall(b: Session, duration: real, timeout: real, start: real, n: nat, elapsed: real): Call {
    Call(true, b.call.resets + 1, b.call.ended, Waiting, duration, timeout, start, n, n, n, elapsed, false, None, 0)
  }

  /** The call that follows session `b`, with these terms, of which `ended` ends are recorded. */
  predicate OfCall(c: Call, b: Session, ended: nat, duration: real, timeout: real) {
    && c.resets == b.call.resets + 1 && c.ended == b.call.ended + ended
    && c.duration == duration && c.timeout == timeout
  }

  /** A call that follows session `b`, before its exposure is commanded. */
  predicate Begun(s: Session, b: Session) {
    && s.call == InCall(b, s.call.duration, s.call.timeout, s.call.started, 0, 0.0).(stage := FlagCleared)
    && s.wanted == s.lastImage
  }

  predicate InLoop(s: Session, b: Session, duration: real, timeout: real, start: real, n: nat, elapsed: real) {
    && s.call == InCall(b, duration, timeout, start, n, elapsed)
    && s.wanted == s.lastImage
    && n as real * WAIT <= elapsed && start + elapsed <= s.now && (n > 0 ==> elapsed < timeout)
  }

  /** One more wait round: cut short by an image, or failed and timed. */
  predicate Waited(a: Session, b: Session, cutShort: bool, elapsed: real) {
    && b.wanted == b.lastImage
    && cutShort == b.wanted.Some?
    && if cutShort then
         b.call == a.call.(rounds := a.call.rounds + 1, checked := false)
       else
         && b.call == a.call.(rounds := a.call.rounds + 1, failed := a.call.failed + 1, polls := a.call.polls + 1,
                              polled := elapsed, checked := false)
         && a.now + WAIT <= b.now && elapsed == b.now - b.call.started
  }

  /** The loop is about to return the image it has. */
  predicate Completes(s: Session, b: Session, duration: real, timeout: real) {
    && OfCall(s.call, b, 0, duration, timeout)
    && s.wanted.Some? && s.wanted == s.lastImage
    && Allowed(s, Ended(Returned(Exposure(true, false, s.wanted.value))))
  }

  /** A gap with the mutex held keeps the loop where it is, free to give up or wait. */
  lemma StillInLoop(s: Session, t: Session, b: Session, duration: real, timeout: real, start: real, n: nat, elapsed: real)
    requires InLoop(s, b, duration, timeout, start, n, elapsed) && Undisturbed(s, t, true) && s.lastImage.None?
    ensures InLoop(t, b, duration, timeout, start, n, elapsed) && t.lastImage.None?
    ensures t.pending ==> Allowed(t, GaveUp(ByAbort))
    ensures !t.pending ==> Allowed(t, Checked)
    ensures t.call.sent == 0 && t.call.started == start && t.wanted == t.lastImage && OfCall(t.call, b, 0, duration, timeout)
  {}

  /** A call that has not timed out after `n` waits has a round left. */
  lemma MoreRounds(timeout: real, n: nat, elapsed: real)
    requires n as real * WAIT <= elapsed < timeout
    ensures n < MaxRounds(timeout)
  {
    var x := timeout / WAIT;
    assert x * WAIT == timeout;
    assert n as real < x;
  }

  lemma RoundsLeft(s: Session, b: Session, duration: real, timeout: real, start: real, n: nat, elapsed: real)
    requires InLoop(s, b, duration, timeout, start, n, elapsed)
    ensures n < MaxRounds(timeout)
  {
    if n > 0 {
      MoreRounds(timeout, n, elapsed);
    }
  }

  /** A wait leaves the loop done, timed out, or one round on. */
  lemma RoundEnds(a: Session, s: Session, b: Session, duration: real, timeout: real, start: real, n: nat, elapsed: real,
                  cutShort: bool, waited: real)
    requires InLoop(a, b, duration, timeout, start, n, elapsed)
    requires Waited(a, s, cutShort, waited)
    ensures cutShort ==> Completes(s, b, duration, timeout)
    ensures !cutShort && waited >= timeout ==> Allowed(s, GaveUp(ByTimeout))
    ensures !cutShort && waited < timeout ==> InLoop(s, b, duration, timeout, start, n + 1, waited)
    ensures s.call.sent == 0 && OfCall(s.call, b, 0, duration, timeout)
  {}
}
