/**
 The exposure thread of the INDI camera driver (indi/astro_mount_ccd.cpp). StartExposure and
 AbortExposure run on the driver's main thread; each exposure runs on a worker of its own, whose
 steps fall between the steps of the main thread in any order.
 */
module ExposureWorker {
  import opened Options

  /** What the camera service answers: an image, or an exception. */
  datatype Reply = Image(bytes: string) | Threw

  datatype Worker = Exposing | Got(reply: Reply) | Storing(bytes: string) | Ending | Finished

  datatype Main = Ready | Cleared | Marked | Joined

  datatype Event =
    | AbortSet
    | AbortCleared
    | RunningMarked
    | JoinDone
    | Spawned
    | Progress(worker: nat, left: real)
    | Replied(worker: nat, reply: Reply)
    | Passed(worker: nat)
    | Completed(worker: nat)
    | Failed(worker: nat)
    | Quieted(worker: nat)

  datatype Log = Start | Then(prior: Log, event: Event)

  /** `wasBusy` says whether StartExposure set the running flag while the last worker was still at work. */
  datatype State = State(
    abort: bool, running: bool, wasBusy: bool, joinable: bool, main: Main,
    workers: seq<Worker>, frame: string, left: real)

  const INITIAL := State(false, false, false, false, Ready, [], "", 0.0)

  /** The last worker has not finished. */
  predicate Busy(s: State) {
    |s.workers| > 0 && !s.workers[|s.workers| - 1].Finished?
  }

  function Put(s: State, i: nat, w: Worker): State {
    if i < |s.workers| then s.(workers := s.workers[i := w]) else s
  }

  function Advance(s: State, e: Event): State {
    match e
    case AbortSet => s.(abort := true)
    case AbortCleared => s.(abort := false, main := Cleared)
    case RunningMarked => s.(running := true, wasBusy := Busy(s), main := Marked)
    case JoinDone => s.(joinable := false, main := Joined)
    case Spawned => s.(workers := s.workers + [Exposing], joinable := true, main := Ready)
    case Progress(_, r) => if s.abort then s else s.(left := r)
    case Replied(i, r) => Put(s, i, Got(r))
    case Passed(i) =>
      if i < |s.workers| && s.workers[i].Got? && s.workers[i].reply.Image? then
        Put(s, i, Storing(s.workers[i].reply.bytes))
      else s
    case Completed(i) =>
      if i < |s.workers| && s.workers[i].Storing? then Put(s, i, Ending).(frame := s.workers[i].bytes, left := 0.0) else s
    case Failed(i) => Put(s, i, Ending)
    case Quieted(i) => Put(s, i, Finished).(running := false)
  }

  function StateOf(l: Log): State {
    match l
    case Start => INITIAL
    case Then(p, e) => Advance(StateOf(p), e)
  }

  /** Local rules of the two kinds of thread. Only the main thread waits, and only for the thread it holds. */
  predicate Allowed(s: State, e: Event) {
    match e
    case AbortSet => s.main.Ready?
    case AbortCleared => s.main.Ready?
    case RunningMarked => s.main.Cleared?
    case JoinDone => s.main.Marked? && (s.joinable ==> |s.workers| > 0 && s.workers[|s.workers| - 1].Finished?)
    case Spawned => s.main.Joined?
    case Progress(i, _) => i < |s.workers| && s.workers[i].Exposing?
    case Replied(i, _) => i < |s.workers| && s.workers[i].Exposing?
    case Passed(i) =>
      && i < |s.workers| && s.workers[i].Got? && s.workers[i].reply.Image? && !s.abort && s.workers[i].reply.bytes != ""
    case Completed(i) => i < |s.workers| && s.workers[i].Storing?
    case Failed(i) =>
      && i < |s.workers|
      && (match s.workers[i]
          case Got(Threw) => true
          case Got(Image(b)) => s.abort || b == ""
          case Storing(_) => true
          case _ => false)
    case Quieted(i) => i < |s.workers| && s.workers[i].Ending?
  }

  ghost predicate Legal(l: Log) {
    l.Then? ==> Legal(l.prior) && Allowed(StateOf(l.prior), l.event)
  }

  /** `l` continues `base`. */
  ghost predicate Continues(base: Log, l: Log) {
    l == base || (l.Then? && Continues(base, l.prior))
  }

  lemma Grown(base: Log, l: Log, e: Event)
    requires Legal(l) && Continues(base, l) && Allowed(StateOf(l), e)
    ensures Legal(Then(l, e)) && Continues(base, Then(l, e)) && StateOf(Then(l, e)) == Advance(StateOf(l), e)
  {
    hide Advance;
  }

  /** A choice of the worker's surroundings: progress is reported, the service answers, storing the image fails. */
  datatype Choice = Report(left: real) | Answer(reply: Reply) | Fault

  datatype Move = Move(worker: nat, choice: Choice)

  /** How far a worker is from its end. */
  function Rank(w: Worker): nat {
    match w
    case Exposing => 4
    case Got(_) => 3
    case Storing(_) => 2
    case Ending => 1
    case Finished => 0
  }

  /** Between `a` and `b` only workers moved, and none of them backwards. */
  ghost predicate WorkersMoved(a: State, b: State) {
    && b.abort == a.abort && b.wasBusy == a.wasBusy && b.joinable == a.joinable && b.main == a.main
    && |b.workers| == |a.workers|
    && (b.running ==> a.running)
    && forall i :: 0 <= i < |a.workers| ==> Rank(b.workers[i]) <= Rank(a.workers[i])
  }

  /** The worker that takes step `e`. */
  function WorkerOf(e: Event): Option<nat> {
    match e
    case Progress(i, _) => Some(i)
    case Replied(i, _) => Some(i)
    case Passed(i) => Some(i)
    case Completed(i) => Some(i)
    case Failed(i) => Some(i)
    case Quieted(i) => Some(i)
    case _ => None
  }

  lemma Unmoved(s: State)
    ensures WorkersMoved(s, s)
  {}

  lemma WorkerAdvances(s: State, e: Event)
    requires WorkerOf(e).Some? && Allowed(s, e)
    ensures var i, t := WorkerOf(e).value, Advance(s, e);
            && WorkersMoved(s, t) && i < |s.workers|
            && (!e.Progress? ==> Rank(t.workers[i]) < Rank(s.workers[i]))
  {}

  class AstroMountCCD {
    var exposureAbort: bool
    var exposureRunning: bool
    var joinable: bool
    var workers: seq<Worker>
    var frame: string
    var exposureLeft: real
    ghost var log: Log

    ghost predicate Valid()
      reads this
    {
      var s := StateOf(log);
      && Legal(log)
      && s == State(exposureAbort, exposureRunning, s.wasBusy, joinable, s.main, workers, frame, exposureLeft)
      && (joinable ==> |workers| > 0)
    }

    constructor ()
      ensures Valid() && log == Start
    {
      exposureAbort, exposureRunning, joinable := false, false, false;
      workers, frame, exposureLeft, log := [], "", 0.0, Start;
    }

    /** The service call of worker `i`: progress reports, then an image or an exception. */
    method Expose(i: nat, choice: Choice, ghost base: Log)
      requires Valid() && Continues(base, log) && i < |workers| && workers[i].Exposing?
      modifies this`workers, this`exposureLeft, this`log
      ensures Valid() && Continues(base, log) && WorkersMoved(old(StateOf(log)), StateOf(log))
      ensures i < |workers| && (!choice.Report? ==> Rank(workers[i]) < Rank(old(workers[i])))
    {
      hide StateOf, Legal, Continues, WorkersMoved;
      ghost var e: Event;
      match choice {
        case Report(left) =>
          e := Progress(i, left);
          if !exposureAbort {
            exposureLeft := left;
          }
        case Answer(reply) =>
          e := Replied(i, reply);
          workers := workers[i := Got(reply)];
        case Fault =>
          e := Replied(i, Threw);
          workers := workers[i := Got(Threw)];
      }
      Grown(base, log, e);
      WorkerAdvances(StateOf(log), e);
      log := Then(log, e);
    }

    /** What worker `i` makes of the answer: an aborted, empty or missing image is a failed exposure. */
    method Judge(i: nat, ghost base: Log)
      requires Valid() && Continues(base, log) && i < |workers| && workers[i].Got?
      modifies this`workers, this`log
      ensures Valid() && Continues(base, log) && WorkersMoved(old(StateOf(log)), StateOf(log))
      ensures i < |workers| && Rank(workers[i]) < Rank(old(workers[i]))
    {
      hide StateOf, Legal, Continues, WorkersMoved;
      ghost var e := Failed(i);
      if workers[i].reply.Threw? || exposureAbort || |workers[i].reply.bytes| == 0 {
        workers := workers[i := Ending];
      } else {
        e := Passed(i);
        workers := workers[i := Storing(workers[i].reply.bytes)];
      }
      Grown(base, log, e);
      WorkerAdvances(StateOf(log), e);
      log := Then(log, e);
    }

    /** Worker `i` stores its image and reports it, unless storing it fails. */
    method Store(i: nat, fault: bool, ghost base: Log)
      requires Valid() && Continues(base, log) && i < |workers| && workers[i].Storing?
      modifies this`workers, this`frame, this`exposureLeft, this`log
      ensures Valid() && Continues(base, log) && WorkersMoved(old(StateOf(log)), StateOf(log))
      ensures i < |workers| && Rank(workers[i]) < Rank(old(workers[i]))
    {
      hide StateOf, Legal, Continues, WorkersMoved;
      ghost var e := Failed(i);
      if !fault {
        e := Completed(i);
        frame := workers[i].bytes;
        exposureLeft := 0.0;
      }
      workers := workers[i := Ending];
      Grown(base, log, e);
      WorkerAdvances(StateOf(log), e);
      log := Then(log, e);
    }

    /** The last statement of runExposure. */
    method Quiet(i: nat, ghost base: Log)
      requires Valid() && Continues(base, log) && i < |workers| && workers[i].Ending?
      modifies this`exposureRunning, this`workers, this`log
      ensures Valid() && Continues(base, log) && WorkersMoved(old(StateOf(log)), StateOf(log))
      ensures i < |workers| && workers[i].Finished?
    {
      hide StateOf, Legal, Continues, WorkersMoved;
      Grown(base, log, Quieted(i));
      WorkerAdvances(StateOf(log), Quieted(i));
      exposureRunning := false;
      workers := workers[i := Finished];
      log := Then(log, Quieted(i));
    }

    /** One step of runExposure on worker `i`. */
    method WorkerStep(i: nat, choice: Choice, ghost base: Log)
      requires Valid() && Continues(base, log) && i < |workers|
      modifies this`exposureRunning, this`workers, this`frame, this`exposureLeft, this`log
      ensures Valid() && Continues(base, log) && WorkersMoved(old(StateOf(log)), StateOf(log))
      ensures i < |workers| && (old(workers[i]) != Finished && !choice.Report? ==> Rank(workers[i]) < Rank(old(workers[i])))
    {
      hide StateOf, Legal, Continues, WorkersMoved;
      match workers[i] {
        case Exposing => Expose(i, choice, base);
        case Got(_) => Judge(i, base);
        case Storing(_) => Store(i, choice.Fault?, base);
        case Ending => Quiet(i, base);
        case Finished => Unmoved(StateOf(log));
      }
    }

    /** A gap between two steps of the main thread. */
    method Gap(moves: seq<Move>, ghost base: Log)
      requires Valid() && Continues(base, log)
      modifies this`exposureRunning, this`workers, this`frame, this`exposureLeft, this`log
      ensures Valid() && Continues(base, log) && WorkersMoved(old(StateOf(log)), StateOf(log))
    {
      hide StateOf, Legal, Continues;
      for k := 0 to |moves|
        modifies this`exposureRunning, this`workers, this`frame, this`exposureLeft, this`log
        invariant Valid() && Continues(base, log) && WorkersMoved(old(StateOf(log)), StateOf(log))
      {
        if moves[k].worker < |workers| {
          WorkerStep(moves[k].worker, moves[k].choice, base);
        }
      }
    }

    /** The join of the held thread: it returns when that worker has finished. */
    method Join(moves: seq<Move>, last: Choice, ghost base: Log)
      requires Valid() && Continues(base, log) && !last.Report?
      modifies this`exposureRunning, this`workers, this`frame, this`exposureLeft, this`log
      ensures Valid() && Continues(base, log) && WorkersMoved(old(StateOf(log)), StateOf(log))
      ensures joinable ==> |workers| > 0 && workers[|workers| - 1].Finished?
    {
      hide StateOf, Legal, Continues;
      Gap(moves, base);
      if joinable {
        var i := |workers| - 1;
        while workers[i] != Finished
          modifies this`exposureRunning, this`workers, this`frame, this`exposureLeft, this`log
          invariant Valid() && Continues(base, log) && WorkersMoved(old(StateOf(log)), StateOf(log)) && i == |workers| - 1
          decreases Rank(workers[i])
        {
          WorkerStep(i, last, base);
        }
      }
    }

    /** The flags of a new exposure, set before the previous worker is joined. */
    method ResetFlags(moves: nat -> seq<Move>, ghost base: Log)
      requires Valid() && Continues(base, log) && StateOf(log).main.Ready?
      modifies this`exposureAbort, this`exposureRunning, this`workers, this`frame, this`exposureLeft, this`log
      ensures Valid() && Continues(base, log) && StateOf(log).main.Marked? && |workers| == |old(workers)|
    {
      hide StateOf, Legal, Continues;
      Gap(moves(0), base);
      Grown(base, log, AbortCleared);
      exposureAbort := false;
      log := Then(log, AbortCleared);
      Gap(moves(1), base);
      Grown(base, log, RunningMarked);
      exposureRunning := true;
      log := Then(log, RunningMarked);
    }

    /** After the join no thread is held. */
    method JoinLast(moves: seq<Move>, last: Choice, ghost base: Log)
      requires Valid() && Continues(base, log) && StateOf(log).main.Marked? && !last.Report?
      modifies this`exposureRunning, this`workers, this`frame, this`exposureLeft, this`joinable, this`log
      ensures Valid() && Continues(base, log) && StateOf(log).main.Joined? && |workers| == |old(workers)|
    {
      hide StateOf, Legal, Continues;
      Join(moves, last, base);
      Grown(base, log, JoinDone);
      joinable := false;
      log := Then(log, JoinDone);
    }

    /** The new thread. */
    method Spawn(moves: seq<Move>, ghost base: Log)
      requires Valid() && Continues(base, log) && StateOf(log).main.Joined?
      modifies this`exposureRunning, this`workers, this`frame, this`exposureLeft, this`joinable, this`log
      ensures Valid() && Continues(base, log) && StateOf(log).main.Ready?
      ensures |workers| == |old(workers)| + 1 && log.Then? && log.event.Spawned?
    {
      hide StateOf, Legal, Continues;
      Gap(moves, base);
      Grown(base, log, Spawned);
      workers := workers + [Exposing];
      joinable := true;
      log := Then(log, Spawned);
    }

    /** StartExposure: refused while disconnected, else one more worker once the last one has finished. */
    method StartExposure(connected: bool, moves: nat -> seq<Move>, last: Choice) returns (ok: bool)
      requires Valid() && StateOf(log).main.Ready? && !last.Report?
      modifies this
      ensures Valid() && Continues(old(log), log) && StateOf(log).main.Ready?
      ensures ok == connected
      ensures if ok then |workers| == |old(workers)| + 1 && log.Then? && log.event.Spawned? else log == old(log)
    {
      if !connected {
        return false;
      }
      ghost var base := log;
      assert Continues(base, log);
      hide StateOf, Legal, Continues;
      ResetFlags(moves, base);
      JoinLast(moves(2), last, base);
      Spawn(moves(3), base);
      ok := true;
    }

    method AbortExposure() returns (ok: bool)
      requires Valid() && StateOf(log).main.Ready?
      modifies this`exposureAbort, this`log
      ensures Valid() && StateOf(log).main.Ready? && ok && exposureAbort && log == Then(old(log), AbortSet)
    {
      exposureAbort := true;
      log := Then(log, AbortSet);
      ok := true;
    }
  }
}
