/** What every run of starts, aborts and exposure threads keeps. */
module ExposureLaws {
  import opened ExposureWorker

  function EventsOf(l: Log): seq<Event> {
    match l
    case Start => []
    case Then(p, e) => EventsOf(p) + [e]
  }

  /** All workers but the held one have finished, and all of them once the main thread has joined. */
  predicate OneAlive(s: State) {
    && (s.joinable ==> s.workers != [])
    && (forall i :: 0 <= i < |s.workers| - 1 ==> s.workers[i].Finished?)
    && (s.workers != [] && !s.joinable ==> s.workers[|s.workers| - 1].Finished?)
    && (s.main.Joined? ==> !s.joinable)
  }

  lemma OneAliveStep(s: State, e: Event)
    requires OneAlive(s) && Allowed(s, e)
    ensures OneAlive(Advance(s, e))
  {}

  lemma {:induction false} RunsHaveOneAlive(l: Log)
    requires Legal(l)
    ensures OneAlive(StateOf(l))
  {
    if l.Then? {
      RunsHaveOneAlive(l.prior);
      OneAliveStep(StateOf(l.prior), l.event);
    }
  }

  /** At most one exposure thread is alive, in every run. */
  lemma AtMostOneAlive(l: Log, i: nat, j: nat)
    requires Legal(l) && i < |StateOf(l).workers| && j < |StateOf(l).workers|
    requires !StateOf(l).workers[i].Finished? && !StateOf(l).workers[j].Finished?
    ensures i == j
  {
    RunsHaveOneAlive(l);
  }

  predicate IsOutcome(e: Event, i: nat) {
    e == Completed(i) || e == Failed(i)
  }

  /** How often ExposureComplete or setExposureFailed was called for worker `i`. */
  function Outcomes(l: Log, i: nat): nat {
    match l
    case Start => 0
    case Then(p, e) => Outcomes(p, i) + if IsOutcome(e, i) then 1 else 0
  }

  function Spawns(l: Log): nat {
    match l
    case Start => 0
    case Then(p, e) => Spawns(p) + if e.Spawned? then 1 else 0
  }

  lemma CountsStep(s: State, e: Event)
    ensures |Advance(s, e).workers| == |s.workers| + if e.Spawned? then 1 else 0
    ensures Advance(s, e).abort <==> e.AbortSet? || (!e.AbortCleared? && s.abort)
  {}

  lemma {:induction false} SpawnsCounted(l: Log)
    ensures |StateOf(l).workers| == Spawns(l)
  {
    hide Advance;
    if l.Then? {
      SpawnsCounted(l.prior);
      CountsStep(StateOf(l.prior), l.event);
    }
  }

  predicate Reported(s: State, i: nat) {
    i < |s.workers| && Rank(s.workers[i]) <= 1
  }

  lemma ReportStep(s: State, e: Event, i: nat)
    requires Allowed(s, e)
    ensures Reported(Advance(s, e), i) <==> Reported(s, i) || IsOutcome(e, i)
    ensures IsOutcome(e, i) ==> !Reported(s, i)
  {}

  /** A worker reports its outcome once, before it ends. */
  lemma {:induction false} OutcomesCounted(l: Log, i: nat)
    requires Legal(l)
    ensures Outcomes(l, i) == if Reported(StateOf(l), i) then 1 else 0
  {
    hide Advance, Allowed, Reported, IsOutcome;
    if l.Then? {
      OutcomesCounted(l.prior, i);
      ReportStep(StateOf(l.prior), l.event, i);
    } else {
      NoneReported(i);
    }
  }

  lemma NoneReported(i: nat)
    ensures !Reported(INITIAL, i)
  {}

  /** Each start that spawns a worker is matched by exactly one outcome before the next worker starts. */
  lemma OneOutcomeBetweenStarts(p: Log, i: nat)
    requires Legal(Then(p, Spawned)) && i < Spawns(p)
    ensures Outcomes(p, i) == 1
  {
    OutcomesCounted(p, i);
    SpawnsCounted(p);
    RunsHaveOneAlive(p);
  }

  // ---------- The flags ----------

  /** Position `i` is an abort with no clearing after it. */
  predicate AbortedAt(es: seq<Event>, i: int) {
    0 <= i < |es| && es[i].AbortSet? && forall j :: i < j < |es| ==> !es[j].AbortCleared?
  }

  lemma {:induction false} AbortMeans(l: Log)
    ensures StateOf(l).abort <==> exists i :: AbortedAt(EventsOf(l), i)
  {
    hide Advance;
    if l.Then? {
      AbortMeans(l.prior);
      CountsStep(StateOf(l.prior), l.event);
      AbortAppended(EventsOf(l.prior), l.event);
      assert EventsOf(l) == EventsOf(l.prior) + [l.event];
    }
  }

  lemma AbortAppended(p: seq<Event>, e: Event)
    ensures (exists i :: AbortedAt(p + [e], i)) <==> e.AbortSet? || (!e.AbortCleared? && exists i :: AbortedAt(p, i))
  {
    var es := p + [e];
    assert es[|p|] == e && forall k :: 0 <= k < |p| ==> es[k] == p[k];
    if e.AbortSet? {
      assert AbortedAt(es, |p|);
    } else if i :| AbortedAt(es, i) {
      assert AbortedAt(p, i);
    } else if i :| AbortedAt(p, i) {
      assert !AbortedAt(es, i);
    }
  }

  /** A worker that holds an image passes exactly when no abort is in force and the image is not empty. */
  lemma PassesUnlessAborted(l: Log, i: nat, bytes: string)
    requires Legal(l) && i < |StateOf(l).workers| && StateOf(l).workers[i] == Got(Image(bytes))
    ensures Legal(Then(l, Passed(i))) <==> bytes != "" && !exists k :: AbortedAt(EventsOf(l), k)
    ensures Legal(Then(l, Failed(i))) <==> bytes == "" || exists k :: AbortedAt(EventsOf(l), k)
  {
    AbortMeans(l);
  }

  /** One exposure started, and its service call answered after `between`. */
  function Answered(between: seq<Event>, bytes: string): Log
    requires |between| == 2
  {
    Then(Then(Then(Then(Then(Then(Then(Start, AbortCleared), RunningMarked), JoinDone), Spawned),
                   between[0]), between[1]), Replied(0, Image(bytes)))
  }

  lemma FirstSpawn()
    ensures var l := Then(Then(Then(Then(Start, AbortCleared), RunningMarked), JoinDone), Spawned);
            Legal(l) && StateOf(l) == State(false, true, false, true, Ready, [Exposing], "", 0.0)
  {
    var marked := Then(Then(Start, AbortCleared), RunningMarked);
    assert Legal(marked.prior) && Legal(marked) && Legal(Then(marked, JoinDone));
  }

  /**
   An abort is lost when the next StartExposure clears the flag before the old worker has looked at
   it: the aborted exposure is then stored and reported as complete.
   */
  lemma AbortLost(bytes: string)
    requires bytes != ""
    ensures var l := Then(Then(Answered([AbortSet, AbortCleared], bytes), Passed(0)), Completed(0));
            Legal(l) && StateOf(l).frame == bytes
  {
    var spawned := Then(Then(Then(Then(Start, AbortCleared), RunningMarked), JoinDone), Spawned);
    FirstSpawn();
    var cleared := Then(Then(spawned, AbortSet), AbortCleared);
    assert Legal(Then(spawned, AbortSet)) && Legal(cleared) && StateOf(cleared).workers == [Exposing];
    var replied := Then(cleared, Replied(0, Image(bytes)));
    assert Legal(replied) && StateOf(replied).workers == [Got(Image(bytes))];
    assert Legal(Then(replied, Passed(0))) && StateOf(Then(replied, Passed(0))).workers == [Storing(bytes)];
  }

  /** The running flag from its marking to the next worker. */
  predicate Flagged(s: State) {
    s.main.Marked? || s.main.Joined? ==>
      if s.wasBusy then s.workers != [] && (s.running <==> Busy(s)) else s.running && !Busy(s)
  }

  lemma FlaggedStep(s: State, e: Event)
    requires OneAlive(s) && Flagged(s) && Allowed(s, e)
    ensures Flagged(Advance(s, e))
  {}

  lemma {:induction false} RunsAreFlagged(l: Log)
    requires Legal(l)
    ensures Flagged(StateOf(l))
  {
    if l.Then? {
      RunsAreFlagged(l.prior);
      RunsHaveOneAlive(l.prior);
      FlaggedStep(StateOf(l.prior), l.event);
    }
  }

  /**
   The running flag is set before the join, and the joined worker clears it. A new worker starts with
   the flag set exactly when the previous one had already finished at the marking.
   */
  lemma RunningFlagAtStart(p: Log)
    requires Legal(Then(p, Spawned))
    ensures StateOf(Then(p, Spawned)).running <==> !StateOf(p).wasBusy
    ensures Busy(StateOf(Then(p, Spawned)))
  {
    RunsAreFlagged(p);
    RunsHaveOneAlive(p);
  }
}
