/** What every log of the capture protocol has in common, over any number of calls. */
module CaptureLaws {
  import opened Options
  import opened CameraCapture

  function EventsOf(l: Log): seq<Event> {
    match l
    case Start => []
    case Then(p, e) => EventsOf(p) + [e]
  }

  predicate IsImage(e: Event) {
    e.Blob? && e.image.bytes != ""
  }

  // ---------- Bounds ----------

  /** Every failed wait took 200 ms, and was measured before the next one began. */
  predicate Clocked(s: Session) {
    && s.call.polls <= s.call.failed <= s.call.rounds <= s.call.polls + 1
    && (s.call.failed > 0 ==> s.call.failed as real * WAIT <= s.now - s.call.started)
    && s.call.polls as real * WAIT <= s.call.polled
    && (s.call.rounds > 0 ==> s.call.rounds <= MaxRounds(s.call.timeout))
    && s.lateWaits <= 1 && (s.lateWaits > 0 ==> s.pending && !s.call.checked)
    && (s.call.checked ==>
          s.call.stage.Waiting? && s.call.rounds == s.call.polls && (s.call.polls > 0 ==> s.call.polled < s.call.timeout))
    && (!s.call.stage.Waiting? ==> s.call.rounds == 0 && s.call.givenUp.None?)
    && s.call.resets == s.call.ended + (if s.call.active then 1 else 0)
  }

  lemma ClockedStep(s: Session, e: Event)
    requires Clocked(s) && Allowed(s, e)
    requires e.WaitFailed? && s.call.failed == 0 ==> s.call.started <= s.now
    ensures Clocked(Advance(s, e))
  {
    if e.WaitBegun? {
      if s.call.polls > 0 {
        MoreRounds(s.call.timeout, s.call.polls, s.call.polled);
      }
    }
  }

  lemma {:induction false} LegalIsClocked(l: Log)
    requires Legal(l)
    ensures Clocked(SessionOf(l)) && SessionOf(l).call.started <= SessionOf(l).now
  {
    if l.Then? {
      LegalIsClocked(l.prior);
      ClockedStep(SessionOf(l.prior), l.event);
    }
  }

  /** A call waits at most max(1, ceil(timeout / 0.2 s)) times. */
  lemma RoundsBounded(l: Log)
    requires Legal(l)
    ensures SessionOf(l).call.rounds <= MaxRounds(SessionOf(l).call.timeout)
  {
    LegalIsClocked(l);
  }

  /** Calls do not overlap: each reset is followed by one end before the next reset. */
  lemma CallsAlternate(l: Log)
    requires Legal(l)
    ensures SessionOf(l).call.resets == SessionOf(l).call.ended + (if SessionOf(l).call.active then 1 else 0)
  {
    LegalIsClocked(l);
  }

  // ---------- Aborts ----------

  /** The abort flag is set exactly when a request came after the flag was last cleared. */
  lemma {:induction false} PendingMeans(l: Log)
    ensures SessionOf(l).pending <==>
            exists i :: RequestedAt(EventsOf(l), i)
  {
    if l.Then? {
      PendingMeans(l.prior);
      RequestedAppended(EventsOf(l.prior), l.event);
      assert EventsOf(l) == EventsOf(l.prior) + [l.event];
    }
  }

  lemma RequestedAppended(p: seq<Event>, e: Event)
    ensures (exists i :: RequestedAt(p + [e], i)) <==> e.AbortRequested? || (!e.AbortCleared? && exists i :: RequestedAt(p, i))
  {
    var es := p + [e];
    assert es[|p|] == e && forall k :: 0 <= k < |p| ==> es[k] == p[k];
    if e.AbortRequested? {
      assert RequestedAt(es, |p|);
    } else if i :| RequestedAt(es, i) {
      assert RequestedAt(p, i);
    } else if i :| RequestedAt(p, i) {
      assert !RequestedAt(es, i);
    }
  }

  /** Position `i` is an abort request with no clearing after it. */
  predicate RequestedAt(es: seq<Event>, i: int) {
    0 <= i < |es| && es[i].AbortRequested? && forall j :: i < j < |es| ==> !es[j].AbortCleared?
  }

  lemma RequestPending(l: Log, i: int)
    requires RequestedAt(EventsOf(l), i)
    ensures SessionOf(l).pending
  {
    hide RequestedAt, SessionOf, EventsOf;
    PendingMeans(l);
  }

  lemma {:induction false} LateWaitCounted(l: Log, i: int, j: int)
    requires RequestedAt(EventsOf(l), i) && i < j < |EventsOf(l)| && EventsOf(l)[j].WaitBegun?
    ensures SessionOf(l).lateWaits >= 1
  {
    var p, es := EventsOf(l.prior), EventsOf(l);
    assert es == p + [l.event] && es[|p|] == l.event && forall k :: 0 <= k < |p| ==> es[k] == p[k];
    if j == |p| {
      assert RequestedAt(p, i);
      RequestPending(l.prior, i);
    } else {
      assert !es[|p|].AbortCleared?;
      LateWaitCounted(l.prior, i, j);
    }
  }

  /** After an abort request at most one more wait round begins before the flag is cleared for a new call. */
  lemma {:induction false} OneRoundAfterAbort(l: Log, i: int, j: int, k: int)
    requires Legal(l) && 0 <= i < j < k < |EventsOf(l)|
    requires EventsOf(l)[i].AbortRequested? && EventsOf(l)[j].WaitBegun? && EventsOf(l)[k].WaitBegun?
    ensures exists c :: i < c < k && EventsOf(l)[c].AbortCleared?
  {
    var p, es := EventsOf(l.prior), EventsOf(l);
    assert forall n :: 0 <= n < |p| ==> es[n] == p[n];
    if k < |p| {
      OneRoundAfterAbort(l.prior, i, j, k);
      var c :| i < c < k && p[c].AbortCleared?;
      assert es[c].AbortCleared?;
    } else if forall c :: i < c < k ==> !es[c].AbortCleared? {
      assert RequestedAt(p, i);
      LateWaitCounted(l.prior, i, j);
      LegalIsClocked(l.prior);
    }
  }

  // ---------- Outcomes ----------

  /** Position `i` holds the last image since the last reset. */
  predicate LastImageAt(es: seq<Event>, i: int, image: Image) {
    && 0 <= i < |es| && es[i] == Blob(image) && image.bytes != ""
    && forall j :: i < j < |es| ==> !IsImage(es[j]) && !es[j].Reset?
  }

  lemma {:induction false} LastImageMeans(l: Log, image: Image)
    ensures SessionOf(l).lastImage == Some(image) <==> exists i :: LastImageAt(EventsOf(l), i, image)
  {
    if l.Then? {
      LastImageMeans(l.prior, image);
      LastImageAppended(EventsOf(l.prior), l.event, image);
      assert EventsOf(l) == EventsOf(l.prior) + [l.event];
    }
  }

  lemma LastImageAppended(p: seq<Event>, e: Event, image: Image)
    ensures (exists i :: LastImageAt(p + [e], i, image)) <==>
            if IsImage(e) then e.image == image else !e.Reset? && exists i :: LastImageAt(p, i, image)
  {
    var es := p + [e];
    assert es[|p|] == e && forall k :: 0 <= k < |p| ==> es[k] == p[k];
    if IsImage(e) && e.image == image {
      assert LastImageAt(es, |p|, image);
    } else if i :| LastImageAt(es, i, image) {
      assert LastImageAt(p, i, image);
    } else if i :| LastImageAt(p, i, image) {
      assert !LastImageAt(es, i, image);
    }
  }

  /**
   Until the call gives up, the wanted image is the last one, and it is never empty; a call that has
   given up wanted none, and one that timed out has measured its timeout.
   */
  predicate Consistent(s: Session) {
    && (s.call.givenUp.None? ==> s.wanted == s.lastImage)
    && (s.wanted.Some? ==> s.call.givenUp.None? && s.wanted.value.bytes != "")
    && (s.call.polls > 0 ==> s.call.started + s.call.polled <= s.now)
    && (s.call.givenUp == Some(ByTimeout) ==> s.call.polls > 0 && s.call.polled >= s.call.timeout)
  }

  lemma ConsistentStep(s: Session, e: Event)
    requires Consistent(s) && Clocked(s) && Allowed(s, e)
    ensures Consistent(Advance(s, e))
  {}

  lemma {:induction false} LegalIsConsistent(l: Log)
    requires Legal(l)
    ensures Consistent(SessionOf(l))
  {
    hide Consistent, Clocked, Advance, Allowed;
    if l.Then? {
      LegalIsConsistent(l.prior);
      LegalIsClocked(l.prior);
      ConsistentStep(SessionOf(l.prior), l.event);
    } else {
      assert Consistent(FRESH) by { FreshIsConsistent(); }
    }
  }

  lemma FreshIsConsistent()
    ensures Consistent(FRESH)
  {}

  lemma EndShape(s: Session, o: Outcome)
    requires Allowed(s, Ended(o)) && Consistent(s)
    ensures o.Returned? || o.TimedOut?
    ensures o.Returned? ==> o.exposure.complete != o.exposure.aborted
    ensures o.Returned? && o.exposure.complete ==> s.lastImage == Some(o.exposure.image) && s.call.sent == 0
    ensures o.Returned? && o.exposure.aborted ==>
              o.exposure.image.bytes == "" && s.call.givenUp == Some(ByAbort) && s.call.sent == 1
    ensures o.TimedOut? ==>
              s.call.givenUp == Some(ByTimeout) && s.now - s.call.started >= s.call.timeout && s.call.sent == 1
  {}

  /** How a call may end: with the last image since its reset, aborted without bytes, or timed out in time. */
  lemma OutcomeOfCall(p: Log, o: Outcome)
    requires Legal(Then(p, Ended(o)))
    ensures o.Returned? || o.TimedOut?
    ensures o.Returned? ==> o.exposure.complete != o.exposure.aborted
    ensures o.Returned? && o.exposure.complete ==>
              exists i :: LastImageAt(EventsOf(p), i, o.exposure.image)
    ensures o.Returned? && o.exposure.aborted ==>
              o.exposure.image.bytes == "" && SessionOf(p).call.givenUp == Some(ByAbort)
    ensures o.TimedOut? ==> SessionOf(p).call.givenUp == Some(ByTimeout)
    ensures o.TimedOut? ==> SessionOf(p).now - SessionOf(p).call.started >= SessionOf(p).call.timeout
    ensures SessionOf(p).call.sent == if o.Returned? && o.exposure.complete then 0 else 1
  {
    assert Allowed(SessionOf(p), Ended(o));
    hide SessionOf, Advance, EventsOf, Allowed, Consistent, Legal;
    LegalIsConsistent(p);
    EndShape(SessionOf(p), o);
    if o.Returned? && o.exposure.complete {
      LastImageMeans(p, o.exposure.image);
    }
  }

  /** A call that gives up has had no image since its reset; it aborts only on a request after the clearing. */
  lemma GivesUpWithoutImage(p: Log, reason: Reason)
    requires Legal(Then(p, GaveUp(reason)))
    ensures forall image, i :: !LastImageAt(EventsOf(p), i, image)
    ensures reason.ByAbort? ==> exists i :: RequestedAt(EventsOf(p), i)
  {
    LegalIsConsistent(p);
    PendingMeans(p);
    forall image, i
      ensures !LastImageAt(EventsOf(p), i, image)
    {
      LastImageMeans(p, image);
    }
  }

  // ---------- When an abort is honoured ----------

  /** Some image came since the last reset. */
  ghost predicate HasImage(es: seq<Event>) {
    exists i, image :: LastImageAt(es, i, image)
  }

  lemma HasImageMeans(l: Log)
    ensures HasImage(EventsOf(l)) <==> SessionOf(l).lastImage.Some?
  {
    if SessionOf(l).lastImage.Some? {
      LastImageMeans(l, SessionOf(l).lastImage.value);
    }
    if i, image :| LastImageAt(EventsOf(l), i, image) {
      LastImageMeans(l, image);
    }
  }

  /**
   At the top of the loop, without an image since the reset, a call gives up exactly when a request
   came after the flag was last cleared, and otherwise goes on to wait.
   */
  lemma AbortHonoured(l: Log)
    requires Legal(l)
    ensures Legal(Then(l, GaveUp(ByAbort))) <==>
            AtLoopTop(SessionOf(l).call) && !HasImage(EventsOf(l)) && exists i :: RequestedAt(EventsOf(l), i)
    ensures Legal(Then(l, Checked)) <==>
            AtLoopTop(SessionOf(l).call) && !HasImage(EventsOf(l)) && !exists i :: RequestedAt(EventsOf(l), i)
  {
    PendingMeans(l);
    HasImageMeans(l);
    LegalNext(l, GaveUp(ByAbort));
    LegalNext(l, Checked);
    LegalIsConsistent(l);
    hide HasImage, EventsOf, RequestedAt, SessionOf, Legal, AtLoopTop, Advance;
    TopChoices(SessionOf(l));
  }

  lemma LegalNext(l: Log, e: Event)
    requires Legal(l)
    ensures Legal(Then(l, e)) <==> Allowed(SessionOf(l), e)
  {
    hide Allowed, Advance;
  }

  lemma TopChoices(s: Session)
    requires Consistent(s)
    ensures Allowed(s, GaveUp(ByAbort)) <==> AtLoopTop(s.call) && s.lastImage.None? && s.pending
    ensures Allowed(s, Checked) <==> AtLoopTop(s.call) && s.lastImage.None? && !s.pending
  {}

  lemma NoneSince(es: seq<Event>, c: int)
    requires 0 <= c < |es| && es[c].AbortCleared? && forall i :: c < i < |es| ==> !es[i].AbortRequested?
    ensures !exists i :: RequestedAt(es, i)
  {
    assert forall i :: !RequestedAt(es, i);
  }

  /** A request with a clearing after it and no other request since is lost: the call goes on to wait. */
  lemma EarlyAbortLost(l: Log, r: int, c: int)
    requires Legal(l) && AtLoopTop(SessionOf(l).call) && !HasImage(EventsOf(l))
    requires 0 <= r < c < |EventsOf(l)| && EventsOf(l)[r].AbortRequested? && EventsOf(l)[c].AbortCleared?
    requires forall i :: c < i < |EventsOf(l)| ==> !EventsOf(l)[i].AbortRequested?
    ensures !Legal(Then(l, GaveUp(ByAbort))) && Legal(Then(l, Checked)) && Legal(Then(Then(l, Checked), WaitBegun))
  {
    hide HasImage, EventsOf, RequestedAt, SessionOf, Legal, AtLoopTop, Advance;
    NoneSince(EventsOf(l), c);
    AbortHonoured(l);
    CheckedThenWaits(l);
  }

  lemma CheckedThenWaits(l: Log)
    requires Legal(Then(l, Checked))
    ensures Legal(Then(Then(l, Checked), WaitBegun))
  {
    assert Allowed(SessionOf(l), Checked);
  }

  /** Such runs exist: an abort that falls between the two resets of a call. */
  lemma EarlyAbortRun(duration: real, timeout: real)
    ensures var l := Then(Then(Then(Then(Then(Start, Reset), AbortRequested), AbortCleared), ExposureSent(duration)),
                          Started(timeout));
            Legal(l) && AtLoopTop(SessionOf(l).call) && !Legal(Then(l, GaveUp(ByAbort))) && Legal(Then(l, Checked))
  {
    hide SessionOf;
    assert SessionOf(Start) == FRESH by { Fresh(); }
    var a := Then(Then(Start, Reset), AbortRequested);
    var s := Advance(Advance(FRESH, Reset), AbortRequested);
    OneStep(Start, FRESH, Reset);
    OneStep(a.prior, Advance(FRESH, Reset), AbortRequested);
    ThreeSteps(a, s, AbortCleared, ExposureSent(duration), Started(timeout));
  }

  lemma Fresh()
    ensures SessionOf(Start) == FRESH
  {}

  lemma OneStep(l: Log, s: Session, e: Event)
    requires Legal(l) && SessionOf(l) == s && Allowed(s, e)
    ensures Legal(Then(l, e)) && SessionOf(Then(l, e)) == Advance(s, e)
  {
    hide Advance;
  }

  lemma ThreeSteps(l: Log, s: Session, e: Event, f: Event, g: Event)
    requires Legal(l) && SessionOf(l) == s && Allowed(s, e)
    requires Allowed(Advance(s, e), f) && Allowed(Advance(Advance(s, e), f), g)
    ensures var k := Then(Then(Then(l, e), f), g);
            Legal(k) && SessionOf(k) == Advance(Advance(Advance(s, e), f), g)
  {
    hide Advance, Allowed;
    OneStep(l, s, e);
    OneStep(Then(l, e), Advance(s, e), f);
    OneStep(Then(Then(l, e), f), Advance(Advance(s, e), f), g);
  }

  // ---------- Where a returned image came from ----------

  /** No wait has begun between the last reset before position `i` and position `i`. */
  predicate NoWaitBefore(es: seq<Event>, i: int)
    requires i <= |es|
  {
    forall j :: 0 <= j < i && es[j].WaitBegun? ==> exists r :: j < r < i && es[r].Reset?
  }

  /** Position `i` holds an image of the current call that arrived before its first wait began. */
  predicate EarlyImageAt(es: seq<Event>, i: int) {
    && 0 <= i < |es| && IsImage(es[i]) && NoWaitBefore(es, i)
    && forall r :: i < r < |es| ==> !es[r].Reset?
  }

  lemma NoWaitAppended(p: seq<Event>, e: Event)
    ensures NoWaitBefore(p + [e], |p| + 1) <==> e.Reset? || (!e.WaitBegun? && NoWaitBefore(p, |p|))
    ensures forall i :: i <= |p| ==> (NoWaitBefore(p + [e], i) <==> NoWaitBefore(p, i))
  {
    var es := p + [e];
    assert es[|p|] == e && forall k :: 0 <= k < |p| ==> es[k] == p[k];
    if NoWaitBefore(p, |p|) && !e.WaitBegun? {
      forall j | 0 <= j < |es| && es[j].WaitBegun?
        ensures exists r :: j < r < |es| && es[r].Reset?
      {
        var r :| j < r < |p| && p[r].Reset?;
        assert es[r].Reset?;
      }
    }
    if e.Reset? {
      assert es[|p|].Reset?;
    }
    if NoWaitBefore(es, |es|) && !e.Reset? {
      forall j | 0 <= j < |p| && p[j].WaitBegun?
        ensures exists r :: j < r < |p| && p[r].Reset?
      {
        var r :| j < r < |es| && es[r].Reset?;
        assert p[r].Reset?;
      }
    }
    forall i | i <= |p|
      ensures NoWaitBefore(es, i) <==> NoWaitBefore(p, i)
    {
      SamePrefixWaits(p, es, i);
    }
  }

  lemma SamePrefixWaits(p: seq<Event>, es: seq<Event>, i: int)
    requires i <= |p| <= |es| && forall k :: 0 <= k < |p| ==> es[k] == p[k]
    ensures NoWaitBefore(es, i) <==> NoWaitBefore(p, i)
  {
    if NoWaitBefore(p, i) {
      forall j | 0 <= j < i && es[j].WaitBegun?
        ensures exists r :: j < r < i && es[r].Reset?
      {
        var r :| j < r < i && p[r].Reset?;
        assert es[r].Reset?;
      }
    }
    if NoWaitBefore(es, i) {
      forall j | 0 <= j < i && p[j].WaitBegun?
        ensures exists r :: j < r < i && p[r].Reset?
      {
        var r :| j < r < i && es[r].Reset?;
        assert p[r].Reset?;
      }
    }
  }

  /** The counted rounds of a call are none exactly when no wait has begun since its reset. */
  lemma {:induction false} RoundsMean(l: Log)
    ensures SessionOf(l).call.rounds == 0 <==> NoWaitBefore(EventsOf(l), |EventsOf(l)|)
  {
    if l.Then? {
      RoundsMean(l.prior);
      NoWaitAppended(EventsOf(l.prior), l.event);
      assert EventsOf(l) == EventsOf(l.prior) + [l.event];
      hide NoWaitBefore;
    }
  }

  /** Once an image of the current call is there, no wait begins. */
  lemma {:induction false} EarlyImageStopsWaits(l: Log, i: int)
    requires Legal(l) && EarlyImageAt(EventsOf(l), i)
    ensures NoWaitBefore(EventsOf(l), |EventsOf(l)|)
  {
    var p, es := EventsOf(l.prior), EventsOf(l);
    assert es == p + [l.event] && es[|p|] == l.event && forall k :: 0 <= k < |p| ==> es[k] == p[k];
    NoWaitAppended(p, l.event);
    hide NoWaitBefore, Advance, SessionOf;
    if i < |p| {
      assert EarlyImageAt(p, i);
      EarlyImageStopsWaits(l.prior, i);
      ImageSeen(l.prior, i);
      LegalIsConsistent(l.prior);
    }
  }

  lemma {:induction false} ImageSeen(l: Log, i: int)
    requires 0 <= i < |EventsOf(l)| && IsImage(EventsOf(l)[i])
    requires forall r :: i < r < |EventsOf(l)| ==> !EventsOf(l)[r].Reset?
    ensures SessionOf(l).lastImage.Some?
  {
    var p, es := EventsOf(l.prior), EventsOf(l);
    assert es == p + [l.event] && es[|p|] == l.event && forall k :: 0 <= k < |p| ==> es[k] == p[k];
    if i < |p| {
      ImageSeen(l.prior, i);
    }
  }

  lemma LastImageIsEarly(es: seq<Event>, i: int, image: Image)
    requires LastImageAt(es, i, image) && NoWaitBefore(es, |es|)
    ensures EarlyImageAt(es, i)
  {
    forall j | 0 <= j < i && es[j].WaitBegun?
      ensures exists r :: j < r < i && es[r].Reset?
    {
      var r :| j < r < |es| && es[r].Reset?;
      assert r < i;
    }
  }

  /** A call returns an image without waiting exactly when an image came between its reset and its first wait. */
  lemma NoWaitExactly(p: Log, e: Exposure)
    requires Legal(Then(p, Ended(Returned(e)))) && e.complete
    ensures SessionOf(p).call.rounds == 0 <==> exists i :: EarlyImageAt(EventsOf(p), i)
  {
    var es := EventsOf(p);
    assert Legal(p);
    hide NoWaitBefore, SessionOf, Legal, EventsOf;
    if SessionOf(p).call.rounds == 0 {
      RoundsMean(p);
      OutcomeOfCall(p, Returned(e));
      var i :| LastImageAt(es, i, e.image);
      LastImageIsEarly(es, i, e.image);
    }
    if i :| EarlyImageAt(es, i) {
      EarlyImageStopsWaits(p, i);
      RoundsMean(p);
    }
  }

  /** Position `c` is the exposure command of the current call. */
  predicate CommandAt(es: seq<Event>, c: int) {
    0 <= c < |es| && es[c].ExposureSent? && forall r :: c < r < |es| ==> !es[r].Reset?
  }

  lemma {:induction false} CommandSent(l: Log)
    requires Legal(l)
    requires var c := SessionOf(l).call; c.stage.Commanded? || (c.stage.Waiting? && c.active)
    ensures exists c :: CommandAt(EventsOf(l), c)
  {
    var p, es := EventsOf(l.prior), EventsOf(l);
    assert es == p + [l.event] && es[|p|] == l.event && forall k :: 0 <= k < |p| ==> es[k] == p[k];
    if l.event.ExposureSent? {
      assert CommandAt(es, |p|);
    } else {
      CommandSent(l.prior);
      var c :| CommandAt(p, c);
      assert CommandAt(es, c);
    }
  }

  /**
   A returned image is older than the exposure it is returned for exactly when no image followed the
   command; every completed call has such a command.
   */
  lemma StaleImageAccepted(p: Log, e: Exposure)
    requires Legal(Then(p, Ended(Returned(e)))) && e.complete
    ensures exists c :: CommandAt(EventsOf(p), c)
    ensures forall c :: CommandAt(EventsOf(p), c) ==>
              ((exists i :: i < c && LastImageAt(EventsOf(p), i, e.image)) <==>
               (forall k :: c < k < |EventsOf(p)| ==> !IsImage(EventsOf(p)[k])))
  {
    var es := EventsOf(p);
    CommandSent(p);
    OutcomeOfCall(p, Returned(e));
    var i :| LastImageAt(es, i, e.image);
    hide Legal, SessionOf, EventsOf;
    forall c | CommandAt(es, c)
      ensures (exists i :: i < c && LastImageAt(es, i, e.image)) <==> (forall k :: c < k < |es| ==> !IsImage(es[k]))
    {
      if forall k :: c < k < |es| ==> !IsImage(es[k]) {
        assert IsImage(es[i]) && i < c;
      }
    }
  }

  /** Such runs exist: an image of an earlier exposure, landing before the command, ends the call without a wait. */
  lemma StaleImageRun(stale: Image, duration: real, timeout: real)
    requires stale.bytes != ""
    ensures var l := Then(Then(Then(Then(Then(Start, Reset), AbortCleared), Blob(stale)), ExposureSent(duration)),
                          Started(timeout));
            Legal(Then(l, Ended(Returned(Exposure(true, false, stale))))) && SessionOf(l).call.rounds == 0
  {
    hide SessionOf;
    assert SessionOf(Start) == FRESH by { Fresh(); }
    var a := Then(Then(Start, Reset), AbortCleared);
    var s := Advance(Advance(FRESH, Reset), AbortCleared);
    OneStep(Start, FRESH, Reset);
    OneStep(a.prior, Advance(FRESH, Reset), AbortCleared);
    ThreeSteps(a, s, Blob(stale), ExposureSent(duration), Started(timeout));
  }
}
