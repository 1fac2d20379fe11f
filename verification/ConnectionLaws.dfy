/** What every run of the camera connection keeps, whatever the callbacks do. */
module ConnectionLaws {
  import opened Options
  import opened CameraConnection

  function EventsOf(l: Log): seq<Event> {
    match l
    case Start => []
    case Then(p, e) => EventsOf(p) + [e]
  }

  /** A camera counts as connected only while one is selected; its data count as valid exactly with a size. */
  predicate Sound(s: Link) {
    && (s.connected ==> s.device != "")
    && (s.infoValid <==> HasSize(s.info))
    && (!s.phase.Idle? ==> s.device != "")
  }

  lemma SoundStep(s: Link, e: Event)
    requires Sound(s) && Allowed(s, e)
    ensures Sound(Advance(s, e))
  {}

  lemma {:induction false} RunsAreSound(l: Log)
    requires Legal(l)
    ensures Sound(LinkOf(l))
  {
    if l.Then? {
      RunsAreSound(l.prior);
      SoundStep(LinkOf(l.prior), l.event);
    }
  }

  // ---------- Two sightings ----------

  /** The time that the first events of a run take. */
  function TimeOf(es: seq<Event>): real {
    if es == [] then 0.0 else
    TimeOf(es[..|es| - 1]) + Lasting(es[|es| - 1])
  }

  function Lasting(e: Event): real {
    if e.Reaction? && e.callback.Delay? then e.callback.seconds else 0.0
  }

  lemma TimeStep(s: Link, es: seq<Event>, e: Event)
    ensures Advance(s, e).now == s.now + Lasting(e)
    ensures TimeOf(es + [e]) == TimeOf(es) + Lasting(e)
  {
    assert (es + [e])[..|es|] == es;
  }

  lemma {:induction false} NowIsTime(l: Log)
    ensures LinkOf(l).now == TimeOf(EventsOf(l))
  {
    hide Advance, TimeOf, Lasting;
    if l.Then? {
      NowIsTime(l.prior);
      TimeStep(LinkOf(l.prior), EventsOf(l.prior), l.event);
    } else {
      assert TimeOf([]) == 0.0 by { TimeOfNone(); }
    }
  }

  lemma TimeOfNone()
    ensures TimeOf([]) == 0.0
  {}

  /** From position `i` on, the attempt is undisturbed by a new one. */
  predicate SameAttempt(es: seq<Event>, i: int) {
    0 <= i < |es| && forall j :: i < j < |es| ==> !EndsAttempt(es[j])
  }

  predicate SightedAt(es: seq<Event>, i: int, at: real) {
    SameAttempt(es, i) && es[i] == Observed(true) && TimeOf(es[..i]) == at
  }

  /** How an attempt came to have seen its device, and to have decided for it. */
  lemma LastStep(l: Log)
    requires Legal(l) && l.Then?
    ensures var a, b := LinkOf(l.prior), LinkOf(l).phase;
            && (b.Seen? ==> if l.event.Observed? then l.event.ok && b.at == a.now else b == a.phase && !EndsAttempt(l.event))
            && (b == Decided(true) ==>
                  if l.event.Settled? then l.event.ok && a.phase.Seen? && a.now - a.phase.at >= SETTLE
                  else b == a.phase && !EndsAttempt(l.event))
  {}

  predicate EndsAttempt(e: Event) {
    e.Claimed? || e.Released? || e.Confirmed?
  }

  lemma {:induction false} SeenMeans(l: Log)
    requires Legal(l) && LinkOf(l).phase.Seen?
    ensures exists i :: SightedAt(EventsOf(l), i, LinkOf(l).phase.at)
  {
    LastStep(l);
    hide Advance, Allowed, TimeOf;
    var p, es, at := EventsOf(l.prior), EventsOf(l), LinkOf(l).phase.at;
    assert es == p + [l.event] && es[|p|] == l.event && es[..|p|] == p;
    if l.event.Observed? {
      NowIsTime(l.prior);
      assert SightedAt(es, |p|, at);
    } else {
      SeenMeans(l.prior);
      var i :| SightedAt(p, i, at);
      assert es[..i] == p[..i];
      assert SightedAt(es, i, at);
    }
  }

  /** Two looks at the device in one attempt, at least the settle delay apart, both finding it connected. */
  predicate TwoSightings(es: seq<Event>, i: int, j: int) {
    && SameAttempt(es, i) && i < j < |es|
    && es[i] == Observed(true) && es[j] == Settled(true)
    && TimeOf(es[..j]) - TimeOf(es[..i]) >= SETTLE
  }

  lemma {:induction false} DecidedMeans(l: Log)
    requires Legal(l) && LinkOf(l).phase == Decided(true)
    ensures exists i, j :: TwoSightings(EventsOf(l), i, j)
  {
    LastStep(l);
    hide Advance, Allowed, TimeOf;
    var p, es := EventsOf(l.prior), EventsOf(l);
    assert es == p + [l.event] && es[|p|] == l.event && es[..|p|] == p;
    if l.event.Settled? {
      SeenMeans(l.prior);
      NowIsTime(l.prior);
      var i :| SightedAt(p, i, LinkOf(l.prior).phase.at);
      assert es[..i] == p[..i];
      assert TwoSightings(es, i, |p|);
    } else {
      DecidedMeans(l.prior);
      var i, j :| TwoSightings(p, i, j);
      assert es[..i] == p[..i] && es[..j] == p[..j];
      assert TwoSightings(es, i, j);
    }
  }

  /** connectCamera counts a camera as connected only after two sightings at least 300 ms apart. */
  lemma ConfirmedTwice(p: Log)
    requires Legal(Then(p, Confirmed))
    ensures exists i, j :: TwoSightings(EventsOf(p), i, j)
  {
    DecidedMeans(p);
  }

  /** Position `n` ends an attempt that was confirmed, on two sightings. */
  predicate ConfirmedAt(es: seq<Event>, n: int, i: int, j: int) {
    0 <= n < |es| && es[n].Confirmed? && TwoSightings(es[..n], i, j) && forall k :: n < k < |es| ==> !EndsAttempt(es[k])
  }

  /** The last attempt succeeded, as connectCamera reports, only on two such sightings. */
  lemma {:induction false} SuccessMeans(l: Log)
    requires Legal(l) && LinkOf(l).verdict == Some(true)
    ensures exists n, i, j :: ConfirmedAt(EventsOf(l), n, i, j)
  {
    var p, es := EventsOf(l.prior), EventsOf(l);
    assert es == p + [l.event] && es[|p|] == l.event && es[..|p|] == p;
    hide Advance, TwoSightings;
    if l.event.Confirmed? {
      ConfirmedTwice(l.prior);
      var i, j :| TwoSightings(p, i, j);
      assert ConfirmedAt(es, |p|, i, j);
    } else {
      LastVerdict(l);
      SuccessMeans(l.prior);
      var n, i, j :| ConfirmedAt(p, n, i, j);
      assert es[..n] == p[..n];
      assert ConfirmedAt(es, n, i, j);
    }
  }

  lemma LastVerdict(l: Log)
    requires l.Then? && LinkOf(l).verdict == Some(true) && !l.event.Confirmed?
    ensures LinkOf(l.prior).verdict == Some(true) && !EndsAttempt(l.event)
  {}

  // ---------- Giving up, and coming back ----------

  lemma EmptyStep(s: Link, e: Event)
    requires Sound(s) && Allowed(s, e)
    ensures e.Released? ==> Advance(s, e).device == ""
    ensures s.device == "" && !e.Claimed? ==> Advance(s, e).device == "" && (!s.connected ==> !Advance(s, e).connected)
  {}

  lemma {:induction false} ClaimsGrow(base: Log, l: Log)
    requires Continues(base, l)
    ensures |Claims(base)| <= |Claims(l)|
    ensures |Claims(base)| == |Claims(l)| ==> Claims(base) == Claims(l)
  {
    if l != base {
      ClaimsGrow(base, l.prior);
    }
  }

  /** With nothing selected, nothing but a new attempt selects or connects a camera. */
  lemma {:induction false} EmptySelectionStays(base: Log, l: Log)
    requires Legal(l) && Continues(base, l) && Claims(l) == Claims(base)
    requires LinkOf(base).device == "" && !LinkOf(base).connected
    ensures LinkOf(l).device == "" && !LinkOf(l).connected
  {
    hide Advance, Allowed, Sound;
    if l != base {
      ClaimsGrow(base, l.prior);
      EmptySelectionStays(base, l.prior);
      RunsAreSound(l.prior);
      EmptyStep(LinkOf(l.prior), l.event);
    }
  }

  /** The last attempt of a run: its outcome if it was given up and nothing was selected since. */
  lemma {:induction false} AbandonedMeans(l: Log, i: int)
    requires Legal(l) && 0 <= i < |EventsOf(l)| && EventsOf(l)[i].Released?
    requires forall j :: i < j < |EventsOf(l)| ==> !EventsOf(l)[j].Claimed?
    ensures LinkOf(l).device == ""
  {
    var p, es := EventsOf(l.prior), EventsOf(l);
    assert es == p + [l.event] && es[|p|] == l.event && forall k :: 0 <= k < |p| ==> es[k] == p[k];
    hide Advance, Allowed, Sound;
    RunsAreSound(l.prior);
    EmptyStep(LinkOf(l.prior), l.event);
    if i < |p| {
      AbandonedMeans(l.prior, i);
    }
  }

  /** After a failed attempt the reconnect loop makes no other until a camera is selected again. */
  lemma {:induction false} FailedAttemptNotRetried(l: Log, i: int, k: int)
    requires Legal(l) && 0 <= i < k < |EventsOf(l)|
    requires EventsOf(l)[i].Released? && EventsOf(l)[k].Claimed? && EventsOf(l)[k].caller.Reconnect?
    ensures exists j :: i < j < k && EventsOf(l)[j].Claimed? && EventsOf(l)[j].caller.Selection?
  {
    var p, es := EventsOf(l.prior), EventsOf(l);
    assert es == p + [l.event] && es[|p|] == l.event && forall n :: 0 <= n < |p| ==> es[n] == p[n];
    if k < |p| {
      FailedAttemptNotRetried(l.prior, i, k);
      var j :| i < j < k && p[j].Claimed? && p[j].caller.Selection?;
      assert es[j].Claimed?;
    } else if j :| i < j < k && p[j].Claimed? {
      if p[j].caller.Reconnect? {
        FailedAttemptNotRetried(l.prior, i, j);
        var n :| i < n < j && p[n].Claimed? && p[n].caller.Selection?;
        assert es[n].Claimed?;
      } else {
        assert es[j].Claimed?;
      }
    } else {
      AbandonedMeans(l.prior, i);
    }
  }

  /**
   selectDevice("") keeps the selection. The next round of the reconnect loop attempts exactly the camera
   that was deselected, if the server answers and stays and no callback raises the flag before.
   */
  method DeselectedComesBack(c: CameraClient, w0: Weather, w: Weather)
    requires c.Valid() && LinkOf(c.log).phase.Idle?
    modifies c
    ensures c.Valid() && Continues(old(c.log), c.log)
    ensures var d := old(c.device);
            Claims(c.log) == old(Claims(c.log)) +
              if d != "" && w.answers && !FlagAfter(d, false, w.gaps(LOOP_GAP)) && ServerLost !in w.gaps(GUARD_GAP)
              then [Claimed(d, Reconnect)] else []
  {
    ghost var base := c.log;
    var ok := c.SelectDevice("", w0);
    c.ReconnectRound(w, base);
  }

  // ---------- A connection that is not there ----------

  /** Up to the second sighting of device `d`. */
  function Sighted(d: string): Log {
    Then(Then(Then(Then(Then(Then(Start, ServerAnswered(true)), Claimed(d, Selection)), Reaction(Delay(POLL))),
                        Observed(true)), Reaction(Delay(SETTLE))), Settled(true))
  }

  /**
   The flag set after the second sighting overwrites a loss of the server reported just before. The
   camera then counts as connected without a server, and the reconnect loop leaves it alone.
   */
  lemma LossOverwritten(d: string)
    requires d != ""
    ensures var l := Then(Then(Sighted(d), Reaction(ServerLost)), Confirmed);
            Legal(l) && LinkOf(l).connected && !LinkOf(l).serverUp
  {
    var a := Then(Then(Then(Start, ServerAnswered(true)), Claimed(d, Selection)), Reaction(Delay(POLL)));
    assert Legal(Then(Start, ServerAnswered(true))) && Legal(a.prior) && Legal(a) && LinkOf(a).phase == Polling(0, 0.0);
    var b := Then(Then(a, Observed(true)), Reaction(Delay(SETTLE)));
    assert Legal(Then(a, Observed(true))) && LinkOf(Then(a, Observed(true))).phase.Seen?;
    assert Legal(b) && Legal(Then(b, Settled(true))) && LinkOf(Then(b, Settled(true))).phase == Decided(true);
    assert Legal(Then(Then(b, Settled(true)), Reaction(ServerLost)));
  }

  /** The server was lost, and no attempt was started after that. */
  predicate LostLast(es: seq<Event>) {
    exists i :: 0 <= i < |es| && es[i] == Reaction(ServerLost) && forall j :: i < j < |es| ==> !es[j].Claimed?
  }

  lemma LostAppended(p: seq<Event>, e: Event)
    ensures LostLast(p + [e]) <==> e == Reaction(ServerLost) || (!e.Claimed? && LostLast(p))
  {
    var es := p + [e];
    assert es[|p|] == e && forall k :: 0 <= k < |p| ==> es[k] == p[k];
    if e != Reaction(ServerLost) && !e.Claimed? && LostLast(p) {
      var i :| 0 <= i < |p| && p[i] == Reaction(ServerLost) && forall j :: i < j < |p| ==> !p[j].Claimed?;
      assert es[i] == Reaction(ServerLost);
    }
  }

  lemma ServerStep(s: Link, e: Event)
    requires Allowed(s, e) && !Advance(s, e).phase.Idle?
    ensures e.Claimed? || !s.phase.Idle?
    ensures Advance(s, e).serverUp <==> e.Claimed? || (s.serverUp && e != Reaction(ServerLost))
  {}

  /** During an attempt the server is up exactly when it was not lost since the attempt began. */
  lemma {:induction false} ServerDuringAttempt(l: Log)
    requires Legal(l) && !LinkOf(l).phase.Idle?
    ensures LinkOf(l).serverUp <==> !LostLast(EventsOf(l))
  {
    hide Advance, Allowed, LostLast;
    ServerStep(LinkOf(l.prior), l.event);
    LostAppended(EventsOf(l.prior), l.event);
    if !l.event.Claimed? {
      ServerDuringAttempt(l.prior);
    }
  }

  /** connectCamera sets the flag without a server exactly when the server was lost during the attempt. */
  lemma ConfirmedTruly(p: Log)
    requires Legal(Then(p, Confirmed))
    ensures var s := LinkOf(Then(p, Confirmed));
            s.connected && (!s.serverUp <==> LostLast(EventsOf(p)))
  {
    ServerDuringAttempt(p);
  }
}
