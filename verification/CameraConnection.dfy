/**
 Connecting the INDI camera (camera/indi_camera_client.cpp): selection, connection attempts, the
 reconnect loop, and the callbacks that run beside them. The connect mutex lets one attempt run at a
 time; each callback is one atomic step that may fall between any two steps of the attempt.
 */
module CameraConnection {
  import opened Options
  import opened Angles

  datatype Element = Element(name: string, value: real)

  datatype Info = Info(name: string, width: int, height: int, pixelSize: real, bitDepth: int)

  const NO_INFO := Info("", 0, 0, 0.0, 16)

  type Duration = d: real | d >= 0.0

  const POLLS := 50
  const POLL := 0.1
  const SETTLE := 0.3

  /** Who starts a connection attempt: selectDevice, or the reconnect loop. */
  datatype Caller = Selection | Reconnect

  datatype Callback =
    | NewDevice(name: string)
    | DeviceRemoved
    | ServerLost
    | CcdInfo(elements: seq<Element>)
    | Delay(seconds: Duration)

  datatype Event =
    | Reaction(callback: Callback)
    | ServerAnswered(ok: bool)
    | Dropped
    | Claimed(device: string, caller: Caller)
    | Observed(ok: bool)
    | Settled(ok: bool)
    | Released
    | Confirmed
    | Refreshed(device: string, elements: Option<seq<Element>>)

  datatype Log = Start | Then(prior: Log, event: Event)

  /** Where the attempt stands: looking for the device, first sighting, and the second look. */
  datatype Phase = Idle | Polling(polls: nat, since: real) | Seen(at: real) | Decided(ok: bool)

  /** The client's fields, the clock, the attempt under way, and how the last attempt ended. */
  datatype Link = Link(
    device: string, connected: bool, info: Info, infoValid: bool, serverUp: bool, now: real, phase: Phase,
    verdict: Option<bool>)

  const DISCONNECTED := Link("", false, NO_INFO, false, false, 0.0, Idle, None)

  /** One CCD_INFO element; numbers are truncated to integers. */
  function ReadElement(i: Info, e: Element): Info {
    if e.name == "CCD_MAX_X" then i.(width := Trunc(e.value))
    else if e.name == "CCD_MAX_Y" then i.(height := Trunc(e.value))
    else if e.name == "CCD_PIXEL_SIZE" || e.name == "CCD_PIXEL_SIZE_X" then i.(pixelSize := e.value)
    else if e.name == "CCD_BITSPERPIXEL" then i.(bitDepth := Trunc(e.value))
    else i
  }

  function ReadElements(i: Info, elements: seq<Element>): Info
    decreases |elements|
  {
    if elements == [] then i else ReadElements(ReadElement(i, elements[0]), elements[1..])
  }

  /** The last element with one of two names. */
  function LastNamed(elements: seq<Element>, name: string, other: string): Option<real> {
    if elements == [] then None
    else
      var e := elements[|elements| - 1];
      if e.name == name || e.name == other then Some(e.value)
      else LastNamed(elements[..|elements| - 1], name, other)
  }

  function TruncOr(found: Option<real>, otherwise: int): int {
    if found.Some? then Trunc(found.value) else otherwise
  }

  lemma {:induction false} ReadElementsJoined(i: Info, a: seq<Element>, b: seq<Element>)
    ensures ReadElements(i, a + b) == ReadElements(ReadElements(i, a), b)
    decreases |a|
  {
    hide ReadElement;
    if a == [] {
      assert a + b == b;
    } else {
      assert (a + b)[0] == a[0] && (a + b)[1..] == a[1..] + b;
      ReadElementsJoined(ReadElement(i, a[0]), a[1..], b);
    }
  }

  /** The last element of each kind wins, the two names of the pixel size being one kind. */
  lemma {:induction false} LastElementWins(i: Info, elements: seq<Element>)
    ensures var size := LastNamed(elements, "CCD_PIXEL_SIZE", "CCD_PIXEL_SIZE_X");
            ReadElements(i, elements) ==
            Info(i.name, TruncOr(LastNamed(elements, "CCD_MAX_X", "CCD_MAX_X"), i.width),
                 TruncOr(LastNamed(elements, "CCD_MAX_Y", "CCD_MAX_Y"), i.height),
                 if size.Some? then size.value else i.pixelSize,
                 TruncOr(LastNamed(elements, "CCD_BITSPERPIXEL", "CCD_BITSPERPIXEL"), i.bitDepth))
  {
    if elements != [] {
      var init, last := elements[..|elements| - 1], elements[|elements| - 1];
      LastElementWins(i, init);
      assert elements == init + [last];
      ReadElementsJoined(i, init, [last]);
      assert ReadElements(ReadElements(i, init), [last]) == ReadElement(ReadElements(i, init), last) by {
        OneElement(ReadElements(i, init), last);
      }
    }
  }

  lemma OneElement(i: Info, e: Element)
    ensures ReadElements(i, [e]) == ReadElement(i, e)
  {
    assert ReadElements(ReadElement(i, e), []) == ReadElement(i, e);
  }

  predicate HasSize(i: Info) {
    i.width > 0 && i.height > 0
  }

  function WithElements(s: Link, i: Info, elements: seq<Element>): Link {
    var read := ReadElements(i, elements);
    s.(info := read, infoValid := HasSize(read))
  }

  function React(s: Link, c: Callback): Link {
    match c
    case NewDevice(name) => if s.device != "" && s.device == name then s.(connected := true) else s
    case DeviceRemoved => s.(connected := false)
    case ServerLost => s.(connected := false, serverUp := false)
    case CcdInfo(elements) => WithElements(s, s.info, elements)
    case Delay(d) => s.(now := s.now + d)
  }

  function Advance(s: Link, e: Event): Link {
    match e
    case Reaction(c) => React(s, c)
    case ServerAnswered(ok) => s.(serverUp := ok)
    case Dropped => s.(connected := false, serverUp := false)
    case Claimed(d, _) =>
      s.(device := d, connected := false, info := NO_INFO, infoValid := false,
         phase := Polling(0, s.now), verdict := None)
    case Observed(ok) =>
      s.(phase := if ok then Seen(s.now) else if s.phase.Polling? then Polling(s.phase.polls + 1, s.now) else s.phase)
    case Settled(ok) => s.(phase := Decided(ok))
    case Released => s.(device := "", connected := false, phase := Idle, verdict := Some(false))
    case Confirmed => s.(connected := true, phase := Idle, verdict := Some(true))
    case Refreshed(d, None) => s.(info := s.info.(name := d))
    case Refreshed(d, Some(elements)) => WithElements(s, s.info.(name := d), elements)
  }

  function LinkOf(l: Log): Link {
    match l
    case Start => DISCONNECTED
    case Then(p, e) => Advance(LinkOf(p), e)
  }

  /** The device never showed up, or was gone again after the settle delay. */
  predicate Failed(p: Phase) {
    p == Decided(false) || (p.Polling? && p.polls == POLLS)
  }

  /** When the thread that holds the connect mutex may take a step; callbacks are free. */
  predicate Allowed(s: Link, e: Event) {
    match e
    case Reaction(_) => true
    case ServerAnswered(_) => s.phase.Idle? && !s.serverUp
    case Dropped => s.phase.Idle?
    case Claimed(d, caller) => s.phase.Idle? && d != "" && s.serverUp && (caller.Reconnect? ==> d == s.device)
    case Observed(_) => s.phase.Polling? && s.phase.polls < POLLS && s.now >= s.phase.since + POLL
    case Settled(_) => s.phase.Seen? && s.now >= s.phase.at + SETTLE
    case Released => Failed(s.phase)
    case Confirmed => s.phase == Decided(true)
    case Refreshed(d, _) => s.phase.Idle? && d == s.device != ""
  }

  ghost predicate Legal(l: Log) {
    l.Then? ==> Legal(l.prior) && Allowed(LinkOf(l.prior), l.event)
  }

  /** `l` continues `base`. */
  ghost predicate Continues(base: Log, l: Log) {
    l == base || (l.Then? && Continues(base, l.prior))
  }

  /** The attempts of a run, by the steps that start them. */
  function Claims(l: Log): seq<Event> {
    match l
    case Start => []
    case Then(p, e) => if e.Claimed? then Claims(p) + [e] else Claims(p)
  }

  lemma Grown(base: Log, l: Log, e: Event)
    requires Legal(l) && Continues(base, l) && Allowed(LinkOf(l), e)
    ensures Legal(Then(l, e)) && Continues(base, Then(l, e)) && LinkOf(Then(l, e)) == Advance(LinkOf(l), e)
    ensures Claims(Then(l, e)) == if e.Claimed? then Claims(l) + [e] else Claims(l)
  {
    hide Advance;
  }

  lemma {:induction false} StepContinues(base: Log, e: Event, l: Log)
    requires Continues(Then(base, e), l)
    ensures Continues(base, l)
  {
    if l != Then(base, e) {
      StepContinues(base, e, l.prior);
    } else {
      assert Continues(base, base);
    }
  }

  lemma {:induction false} ContinuesFurther(a: Log, b: Log, c: Log)
    requires Continues(a, b) && Continues(b, c)
    ensures Continues(a, c)
  {
    if c != b {
      ContinuesFurther(a, b, c.prior);
    }
  }

  /** Only callbacks ran: the selection, the attempt and an empty selection's flag stay. */
  predicate Undisturbed(a: Link, b: Link) {
    && b.device == a.device && b.phase == a.phase && b.verdict == a.verdict && a.now <= b.now
    && (a.device == "" && !a.connected ==> !b.connected)
    && (b.serverUp ==> a.serverUp)
  }

  lemma ReactUndisturbed(s: Link, c: Callback)
    ensures Undisturbed(s, React(s, c))
  {}

  /** The connection flag after some callbacks, while device `d` is selected. */
  predicate FlagAfter(d: string, flag: bool, callbacks: seq<Callback>)
    decreases |callbacks|
  {
    if callbacks == [] then flag else
    var before := FlagAfter(d, flag, callbacks[..|callbacks| - 1]);
    match callbacks[|callbacks| - 1]
    case NewDevice(name) => (d != "" && name == d) || before
    case DeviceRemoved => false
    case ServerLost => false
    case _ => before
  }

  lemma NoCallbacks(d: string, flag: bool)
    ensures FlagAfter(d, flag, []) == flag
  {}

  lemma FlagStep(s: Link, flag: bool, callbacks: seq<Callback>, i: nat)
    requires i < |callbacks| && s.connected == FlagAfter(s.device, flag, callbacks[..i])
    ensures React(s, callbacks[i]).connected == FlagAfter(s.device, flag, callbacks[..i + 1])
    ensures React(s, callbacks[i]).serverUp == (s.serverUp && callbacks[i] != ServerLost)
  {
    var cs := callbacks[..i + 1];
    assert cs[..|cs| - 1] == callbacks[..i];
  }

  /** The gaps of ensureConnected: between its guard and the attempt, and before it in the reconnect loop. */
  const GUARD_GAP := POLLS + 5
  const LOOP_GAP := POLLS + 6

  /** ensureConnected starts an attempt: a device is selected and not flagged, and there is a server that stays. */
  predicate Retries(device: string, connected: bool, serverUp: bool, w: Weather) {
    device != "" && !connected && (serverUp || w.answers) && ServerLost !in w.gaps(GUARD_GAP)
  }

  /** What the attempt meets: callbacks in its gaps, the answers of its looks at the device, CCD_INFO. */
  datatype Weather = Weather(gaps: nat -> seq<Callback>, looks: nat -> bool, answers: bool, visible: bool,
                             elements: Option<seq<Element>>)

  class CameraClient {
    var device: string
    var connected: bool
    var info: Info
    var infoValid: bool
    var serverUp: bool
    var clock: real
    ghost var log: Log

    ghost predicate Valid()
      reads this
    {
      var s := LinkOf(log);
      && Legal(log)
      && s == Link(device, connected, info, infoValid, serverUp, clock, s.phase, s.verdict)
    }

    constructor ()
      ensures Valid() && log == Start
    {
      device, connected, info, infoValid, serverUp, clock, log := "", false, NO_INFO, false, false, 0.0, Start;
    }

    /** The loop over the elements of CCD_INFO, in handlePropertyUpdate and in refreshInfoFromDevice. */
    method ReadCcdInfo(elements: seq<Element>)
      modifies this`info, this`infoValid
      ensures info == ReadElements(old(info), elements) && infoValid == HasSize(info)
    {
      for i := 0 to |elements|
        modifies this`info
        invariant ReadElements(info, elements[i..]) == ReadElements(old(info), elements)
      {
        assert elements[i..][0] == elements[i] && elements[i..][1..] == elements[i + 1..];
        var e := elements[i];
        if e.name == "CCD_MAX_X" {
          info := info.(width := Trunc(e.value));
        } else if e.name == "CCD_MAX_Y" {
          info := info.(height := Trunc(e.value));
        } else if e.name == "CCD_PIXEL_SIZE" {
          info := info.(pixelSize := e.value);
        } else if e.name == "CCD_PIXEL_SIZE_X" {
          info := info.(pixelSize := e.value);
        } else if e.name == "CCD_BITSPERPIXEL" {
          info := info.(bitDepth := Trunc(e.value));
        }
      }
      infoValid := info.width > 0 && info.height > 0;
    }

    /** One callback. */
    method Call(c: Callback, ghost base: Log)
      requires Valid() && Continues(base, log)
      modifies this`connected, this`info, this`infoValid, this`serverUp, this`clock, this`log
      ensures Valid() && Continues(base, log) && log == Then(old(log), Reaction(c))
      ensures LinkOf(log) == React(old(LinkOf(log)), c)
      ensures Claims(log) == old(Claims(log))
    {
      hide LinkOf, Legal, Continues, Claims, ReadElements;
      Grown(base, log, Reaction(c));
      match c {
        case NewDevice(name) =>
          if device != "" && device == name {
            connected := true;
          }
        case DeviceRemoved => connected := false;
        case ServerLost =>
          connected := false;
          serverUp := false;
        case CcdInfo(elements) => ReadCcdInfo(elements);
        case Delay(d) => clock := clock + d;
      }
      log := Then(log, Reaction(c));
    }

    /** A gap between two steps of an attempt. */
    method Gap(callbacks: seq<Callback>, ghost base: Log)
      requires Valid() && Continues(base, log)
      modifies this`connected, this`info, this`infoValid, this`serverUp, this`clock, this`log
      ensures Valid() && Continues(base, log) && Undisturbed(old(LinkOf(log)), LinkOf(log))
      ensures Claims(log) == old(Claims(log))
      ensures connected == FlagAfter(device, old(connected), callbacks)
      ensures serverUp == (old(serverUp) && ServerLost !in callbacks)
    {
      hide LinkOf, Legal, Continues, Claims, React, FlagAfter;
      assert old(connected) == FlagAfter(device, old(connected), callbacks[..0]) by { NoCallbacks(device, old(connected)); }
      for i := 0 to |callbacks|
        modifies this`connected, this`info, this`infoValid, this`serverUp, this`clock, this`log
        invariant Valid() && Continues(base, log) && Undisturbed(old(LinkOf(log)), LinkOf(log))
        invariant Claims(log) == old(Claims(log))
        invariant connected == FlagAfter(device, old(connected), callbacks[..i])
        invariant serverUp == (old(serverUp) && ServerLost !in callbacks[..i])
      {
        ReactUndisturbed(LinkOf(log), callbacks[i]);
        FlagStep(LinkOf(log), old(connected), callbacks, i);
        assert callbacks[..i + 1] == callbacks[..i] + [callbacks[i]];
        Call(callbacks[i], base);
      }
      assert callbacks[..|callbacks|] == callbacks;
    }

    /** sleep_for: at least `seconds` pass. */
    method Sleep(seconds: Duration, callbacks: seq<Callback>, ghost base: Log)
      requires Valid() && Continues(base, log)
      modifies this`connected, this`info, this`infoValid, this`serverUp, this`clock, this`log
      ensures Valid() && Continues(base, log) && Undisturbed(old(LinkOf(log)), LinkOf(log))
      ensures LinkOf(log).now >= old(LinkOf(log)).now + seconds
      ensures Claims(log) == old(Claims(log))
      ensures connected == FlagAfter(device, old(connected), callbacks)
      ensures serverUp == (old(serverUp) && ServerLost !in callbacks)
    {
      hide LinkOf, Legal, Continues, Claims;
      Call(Delay(seconds), base);
      Gap(callbacks, base);
    }

    /** The wait for the driver: up to fifty looks, and one more after the settle delay. */
    method LookForDevice(w: Weather, ghost base: Log) returns (seen: bool)
      requires Valid() && Continues(base, log)
      requires LinkOf(log).phase.Polling? && LinkOf(log).phase.polls == 0 && LinkOf(log).phase.since <= clock
      modifies this`connected, this`info, this`infoValid, this`serverUp, this`clock, this`log
      ensures Valid() && Continues(base, log) && Claims(log) == old(Claims(log))
      ensures if seen then LinkOf(log).phase == Decided(true)
              else Failed(LinkOf(log).phase)
    {
      hide LinkOf, Legal, Continues, Claims, React;
      seen := false;
      var i := 0;
      while i < POLLS
        modifies this`connected, this`info, this`infoValid, this`serverUp, this`clock, this`log
        invariant Valid() && Continues(base, log) && LinkOf(log).phase.Polling? && LinkOf(log).phase.polls == i
        invariant 0 <= i <= POLLS && !seen && LinkOf(log).phase.since <= clock && Claims(log) == old(Claims(log))
      {
        Sleep(POLL, w.gaps(i + 1), base);
        var look := w.looks(i);
        Grown(base, log, Observed(look));
        log := Then(log, Observed(look));
        if look {
          seen := true;
          break;
        }
        i := i + 1;
      }

      if seen {
        Sleep(SETTLE, w.gaps(POLLS + 1), base);
        seen := w.looks(POLLS);
        Grown(base, log, Settled(seen));
        log := Then(log, Settled(seen));
      }
    }

    /** The end of an attempt: the selection is given up, or the camera counts as connected. */
    method Conclude(d: string, seen: bool, w: Weather, ghost base: Log)
      requires Valid() && Continues(base, log) && device == d != ""
      requires if seen then LinkOf(log).phase == Decided(true)
               else Failed(LinkOf(log).phase)
      modifies this
      ensures Valid() && Continues(base, log) && LinkOf(log).phase.Idle?
      ensures LinkOf(log).verdict == Some(seen) && Claims(log) == old(Claims(log))
      ensures if seen then device == d else device == "" && !connected
    {
      hide LinkOf, Legal, Continues, Claims, React;
      if !seen {
        Grown(base, log, Released);
        device := "";
        connected := false;
        log := Then(log, Released);
        Gap(w.gaps(POLLS + 3), base);
        return;
      }
      Grown(base, log, Confirmed);
      connected := true;
      log := Then(log, Confirmed);
      Gap(w.gaps(POLLS + 3), base);
      RefreshInfo(d, w, base);
    }

    /**
     connectCamera. It fails at once without a device name or a server; past that guard it selects the
     device, looks for it up to fifty times, and looks once more after the settle delay.
     */
    method ConnectCamera(d: string, caller: Caller, w: Weather) returns (ok: bool)
      requires Valid() && LinkOf(log).phase.Idle?
      requires caller.Reconnect? ==> d == device
      modifies this
      ensures Valid() && Continues(old(log), log) && LinkOf(log).phase.Idle?
      ensures d == "" || !old(serverUp) ==> !ok && log == old(log)
      ensures d != "" && old(serverUp) ==>
                && Continues(Then(old(log), Claimed(d, caller)), log)
                && Claims(log) == old(Claims(log)) + [Claimed(d, caller)]
                && LinkOf(log).verdict == Some(ok)
                && (if ok then device == d else device == "" && !connected)
    {
      if d == "" || !serverUp {
        return false;
      }
      ghost var base := Then(log, Claimed(d, caller));
      assert Continues(log, log);
      Grown(log, log, Claimed(d, caller));
      assert Continues(base, base);
      hide LinkOf, Legal, Continues, Claims, React;
      device := d;
      info := NO_INFO;
      infoValid := false;
      connected := false;
      log := Then(log, Claimed(d, caller));
      Gap(w.gaps(0), base);
      ok := LookForDevice(w, base);
      Gap(w.gaps(POLLS + 2), base);
      Conclude(d, ok, w, base);
      StepContinues(old(log), Claimed(d, caller), log);
    }

    /** refreshInfoFromDevice: nothing happens when the device is not visible. */
    method RefreshInfo(d: string, w: Weather, ghost base: Log)
      requires Valid() && Continues(base, log) && LinkOf(log).phase.Idle? && d == device != ""
      modifies this
      ensures Valid() && Continues(base, log) && LinkOf(log).phase.Idle? && device == d
      ensures LinkOf(log).verdict == old(LinkOf(log)).verdict && Claims(log) == old(Claims(log))
    {
      hide LinkOf, Legal, Continues, Claims, ReadElements, React;
      if w.visible {
        Grown(base, log, Refreshed(d, w.elements));
        info := info.(name := d);
        if w.elements.Some? {
          ReadCcdInfo(w.elements.value);
        }
        log := Then(log, Refreshed(d, w.elements));
        Gap(w.gaps(POLLS + 4), base);
      }
    }

    /** disconnectFromServer: the selected device is kept. */
    method DisconnectFromServer()
      requires Valid() && LinkOf(log).phase.Idle?
      modifies this`connected, this`serverUp, this`log
      ensures Valid() && log == Then(old(log), Dropped) && !connected && !serverUp
    {
      serverUp := false;
      connected := false;
      log := Then(log, Dropped);
    }

    /** connectToServer, as called when the server is down. */
    method ConnectToServer(answers: bool) returns (ok: bool)
      requires Valid() && LinkOf(log).phase.Idle? && !serverUp
      modifies this`serverUp, this`log
      ensures Valid() && log == Then(old(log), ServerAnswered(answers)) && ok == serverUp == answers
      ensures LinkOf(log).phase.Idle? && Claims(log) == old(Claims(log))
    {
      serverUp := answers;
      log := Then(log, ServerAnswered(answers));
      ok := serverUp;
    }

    /**
     ensureConnected. It attempts the selected device exactly when there is one, the flag does not say
     that it is connected, and the server is up or answers and is not lost before the attempt.
     */
    method EnsureConnected(w: Weather, ghost base: Log)
      requires Valid() && Continues(base, log) && LinkOf(log).phase.Idle?
      modifies this
      ensures Valid() && Continues(base, log) && LinkOf(log).phase.Idle?
      ensures Claims(log) == old(Claims(log)) +
                if Retries(old(device), old(connected), old(serverUp), w) then [Claimed(old(device), Reconnect)] else []
      ensures old(device) == "" ==> device == "" && (old(!connected) ==> !connected)
    {
      var selected := device;
      if !serverUp {
        var ok := ConnectToServer(w.answers);
        if !ok {
          return;
        }
      }
      if selected != "" && !connected {
        Gap(w.gaps(GUARD_GAP), base);
        ghost var before := log;
        var ok := ConnectCamera(selected, Reconnect, w);
        ContinuesFurther(base, before, log);
      }
    }

    /**
     selectDevice. The empty name only drops the server connection: the device stays selected, so the
     reconnect loop will connect it again.
     */
    method SelectDevice(d: string, w: Weather) returns (ok: bool)
      requires Valid() && LinkOf(log).phase.Idle?
      modifies this
      ensures Valid() && Continues(old(log), log) && LinkOf(log).phase.Idle?
      ensures d == "" ==> ok && device == old(device) && !connected && !serverUp && log == Then(old(log), Dropped)
      ensures d != "" && !old(serverUp) && !w.answers ==> !ok && device == old(device)
      ensures d != "" && (old(serverUp) || w.answers) ==>
                && LinkOf(log).verdict == Some(ok)
                && if ok then device == d else device == "" && !connected
      ensures Claims(log) == old(Claims(log)) +
                if d != "" && (old(serverUp) || w.answers) then [Claimed(d, Selection)] else []
    {
      if d == "" {
        DisconnectFromServer();
        return true;
      }
      if !serverUp {
        var answered := ConnectToServer(w.answers);
        if !answered {
          return false;
        }
      }
      ghost var before := log;
      ok := ConnectCamera(d, Selection, w);
      assert Continues(old(log), before);
      ContinuesFurther(old(log), before, log);
    }

    /** One turn of the reconnect loop: five seconds, then ensureConnected. */
    method ReconnectRound(w: Weather, ghost base: Log)
      requires Valid() && Continues(base, log) && LinkOf(log).phase.Idle?
      modifies this
      ensures Valid() && Continues(base, log) && LinkOf(log).phase.Idle?
      ensures var d, cs := old(device), w.gaps(LOOP_GAP);
              Claims(log) == old(Claims(log)) +
                if Retries(d, FlagAfter(d, old(connected), cs), old(serverUp) && ServerLost !in cs, w)
                then [Claimed(d, Reconnect)] else []
      ensures old(device) == "" ==> device == "" && (old(!connected) ==> !connected)
    {
      hide LinkOf, Legal, Continues, Claims;
      Sleep(5.0, w.gaps(LOOP_GAP), base);
      EnsureConnected(w, base);
    }

    /** The reconnect loop, for any number of rounds: with no device selected it never starts an attempt. */
    method ReconnectLoop(rounds: nat, w: nat -> Weather)
      requires Valid() && LinkOf(log).phase.Idle?
      modifies this
      ensures Valid() && Continues(old(log), log) && LinkOf(log).phase.Idle?
      ensures old(device) == "" ==>
                device == "" && Claims(log) == old(Claims(log)) && (old(!connected) ==> !connected)
    {
      ghost var base := log;
      assert Continues(base, log);
      hide LinkOf, Legal, Continues, Claims;
      for i := 0 to rounds
        modifies this
        invariant Valid() && Continues(base, log) && LinkOf(log).phase.Idle?
        invariant old(device) == "" ==>
                    device == "" && Claims(log) == old(Claims(log)) && (old(!connected) ==> !connected)
      {
        ReconnectRound(w(i), base);
      }
    }
  }
}
