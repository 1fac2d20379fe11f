/**
 Automatic recovery from a controller error, limited to one attempt per ten seconds: in the ASCOM
 driver under overlapping poll callbacks (ascom/StateCache.cs), in the INDI driver on its one polling
 thread (indi/astro_mount_driver.cpp).
 */
module ErrorRecovery {
  import opened Options

  const LIMIT := 10.0

  // ---------- The ASCOM state cache ----------

  /** The controller's answer to one poll: its state, or no answer. */
  datatype Answer = NoAnswer | State(id: int, inError: bool)

  /** A thread inside PollCallback: waiting for the answer, holding it, having read the clock, or due to recover. */
  datatype Poll = Asking | Stored(inError: bool) | Timed(now: real) | Claiming | Done

  /** What one thread does next; the clock reading of an erring poll is arbitrary. */
  datatype Move = Enter | Step(thread: nat, answer: Answer, clock: real) | Dispose

  /** The last claim starts at DateTime.MinValue. */
  class StateCache {
    var cached: Option<int>
    var lastErrorRecovery: real
    var disposed: bool
    var polls: seq<Poll>
    ghost var claims: seq<real>
    ghost var owned: map<nat, nat>
    ghost var cleared: set<nat>
    ghost var calls: nat
    const minValue: real

    /** Claims are ten seconds apart, and every call of ClearErrors, made or due, has a claim of its own. */
    ghost predicate Valid()
      reads this
    {
      && Spaced(claims, minValue)
      && lastErrorRecovery == Last(claims, minValue)
      && calls == |cleared|
      && (forall k :: k in cleared ==> k < |claims|)
      && OwnClaims(polls, owned, |claims|, cleared)
    }

    constructor (minValue: real)
      ensures Valid() && claims == [] && calls == 0 && this.minValue == minValue
    {
      this.minValue := minValue;
      cached, lastErrorRecovery, disposed, polls := None, minValue, false, [];
      claims, owned, cleared, calls := [], map[], {}, 0;
    }

    /** A timer tick or a Refresh: one more callback starts, unless the cache is disposed. */
    method EnterPoll()
      requires Valid()
      modifies this`polls
      ensures Valid() && polls == if disposed then old(polls) else old(polls) + [Asking]
    {
      if disposed {
        return;
      }
      polls := polls + [Asking];
    }

    /** GetState: a failed poll ends, an answer is stored, and an erring one reads the clock. */
    method Ask(t: nat, answer: Answer)
      requires Valid() && t < |polls| && polls[t].Asking?
      modifies this`cached, this`polls
      ensures Valid() && polls == old(polls)[t := if answer.State? then Stored(answer.inError) else Done]
      ensures cached == if answer.State? then Some(answer.id) else old(cached)
    {
      if answer.State? {
        cached := Some(answer.id);
        polls := polls[t := Stored(answer.inError)];
      } else {
        polls := polls[t := Done];
      }
    }

    method ReadClock(t: nat, clock: real)
      requires Valid() && t < |polls| && polls[t].Stored?
      modifies this`polls
      ensures Valid() && polls == old(polls)[t := if old(polls[t]).inError then Timed(clock) else Done]
    {
      polls := polls[t := if polls[t].inError then Timed(clock) else Done];
    }

    /** The section under the lock that decides whether callback `t` recovers. */
    method Claim(t: nat)
      requires Valid() && t < |polls| && polls[t].Timed?
      modifies this`lastErrorRecovery, this`polls, this`claims, this`owned
      ensures Valid()
      ensures var now, claimed := old(polls[t]).now, Claims(old(polls[t]).now, old(lastErrorRecovery));
              && claims == (if claimed then old(claims) + [now] else old(claims))
              && polls == old(polls)[t := if claimed then Claiming else Done]
    {
      var now := polls[t].now;
      if now - lastErrorRecovery < LIMIT {
        polls := polls[t := Done];
        return;
      }
      SpacedAppended(claims, now, minValue);
      lastErrorRecovery := now;
      owned := owned[t := |claims|];
      claims := claims + [now];
      polls := polls[t := Claiming];
    }

    /** ClearErrors, outside the lock; whether it works makes no difference. */
    method ClearErrors(t: nat)
      requires Valid() && t < |polls| && polls[t].Claiming?
      modifies this`polls, this`cleared, this`calls
      ensures Valid() && calls == old(calls) + 1 && polls == old(polls)[t := Done]
    {
      cleared := cleared + {owned[t]};
      calls := calls + 1;
      polls := polls[t := Done];
    }

    /** Any run of timer ticks, refreshes and callback steps, in any order and with any clock. */
    method Run(moves: seq<Move>)
      requires Valid()
      modifies this
      ensures Valid() && old(claims) <= claims && old(calls) <= calls <= |claims|
    {
      for i := 0 to |moves|
        modifies this
        invariant Valid() && old(claims) <= claims && old(calls) <= calls
      {
        match moves[i] {
          case Enter => EnterPoll();
          case Step(t, answer, clock) =>
            if t < |polls| {
              match polls[t] {
                case Asking => Ask(t, answer);
                case Stored(_) => ReadClock(t, clock);
                case Timed(_) => Claim(t);
                case Claiming => ClearErrors(t);
                case Done =>
              }
            }
          case Dispose => disposed := true;
        }
      }
      BoundedSet(cleared, |claims|);
    }
  }

  predicate Claims(now: real, last: real) {
    now - last >= LIMIT
  }

  function Last(claims: seq<real>, first: real): real {
    if claims == [] then first else claims[|claims| - 1]
  }

  /** Each claim is at least ten seconds after the one before it. */
  predicate Spaced(claims: seq<real>, first: real) {
    forall i :: 0 <= i < |claims| ==> Claims(claims[i], Last(claims[..i], first))
  }

  lemma SpacedAppended(claims: seq<real>, now: real, first: real)
    requires Spaced(claims, first) && Claims(now, Last(claims, first))
    ensures Spaced(claims + [now], first)
  {
    hide Last, Claims;
    var all := claims + [now];
    forall i | 0 <= i < |all|
      ensures Claims(all[i], Last(all[..i], first))
    {
      if i < |claims| {
        assert all[..i] == claims[..i] && all[i] == claims[i];
      } else {
        assert all[..i] == claims;
      }
    }
  }

  /** The callbacks due to recover hold different claims, none of them used. */
  ghost predicate OwnClaims(polls: seq<Poll>, owned: map<nat, nat>, claims: nat, cleared: set<nat>) {
    && (forall t :: 0 <= t < |polls| && polls[t].Claiming? ==> t in owned && owned[t] < claims && owned[t] !in cleared)
    && (forall t, u :: 0 <= t < u < |polls| && polls[t].Claiming? && polls[u].Claiming? ==> owned[t] != owned[u])
  }

  lemma {:induction false} BoundedSet(s: set<nat>, n: nat)
    requires forall k :: k in s ==> k < n
    ensures |s| <= n
  {
    if n == 0 {
      assert s == {};
    } else {
      BoundedSet(s - {n - 1}, n - 1);
      assert s <= (s - {n - 1}) + {n - 1};
      if n - 1 in s {
        assert s == (s - {n - 1}) + {n - 1};
      } else {
        assert s == s - {n - 1};
      }
    }
  }

  // ---------- The limit over a span of time ----------

  lemma {:induction false} SpacedApart(claims: seq<real>, first: real, i: nat, j: nat)
    requires Spaced(claims, first) && i <= j < |claims|
    ensures claims[j] - claims[i] >= (j - i) as real * LIMIT
  {
    if i < j {
      SpacedApart(claims, first, i, j - 1);
      assert Claims(claims[j], Last(claims[..j], first));
    }
  }

  /** Claims that span a time w number at most floor(w / 10) + 1. */
  lemma ClaimsInSpan(claims: seq<real>, first: real, i: nat, j: nat, w: real)
    requires Spaced(claims, first) && i <= j < |claims| && claims[j] - claims[i] <= w
    ensures j - i + 1 <= (w / LIMIT).Floor + 1
  {
    SpacedApart(claims, first, i, j);
    var x := w / LIMIT;
    assert x * LIMIT == w;
    assert (j - i) as real <= x;
  }

  // ---------- The INDI driver ----------

  const SECOND := 1_000_000_000

  datatype Status = Idle | Slewing | Tracking | Parked | Error | Unknown

  /** One poll of the driver: the reported status, the steady clock in nanoseconds, and whether ClearErrors works. */
  datatype Reading = Reading(status: Status, now: int, clears: bool)

  /** duration_cast to whole seconds truncates towards zero. */
  function WholeSeconds(ns: int): int {
    if ns >= 0 then ns / SECOND else -(-ns / SECOND)
  }

  /** The default time point, zero, stands for never. */
  predicate MayRecover(last: int, now: int) {
    last == 0 || WholeSeconds(now - last) >= 10
  }

  predicate Attempted(last: int, r: Reading) {
    r.status.Error? && MayRecover(last, r.now)
  }

  function Stamp(last: int, r: Reading): int {
    if Attempted(last, r) && r.clears then r.now else last
  }

  /** The times of the calls to ClearErrors, and of those that succeeded. */
  function Attempts(last: int, rs: seq<Reading>): seq<int>
    decreases |rs|
  {
    if rs == [] then [] else
    (if Attempted(last, rs[0]) then [rs[0].now] else []) + Attempts(Stamp(last, rs[0]), rs[1..])
  }

  function Successes(last: int, rs: seq<Reading>): seq<int>
    decreases |rs|
  {
    if rs == [] then [] else
    (if Attempted(last, rs[0]) && rs[0].clears then [rs[0].now] else []) + Successes(Stamp(last, rs[0]), rs[1..])
  }

  lemma HistoryStep(last: int, rs: seq<Reading>, i: nat, attempts: seq<int>, successes: seq<int>)
    requires i < |rs|
    ensures attempts + Attempts(last, rs[i..]) ==
            (attempts + if Attempted(last, rs[i]) then [rs[i].now] else []) + Attempts(Stamp(last, rs[i]), rs[i + 1..])
    ensures successes + Successes(last, rs[i..]) ==
            (successes + if Attempted(last, rs[i]) && rs[i].clears then [rs[i].now] else [])
            + Successes(Stamp(last, rs[i]), rs[i + 1..])
  {
    assert rs[i..][0] == rs[i] && rs[i..][1..] == rs[i + 1..];
    hide Attempted, Stamp;
  }

  function StatusName(s: Status): string {
    match s
    case Idle => "IDLE"
    case Slewing => "SLEWING"
    case Tracking => "TRACKING"
    case Parked => "PARKED"
    case Error => "ERROR"
    case Unknown => "UNKNOWN"
  }

  class AstroMountDriver {
    var lastErrorRecovery: int
    var statusText: string
    var statusMessage: string
    var alert: bool
    ghost var attempts: seq<int>
    ghost var successes: seq<int>

    constructor ()
      ensures lastErrorRecovery == 0 && attempts == [] && successes == []
    {
      lastErrorRecovery, statusText, statusMessage, alert, attempts, successes := 0, "", "", false, [], [];
    }

    /** The mount-status block of updateIndiProperties. */
    method UpdateStatus(r: Reading)
      modifies this
      ensures attempts == old(attempts) + if Attempted(old(lastErrorRecovery), r) then [r.now] else []
      ensures successes == old(successes) + if Attempted(old(lastErrorRecovery), r) && r.clears then [r.now] else []
      ensures lastErrorRecovery == Stamp(old(lastErrorRecovery), r)
      ensures statusText == StatusName(r.status) && alert == r.status.Error?
      ensures statusMessage == if Attempted(old(lastErrorRecovery), r) && r.clears then "Recovered from ERROR"
                               else if r.status.Error? then "Mount in ERROR state" else ""
    {
      var inError := r.status == Error;
      statusText := StatusName(r.status);
      statusMessage := if inError then "Mount in ERROR state" else "";
      alert := inError;
      if inError {
        var neverRecovered := lastErrorRecovery == 0;
        var sinceLast := if neverRecovered then 10000 else WholeSeconds(r.now - lastErrorRecovery);
        if sinceLast >= 10 {
          attempts := attempts + [r.now];
          if r.clears {
            successes := successes + [r.now];
            lastErrorRecovery := r.now;
            statusMessage := "Recovered from ERROR";
          }
        }
      }
    }

    /** Any number of polls. */
    method Poll(rs: seq<Reading>)
      modifies this
      ensures attempts == old(attempts) + Attempts(old(lastErrorRecovery), rs)
      ensures successes == old(successes) + Successes(old(lastErrorRecovery), rs)
    {
      for i := 0 to |rs|
        modifies this
        invariant attempts + Attempts(lastErrorRecovery, rs[i..]) == old(attempts) + Attempts(old(lastErrorRecovery), rs)
        invariant successes + Successes(lastErrorRecovery, rs[i..]) == old(successes) + Successes(old(lastErrorRecovery), rs)
      {
        hide Attempted, Stamp;
        ghost var last := lastErrorRecovery;
        HistoryStep(last, rs, i, attempts, successes);
        UpdateStatus(rs[i]);
      }
    }
  }

  /** Ten seconds apart, unless the earlier stamp is the one that stands for never. */
  predicate Rested(last: int, now: int) {
    last == 0 || now - last >= 10 * SECOND
  }

  lemma TenWholeSeconds(last: int, now: int)
    ensures MayRecover(last, now) <==> Rested(last, now)
  {}

  /** Successful recoveries are ten seconds apart, whatever the clock does and however many attempts fail between. */
  lemma {:induction false} SuccessesRested(last: int, rs: seq<Reading>, i: nat)
    requires i < |Successes(last, rs)|
    ensures Rested(if i == 0 then last else Successes(last, rs)[i - 1], Successes(last, rs)[i])
    decreases |rs|
  {
    TenWholeSeconds(last, rs[0].now);
    if Attempted(last, rs[0]) && rs[0].clears {
      if i > 0 {
        SuccessesRested(rs[0].now, rs[1..], i - 1);
      }
    } else {
      SuccessesRested(last, rs[1..], i);
    }
  }

  /** Successful recoveries that span `w` nanoseconds number at most floor(w / 10 s) + 1. */
  lemma {:induction false} SuccessesInSpan(last: int, rs: seq<Reading>, i: nat, j: nat, w: int)
    requires i <= j < |Successes(last, rs)|
    requires forall k :: i <= k < j ==> Successes(last, rs)[k] != 0
    requires Successes(last, rs)[j] - Successes(last, rs)[i] <= w
    ensures j - i + 1 <= w / (10 * SECOND) + 1
    decreases j - i
  {
    var s := Successes(last, rs);
    if i < j {
      SuccessesRested(last, rs, j);
      SuccessesInSpan(last, rs, i, j - 1, w - 10 * SECOND);
    }
  }

  // ---------- What attempts keep, failed ones included ----------

  /** The stamp before poll `i`, and whether that poll makes an attempt. */
  function StampAt(last: int, rs: seq<Reading>, i: nat): int
    requires i <= |rs|
  {
    if i == 0 then last else Stamp(StampAt(last, rs, i - 1), rs[i - 1])
  }

  predicate AttemptAt(last: int, rs: seq<Reading>, i: int) {
    0 <= i < |rs| && Attempted(StampAt(last, rs, i), rs[i])
  }

  lemma {:induction false} StampTail(last: int, rs: seq<Reading>, i: nat)
    requires i < |rs|
    ensures StampAt(last, rs, i + 1) == StampAt(Stamp(last, rs[0]), rs[1..], i)
  {
    hide Stamp;
    if i > 0 {
      StampTail(last, rs, i - 1);
    }
  }

  /** The positions of the attempts among the polls, and the calls to ClearErrors. */
  lemma {:induction false} AttemptsUpTo(last: int, rs: seq<Reading>, i: nat)
    requires i < |rs|
    ensures Attempts(last, rs[..i + 1]) ==
            Attempts(last, rs[..i]) + if AttemptAt(last, rs, i) then [rs[i].now] else []
    decreases i
  {
    hide Stamp, Attempted;
    var a, b := rs[..i + 1], rs[..i];
    if i == 0 {
      assert a[1..] == [] && Attempts(Stamp(last, a[0]), []) == [];
    } else {
      AttemptsUpTo(Stamp(last, rs[0]), rs[1..], i - 1);
      StampTail(last, rs, i - 1);
      assert a[1..] == rs[1..][..i] && b[1..] == rs[1..][..i - 1];
      assert a[0] == b[0] == rs[0] && rs[1..][i - 1] == rs[i];
    }
  }

  lemma {:induction false} StampStays(last: int, rs: seq<Reading>, i: nat, j: nat)
    requires i <= j <= |rs| && forall k :: i <= k < j ==> !AttemptAt(last, rs, k)
    ensures StampAt(last, rs, j) == StampAt(last, rs, i)
    decreases j
  {
    if i < j {
      StampStays(last, rs, i, j - 1);
      assert !AttemptAt(last, rs, j - 1);
    }
  }

  /** After a success the next attempt, whatever comes of it, waits ten seconds by any clock. */
  lemma SuccessRestsAttempts(last: int, rs: seq<Reading>, i: nat, j: nat)
    requires i < j && AttemptAt(last, rs, i) && AttemptAt(last, rs, j)
    requires forall k :: i < k < j ==> !AttemptAt(last, rs, k)
    requires rs[i].clears && rs[i].now != 0
    ensures rs[j].now - rs[i].now >= 10 * SECOND
  {
    StampStays(last, rs, i + 1, j);
    TenWholeSeconds(rs[i].now, rs[j].now);
  }

  /** The clock never runs back. */
  predicate Forward(rs: seq<Reading>) {
    forall i, j :: 0 <= i <= j < |rs| ==> rs[i].now <= rs[j].now
  }

  predicate Near(rs: seq<Reading>, i: nat, k: nat)
    requires i < |rs| && k < |rs|
  {
    rs[k].now - rs[i].now < 10 * SECOND
  }

  lemma {:induction false} RestAfterSuccess(last: int, rs: seq<Reading>, i: nat, j: nat)
    requires i < j < |rs| && AttemptAt(last, rs, i) && AttemptAt(last, rs, j) && Forward(rs)
    requires rs[i].clears && rs[i].now != 0
    ensures !Near(rs, i, j)
    decreases j
  {
    hide AttemptAt;
    if m :| i < m < j && AttemptAt(last, rs, m) {
      RestAfterSuccess(last, rs, i, m);
    } else {
      SuccessRestsAttempts(last, rs, i, j);
    }
  }

  /** Unless a success stands, the next poll that finds an error makes an attempt. */
  lemma NextError(last: int, rs: seq<Reading>, i: nat, k: nat)
    requires i < k < |rs| && AttemptAt(last, rs, i) && Forward(rs)
    requires rs[k].status.Error? && !(rs[i].clears && rs[i].now != 0)
    requires forall m :: i < m < k ==> !AttemptAt(last, rs, m)
    ensures AttemptAt(last, rs, k)
  {
    StampStays(last, rs, i + 1, k);
    TenWholeSeconds(StampAt(last, rs, i), rs[i].now);
    TenWholeSeconds(StampAt(last, rs, i), rs[k].now);
  }

  /**
   By a clock that never runs back, an attempt is followed by ten seconds without another exactly when it
   succeeded at a time other than the one that stands for never, or no poll in those seconds finds an error.
   */
  lemma RestExactly(last: int, rs: seq<Reading>, i: nat)
    requires AttemptAt(last, rs, i) && Forward(rs)
    ensures (forall j :: i < j < |rs| && Near(rs, i, j) ==> !AttemptAt(last, rs, j)) <==>
            (rs[i].clears && rs[i].now != 0) || forall k :: i < k < |rs| && Near(rs, i, k) ==> !rs[k].status.Error?
  {
    assert i < |rs| && forall j :: 0 <= j < |rs| && AttemptAt(last, rs, j) ==> rs[j].status.Error?;
    hide AttemptAt;
    if rs[i].clears && rs[i].now != 0 {
      forall j | i < j < |rs| && AttemptAt(last, rs, j)
        ensures !Near(rs, i, j)
      {
        RestAfterSuccess(last, rs, i, j);
      }
    } else {
      forall k | i < k < |rs| && Near(rs, i, k) && rs[k].status.Error?
        ensures exists m :: i < m < |rs| && Near(rs, i, m) && AttemptAt(last, rs, m)
      {
        if m :| i < m < k && AttemptAt(last, rs, m) {
          assert Near(rs, i, m);
        } else {
          NextError(last, rs, i, k);
        }
      }
    }
  }

  /** Failed attempts leave no stamp: each erring poll makes one as long as no success is recent. */
  lemma {:induction false} FailuresUnlimited(last: int, rs: seq<Reading>)
    requires forall i :: 0 <= i < |rs| ==> rs[i].status.Error? && !rs[i].clears && Rested(last, rs[i].now)
    ensures |Attempts(last, rs)| == |rs| && Successes(last, rs) == []
    decreases |rs|
  {
    if rs != [] {
      TenWholeSeconds(last, rs[0].now);
      FailuresUnlimited(last, rs[1..]);
    }
  }

  /** So any number of attempts can fall on one instant. */
  lemma AttemptsAtOneInstant(n: nat, now: int)
    ensures |Attempts(0, seq(n, i => Reading(Error, now, false)))| == n
  {
    FailuresUnlimited(0, seq(n, i => Reading(Error, now, false)));
  }
}
