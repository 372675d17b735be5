/**
  The exporter's bootstrap clock: it catches up from the end of the backfill to the
  present, at most a minute per scrape. Times are seconds, as real numbers.
*/
module SampleClock {
  import opened Common

  /** `None` means there was no backfill to catch up from. */
  datatype State = State(latest: Option<real>, complete: bool)

  function Initial(latest: Option<real>): State {
    State(latest, latest.None?)
  }

  function Min(a: real, b: real): real {
    if a <= b then a else b
  }

  /** One scrape: the new state, the timestamp and whether the clock has caught up. */
  function Step(s: State, now: real): Result<(State, real, bool), string> {
    if s.complete || s.latest.None? then Ok((s, now, true))
    else if now <= s.latest.value then Err("synthetic history ends at or after the current time")
    else
      var latest := Min(s.latest.value + 60.0, now);
      Ok((State(Some(latest), latest == now), latest, latest == now))
  }

  class Clock {
    var latest: Option<real>
    var complete: bool

    constructor (latest: Option<real>)
      ensures View() == Initial(latest)
    {
      this.latest, complete := latest, latest.None?;
    }

    function View(): State
      reads this
    {
      State(latest, complete)
    }

    method Next(now: real) returns (r: Result<(real, bool), string>)
      requires latest.None? ==> complete
      modifies this
      ensures r.Ok? <==> Step(old(View()), now).Ok?
      ensures r.Ok? ==> Step(old(View()), now) == Ok((View(), r.value.0, r.value.1))
      ensures r.Err? ==> View() == old(View())
      ensures latest.None? ==> complete
    {
      if complete {
        return Ok((now, true));
      }
      if now <= latest.value {
        return Err("synthetic history ends at or after the current time");
      }
      latest := Some(Min(latest.value + 60.0, now));
      complete := latest.value == now;
      return Ok((latest.value, complete));
    }
  }

  // ---------------------------------------------------------------- runs

  /** A clock that never goes back. */
  ghost predicate NonDecreasing(nows: seq<real>) {
    forall i, j | 0 <= i < j < |nows| :: nows[i] <= nows[j]
  }

  /** The states before each scrape and after the last; every scrape succeeded. */
  ghost predicate Run(states: seq<State>, nows: seq<real>, stamps: seq<real>) {
    && |states| == |nows| + 1 && |stamps| == |nows|
    && forall k | 0 <= k < |nows| :: Step(states[k], nows[k]).Ok?
         && Step(states[k], nows[k]).value.0 == states[k + 1] && Step(states[k], nows[k]).value.1 == stamps[k]
  }

  /** While the clock is catching up, it is exactly one minute per scrape past the backfill
      and behind every coming reading of the wall clock. */
  lemma {:induction false} CatchingUp(start: real, states: seq<State>, nows: seq<real>, stamps: seq<real>, k: nat)
    requires Run(states, nows, stamps) && states[0] == Initial(Some(start))
    requires NonDecreasing(nows) && (nows != [] ==> nows[0] > start) && k <= |nows|
    ensures states[k].latest.Some?
    ensures !states[k].complete ==> states[k].latest.value == start + 60.0 * k as real
    ensures !states[k].complete && k > 0 ==> states[k].latest.value < nows[k - 1]
  {
    if k > 0 {
      CatchingUp(start, states, nows, stamps, k - 1);
    }
  }

  /** The error branch is unreachable on a wall clock that starts after the backfill and never
      goes back. */
  lemma NeverFails(start: real, states: seq<State>, nows: seq<real>, stamps: seq<real>, now: real)
    requires Run(states, nows, stamps) && states[0] == Initial(Some(start))
    requires NonDecreasing(nows + [now]) && (nows + [now])[0] > start
    ensures Step(states[|nows|], now).Ok?
  {
    assert forall i | 0 <= i < |nows| :: nows[i] == (nows + [now])[i];
    assert NonDecreasing(nows);
    CatchingUp(start, states, nows, stamps, |nows|);
    if nows != [] {
      assert (nows + [now])[|nows| - 1] <= (nows + [now])[|nows|];
    }
  }

  /** Bootstrap timestamps strictly increase, by a minute at most, and no timestamp passes the
      present. */
  lemma BootstrapStampsAdvance(start: real, states: seq<State>, nows: seq<real>, stamps: seq<real>, k: nat)
    requires Run(states, nows, stamps) && states[0] == Initial(Some(start))
    requires NonDecreasing(nows) && (nows != [] ==> nows[0] > start) && k < |nows|
    ensures states[k].latest.Some? && stamps[k] <= nows[k]
    ensures !states[k].complete ==>
              states[k].latest.value < stamps[k] <= states[k].latest.value + 60.0
    ensures !states[k].complete && k > 0 ==> stamps[k - 1] == states[k].latest.value
    ensures states[k].complete ==> stamps[k] == nows[k] && states[k + 1] == states[k]
  {
    CatchingUp(start, states, nows, stamps, k);
  }

  lemma {:induction false} SlowClock(nows: seq<real>, d: real, k: nat)
    requires k < |nows| && d >= 0.0
    requires forall i | 0 <= i < |nows| - 1 :: nows[i + 1] <= nows[i] + d
    ensures nows[k] <= nows[0] + d * k as real
  {
    if k > 0 {
      SlowClock(nows, d, k - 1);
      assert d * k as real == d * (k - 1) as real + d;
    }
  }

  /** If the wall clock advances by at most `d` < 60 s between scrapes, the clock has caught up
      after `n` scrapes as soon as `n * (60 - d)` covers the gap: ceil(gap / (60 - d)) at most. */
  lemma CatchesUpInTime(start: real, states: seq<State>, nows: seq<real>, stamps: seq<real>, d: real, n: nat)
    requires Run(states, nows, stamps) && states[0] == Initial(Some(start))
    requires NonDecreasing(nows) && 1 <= n <= |nows| && nows[0] > start
    requires 0.0 <= d < 60.0 && forall i | 0 <= i < |nows| - 1 :: nows[i + 1] <= nows[i] + d
    requires n as real * (60.0 - d) >= nows[0] - start
    ensures states[n].complete
  {
    CatchingUp(start, states, nows, stamps, n);
    SlowClock(nows, d, n - 1);
    var behind := n as real;
    assert d * (n - 1) as real == d * behind - d;
    assert behind * (60.0 - d) == 60.0 * behind - d * behind;
  }
}
