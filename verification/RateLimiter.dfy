/** The sliding-window rate limiter (api/rate_limit.py).

  The source keeps, for each key, a list that it prunes as it goes. The reference is the history of
  all requests ever admitted, which is never pruned.
 */
module RateLimiting {
  type Time = real

  /** The times later than the cutoff. */
  function Newer(times: seq<Time>, cutoff: Time): seq<Time> {
    if times == [] then []
    else
      var n := |times| - 1;
      Newer(times[..n], cutoff) + (if times[n] > cutoff then [times[n]] else [])
  }

  /** The times in the half-open interval of the window's length that ends at end. */
  function InWindow(times: seq<Time>, end: Time, window: Time): seq<Time> {
    if times == [] then []
    else
      var n := |times| - 1;
      InWindow(times[..n], end, window) + (if end - window < times[n] <= end then [times[n]] else [])
  }

  function Lookup(m: map<string, seq<Time>>, key: string): seq<Time> {
    if key in m then m[key] else []
  }

  class RateLimiter {
    var windows: map<string, seq<Time>>

    constructor ()
      ensures windows == map[]
    {
      windows := map[];
    }

    method IsAllowed(key: string, limit: int, window: Time, now: Time) returns (allowed: bool)
      modifies this
      ensures (windows, allowed) == Decide(old(windows), key, limit, window, now)
    {
      var requests := Lookup(windows, key);
      var cutoff := now - window;
      var kept: seq<Time> := [];
      for i := 0 to |requests|
        invariant windows == old(windows)
        invariant kept == Newer(requests[..i], cutoff)
      {
        assert requests[..i + 1][..i] == requests[..i];
        if requests[i] > cutoff {
          kept := kept + [requests[i]];
        }
      }
      assert requests[..|requests|] == requests;
      windows := windows[key := kept];
      if |kept| >= limit {
        return false;
      }
      windows := windows[key := kept + [now]];
      assert windows == old(windows)[key := kept + [now]];
      allowed := true;
    }

    method Reset(key: string)
      modifies this
      ensures windows == old(windows) - {key}
    {
      windows := windows - {key};
    }
  }

  /** The effect of one request. */
  function Decide(windows: map<string, seq<Time>>, key: string, limit: int, window: Time, now: Time)
    : (map<string, seq<Time>>, bool)
  {
    var kept := Newer(Lookup(windows, key), now - window);
    if |kept| >= limit then (windows[key := kept], false) else (windows[key := kept + [now]], true)
  }

  /// Runs, with the history of admissions

  datatype State = State(windows: map<string, seq<Time>>, history: map<string, seq<Time>>)

  datatype Step =
    | Request(key: string, limit: int, window: Time, now: Time)
    | Reset(key: string)

  function Apply(s: State, step: Step): State {
    match step
    case Request(key, limit, window, now) =>
      var (windows, allowed) := Decide(s.windows, key, limit, window, now);
      State(windows, if allowed then s.history[key := Lookup(s.history, key) + [now]] else s.history)
    case Reset(key) => s.(windows := s.windows - {key})
  }

  function Run(s: State, steps: seq<Step>): State {
    if steps == [] then s else Apply(Run(s, steps[..|steps| - 1]), steps[|steps| - 1])
  }

  const EMPTY := State(map[], map[])

  /** Every request of the key is at least as strict as the limit and window in question: it asks for no
    more admissions and looks back no less far. The key is never reset. */
  ghost predicate AsStrict(steps: seq<Step>, key: string, limit: int, window: Time) {
    forall i :: 0 <= i < |steps| && steps[i].key == key ==>
      steps[i].Request? && steps[i].limit <= limit && steps[i].window >= window
  }

  predicate Asks(step: Step, key: string) {
    step.Request? && step.key == key
  }

  /** The monotonic clock: the times of the key's requests do not decrease and end by now. */
  ghost predicate Monotonic(steps: seq<Step>, key: string, now: Time) {
    && (forall i, j :: 0 <= i < j < |steps| && Asks(steps[i], key) && Asks(steps[j], key) ==>
          steps[i].now <= steps[j].now)
    && (forall i :: 0 <= i < |steps| && Asks(steps[i], key) ==> steps[i].now <= now)
  }

  /// Filters

  lemma {:induction false} NewerTwice(times: seq<Time>, lo: Time, hi: Time)
    requires lo <= hi
    ensures Newer(Newer(times, lo), hi) == Newer(times, hi)
  {
    if times != [] {
      var n := |times| - 1;
      NewerTwice(times[..n], lo, hi);
      var kept := Newer(times[..n], lo);
      if times[n] > lo {
        assert (kept + [times[n]])[..|kept|] == kept;
      } else {
        assert Newer(times, lo) == kept;
        assert Newer(times, hi) == Newer(times[..n], hi);
      }
    }
  }

  lemma NewerAppend(times: seq<Time>, t: Time, cutoff: Time)
    ensures Newer(times + [t], cutoff) == Newer(times, cutoff) + (if t > cutoff then [t] else [])
  {
    assert (times + [t])[..|times|] == times;
  }

  lemma InWindowAppend(times: seq<Time>, t: Time, end: Time, window: Time)
    ensures InWindow(times + [t], end, window) ==
            InWindow(times, end, window) + (if end - window < t <= end then [t] else [])
  {
    assert (times + [t])[..|times|] == times;
  }

  lemma {:induction false} InWindowAtMostNewer(times: seq<Time>, end: Time, window: Time, cutoff: Time)
    requires cutoff <= end - window
    ensures |InWindow(times, end, window)| <= |Newer(times, cutoff)|
  {
    if times != [] {
      InWindowAtMostNewer(times[..|times| - 1], end, window, cutoff);
    }
  }

  /// The invariant

  /** From the cutoff of the moment on, the pruned list and the history agree, and no window of the
    past holds more admissions than the limit. */
  ghost predicate Faithful(s: State, key: string, limit: int, window: Time, now: Time) {
    && Newer(Lookup(s.windows, key), now - window) == Newer(Lookup(s.history, key), now - window)
    && (forall t :: |InWindow(Lookup(s.history, key), t, window)| <= if limit < 0 then 0 else limit)
  }

  lemma FaithfulLater(s: State, key: string, limit: int, window: Time, now: Time, later: Time)
    requires Faithful(s, key, limit, window, now) && now <= later
    ensures Faithful(s, key, limit, window, later)
  {
    NewerTwice(Lookup(s.windows, key), now - window, later - window);
    NewerTwice(Lookup(s.history, key), now - window, later - window);
  }

  lemma {:induction false} NewerShrinks(times: seq<Time>, lo: Time, hi: Time)
    requires lo <= hi
    ensures |Newer(times, hi)| <= |Newer(times, lo)|
  {
    if times != [] {
      NewerShrinks(times[..|times| - 1], lo, hi);
    }
  }

  /** An admission into a window that is not full leaves no window overfull. */
  lemma AdmissionFits(history: seq<Time>, now: Time, window: Time, limit: int, t: Time)
    requires |Newer(history, now - window)| < limit && |InWindow(history, t, window)| <= limit
    ensures |InWindow(history + [now], t, window)| <= limit
  {
    InWindowAppend(history, now, t, window);
    if now <= t {
      InWindowAtMostNewer(history, t, window, now - window);
    }
  }

  lemma RequestKeeps(s: State, key: string, limit: int, window: Time, limit': int, window': Time, now: Time)
    requires Faithful(s, key, limit, window, now) && limit' <= limit && window' >= window
    ensures Faithful(Apply(s, Request(key, limit', window', now)), key, limit, window, now)
  {
    hide Newer, InWindow;
    var cutoff, cutoff' := now - window, now - window';
    var requests, history := Lookup(s.windows, key), Lookup(s.history, key);
    var kept := Newer(requests, cutoff');
    NewerTwice(requests, cutoff', cutoff);
    NewerShrinks(requests, cutoff', cutoff);
    if |kept| < limit' {
      NewerAppend(kept, now, cutoff);
      NewerAppend(history, now, cutoff);
      forall t ensures |InWindow(history + [now], t, window)| <= limit {
        AdmissionFits(history, now, window, limit, t);
      }
    }
  }

  lemma OtherKeyKeeps(s: State, step: Step, key: string, limit: int, window: Time, now: Time)
    requires Faithful(s, key, limit, window, now) && step.key != key
    ensures Faithful(Apply(s, step), key, limit, window, now)
  {
    assert Lookup(Apply(s, step).windows, key) == Lookup(s.windows, key);
    assert Lookup(Apply(s, step).history, key) == Lookup(s.history, key);
  }

  lemma {:induction false} RunIsFaithful(steps: seq<Step>, key: string, limit: int, window: Time, now: Time)
    requires AsStrict(steps, key, limit, window) && Monotonic(steps, key, now)
    ensures Faithful(Run(EMPTY, steps), key, limit, window, now)
  {
    if steps != [] {
      var n := |steps| - 1;
      var init, last := steps[..n], steps[n];
      var s := Run(EMPTY, init);
      if last.key == key {
        RunIsFaithful(init, key, limit, window, last.now);
        RequestKeeps(s, key, limit, window, last.limit, last.window, last.now);
        FaithfulLater(Apply(s, last), key, limit, window, last.now, now);
      } else {
        RunIsFaithful(init, key, limit, window, now);
        OtherKeyKeeps(s, last, key, limit, window, now);
      }
    }
  }

  /** In every half-open interval as long as the window, at most limit requests of the key were ever
    admitted, whatever the other keys did and whatever stricter requests the key made. */
  lemma NeverMoreThanLimit(steps: seq<Step>, key: string, limit: nat, window: Time, now: Time, t: Time)
    requires AsStrict(steps, key, limit, window) && Monotonic(steps, key, now)
    ensures |InWindow(Lookup(Run(EMPTY, steps).history, key), t, window)| <= limit
  {
    RunIsFaithful(steps, key, limit, window, now);
  }

  ghost predicate Past(times: seq<Time>, now: Time) {
    forall i :: 0 <= i < |times| ==> times[i] <= now
  }

  lemma {:induction false} NewerIsInWindow(times: seq<Time>, now: Time, window: Time)
    requires Past(times, now)
    ensures Newer(times, now - window) == InWindow(times, now, window)
  {
    if times != [] {
      NewerIsInWindow(times[..|times| - 1], now, window);
    }
  }

  lemma PastStep(s: State, step: Step, key: string, now: Time)
    requires Past(Lookup(s.history, key), now) && (Asks(step, key) ==> step.now <= now)
    ensures Past(Lookup(Apply(s, step).history, key), now)
  {
    hide Newer;
  }

  /** No admission of the key lies in the future. */
  lemma {:induction false} HistoryIsPast(steps: seq<Step>, key: string, now: Time)
    requires Monotonic(steps, key, now)
    ensures Past(Lookup(Run(EMPTY, steps).history, key), now)
  {
    if steps != [] {
      hide Apply;
      var n := |steps| - 1;
      HistoryIsPast(steps[..n], key, now);
      PastStep(Run(EMPTY, steps[..n]), steps[n], key, now);
    }
  }

  /** From the window on, the pruned list is exactly the full history, so that a request is refused only
    when the window that ends now, with its beginning left out, is truly full. */
  lemma RefusedIffFull(steps: seq<Step>, key: string, limit: int, window: Time, now: Time)
    requires AsStrict(steps, key, limit, window) && Monotonic(steps, key, now)
    ensures var s := Run(EMPTY, steps);
      var (windows, allowed) := Decide(s.windows, key, limit, window, now);
      var recent := InWindow(Lookup(s.history, key), now, window);
      && (allowed <==> |recent| < limit)
      && Lookup(windows, key) == recent + (if allowed then [now] else [])
      && forall other :: other != key ==> Lookup(windows, other) == Lookup(s.windows, other)
  {
    hide Newer, InWindow, Run, Past, AsStrict, Monotonic;
    RunIsFaithful(steps, key, limit, window, now);
    HistoryIsPast(steps, key, now);
    NewerIsInWindow(Lookup(Run(EMPTY, steps).history, key), now, window);
  }

  /// When the bound fails

  /** Some interval as long as the window holds more admissions of the key than the limit. */
  ghost predicate Exceeds(s: State, key: string, limit: int, window: Time) {
    exists t :: |InWindow(Lookup(s.history, key), t, window)| > limit
  }

  function Repeat(step: Step, n: nat): (steps: seq<Step>)
    ensures |steps| == n && forall i :: 0 <= i < n ==> steps[i] == step
  {
    seq(n, i => step)
  }

  lemma RunSnoc(s: State, steps: seq<Step>, step: Step)
    ensures Run(s, steps + [step]) == Apply(Run(s, steps), step)
  {
    assert (steps + [step])[..|steps|] == steps;
  }

  lemma {:induction false} AllNewer(times: seq<Time>, cutoff: Time)
    requires forall i :: 0 <= i < |times| ==> times[i] > cutoff
    ensures Newer(times, cutoff) == times
  {
    if times != [] {
      var n := |times| - 1;
      AllNewer(times[..n], cutoff);
      assert times == times[..n] + [times[n]];
    }
  }

  lemma {:induction false} NoneNewer(times: seq<Time>, cutoff: Time)
    requires forall i :: 0 <= i < |times| ==> times[i] <= cutoff
    ensures Newer(times, cutoff) == []
  {
    if times != [] {
      NoneNewer(times[..|times| - 1], cutoff);
    }
  }

  lemma {:induction false} AllInWindow(times: seq<Time>, end: Time, window: Time)
    requires forall i :: 0 <= i < |times| ==> end - window < times[i] <= end
    ensures InWindow(times, end, window) == times
  {
    if times != [] {
      var n := |times| - 1;
      AllInWindow(times[..n], end, window);
      assert times == times[..n] + [times[n]];
    }
  }

  /** After n admissions at time 0, of which a window that looks back at all has kept every one. */
  ghost predicate Burst(s: State, key: string, window: Time, n: nat) {
    var times, kept := Lookup(s.history, key), Lookup(s.windows, key);
    && |times| == n && |kept| <= n && (window > 0.0 ==> |kept| == n)
    && (forall i :: 0 <= i < n ==> times[i] == 0.0)
    && (forall i :: 0 <= i < |kept| ==> kept[i] == 0.0)
  }

  lemma BurstStep(s: State, key: string, limit: int, window: Time, n: nat)
    requires Burst(s, key, window, n) && n < limit
    ensures Burst(Apply(s, Request(key, limit, window, 0.0)), key, window, n + 1)
  {
    hide Newer;
    var kept := Lookup(s.windows, key);
    if window > 0.0 {
      AllNewer(kept, 0.0 - window);
    } else {
      NoneNewer(kept, 0.0 - window);
    }
  }

  /** Requests at time 0 are admitted up to their limit. */
  lemma {:induction false} BurstRun(key: string, limit: int, window: Time, n: nat)
    requires n <= limit
    ensures Burst(Run(EMPTY, Repeat(Request(key, limit, window, 0.0), n)), key, window, n)
  {
    var step := Request(key, limit, window, 0.0);
    if n > 0 {
      hide Burst, Run, Apply, Repeat;
      BurstRun(key, limit, window, n - 1);
      assert Repeat(step, n) == Repeat(step, n - 1) + [step];
      RunSnoc(EMPTY, Repeat(step, n - 1), step);
      BurstStep(Run(EMPTY, Repeat(step, n - 1)), key, limit, window, n - 1);
    } else {
      assert Repeat(step, 0) == [];
    }
  }

  lemma BurstFills(s: State, key: string, window: Time, other: Time, n: nat)
    requires Burst(s, key, other, n) && window > 0.0
    ensures |InWindow(Lookup(s.history, key), 0.0, window)| == n
  {
    AllInWindow(Lookup(s.history, key), 0.0, window);
  }

  /** A list without anything to count any more: the next request with a positive limit is admitted, on
    top of what the history holds. */
  lemma AdmittedAgain(s: State, key: string, limit: int, window: Time, now: Time)
    requires limit > 0 && Newer(Lookup(s.windows, key), now - window) == []
    ensures Lookup(Apply(s, Request(key, limit, window, now)).history, key) == Lookup(s.history, key) + [now]
  {
  }

  lemma LateAdmissionExceeds(s: State, key: string, limit: nat, window: Time, times: seq<Time>, now: Time)
    requires 0.0 <= now < window && Lookup(s.history, key) == times + [now]
    requires |times| >= limit && forall i :: 0 <= i < |times| ==> 0.0 <= times[i] <= now
    ensures Exceeds(s, key, limit, window)
  {
    AllInWindow(times + [now], now, window);
  }

  /** A reset forgets: limit requests, a reset, and one more, all at time 0, exceed the limit. */
  lemma ResetExceeds(key: string, limit: nat, window: Time)
    requires limit > 0 && window > 0.0
    ensures var request := Request(key, limit, window, 0.0);
      Exceeds(Run(EMPTY, Repeat(request, limit) + [Reset(key)] + [request]), key, limit, window)
  {
    hide Run;
    var request := Request(key, limit, window, 0.0);
    var full := Repeat(request, limit);
    BurstRun(key, limit, window, limit);
    RunSnoc(EMPTY, full, Reset(key));
    RunSnoc(EMPTY, full + [Reset(key)], request);
    var s := Run(EMPTY, full + [Reset(key)]);
    AdmittedAgain(s, key, limit, window, 0.0);
    LateAdmissionExceeds(Apply(s, request), key, limit, window, Lookup(s.history, key), 0.0);
  }

  /** The list is kept for the key alone, not for the key and the window. Limit requests at time 0, one
    request that looks back less far, and one more: between the end of the shorter window and that of
    the longer one, the longer one is overfull. */
  function Shortcut(key: string, limit: nat, window: Time, limit': int, window': Time): seq<Step> {
    var late := if window' > 0.0 then window' else 0.0;
    Repeat(Request(key, limit, window, 0.0), limit) + [Request(key, limit', window', late)]
    + [Request(key, limit, window, late)]
  }

  lemma ShorterWindowExceeds(key: string, limit: nat, window: Time, limit': int, window': Time)
    requires limit > 0 && window > 0.0 && window' < window
    ensures Exceeds(Run(EMPTY, Shortcut(key, limit, window, limit', window')), key, limit, window)
  {
    hide Run, Newer, InWindow;
    var late := if window' > 0.0 then window' else 0.0;
    var request, shorter := Request(key, limit, window, late), Request(key, limit', window', late);
    var full := Repeat(Request(key, limit, window, 0.0), limit);
    BurstRun(key, limit, window, limit);
    RunSnoc(EMPTY, full, shorter);
    RunSnoc(EMPTY, full + [shorter], request);
    var s := Run(EMPTY, full);
    var s' := Apply(s, shorter);
    NoneNewer(Lookup(s.windows, key), late - window');
    if limit' > 0 {
      AdmittedAgain(s, key, limit', window', late);
      LateAdmissionExceeds(s', key, limit, window, Lookup(s.history, key), late);
      HistoryGrows(s', request, key, limit, window);
    } else {
      assert Lookup(s'.windows, key) == [] && Lookup(s'.history, key) == Lookup(s.history, key);
      NoneNewer([], late - window);
      AdmittedAgain(s', key, limit, window, late);
      LateAdmissionExceeds(Apply(s', request), key, limit, window, Lookup(s.history, key), late);
    }
  }

  /** For example: one request in ten seconds is allowed, yet two are admitted within five. */
  lemma TwoInOneWindow(key: string)
    ensures var steps := [Request(key, 1, 10.0, 0.0), Request(key, 0, 1.0, 5.0), Request(key, 1, 10.0, 5.0)];
      InWindow(Lookup(Run(EMPTY, steps).history, key), 5.0, 10.0) == [0.0, 5.0]
  {
    hide Run, Newer, InWindow;
    var a, b, c := Request(key, 1, 10.0, 0.0), Request(key, 0, 1.0, 5.0), Request(key, 1, 10.0, 5.0);
    RunSnoc(EMPTY, [], a);
    RunSnoc(EMPTY, [a], b);
    RunSnoc(EMPTY, [a, b], c);
    assert [] + [a] == [a] && [a] + [b] == [a, b] && [a, b] + [c] == [a, b, c];
    var s0, s1 := Run(EMPTY, []), Run(EMPTY, [a]);
    assert s0 == EMPTY by {
      EmptyRun();
    }
    NoneNewer([], 0.0 - 10.0);
    assert Lookup(s1.windows, key) == [0.0] == Lookup(s1.history, key);
    NoneNewer([0.0], 5.0 - 1.0);
    NoneNewer([], 5.0 - 10.0);
    assert Lookup(Run(EMPTY, [a, b, c]).history, key) == [0.0, 5.0];
    AllInWindow([0.0, 5.0], 5.0, 10.0);
  }

  lemma EmptyRun()
    ensures Run(EMPTY, []) == EMPTY
  {
  }

  /** What was exceeded stays exceeded. */
  lemma HistoryGrows(s: State, step: Step, key: string, limit: int, window: Time)
    requires Exceeds(s, key, limit, window)
    ensures Exceeds(Apply(s, step), key, limit, window)
  {
    var t :| |InWindow(Lookup(s.history, key), t, window)| > limit;
    if step.Request? && step.key == key {
      InWindowAppend(Lookup(s.history, key), step.now, t, window);
    }
    assert |InWindow(Lookup(Apply(s, step).history, key), t, window)| > limit;
  }

  lemma LargerLimitExceeds(key: string, limit: nat, window: Time, limit': int, window': Time)
    requires window > 0.0 && limit' > limit
    ensures Exceeds(Run(EMPTY, Repeat(Request(key, limit', window', 0.0), limit')), key, limit, window)
  {
    BurstRun(key, limit', window', limit');
    BurstFills(Run(EMPTY, Repeat(Request(key, limit', window', 0.0), limit')), key, window, window', limit');
  }

  /** A run of one key that asks with this limit and window, or with the other ones, on a clock that does
    not run backwards, and without a reset. */
  ghost predicate Mixes(steps: seq<Step>, key: string, limit: int, window: Time, limit': int, window': Time) {
    && (forall i :: 0 <= i < |steps| ==>
          && Asks(steps[i], key)
          && ((steps[i].limit == limit && steps[i].window == window)
              || (steps[i].limit == limit' && steps[i].window == window')))
    && (forall i, j :: 0 <= i < j < |steps| ==> steps[i].now <= steps[j].now)
  }

  /** Exactly which other requests for the same key the bound tolerates: those that are as strict. With a
    limit of zero nothing is ever admitted, so that the window does not matter; and no window that
    looks back not at all is ever overfull. */
  lemma BoundHoldsIff(key: string, limit: nat, window: Time, limit': int, window': Time)
    ensures (forall steps :: Mixes(steps, key, limit, window, limit', window') ==>
                               !Exceeds(Run(EMPTY, steps), key, limit, window))
            <==> window <= 0.0 || (limit' <= limit && (limit == 0 || window' >= window))
  {
    hide Run, Exceeds;
    if window <= 0.0 || (limit' <= limit && (limit == 0 || window' >= window)) {
      forall steps | Mixes(steps, key, limit, window, limit', window')
        ensures !Exceeds(Run(EMPTY, steps), key, limit, window)
      {
        MixHolds(steps, key, limit, window, limit', window');
      }
    } else {
      var steps := if limit' > limit then Repeat(Request(key, limit', window', 0.0), limit')
                   else Shortcut(key, limit, window, limit', window');
      if limit' > limit {
        LargerLimitExceeds(key, limit, window, limit', window');
      } else {
        ShorterWindowExceeds(key, limit, window, limit', window');
      }
      assert Mixes(steps, key, limit, window, limit', window');
    }
  }

  lemma MixHolds(steps: seq<Step>, key: string, limit: nat, window: Time, limit': int, window': Time)
    requires Mixes(steps, key, limit, window, limit', window')
    requires window <= 0.0 || (limit' <= limit && (limit == 0 || window' >= window))
    ensures !Exceeds(Run(EMPTY, steps), key, limit, window)
  {
    hide Run;
    var history := Lookup(Run(EMPTY, steps).history, key);
    forall t ensures |InWindow(history, t, window)| <= limit {
      if window <= 0.0 {
        EmptyWindow(history, t, window);
      } else if limit == 0 {
        NothingAdmitted(steps, key);
      } else {
        NeverMoreThanLimit(steps, key, limit, window, if steps == [] then 0.0 else steps[|steps| - 1].now, t);
      }
    }
  }

  lemma {:induction false} EmptyWindow(times: seq<Time>, end: Time, window: Time)
    requires window <= 0.0
    ensures InWindow(times, end, window) == []
  {
    if times != [] {
      EmptyWindow(times[..|times| - 1], end, window);
    }
  }

  lemma {:induction false} NothingAdmitted(steps: seq<Step>, key: string)
    requires forall i :: 0 <= i < |steps| ==> Asks(steps[i], key) && steps[i].limit <= 0
    ensures Lookup(Run(EMPTY, steps).history, key) == []
  {
    if steps != [] {
      NothingAdmitted(steps[..|steps| - 1], key);
    }
  }
}
