/**
 What the sliding-window limiter decides, on values
 (vault/internal/tokens/ratelimit.go). The code keeps one pruned list of
 timestamps per client; the reference keeps every acceptance ever made.
 Times are integer nanoseconds.
 */
module SlidingWindow {
  import opened Wrappers
  import opened RateText

  /** The entries later than `cutoff`, in order. */
  function After(s: seq<int>, cutoff: int): (r: seq<int>)
    ensures |r| <= |s|
  {
    if s == [] then []
    else
      var n := |s| - 1;
      if s[n] > cutoff then After(s[..n], cutoff) + [s[n]] else After(s[..n], cutoff)
  }

  datatype Decision = Decision(ok: bool, list: seq<int>)

  /** One IsAllowed call of one client at time `now` with stored list `list`. */
  function Decide(max: int, window: int, list: seq<int>, now: int): Decision {
    var kept := After(list, now - window);
    if |kept| >= max then Decision(false, kept) else Decision(true, kept + [now])
  }

  /** The rule the limiter stands for: fewer than `max` acceptances in the last window. */
  predicate HistoryAllows(max: int, window: int, history: seq<int>, now: int) {
    |After(history, now - window)| < max
  }

  predicate Nondecreasing(times: seq<int>) {
    forall i, j :: 0 <= i <= j < |times| ==> times[i] <= times[j]
  }

  // ---- filtering -------------------------------------------------------

  lemma {:induction false} AfterAppend(s: seq<int>, t: int, cutoff: int)
    ensures After(s + [t], cutoff) == if t > cutoff then After(s, cutoff) + [t] else After(s, cutoff)
  {
    assert (s + [t])[..|s|] == s;
  }

  lemma {:induction false} AfterAfter(s: seq<int>, c1: int, c2: int)
    ensures After(After(s, c1), c2) == After(s, Later(c1, c2))
  {
    if s != [] {
      var n := |s| - 1;
      AfterAfter(s[..n], c1, c2);
      if s[n] > c1 {
        AfterAppend(After(s[..n], c1), s[n], c2);
      }
    }
  }

  /** What a call leaves in the list, seen through any later cutoff. */
  lemma {:induction false} AfterDecide(max: int, window: int, list: seq<int>, now: int, cutoff: int)
    ensures var d := Decide(max, window, list, now);
            var old' := After(list, Later(now - window, cutoff));
            After(d.list, cutoff) == if d.ok && now > cutoff then old' + [now] else old'
  {
    var kept := After(list, now - window);
    AfterAfter(list, now - window, cutoff);
    AfterAccept(max, kept, now, cutoff);
    assert Decide(max, window, list, now).list == if |kept| >= max then kept else kept + [now];
  }

  lemma {:induction false} AfterAccept(max: int, kept: seq<int>, now: int, cutoff: int)
    ensures After(if |kept| >= max then kept else kept + [now], cutoff) ==
            if |kept| < max && now > cutoff then After(kept, cutoff) + [now] else After(kept, cutoff)
  {
    AfterAppend(kept, now, cutoff);
  }

  function Later(a: int, b: int): int { if a > b then a else b }

  lemma {:induction false} AfterFewer(s: seq<int>, c1: int, c2: int)
    requires c1 <= c2
    ensures |After(s, c2)| <= |After(s, c1)|
  {
    if s != [] {
      AfterFewer(s[..|s| - 1], c1, c2);
    }
  }

  // ---- the pruned list stands for the full history ---------------------

  ghost predicate CountsNoMore(list: seq<int>, history: seq<int>) {
    forall c :: |After(list, c)| <= |After(history, c)|
  }

  ghost predicate AgreeFrom(from: int, list: seq<int>, history: seq<int>) {
    forall c :: from <= c ==> After(list, c) == After(history, c)
  }

  /**
   `list` is what the code stores and `history` every acceptance, after calls
   at the times `calls`. Without any assumption on the clock the list never
   counts more than the history does; with the calls in order it holds the
   same entries in every window a later call can ask about.
   */
  ghost predicate Faithful(max: int, window: int, calls: seq<int>, list: seq<int>, history: seq<int>) {
    && |list| <= (if max > 0 then max else 0)
    && CountsNoMore(list, history)
    && (calls == [] ==> list == history)
    && (Nondecreasing(calls) && calls != [] ==> AgreeFrom(calls[|calls| - 1] - window, list, history))
  }

  lemma NondecreasingPrefix(calls: seq<int>, now: int)
    requires Nondecreasing(calls + [now])
    ensures Nondecreasing(calls)
    ensures calls != [] ==> calls[|calls| - 1] <= now
  {
    var all := calls + [now];
    assert forall i :: 0 <= i < |calls| ==> calls[i] == all[i];
    assert calls != [] ==> all[|calls| - 1] <= all[|calls|];
  }

  lemma CountsNoMoreStep(max: int, window: int, list: seq<int>, history: seq<int>, now: int)
    requires CountsNoMore(list, history)
    ensures var d := Decide(max, window, list, now);
            CountsNoMore(d.list, if d.ok then history + [now] else history)
  {
    var d := Decide(max, window, list, now);
    var history' := if d.ok then history + [now] else history;
    forall c ensures |After(d.list, c)| <= |After(history', c)| {
      AfterDecide(max, window, list, now, c);
      AfterFewer(list, c, Later(now - window, c));
      AfterAppend(history, now, c);
      assert |After(list, c)| <= |After(history, c)|;
    }
  }

  lemma AgreeFromStep(max: int, window: int, from: int, list: seq<int>, history: seq<int>, now: int)
    requires AgreeFrom(from, list, history) && from <= now - window
    ensures var d := Decide(max, window, list, now);
            && AgreeFrom(now - window, d.list, if d.ok then history + [now] else history)
            && (d.ok <==> HistoryAllows(max, window, history, now))
  {
    var d := Decide(max, window, list, now);
    var history' := if d.ok then history + [now] else history;
    forall c | now - window <= c ensures After(d.list, c) == After(history', c) {
      AfterDecide(max, window, list, now, c);
      AfterAppend(history, now, c);
      assert After(list, c) == After(history, c);
    }
  }

  lemma FaithfulStep(max: int, window: int, calls: seq<int>, list: seq<int>, history: seq<int>, now: int)
    requires Faithful(max, window, calls, list, history)
    ensures var d := Decide(max, window, list, now);
            && Faithful(max, window, calls + [now], d.list, if d.ok then history + [now] else history)
            && (HistoryAllows(max, window, history, now) ==> d.ok)
            && (Nondecreasing(calls + [now]) ==> (d.ok <==> HistoryAllows(max, window, history, now)))
  {
    CountsNoMoreStep(max, window, list, history, now);
    assert |After(list, now - window)| <= |After(history, now - window)|;
    if Nondecreasing(calls + [now]) {
      NondecreasingPrefix(calls, now);
      AgreeFromStep(max, window, if calls == [] then now - window else calls[|calls| - 1] - window,
                    list, history, now);
    }
  }

  /** A call of another client only moves the clock. */
  lemma FaithfulIdle(max: int, window: int, calls: seq<int>, list: seq<int>, history: seq<int>, now: int)
    requires Faithful(max, window, calls, list, history)
    ensures Faithful(max, window, calls + [now], list, history)
  {
    if Nondecreasing(calls + [now]) {
      NondecreasingPrefix(calls, now);
    }
  }

  // ---- runs of one client ----------------------------------------------

  /** State after a run: stored list, all acceptances, and each call's answer. */
  datatype Run = Run(list: seq<int>, history: seq<int>, oks: seq<bool>)

  /** The code on calls at `times`. */
  function CodeRun(max: int, window: int, times: seq<int>): (r: Run)
    ensures |r.oks| == |times|
  {
    if times == [] then Run([], [], [])
    else
      var n := |times| - 1;
      var r := CodeRun(max, window, times[..n]);
      var d := Decide(max, window, r.list, times[n]);
      Run(d.list, if d.ok then r.history + [times[n]] else r.history, r.oks + [d.ok])
  }

  /** The reference on calls at `times`: it never forgets an acceptance. */
  function ReferenceRun(max: int, window: int, times: seq<int>): (r: (seq<int>, seq<bool>))
    ensures |r.1| == |times|
  {
    if times == [] then ([], [])
    else
      var n := |times| - 1;
      var (history, oks) := ReferenceRun(max, window, times[..n]);
      var ok := HistoryAllows(max, window, history, times[n]);
      (if ok then history + [times[n]] else history, oks + [ok])
  }

  lemma RunAppend(max: int, window: int, times: seq<int>, now: int)
    ensures var r := CodeRun(max, window, times);
            var d := Decide(max, window, r.list, now);
            CodeRun(max, window, times + [now]) ==
            Run(d.list, if d.ok then r.history + [now] else r.history, r.oks + [d.ok])
  {
    assert (times + [now])[..|times|] == times;
  }

  lemma ReferenceAppend(max: int, window: int, times: seq<int>, now: int)
    ensures var (history, oks) := ReferenceRun(max, window, times);
            var ok := HistoryAllows(max, window, history, now);
            ReferenceRun(max, window, times + [now]) ==
            (if ok then history + [now] else history, oks + [ok])
  {
    assert (times + [now])[..|times|] == times;
  }

  lemma {:induction false} RunFaithful(max: int, window: int, times: seq<int>)
    ensures var r := CodeRun(max, window, times); Faithful(max, window, times, r.list, r.history)
  {
    if times != [] {
      var before, now := times[..|times| - 1], times[|times| - 1];
      assert times == before + [now];
      RunFaithful(max, window, before);
      RunAppend(max, window, before, now);
      var r := CodeRun(max, window, before);
      FaithfulStep(max, window, before, r.list, r.history, now);
    }
  }

  /**
   The limiter refines full history: on calls in time order it gives the
   reference's answers, one by one, while it stores at most `max` timestamps.
   */
  lemma {:induction false} LimiterRefinesHistory(max: int, window: int, times: seq<int>)
    requires Nondecreasing(times)
    ensures var r := CodeRun(max, window, times);
            && (r.history, r.oks) == ReferenceRun(max, window, times)
            && |r.list| <= (if max > 0 then max else 0)
  {
    RunFaithful(max, window, times);
    if times != [] {
      var before, now := times[..|times| - 1], times[|times| - 1];
      assert times == before + [now];
      NondecreasingPrefix(before, now);
      LimiterRefinesHistory(max, window, before);
      RunFaithful(max, window, before);
      RunAppend(max, window, before, now);
      ReferenceAppend(max, window, before, now);
      var r := CodeRun(max, window, before);
      FaithfulStep(max, window, before, r.list, r.history, now);
    }
  }

  // ---- the bound on every window ---------------------------------------

  /** Number of entries in the half-open interval of this width from `lo` on. */
  function CountIn(s: seq<int>, lo: int, width: int): nat {
    if s == [] then 0
    else
      var n := |s| - 1;
      CountIn(s[..n], lo, width) + if lo <= s[n] < lo + width then 1 else 0
  }

  lemma {:induction false} CountInAfter(s: seq<int>, lo: int, width: int, cutoff: int)
    requires cutoff < lo
    ensures CountIn(s, lo, width) <= |After(s, cutoff)|
  {
    if s != [] {
      CountInAfter(s[..|s| - 1], lo, width, cutoff);
    }
  }

  ghost predicate WindowBound(max: nat, window: int, history: seq<int>) {
    forall lo :: CountIn(history, lo, window) <= max
  }

  lemma CountInAppend(s: seq<int>, t: int, lo: int, width: int)
    ensures CountIn(s + [t], lo, width) == CountIn(s, lo, width) + if lo <= t < lo + width then 1 else 0
  {
    assert (s + [t])[..|s|] == s;
  }

  /** An acceptance the reference allows keeps the bound on every window. */
  lemma WindowBoundStep(max: nat, window: int, history: seq<int>, now: int)
    requires WindowBound(max, window, history)
    requires HistoryAllows(max, window, history, now)
    ensures WindowBound(max, window, history + [now])
  {
    forall lo ensures CountIn(history + [now], lo, window) <= max {
      CountInAppend(history, now, lo, window);
      assert CountIn(history, lo, window) <= max;
      if lo <= now < lo + window {
        CountInAfter(history, lo, window, now - window);
      }
    }
  }

  /** No half-open interval of one window's length ever holds more than `max` acceptances. */
  lemma {:induction false} EveryWindowBounded(max: nat, window: int, times: seq<int>)
    requires Nondecreasing(times)
    ensures WindowBound(max, window, CodeRun(max, window, times).history)
  {
    if times != [] {
      var before, now := times[..|times| - 1], times[|times| - 1];
      assert times == before + [now];
      NondecreasingPrefix(before, now);
      EveryWindowBounded(max, window, before);
      RunFaithful(max, window, before);
      RunAppend(max, window, before, now);
      var r := CodeRun(max, window, before);
      FaithfulStep(max, window, before, r.list, r.history, now);
      if HistoryAllows(max, window, r.history, now) {
        WindowBoundStep(max, window, r.history, now);
      }
    }
  }

  /**
   Without a positive window nothing is ever remembered: calls in time order
   are all admitted. A text whose window wraps (WindowWraps) is accepted and
   switches the limiter off.
   */
  lemma {:induction false} NoWindowAdmitsAll(max: int, window: int, times: seq<int>)
    requires max >= 1 && window <= 0 && Nondecreasing(times)
    ensures CodeRun(max, window, times).history == times
    ensures forall i :: 0 <= i < |times| ==> CodeRun(max, window, times).oks[i]
  {
    if times != [] {
      var before, now := times[..|times| - 1], times[|times| - 1];
      assert times == before + [now];
      NondecreasingPrefix(before, now);
      NoWindowAdmitsAll(max, window, before);
      RunAppend(max, window, before, now);
      RunFaithful(max, window, before);
      var r := CodeRun(max, window, before);
      AllGone(r.history, now - window);
      assert |After(r.list, now - window)| <= |After(r.history, now - window)|;
    }
  }

  lemma {:induction false} AllGone(list: seq<int>, cutoff: int)
    requires forall i :: 0 <= i < |list| ==> list[i] <= cutoff
    ensures After(list, cutoff) == []
  {
    if list != [] {
      AllGone(list[..|list| - 1], cutoff);
    }
  }

  lemma WrappedTextAdmitsAll(max: nat, seconds: nat, times: seq<int>)
    requires 1 <= max < TWO_63 && TWO_63 <= seconds * SECOND < TWO_64 && Nondecreasing(times)
    ensures ValidateRateLimit(PrintRate(max, seconds))
    ensures var w := seconds * SECOND - TWO_64;
            RateLimitParsed(PrintRate(max, seconds)) == Ok(Limit(max, w)) && CodeRun(max, w, times).history == times
  {
    WindowWraps(max, seconds);
    var w := seconds * SECOND - TWO_64;
    NoWindowAdmitsAll(max, w, times);
  }

  // ---- without any assumption on the clock ------------------------------

  /** Call i was accepted, is later than `cutoff`, and no call after it pruned its entry. */
  ghost predicate Survives(window: int, times: seq<int>, oks: seq<bool>, cutoff: int, i: int)
    requires |oks| == |times| && 0 <= i < |times|
  {
    oks[i] && times[i] > cutoff && forall k :: i < k < |times| ==> times[i] > times[k] - window
  }

  ghost function Survivors(window: int, times: seq<int>, oks: seq<bool>, cutoff: int): set<int>
    requires |oks| == |times|
  {
    set i | 0 <= i < |times| && Survives(window, times, oks, cutoff, i)
  }

  lemma SurvivorsStep(window: int, times: seq<int>, oks: seq<bool>, cutoff: int)
    requires |oks| == |times| && times != []
    ensures var n := |times| - 1;
            var pruned := Later(times[n] - window, cutoff);
            Survivors(window, times, oks, cutoff)
            == Survivors(window, times[..n], oks[..n], pruned)
               + if oks[n] && times[n] > cutoff then {n} else {}
  {
    var n := |times| - 1;
    var pruned := Later(times[n] - window, cutoff);
    forall i | 0 <= i < n
      ensures Survives(window, times, oks, cutoff, i) <==> Survives(window, times[..n], oks[..n], pruned, i)
    {
      assert forall k :: 0 <= k < n ==> times[..n][k] == times[k];
    }
  }

  lemma {:induction false} SurvivorCount(max: int, window: int, times: seq<int>, cutoff: int)
    ensures var r := CodeRun(max, window, times);
            |After(r.list, cutoff)| == |Survivors(window, times, r.oks, cutoff)|
  {
    if times == [] {
      assert CodeRun(max, window, times) == Run([], [], []);
    } else {
      var before, now := times[..|times| - 1], times[|times| - 1];
      assert times == before + [now];
      var r := CodeRun(max, window, before);
      var pruned := Later(now - window, cutoff);
      SurvivorCount(max, window, before, pruned);
      RunAppend(max, window, before, now);
      SurvivorGrowth(max, window, before, r, now, cutoff, pruned);
    }
  }

  lemma SurvivorGrowth(max: int, window: int, before: seq<int>, r: Run, now: int, cutoff: int, pruned: int)
    requires |r.oks| == |before|
    requires pruned == Later(now - window, cutoff)
    requires |After(r.list, pruned)| == |Survivors(window, before, r.oks, pruned)|
    ensures var d := Decide(max, window, r.list, now);
            |After(d.list, cutoff)| == |Survivors(window, before + [now], r.oks + [d.ok], cutoff)|
  {
    var d := Decide(max, window, r.list, now);
    var oks := r.oks + [d.ok];
    assert (before + [now])[..|before|] == before && oks[..|before|] == r.oks;
    SurvivorsStep(window, before + [now], oks, cutoff);
    AfterDecide(max, window, r.list, now, cutoff);
  }

  /**
   What the code decides for any timestamps at all: a call at `now` is accepted
   exactly when fewer than `max` earlier accepted calls lie within one window
   of it and of every call that entered after them.
   */
  lemma DecisionForAnyClock(max: int, window: int, times: seq<int>, now: int)
    ensures var r := CodeRun(max, window, times);
            Decide(max, window, r.list, now).ok <==> |Survivors(window, times, r.oks, now - window)| < max
  {
    SurvivorCount(max, window, times, now - window);
  }

  /**
   When the code departs from the rule it stands for, on any timestamps:
   exactly when max acceptances lie in the last window but fewer survive the
   cutoffs of the calls in between. It then admits a call the rule denies.
   */
  lemma DisagreesExactly(max: int, window: int, times: seq<int>, now: int)
    ensures var r := CodeRun(max, window, times);
            Decide(max, window, r.list, now).ok != HistoryAllows(max, window, r.history, now)
            <==> |Survivors(window, times, r.oks, now - window)| < max <= |After(r.history, now - window)|
  {
    DecisionForAnyClock(max, window, times, now);
    RunFaithful(max, window, times);
    var r := CodeRun(max, window, times);
    FaithfulStep(max, window, times, r.list, r.history, now);
  }

  /**
   The clock is read before the mutex is taken, so calls can enter out of
   order. On any printable window, two calls, one that enters a window later,
   and one held up in between: three acceptances in a window of two.
   */
  lemma OutOfOrderExceeds(seconds: nat, t: int)
    requires 1 <= seconds <= MAX_WINDOW_SECONDS
    ensures var w := seconds * SECOND;
            var r := CodeRun(2, w, [t, t + 1, t + w + 5, t + 2]);
            && RateLimitParsed(PrintRate(2, seconds)) == Ok(Limit(2, w))
            && r.history == [t, t + 1, t + w + 5, t + 2]
            && CountIn(r.history, t, w) == 3
            && !HistoryAllows(2, w, [t, t + 1, t + w + 5], t + 2)
  {
    var w := seconds * SECOND;
    RateRoundTrip(2, seconds);
    FourthCall(w, t);
    CountFour(w, t);
    ThreeInWindow(w, t);
  }

  lemma ThreeInWindow(w: int, t: int)
    requires w >= 10
    ensures !HistoryAllows(2, w, [t, t + 1, t + w + 5], t + 2)
  {
    AllKept([t, t + 1, t + w + 5], t + 2 - w);
  }

  lemma TwoCalls(w: int, t: int)
    requires w >= 10
    ensures CodeRun(2, w, [t, t + 1]) == Run([t, t + 1], [t, t + 1], [true, true])
  {
    RunAppend(2, w, [], t);
    assert [] + [t] == [t];
    AfterAppend([], t, t + 1 - w);
    RunAppend(2, w, [t], t + 1);
    assert [t] + [t + 1] == [t, t + 1];
  }

  lemma ThreeCalls(w: int, t: int)
    requires w >= 10
    ensures CodeRun(2, w, [t, t + 1, t + w + 5]) == Run([t + w + 5], [t, t + 1, t + w + 5], [true, true, true])
  {
    var times := [t, t + 1];
    TwoCalls(w, t);
    AllGone(times, t + 5);
    RunAppend(2, w, times, t + w + 5);
    assert times + [t + w + 5] == [t, t + 1, t + w + 5];
  }

  lemma FourthCall(w: int, t: int)
    requires w >= 10
    ensures CodeRun(2, w, [t, t + 1, t + w + 5, t + 2]).history == [t, t + 1, t + w + 5, t + 2]
  {
    var times := [t, t + 1, t + w + 5];
    ThreeCalls(w, t);
    RunAppend(2, w, times, t + 2);
    assert times + [t + 2] == [t, t + 1, t + w + 5, t + 2];
  }

  lemma CountFour(w: int, t: int)
    requires w >= 10
    ensures CountIn([t, t + 1, t + w + 5, t + 2], t, w) == 3
  {
    CountInAppend([], t, t, w);
    CountInAppend([t], t + 1, t, w);
    CountInAppend([t, t + 1], t + w + 5, t, w);
    CountInAppend([t, t + 1, t + w + 5], t + 2, t, w);
    assert [] + [t] == [t] && [t] + [t + 1] == [t, t + 1];
    assert [t, t + 1] + [t + w + 5] == [t, t + 1, t + w + 5];
    assert [t, t + 1, t + w + 5] + [t + 2] == [t, t + 1, t + w + 5, t + 2];
  }

  // ---- the retry hint ----------------------------------------------------

  function Oldest(list: seq<int>): (t: int)
    requires list != []
    ensures t in list
    ensures forall i :: 0 <= i < |list| ==> t <= list[i]
  {
    OldestOf(list, |list|)
  }

  function OldestOf(list: seq<int>, n: nat): (t: int)
    requires 1 <= n <= |list|
    ensures exists i :: 0 <= i < n && t == list[i]
    ensures forall i :: 0 <= i < n ==> t <= list[i]
  {
    if n == 1 then list[0]
    else
      var m := OldestOf(list, n - 1);
      if list[n - 1] < m then list[n - 1] else m
  }

  /** RetryAfter: whole seconds until the oldest entry leaves the window. */
  function RetrySeconds(window: int, list: seq<int>, now: int): int {
    if list == [] then 0
    else
      var remaining := window - (now - Oldest(list));
      if remaining < 0 then 0 else remaining / SECOND
  }

  /** With the list full, the least instant that admits is oldest + window. */
  lemma FullListAdmits(max: int, window: int, list: seq<int>, at: int)
    requires max >= 1 && |list| == max
    ensures var d := Decide(max, window, list, at);
            if at >= Oldest(list) + window then d.ok else d == Decision(false, list)
  {
    DecideFromKept(max, window, list, at, Oldest(list)) by {
      FullListKept(list, at - window);
    }
  }

  lemma DecideFromKept(max: int, window: int, list: seq<int>, at: int, oldest: int)
    requires |list| == max
    requires if oldest > at - window then After(list, at - window) == list else |After(list, at - window)| < |list|
    ensures var d := Decide(max, window, list, at);
            if at >= oldest + window then d.ok else d == Decision(false, list)
  {
  }

  lemma FullListKept(list: seq<int>, cutoff: int)
    requires list != []
    ensures if Oldest(list) > cutoff then After(list, cutoff) == list else |After(list, cutoff)| < |list|
  {
    if Oldest(list) > cutoff {
      AllKept(list, cutoff);
    } else {
      var i :| 0 <= i < |list| && list[i] == Oldest(list);
      ShorterWithout(list, cutoff, i);
    }
  }

  lemma {:induction false} AllKept(list: seq<int>, cutoff: int)
    requires forall i :: 0 <= i < |list| ==> list[i] > cutoff
    ensures After(list, cutoff) == list
  {
    if list != [] {
      AllKept(list[..|list| - 1], cutoff);
    }
  }

  lemma {:induction false} ShorterWithout(list: seq<int>, cutoff: int, i: nat)
    requires i < |list| && list[i] <= cutoff
    ensures |After(list, cutoff)| < |list|
  {
    var n := |list| - 1;
    if i < n { ShorterWithout(list[..n], cutoff, i); }
  }

  function ListAfter(max: int, window: int, list: seq<int>, attempts: seq<int>): seq<int> {
    if attempts == [] then list
    else
      var n := |attempts| - 1;
      Decide(max, window, ListAfter(max, window, list, attempts[..n]), attempts[n]).list
  }

  /** No attempt in `attempts`, made in this order from `list`, is admitted. */
  ghost predicate AllDenied(max: int, window: int, list: seq<int>, attempts: seq<int>) {
    forall n :: 0 <= n < |attempts| ==>
      !Decide(max, window, ListAfter(max, window, list, attempts[..n]), attempts[n]).ok
  }

  lemma {:induction false} DeniedRunKeepsList(max: int, window: int, list: seq<int>, attempts: seq<int>)
    requires max >= 1 && |list| == max
    requires AllDenied(max, window, list, attempts)
    ensures ListAfter(max, window, list, attempts) == list
  {
    if attempts != [] {
      var n := |attempts| - 1;
      assert AllDenied(max, window, list, attempts[..n]) by {
        forall m | 0 <= m < n
          ensures !Decide(max, window, ListAfter(max, window, list, attempts[..n][..m]), attempts[..n][m]).ok
        {
          assert attempts[..n][..m] == attempts[..m];
        }
      }
      DeniedRunKeepsList(max, window, list, attempts[..n]);
      FullListAdmits(max, window, list, attempts[n]);
    }
  }

  /**
   The retry hint. A call is denied, further attempts in between are denied
   too, and RetryAfter is read at `clock`. From `clock` on, an attempt before
   the hinted number of seconds is denied and one a second later is admitted.
   */
  lemma RetryExact(max: int, window: int, list: seq<int>, denied: int, between: seq<int>, clock: int, at: int)
    requires 1 <= max && |list| <= max
    requires !Decide(max, window, list, denied).ok
    requires var full := Decide(max, window, list, denied).list; AllDenied(max, window, full, between)
    requires clock <= at
    ensures var full := Decide(max, window, list, denied).list;
            var held := ListAfter(max, window, full, between);
            var r := RetrySeconds(window, held, clock);
            && held == full && |full| == max
            && (at < clock + r * SECOND ==> !Decide(max, window, held, at).ok)
            && (at >= clock + (r + 1) * SECOND ==> Decide(max, window, held, at).ok)
            && (Decide(max, window, held, at).ok <==> at >= Oldest(full) + window)
  {
    var full := Decide(max, window, list, denied).list;
    DeniedRunKeepsList(max, window, full, between);
    FullListAdmits(max, window, full, at);
  }

  /** With no capacity the hint is 0 seconds, yet no attempt is ever admitted. */
  lemma NoCapacityNeverAdmits(max: int, window: int, times: seq<int>, at: int)
    requires max <= 0
    ensures var list := CodeRun(max, window, times).list;
            list == [] && RetrySeconds(window, list, at) == 0 && !Decide(max, window, list, at).ok
  {
    RunFaithful(max, window, times);
  }
}
