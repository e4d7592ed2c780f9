/**
 When the disclosure bound holds for all a user's requests, those in flight
 included: exactly when each of these is contained. Otherwise there is a run,
 without any reset of the user's limiter, that discloses more
 (vault/internal/tokens/store.go, lines 158-206; vault/internal/server/grpc.go,
 lines 157-215).
 */
module DisclosureExact {
  import opened Wrappers
  import opened RateText
  import opened Dates
  import opened SlidingWindow
  import opened TokenStore
  import opened StoreRuns
  import opened Admission

  /** The token begins requests of the user, held to `limit`, on that day. */
  ghost predicate Begins(store: State<nat>, user: string, token: string, today: int, limit: Limit) {
    && token in store.tokens && store.tokens[token].user == user
    && !IsExpiredAt(store.tokens[token].expires, today)
    && store.tokens[token].role in store.roles
    && RateLimitParsed(store.roles[store.tokens[token].role].rateLimit) == Ok(limit)
  }

  // ---- reachable states ----------------------------------------------------------

  /** Some run leads here from a state with the invariants of module Admission. */
  ghost predicate Reachable(s: Sys) {
    exists from: Sys, run: seq<Step> :: SysInv(from) && Linked(from) && CanRun(from, run) && Admission.After(from, run) == s
  }

  lemma ReachableHolds(s: Sys)
    requires Reachable(s)
    ensures SysInv(s) && Linked(s)
  {
    var from: Sys, run: seq<Step> :| SysInv(from) && Linked(from) && CanRun(from, run) && Admission.After(from, run) == s;
    ReachableSysInv(from, run);
  }

  lemma HoldsReachable(s: Sys)
    requires SysInv(s) && Linked(s)
    ensures Reachable(s)
  {
    assert CanRun(s, []) && Admission.After(s, []) == s;
  }

  lemma ReachStep(s: Sys, step: Step)
    requires Reachable(s) && Enabled(s, step)
    ensures Reachable(Do(s, step))
  {
    ReachableHolds(s);
    SysStep(s, step);
    HoldsReachable(Do(s, step));
  }

  lemma ReachRun(s: Sys, run: seq<Step>)
    requires Reachable(s) && CanRun(s, run)
    ensures Reachable(Admission.After(s, run))
  {
    ReachableHolds(s);
    ReachableSysInv(s, run);
    HoldsReachable(Admission.After(s, run));
  }

  // ---- runs ------------------------------------------------------------------

  lemma {:induction false} Concat(s: Sys, run: seq<Step>, more: seq<Step>, user: string, k: int)
    requires CanRun(s, run) && Span(s, run, user, k)
    requires CanRun(Admission.After(s, run), more) && Span(Admission.After(s, run), more, user, k)
    ensures CanRun(s, run + more) && Span(s, run + more, user, k)
    ensures Admission.After(s, run + more) == Admission.After(Admission.After(s, run), more)
    decreases |run|
  {
    if run == [] {
      assert run + more == more;
    } else {
      assert (run + more)[1..] == run[1..] + more;
      Concat(Do(s, run[0]), run[1..], more, user, k);
    }
  }

  lemma SpanCons(s: Sys, step: Step, rest: seq<Step>, user: string, k: int)
    requires Enabled(s, step)
    requires user in s.store.cache ==> user in Do(s, step).store.cache
    requires UserTopK(Do(s, step).store, user, k)
    requires CanRun(Do(s, step), rest) && Span(Do(s, step), rest, user, k)
    ensures CanRun(s, [step] + rest) && Span(s, [step] + rest, user, k)
    ensures Admission.After(s, [step] + rest) == Admission.After(Do(s, step), rest)
  {
    assert ([step] + rest)[1..] == rest;
  }

  // ---- an administrator may give any role a TopK of k -------------------------

  function RaiseEdit(k: int): RoleEdit {
    RoleEdit(Some(["decrypt_scores"]), Some(k), None)
  }

  function Raised(role: Role, k: int): Role {
    Role(role.name, ["decrypt_scores"], k, role.rateLimit)
  }

  lemma Raise(s: Sys, name: string, user: string, token: string, today: int, limit: Limit, k: nat)
    requires UserTopK(s.store, user, k) && Begins(s.store, user, token, today, limit) && name in s.store.roles
    ensures var step := Admin(UpdateRoleOp(name, RaiseEdit(k)));
            && Enabled(s, step)
            && var e := Do(s, step);
            && UserTopK(e.store, user, k) && Begins(e.store, user, token, today, limit)
            && e == s.(store := RaisedIn(s.store, name, k))
  {
    RaiseDoes(s, name, k);
    RaiseKeeps(s.store, name, user, token, today, limit, k);
  }

  /** The store with the role raised. */
  function RaisedIn(store: State<nat>, name: string, k: int): State<nat>
    requires name in store.roles
  {
    store.(roles := store.roles[name := Raised(store.roles[name], k)])
  }

  lemma RaiseDoes(s: Sys, name: string, k: int)
    requires name in s.store.roles
    ensures var step := Admin(UpdateRoleOp(name, RaiseEdit(k)));
            Enabled(s, step) && Do(s, step) == s.(store := RaisedIn(s.store, name, k))
  {
    assert Do(s, Admin(UpdateRoleOp(name, RaiseEdit(k)))).requests == s.requests;
  }

  lemma RaiseKeeps(store: State<nat>, name: string, user: string, token: string, today: int, limit: Limit, k: int)
    requires UserTopK(store, user, k) && Begins(store, user, token, today, limit) && name in store.roles
    ensures UserTopK(RaisedIn(store, name, k), user, k) && Begins(RaisedIn(store, name, k), user, token, today, limit)
  {
  }

  /** The user's role allows k. */
  ghost predicate Ready(s: Sys, user: string, token: string, today: int, limit: Limit, k: nat) {
    && Reachable(s) && UserTopK(s.store, user, k)
    && Begins(s.store, user, token, today, limit)
    && Allows(Some(s.store.roles[s.store.tokens[token].role]), k)
  }

  predicate Allows(role: Option<Role>, k: int) {
    InScope(role) && role.value.topK == k
  }

  lemma RaiseTwo(s: Sys, other: string, user: string, token: string, today: int, limit: Limit, k: nat)
    returns (run: seq<Step>, e: Sys)
    requires UserTopK(s.store, user, k) && Begins(s.store, user, token, today, limit) && other in s.store.roles
    ensures CanRun(s, run) && Span(s, run, user, k) && e == Admission.After(s, run)
    ensures UserTopK(e.store, user, k) && Begins(e.store, user, token, today, limit)
    ensures e == s.(store := s.store.(roles := e.store.roles))
    ensures other in e.store.roles && Allows(Some(e.store.roles[other]), k)
    ensures Allows(Some(e.store.roles[e.store.tokens[token].role]), k)
  {
    var mine := s.store.tokens[token].role;
    var first, second := Admin(UpdateRoleOp(other, RaiseEdit(k))), Admin(UpdateRoleOp(mine, RaiseEdit(k)));
    Raise(s, other, user, token, today, limit, k);
    var s1 := Do(s, first);
    Raise(s1, mine, user, token, today, limit, k);
    e := Do(s1, second);
    SpanCons(s1, second, [], user, k);
    SpanCons(s, first, [second] + [], user, k);
    run := [first] + ([second] + []);
  }

  /** Raise the role a request points at, unless that was deleted, and the user's role. */
  lemma RaiseBoth(s: Sys, t: nat, user: string, token: string, today: int, limit: Limit, k: nat)
    returns (run: seq<Step>, e: Sys)
    requires Reachable(s) && UserTopK(s.store, user, k) && Begins(s.store, user, token, today, limit)
    requires t in s.requests && (s.requests[t].gone.None? ==> s.requests[t].role in s.store.roles)
    ensures CanRun(s, run) && Span(s, run, user, k) && e == Admission.After(s, run)
    ensures Ready(e, user, token, today, limit, k)
    ensures e.store.cache == s.store.cache && e.limiters == s.limiters && e.slots == s.slots && e.requests == s.requests
    ensures s.requests[t].gone.None? ==> Allows(RoleOf(e.store, e.requests[t]), k)
  {
    var other := if s.requests[t].gone.None? then s.requests[t].role else s.store.tokens[token].role;
    run, e := RaiseTwo(s, other, user, token, today, limit, k);
    ReachRun(s, run);
  }

  // ---- one admission and its disclosure ---------------------------------------

  /** The limiter can be asked at `now`, when j of its acceptances count. */
  ghost predicate Used(l: LimiterState, now: int, j: nat) {
    && (l.calls == [] || l.calls[|l.calls| - 1] <= now)
    && |SlidingWindow.After(l.list, now - l.limit.window)| == j
  }

  lemma AskUses(l: LimiterState, now: int, j: nat)
    requires Used(l, now, j) && j < l.limit.max
    ensures var d := Decide(l.limit.max, l.limit.window, l.list, now);
            && d.ok
            && (l.limit.window > 0 ==>
                  Used(LimiterState(l.limit, d.list, l.history + [now], l.calls + [now]), now, j + 1))
  {
    var cutoff := now - l.limit.window;
    AfterDecide(l.limit.max, l.limit.window, l.list, now, cutoff);
    assert Later(cutoff, cutoff) == cutoff;
    assert (l.calls + [now])[|l.calls|] == now;
  }

  /** A request whose limiter has room is admitted ... */
  lemma Admit(s: Sys, t: nat, now: int, j: nat)
    requires Reachable(s) && t in s.requests && s.requests[t].slot.None?
    requires s.requests[t].limiter < |s.limiters|
    requires var l := s.limiters[s.requests[t].limiter]; Used(l, now, j) && j < l.limit.max
    ensures Enabled(s, Ask(t, now))
    ensures var r := s.requests[t];
            var e := Do(s, Ask(t, now));
            && Reachable(e) && e.store == s.store
            && e.requests == s.requests[t := r.(slot := Some(|s.slots|))]
            && e.slots == s.slots + [Slot(r.serial, r.user, r.limiter, now, 0)]
            && |e.limiters| == |s.limiters|
            && (forall i :: 0 <= i < |s.limiters| && i != r.limiter ==> e.limiters[i] == s.limiters[i])
            && e.limiters[r.limiter].limit == s.limiters[r.limiter].limit
            && (s.limiters[r.limiter].limit.window > 0 ==> Used(e.limiters[r.limiter], now, j + 1))
  {
    ReachableHolds(s);
    AskUses(s.limiters[s.requests[t].limiter], now, j);
    ReachStep(s, Ask(t, now));
  }

  /** ... and returns the v entries its role allows. */
  lemma Answer(s: Sys, t: nat, v: nat)
    requires Reachable(s) && t in s.requests && s.requests[t].slot.Some?
    requires Allows(RoleOf(s.store, s.requests[t]), v) && v >= 1
    ensures Enabled(s, CheckScope(t))
    ensures var s1 := Do(s, CheckScope(t));
            && Enabled(s1, Disclose(t, v, v))
            && s1.store == s.store
            && var e := Do(s1, Disclose(t, v, v));
            && Reachable(e) && e.store == s.store && e.limiters == s.limiters
            && var g := s.requests[t].slot.value;
            && g < |s.slots| && e.slots == s.slots[g := s.slots[g].(entries := v)]
  {
    ReachableHolds(s);
    ReachStep(s, CheckScope(t));
    ReachStep(Do(s, CheckScope(t)), Disclose(t, v, v));
  }

  /** What both together make of the state. */
  ghost predicate StruckOnce(s: Sys, e: Sys, t: nat, v: nat, now: int, j: nat)
    requires t in s.requests && s.requests[t].limiter < |s.limiters|
  {
    var r := s.requests[t];
    && e.store == s.store
    && e.slots == s.slots + [Slot(r.serial, r.user, r.limiter, now, v)]
    && |e.limiters| == |s.limiters|
    && (forall i :: 0 <= i < |s.limiters| && i != r.limiter ==> e.limiters[i] == s.limiters[i])
    && e.limiters[r.limiter].limit == s.limiters[r.limiter].limit
    && (s.limiters[r.limiter].limit.window > 0 ==> Used(e.limiters[r.limiter], now, j + 1))
  }

  lemma AdmitAnswer(s: Sys, t: nat, v: nat, now: int, j: nat) returns (s1: Sys, s2: Sys, e: Sys)
    requires Reachable(s)
    requires t in s.requests && s.requests[t].slot.None? && Allows(RoleOf(s.store, s.requests[t]), v) && v >= 1
    requires s.requests[t].limiter < |s.limiters|
    requires var l := s.limiters[s.requests[t].limiter]; Used(l, now, j) && j < l.limit.max
    ensures Enabled(s, Ask(t, now)) && s1 == Do(s, Ask(t, now)) && s1.store == s.store
    ensures Enabled(s1, CheckScope(t)) && s2 == Do(s1, CheckScope(t)) && s2.store == s.store
    ensures Enabled(s2, Disclose(t, v, v)) && e == Do(s2, Disclose(t, v, v))
    ensures Reachable(e) && StruckOnce(s, e, t, v, now, j)
  {
    Admit(s, t, now, j);
    s1 := Do(s, Ask(t, now));
    Answer(s1, t, v);
    s2 := Do(s1, CheckScope(t));
    e := Do(s2, Disclose(t, v, v));
    var r := s.requests[t];
    LastEntries(s.slots, Slot(r.serial, r.user, r.limiter, now, 0), v);
  }

  lemma LastEntries(slots: seq<Slot>, slot: Slot, v: int)
    ensures var all := slots + [slot]; all[|slots| := all[|slots|].(entries := v)] == slots + [slot.(entries := v)]
  {
  }

  lemma Strike(s: Sys, t: nat, v: nat, now: int, j: nat, user: string, k: nat) returns (run: seq<Step>, e: Sys)
    requires Reachable(s) && UserTopK(s.store, user, k)
    requires t in s.requests && s.requests[t].slot.None? && Allows(RoleOf(s.store, s.requests[t]), v) && v >= 1
    requires s.requests[t].limiter < |s.limiters|
    requires var l := s.limiters[s.requests[t].limiter]; Used(l, now, j) && j < l.limit.max
    ensures CanRun(s, run) && Span(s, run, user, k) && e == Admission.After(s, run)
    ensures Reachable(e) && StruckOnce(s, e, t, v, now, j)
  {
    var s1, s2;
    s1, s2, e := AdmitAnswer(s, t, v, now, j);
    run := ThreeSteps(s, s1, s2, e, t, now, v, user, k);
  }

  lemma ThreeSteps(s: Sys, s1: Sys, s2: Sys, e: Sys, t: nat, now: int, v: nat, user: string, k: nat) returns (run: seq<Step>)
    requires UserTopK(s.store, user, k) && s1.store == s.store && s2.store == s.store && e.store == s.store
    requires Enabled(s, Ask(t, now)) && s1 == Do(s, Ask(t, now))
    requires Enabled(s1, CheckScope(t)) && s2 == Do(s1, CheckScope(t))
    requires Enabled(s2, Disclose(t, v, v)) && e == Do(s2, Disclose(t, v, v))
    ensures CanRun(s, run) && Span(s, run, user, k) && Admission.After(s, run) == e
  {
    SpanCons(s2, Disclose(t, v, v), [], user, k);
    run := [Disclose(t, v, v)] + [];
    SpanCons(s1, CheckScope(t), run, user, k);
    run := [CheckScope(t)] + run;
    SpanCons(s, Ask(t, now), run, user, k);
    run := [Ask(t, now)] + run;
  }

  // ---- filling the current limiter ---------------------------------------------

  /** The user's cached limiter, or the one the next request creates, has j acceptances that count. */
  ghost predicate Filled(s: Sys, user: string, now: int, j: nat) {
    if user in s.store.cache then
      s.store.cache[user].handle < |s.limiters| && Used(s.limiters[s.store.cache[user].handle], now, j)
    else j == 0
  }

  lemma Begin(s: Sys, t: nat, user: string, token: string, today: int, limit: Limit, k: nat, now: int, j: nat)
    requires Ready(s, user, token, today, limit, k) && t !in s.requests && Filled(s, user, now, j)
    ensures var step := Look(t, token, today);
            && Enabled(s, step)
            && var e := Do(s, step);
            && Ready(e, user, token, today, limit, k) && Filled(e, user, now, j)
            && e.slots == s.slots && e.store.tokens == s.store.tokens && e.store.roles == s.store.roles
            && user in e.store.cache && e.store.cache[user].limit == limit
            && t in e.requests
            && e.requests[t] == Request(s.serial, user, e.store.cache[user].handle, s.store.tokens[token].role, None, false, None)
            && e.limiters[e.store.cache[user].handle].limit == limit
  {
    ReachableHolds(s);
    LookupIgnoresCache(s.store, token, today, |s.limiters|);
    LookCache(s.store, token, today, |s.limiters|);
    ReachStep(s, Look(t, token, today));
  }

  /** From position `from` on there are n slots, all of the user at `now`, under which k entries were returned. */
  ghost predicate Struck(slots: seq<Slot>, from: nat, n: nat, user: string, now: int, k: nat) {
    && |slots| == from + n
    && forall i :: from <= i < |slots| ==> slots[i].user == user && slots[i].at == now && slots[i].entries == k
  }

  /** The run gives n such slots, on the same records. */
  ghost predicate Fills(s: Sys, run: seq<Step>, user: string, k: nat, now: int, n: nat) {
    && CanRun(s, run) && Span(s, run, user, k)
    && var e := Admission.After(s, run);
    && s.slots <= e.slots && Struck(e.slots, |s.slots|, n, user, now, k)
    && (user in s.store.cache || n > 0 ==> user in e.store.cache)
    && e.store.tokens == s.store.tokens && e.store.roles == s.store.roles
  }

  lemma FillOne(s: Sys, user: string, token: string, today: int, limit: Limit, k: nat, now: int, j: nat)
    returns (run: seq<Step>, e: Sys)
    requires Ready(s, user, token, today, limit, k) && Filled(s, user, now, j)
    requires k >= 1 && limit.window > 0 && j < limit.max
    ensures Fills(s, run, user, k, now, 1) && e == Admission.After(s, run)
    ensures Ready(e, user, token, today, limit, k) && Filled(e, user, now, j + 1)
  {
    var t := Unused(s.requests.Keys);
    assert t !in s.requests;
    Begin(s, t, user, token, today, limit, k, now, j);
    var s1 := Do(s, Look(t, token, today));
    var rest;
    rest, e := StrikeCurrent(s1, t, user, token, today, limit, k, now, j);
    SpanCons(s, Look(t, token, today), rest, user, k);
    run := [Look(t, token, today)] + rest;
  }

  lemma StrikeCurrent(s: Sys, t: nat, user: string, token: string, today: int, limit: Limit, k: nat, now: int, j: nat)
    returns (run: seq<Step>, e: Sys)
    requires Ready(s, user, token, today, limit, k) && Filled(s, user, now, j)
    requires k >= 1 && limit.window > 0 && j < limit.max
    requires t in s.requests && s.requests[t].user == user && OnCurrent(s.store, s.requests[t])
    requires s.requests[t].slot.None? && Allows(RoleOf(s.store, s.requests[t]), k)
    requires s.limiters[s.store.cache[user].handle].limit == limit
    ensures Fills(s, run, user, k, now, 1) && e == Admission.After(s, run)
    ensures Ready(e, user, token, today, limit, k) && Filled(e, user, now, j + 1)
  {
    run, e := Strike(s, t, k, now, j, user, k);
  }

  lemma FillAll(s: Sys, user: string, token: string, today: int, limit: Limit, k: nat, now: int, j: nat, n: nat)
    returns (run: seq<Step>)
    requires Ready(s, user, token, today, limit, k) && Filled(s, user, now, j)
    requires k >= 1 && limit.window > 0 && j + n == limit.max
    ensures Fills(s, run, user, k, now, n)
    decreases n
  {
    if n == 0 {
      run := [];
    } else {
      var first, s1 := FillOne(s, user, token, today, limit, k, now, j);
      var rest := FillAll(s1, user, token, today, limit, k, now, j + 1, n - 1);
      run := FillsJoin(s, first, rest, user, k, now, n);
    }
  }

  lemma FillsJoin(s: Sys, first: seq<Step>, rest: seq<Step>, user: string, k: nat, now: int, n: nat)
    returns (run: seq<Step>)
    requires n > 0 && Fills(s, first, user, k, now, 1)
    requires Fills(Admission.After(s, first), rest, user, k, now, n - 1)
    ensures Fills(s, run, user, k, now, n)
  {
    Concat(s, first, rest, user, k);
    run := first + rest;
  }

  /** k, n times. */
  function Total(k: nat, n: nat): nat {
    if n == 0 then 0 else k + Total(k, n - 1)
  }

  lemma {:induction false} TotalIs(k: nat, n: nat)
    ensures Total(k, n) == k * n
  {
    if n > 0 {
      TotalIs(k, n - 1);
      assert k * n == k * (n - 1) + k;
    }
  }

  /** Such slots add k entries each. */
  lemma {:induction false} StruckEntries(slots: seq<Slot>, from: nat, at: nat, n: nat, user: string, now: int, width: int, k: nat)
    requires from <= at && Struck(slots, at, n, user, now, k) && width > 0
    ensures EntriesIn(slots, from, user, 0, now, width) == EntriesIn(slots[..at], from, user, 0, now, width) + Total(k, n)
  {
    if n == 0 {
      assert slots[..at] == slots;
    } else {
      var last := |slots| - 1;
      assert slots == slots[..last] + [slots[last]] && slots[..last][..at] == slots[..at];
      StruckEntries(slots[..last], from, at, n - 1, user, now, width, k);
      EntriesAppend(slots[..last], slots[last], from, user, 0, now, width);
    }
  }

  // ---- late enough, every limiter is empty ---------------------------------------

  lemma {:induction false} Above(list: seq<int>) returns (b: int)
    ensures forall i :: 0 <= i < |list| ==> list[i] <= b
  {
    if list == [] {
      b := 0;
    } else {
      var n := |list| - 1;
      b := Above(list[..n]);
      b := if b < list[n] then list[n] else b;
    }
  }

  lemma EmptyFrom(l: LimiterState) returns (b: int)
    ensures forall now :: now >= b ==> Used(l, now, 0)
  {
    var a := Above(l.list);
    var c := Above(l.calls);
    b := if a + l.limit.window < c then c else a + l.limit.window;
    forall now | now >= b ensures Used(l, now, 0) {
      AllGone(l.list, now - l.limit.window);
    }
  }

  // ---- more than the bound ------------------------------------------------------

  /** A request not contained is on another limiter than its user's, which admits, and its role can still allow entries. */
  lemma NotContained(s: Sys, t: nat)
    requires Reachable(s) && t in s.requests && !Contained(s, s.requests[t], |s.slots|)
    ensures var r := s.requests[t];
            && r.slot.None? && r.limiter < |s.limiters| && s.limiters[r.limiter].limit.max >= 1
            && !OnCurrent(s.store, r) && (r.gone.None? ==> r.role in s.store.roles)
            && (r.gone.Some? ==> InScope(r.gone) && r.gone.value.topK >= 1)
  {
    ReachableHolds(s);
  }

  lemma CachedLimit(s: Sys, user: string, token: string, today: int, limit: Limit)
    requires Reachable(s) && Begins(s.store, user, token, today, limit)
    ensures user in s.store.cache ==> s.store.cache[user].limit == limit
    ensures limit.max >= 0
  {
    ReachableHolds(s);
    ParsedLimitRange(s.store.roles[s.store.tokens[token].role].rateLimit);
  }

  /** An instant at which the request's limiter and the user's cached one are both empty. */
  lemma EmptyBoth(s: Sys, limiter: nat, user: string) returns (now: int)
    requires Reachable(s) && limiter < |s.limiters|
    ensures Used(s.limiters[limiter], now, 0) && Filled(s, user, now, 0)
  {
    ReachableHolds(s);
    now := EmptyFrom(s.limiters[limiter]);
    if user in s.store.cache {
      var other := EmptyFrom(s.limiters[s.store.cache[user].handle]);
      now := if now < other then other else now;
    }
  }

  /** A request on another limiter leaves the user's cached one alone. */
  lemma StrikeStale(s: Sys, t: nat, v: nat, user: string, token: string, today: int, limit: Limit, k: nat, now: int)
    returns (run: seq<Step>, e: Sys)
    requires Ready(s, user, token, today, limit, k) && Filled(s, user, now, 0)
    requires t in s.requests && s.requests[t].user == user && s.requests[t].slot.None? && !OnCurrent(s.store, s.requests[t])
    requires Allows(RoleOf(s.store, s.requests[t]), v) && v >= 1
    requires s.requests[t].limiter < |s.limiters|
    requires var l := s.limiters[s.requests[t].limiter]; Used(l, now, 0) && l.limit.max >= 1
    ensures CanRun(s, run) && Span(s, run, user, k) && e == Admission.After(s, run)
    ensures Ready(e, user, token, today, limit, k) && Filled(e, user, now, 0)
    ensures var r := s.requests[t]; e.slots == s.slots + [Slot(r.serial, user, r.limiter, now, v)]
  {
    run, e := Strike(s, t, v, now, 0, user, k);
  }

  /** The request in flight goes first. */
  lemma StrikeFirst(s: Sys, t: nat, v: nat, user: string, token: string, today: int, limit: Limit, k: nat)
    returns (run: seq<Step>, e: Sys, now: int)
    requires Ready(s, user, token, today, limit, k) && limit.window > 0
    requires t in s.requests && s.requests[t].user == user && s.requests[t].slot.None? && !OnCurrent(s.store, s.requests[t])
    requires Allows(RoleOf(s.store, s.requests[t]), v) && v >= 1
    requires s.requests[t].limiter < |s.limiters| && s.limiters[s.requests[t].limiter].limit.max >= 1
    ensures CanRun(s, run) && Span(s, run, user, k) && e == Admission.After(s, run)
    ensures Ready(e, user, token, today, limit, k) && |e.slots| == |s.slots| + 1
    ensures Filled(e, user, now, 0)
    ensures EntriesIn(e.slots, |s.slots|, user, 0, now, limit.window) == v
  {
    var r := s.requests[t];
    now := EmptyBoth(s, r.limiter, user);
    run, e := StrikeStale(s, t, v, user, token, today, limit, k, now);
    EntriesAppend(s.slots, Slot(r.serial, user, r.limiter, now, v), |s.slots|, user, 0, now, limit.window);
  }

  /** v entries first, then k under each slot of the limit, are more than the bound. */
  lemma Overfull(e: Sys, from: nat, before: seq<Slot>, user: string, limit: Limit, k: nat, v: nat, now: int)
    requires if user in e.store.cache then e.store.cache[user].limit == limit else limit.max == 0
    requires from <= |before| && before <= e.slots && limit.window > 0 && limit.max >= 0
    requires EntriesIn(before, from, user, 0, now, limit.window) == v && v >= 1
    requires Struck(e.slots, |before|, limit.max, user, now, k)
    ensures !WithinBound(e, from, user, 0, k, now)
  {
    assert e.slots[..|before|] == before;
    StruckEntries(e.slots, from, |before|, limit.max, user, now, limit.window, k);
    TotalIs(k, limit.max);
    assert EntriesIn(e.slots, from, user, 0, now, limit.window) > 0;
  }

  lemma Overrun(s: Sys, from: nat, user: string, token: string, today: int, limit: Limit, k: nat, v: nat, now: int)
    returns (run: seq<Step>)
    requires Ready(s, user, token, today, limit, k) && Filled(s, user, now, 0)
    requires k >= 1 && limit.window > 0 && from <= |s.slots|
    requires EntriesIn(s.slots, from, user, 0, now, limit.window) == v && v >= 1
    ensures CanRun(s, run) && Span(s, run, user, k)
    ensures !WithinBound(Admission.After(s, run), from, user, 0, k, now)
  {
    CachedLimit(s, user, token, today, limit);
    run := FillAll(s, user, token, today, limit, k, now, 0, limit.max);
    var e := Admission.After(s, run);
    ReachRun(s, run);
    CachedLimit(e, user, token, today, limit);
    Overfull(e, from, s.slots, user, limit, k, v, now);
  }

  lemma Exceed(s: Sys, t: nat, user: string, token: string, today: int, limit: Limit, k: nat)
    returns (run: seq<Step>, now: int)
    requires Reachable(s) && UserTopK(s.store, user, k) && Begins(s.store, user, token, today, limit)
    requires k >= 1 && limit.window > 0
    requires t in s.requests && s.requests[t].user == user && !Contained(s, s.requests[t], |s.slots|)
    ensures CanRun(s, run) && Span(s, run, user, k)
    ensures !WithinBound(Admission.After(s, run), |s.slots|, user, 0, k, now)
  {
    NotContained(s, t);
    var v: nat := if s.requests[t].gone.Some? then s.requests[t].gone.value.topK else k;
    var first, s1 := RaiseBoth(s, t, user, token, today, limit, k);
    var second, s2;
    second, s2, now := StrikeFirst(s1, t, v, user, token, today, limit, k);
    var third := Overrun(s2, |s.slots|, user, token, today, limit, k, v, now);
    Concat(s1, second, third, user, k);
    Concat(s, first, second + third, user, k);
    run := first + (second + third);
  }

  /**
   The bound is exact. Take a user with a valid token on a window of positive
   length, whose role allows at most k >= 1. All the user's requests, those in
   flight included, stay within k times the request limit in every window of
   every span without a reset, exactly when each request in flight has its
   slot, or a limiter that admits nothing, or a deleted role that allows
   nothing, or the user's cached limiter.
   */
  lemma DisclosureExact(s: Sys, user: string, token: string, today: int, limit: Limit, k: nat)
    requires SysInv(s) && Linked(s) && UserTopK(s.store, user, k) && Begins(s.store, user, token, today, limit)
    requires k >= 1 && limit.window > 0
    ensures (forall run: seq<Step>, lo: int :: CanRun(s, run) && Span(s, run, user, k) ==>
               WithinBound(Admission.After(s, run), |s.slots|, user, 0, k, lo))
            <==> RequestsInSpan(s, user, 0, |s.slots|)
  {
    if RequestsInSpan(s, user, 0, |s.slots|) {
      forall run: seq<Step>, lo: int | CanRun(s, run) && Span(s, run, user, k)
        ensures WithinBound(Admission.After(s, run), |s.slots|, user, 0, k, lo)
      {
        DisclosureBound(s, run, user, 0, k, lo);
      }
    } else {
      HoldsReachable(s);
      var t :| t in s.requests && s.requests[t].user == user && !Contained(s, s.requests[t], |s.slots|);
      var run, now := Exceed(s, t, user, token, today, limit, k);
    }
  }

  // ---- a rotation with a request in flight ----------------------------------------

  /** A rotation leaves an unanswered request on a limiter that is no longer its user's. */
  lemma RotatedUncontained(s: Sys, t: nat, user: string, next: string, today: int)
    requires SysInv(s) && Linked(s) && next !in s.store.issued
    requires t in s.requests && s.requests[t].user == user && s.requests[t].slot.None?
    requires OnCurrent(s.store, s.requests[t]) && s.store.cache[user].limit.max >= 1
    ensures var e := Do(s, Admin(RotateOp(user, Some(next), today)));
            && t in e.requests && e.requests[t] == s.requests[t]
            && user !in e.store.cache && !Contained(e, e.requests[t], |e.slots|)
  {
  }

  /**
   A request that has its limiter when its user's token is rotated still uses
   it. Whatever the state, if that limiter admits anything and the new token is
   valid, there is a run after the rotation, without a further reset, in which
   more than k times the request limit are disclosed in one window.
   */
  lemma InFlightOutlivesReset(s: Sys, t: nat, user: string, next: string, today: int, limit: Limit, k: nat)
    returns (rotated: Sys, run: seq<Step>, now: int)
    requires SysInv(s) && Linked(s) && next !in s.store.issued
    requires t in s.requests && s.requests[t].user == user && s.requests[t].slot.None?
    requires OnCurrent(s.store, s.requests[t]) && s.store.cache[user].limit == limit
    requires limit.max >= 1 && limit.window > 0 && k >= 1
    requires var store := Apply(s.store, RotateOp(user, Some(next), today));
             Begins(store, user, next, today, limit) && UserTopK(store, user, k)
    ensures rotated == Do(s, Admin(RotateOp(user, Some(next), today)))
    ensures CanRun(rotated, run) && Span(rotated, run, user, k)
    ensures !WithinBound(Admission.After(rotated, run), |rotated.slots|, user, 0, k, now)
  {
    var step := Admin(RotateOp(user, Some(next), today));
    RotatedUncontained(s, t, user, next, today);
    SysStep(s, step);
    rotated := Do(s, step);
    HoldsReachable(rotated);
    run, now := Exceed(rotated, t, user, next, today, limit, k);
  }
}
