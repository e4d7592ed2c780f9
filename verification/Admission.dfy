/**
 Requests in flight. Validate releases the store's mutex before it asks the
 limiter, and DecryptScores compares top_k with the role after that, so other
 operations fall in between (vault/internal/tokens/store.go, lines 158-184;
 vault/internal/server/grpc.go, lines 171-213). A limiter is named by its
 position in the list of all limiters ever created.
 */
module Admission {
  import opened Wrappers
  import opened RateText
  import opened Dates
  import opened SlidingWindow
  import opened TokenStore
  import opened StoreRuns
  import opened Documents

  /** `history` holds the acceptances since the limiter was last told to forget its user. */
  datatype LimiterState = LimiterState(limit: Limit, list: seq<int>, history: seq<int>, calls: seq<int>)

  /**
   A request past the locked section of Validate. It holds a pointer to the
   role object of the name `role`, and reads it later: the object is edited in
   place while it lives, and `gone` is its last content once it was deleted.
   `cleared` means the scope check went through.
   */
  datatype Request = Request(serial: nat, user: string, limiter: nat, role: string, gone: Option<Role>,
                             cleared: bool, slot: Option<nat>)

  /** An acceptance by a limiter, and how many score entries its request returned. */
  datatype Slot = Slot(serial: nat, user: string, limiter: nat, at: int, entries: int)

  datatype Sys = Sys(
    store: State<nat>,
    limiters: seq<LimiterState>,
    requests: map<nat, Request>,
    serial: nat,
    slots: seq<Slot>
  )

  datatype Step =
    | Admin(op: Op<nat>)
    | Look(thread: nat, token: string, today: int)
    | Ask(thread: nat, now: int)
    /** DecryptScores reads the role's scope, and it allows the call. */
    | CheckScope(thread: nat)
    /** DecryptScores reads the role's TopK: `topK` is requested, `total` scores are found. */
    | Disclose(thread: nat, topK: int, total: nat)
    /** Any other way for the request to end. */
    | Drop(thread: nat)

  ghost predicate Enabled(s: Sys, step: Step) {
    match step
    case Admin(op) => !op.LookupOp? && Legal(s.store, op)
    case Look(t, _, _) => t !in s.requests
    case Ask(t, now) =>
      && t in s.requests && s.requests[t].slot.None? && s.requests[t].limiter < |s.limiters|
      && var calls := s.limiters[s.requests[t].limiter].calls;
         calls == [] || calls[|calls| - 1] <= now
    case CheckScope(t) =>
      t in s.requests && s.requests[t].slot.Some? && InScope(RoleOf(s.store, s.requests[t]))
    case Disclose(t, topK, _) =>
      && t in s.requests && s.requests[t].slot.Some? && s.requests[t].slot.value < |s.slots|
      && s.requests[t].cleared && topK >= 1 && RoleOf(s.store, s.requests[t]).Some?
    case Drop(t) => t in s.requests
  }

  /** The user whose limiter a revocation or rotation tells to forget it. */
  function Forgotten(s: State<nat>, op: Op<nat>): Option<nat> {
    if (op.RevokeOp? || op.RotateOp?) && op.user in s.byUser && op.user in s.cache
    then Some(s.cache[op.user].handle) else None
  }

  function Forget(limiters: seq<LimiterState>, which: Option<nat>): seq<LimiterState> {
    if which.Some? && which.value < |limiters|
    then limiters[which.value := limiters[which.value].(list := [], history := [])]
    else limiters
  }

  /** What the request's pointer to its role object shows. */
  function RoleOf(store: State<nat>, r: Request): Option<Role> {
    if r.gone.Some? then r.gone else if r.role in store.roles then Some(store.roles[r.role]) else None
  }

  predicate InScope(role: Option<Role>) {
    role.Some? && "decrypt_scores" in role.value.scope
  }

  /** The request after a change of the roles map: a deleted object keeps its content. */
  function Detached(r: Request, before: map<string, Role>, after: map<string, Role>): Request {
    if r.gone.None? && r.role in before && r.role !in after then r.(gone := Some(before[r.role])) else r
  }

  function EntriesReturned(topK: int, allowed: int, total: nat): int {
    if topK > allowed then 0 else if topK > total then total else topK
  }

  function Do(s: Sys, step: Step): Sys
    requires Enabled(s, step)
  {
    match step
    case Admin(op) =>
      var store := Apply(s.store, op);
      s.(store := store,
         limiters := Forget(s.limiters, Forgotten(s.store, op)),
         requests := map t | t in s.requests :: Detached(s.requests[t], s.store.roles, store.roles))
    case Look(t, token, today) =>
      var (store, r) := Lookup(s.store, token, today, |s.limiters|);
      if r.Err? then s
      else
        var g := r.value;
        Sys(store,
            if g.user in s.store.cache then s.limiters else s.limiters + [LimiterState(g.cached.limit, [], [], [])],
            s.requests[t := Request(s.serial, g.user, g.cached.handle, s.store.tokens[token].role, None, false, None)],
            s.serial + 1,
            s.slots)
    case Ask(t, now) =>
      var r := s.requests[t];
      var l := s.limiters[r.limiter];
      var d := Decide(l.limit.max, l.limit.window, l.list, now);
      var limiters := s.limiters[r.limiter :=
        LimiterState(l.limit, d.list, if d.ok then l.history + [now] else l.history, l.calls + [now])];
      if d.ok then
        s.(limiters := limiters, requests := s.requests[t := r.(slot := Some(|s.slots|))],
           slots := s.slots + [Slot(r.serial, r.user, r.limiter, now, 0)])
      else s.(limiters := limiters, requests := s.requests - {t})
    case CheckScope(t) => s.(requests := s.requests[t := s.requests[t].(cleared := true)])
    case Disclose(t, topK, total) =>
      var g := s.requests[t].slot.value;
      var allowed := RoleOf(s.store, s.requests[t]).value.topK;
      s.(requests := s.requests - {t},
         slots := s.slots[g := s.slots[g].(entries := EntriesReturned(topK, allowed, total))])
    case Drop(t) => s.(requests := s.requests - {t})
  }

  ghost predicate CanRun(s: Sys, run: seq<Step>)
    decreases |run|
  {
    run != [] ==> Enabled(s, run[0]) && CanRun(Do(s, run[0]), run[1..])
  }

  ghost function After(s: Sys, run: seq<Step>): Sys
    requires CanRun(s, run)
    decreases |run|
  {
    if run == [] then s else After(Do(s, run[0]), run[1..])
  }

  /**
   Only a revocation or a rotation touches limiters, and only its user's: that
   one has forgotten the user, so it admits the next call at once, whenever.
   */
  lemma ResetForgets(s: Sys, op: Op<nat>, i: nat, now: int)
    requires Enabled(s, Admin(op)) && i < |s.limiters|
    ensures var e := Do(s, Admin(op));
            var reset := (op.RevokeOp? || op.RotateOp?) && op.user in s.store.byUser && op.user in s.store.cache
                         && s.store.cache[op.user].handle == i;
            && |e.limiters| == |s.limiters|
            && (!reset ==> e.limiters[i] == s.limiters[i])
            && (reset ==>
                  var l := e.limiters[i];
                  && l.limit == s.limiters[i].limit && l.calls == s.limiters[i].calls
                  && (l.limit.max >= 1 ==> Decide(l.limit.max, l.limit.window, l.list, now).ok)
                  && forall lo, width :: CountIn(l.history, lo, width) == 0)
  {
  }

  // ---- the limiters ----------------------------------------------------------

  /** One limiter's list stands for its history, and no window holds more than its limit. */
  ghost predicate LimiterOk(l: LimiterState) {
    && l.limit.max >= 0
    && Nondecreasing(l.calls)
    && Faithful(l.limit.max, l.limit.window, l.calls, l.list, l.history)
    && WindowBound(l.limit.max, l.limit.window, l.history)
  }

  lemma AskKeepsLimiter(l: LimiterState, now: int)
    requires LimiterOk(l)
    requires l.calls == [] || l.calls[|l.calls| - 1] <= now
    ensures var d := Decide(l.limit.max, l.limit.window, l.list, now);
            LimiterOk(LimiterState(l.limit, d.list, if d.ok then l.history + [now] else l.history, l.calls + [now]))
  {
    var d := Decide(l.limit.max, l.limit.window, l.list, now);
    OrderedAppend(l.calls, now);
    FaithfulStep(l.limit.max, l.limit.window, l.calls, l.list, l.history, now);
    if d.ok {
      WindowBoundStep(l.limit.max, l.limit.window, l.history, now);
    }
  }

  lemma OrderedAppend(calls: seq<int>, now: int)
    requires Nondecreasing(calls) && (calls == [] || calls[|calls| - 1] <= now)
    ensures Nondecreasing(calls + [now])
  {
  }

  lemma ForgottenOk(l: LimiterState)
    requires LimiterOk(l)
    ensures LimiterOk(l.(list := [], history := []))
  {
  }

  /** Cached handles name limiters with the cached limits, and no two users share one. */
  ghost predicate HandlesOk(cache: map<string, Cached<nat>>, limiters: seq<LimiterState>) {
    && (forall u :: u in cache ==> cache[u].handle < |limiters| && limiters[cache[u].handle].limit == cache[u].limit)
    && (forall u, v :: u in cache && v in cache && u != v ==> cache[u].handle != cache[v].handle)
  }

  lemma NewHandle(cache: map<string, Cached<nat>>, limiters: seq<LimiterState>, user: string, limit: Limit)
    requires HandlesOk(cache, limiters) && limit.max >= 0
    requires forall i :: 0 <= i < |limiters| ==> LimiterOk(limiters[i])
    ensures var limiters' := limiters + [LimiterState(limit, [], [], [])];
            && HandlesOk(cache[user := Cached(limit, |limiters|)], limiters')
            && forall i :: 0 <= i < |limiters'| ==> LimiterOk(limiters'[i])
  {
    NewLimiterOk(limit);
  }

  ghost predicate TablesOk(s: Sys) {
    && HandlesOk(s.store.cache, s.limiters)
    && (forall i :: 0 <= i < |s.limiters| ==> LimiterOk(s.limiters[i]))
    && (forall t :: t in s.requests ==> s.requests[t].limiter < |s.limiters| && s.requests[t].serial < s.serial)
  }

  ghost predicate SysInv(s: Sys) {
    Inv(s.store) && TablesOk(s)
  }

  lemma ForgetKeeps(cache: map<string, Cached<nat>>, cache': map<string, Cached<nat>>,
                    limiters: seq<LimiterState>, which: Option<nat>)
    requires HandlesOk(cache, limiters)
    requires forall i :: 0 <= i < |limiters| ==> LimiterOk(limiters[i])
    requires forall u :: u in cache' ==> u in cache && cache'[u] == cache[u]
    ensures HandlesOk(cache', Forget(limiters, which))
    ensures forall i :: 0 <= i < |Forget(limiters, which)| ==> LimiterOk(Forget(limiters, which)[i])
  {
    if which.Some? && which.value < |limiters| {
      ForgottenOk(limiters[which.value]);
    }
  }

  lemma AdminCacheKept(s: State<nat>, op: Op<nat>)
    requires !op.LookupOp?
    ensures forall u :: u in Apply(s, op).cache ==> u in s.cache && Apply(s, op).cache[u] == s.cache[u]
  {
  }

  lemma LookCache(s: State<nat>, token: string, today: int, spare: nat)
    ensures var (s', r) := Lookup(s, token, today, spare);
            && (r.Err? ==> s' == s)
            && (r.Ok? ==>
                  && s'.cache == s.cache[r.value.user := r.value.cached]
                  && (if r.value.user in s.cache then r.value.cached == s.cache[r.value.user]
                      else r.value.cached.handle == spare && RateLimitParsed(r.value.role.rateLimit) == Ok(r.value.cached.limit)))
  {
  }

  lemma TablesAdmin(s: Sys, op: Op<nat>)
    requires TablesOk(s) && Enabled(s, Admin(op))
    ensures TablesOk(Do(s, Admin(op)))
  {
    AdminCacheKept(s.store, op);
    ForgetKeeps(s.store.cache, Apply(s.store, op).cache, s.limiters, Forgotten(s.store, op));
  }

  lemma TablesLook(s: Sys, t: nat, token: string, today: int)
    requires TablesOk(s) && Enabled(s, Look(t, token, today))
    ensures TablesOk(Do(s, Look(t, token, today)))
  {
    LookCache(s.store, token, today, |s.limiters|);
    var r := Lookup(s.store, token, today, |s.limiters|).1;
    if r.Ok? {
      var g := r.value;
      if g.user in s.store.cache {
        assert s.store.cache[g.user := g.cached] == s.store.cache;
      } else {
        ParsedLimitRange(g.role.rateLimit);
        NewHandle(s.store.cache, s.limiters, g.user, g.cached.limit);
        assert g.cached == Cached(g.cached.limit, |s.limiters|);
      }
    }
  }

  lemma NewLimiterOk(limit: Limit)
    requires limit.max >= 0
    ensures LimiterOk(LimiterState(limit, [], [], []))
  {
  }

  lemma TablesAsk(s: Sys, t: nat, now: int)
    requires TablesOk(s) && Enabled(s, Ask(t, now))
    ensures TablesOk(Do(s, Ask(t, now)))
  {
    AskKeepsLimiter(s.limiters[s.requests[t].limiter], now);
  }

  lemma TablesStep(s: Sys, step: Step)
    requires TablesOk(s) && Enabled(s, step)
    ensures TablesOk(Do(s, step))
  {
    match step
    case Admin(op) => TablesAdmin(s, op);
    case Look(t, token, today) => TablesLook(s, t, token, today);
    case Ask(t, now) => TablesAsk(s, t, now);
    case CheckScope(_) =>
    case Disclose(_, _, _) =>
    case Drop(_) =>
  }

  lemma StoreStep(s: Sys, step: Step)
    requires Inv(s.store) && Enabled(s, step)
    ensures Inv(Do(s, step).store)
  {
    match step
    case Admin(op) => ApplyInv(s.store, op);
    case Look(t, token, today) => LookupInv(s.store, token, today, |s.limiters|);
    case _ =>
  }

  lemma SysStep(s: Sys, step: Step)
    requires SysInv(s) && Linked(s) && Enabled(s, step)
    ensures SysInv(Do(s, step)) && Linked(Do(s, step)) && |Do(s, step).slots| >= |s.slots|
  {
    TablesStep(s, step);
    StoreStep(s, step);
    LinkedStep(s, step);
  }

  /** The system after a load: no limiter, no request. */
  function Fresh(store: State<nat>): Sys {
    Sys(store.(cache := map[]), [], map[], 0, [])
  }

  /**
   With requests in flight between their three steps, every reachable state
   keeps the store's invariant, cached limiters that no two users share, and
   limiters none of whose windows holds more than the limit.
   */
  lemma {:induction false} ReachableSysInv(s: Sys, run: seq<Step>)
    requires SysInv(s) && Linked(s) && CanRun(s, run)
    ensures SysInv(After(s, run)) && Linked(After(s, run))
    decreases |run|
  {
    if run != [] {
      SysStep(s, run[0]);
      ReachableSysInv(Do(s, run[0]), run[1..]);
    }
  }

  lemma FreshSysInv(store: State<nat>)
    requires Inv(store)
    ensures SysInv(Fresh(store)) && Linked(Fresh(store))
  {
  }

  // ---- slots and what was disclosed under them -----------------------------

  /** A request that holds a slot holds its own, and only such a request has passed its scope check. */
  ghost predicate SlotsLinked(s: Sys) {
    && (forall t :: t in s.requests && s.requests[t].slot.Some? ==>
          var r := s.requests[t];
          && r.slot.value < |s.slots|
          && s.slots[r.slot.value].serial == r.serial && s.slots[r.slot.value].user == r.user
          && s.slots[r.slot.value].limiter == r.limiter)
    && (forall t :: t in s.requests && s.requests[t].cleared ==> s.requests[t].slot.Some?)
    && (forall i :: 0 <= i < |s.slots| ==> s.slots[i].limiter < |s.limiters|)
  }

  /** The request is with its user's cached limiter. */
  predicate OnCurrent(store: State<nat>, r: Request) {
    r.user in store.cache && r.limiter == store.cache[r.user].handle
  }

  /** ... and its pointer is to its user's role. */
  predicate Attached(store: State<nat>, r: Request) {
    OnCurrent(store, r) && r.gone.None? && r.user in store.byUser && r.role == store.byUser[r.user].role
  }

  /** A pointer that was not detached is to a live role, and a request still on its user's limiter still has its user's role. */
  ghost predicate RolesLinked(s: Sys) {
    forall t :: t in s.requests ==>
      && (s.requests[t].gone.None? ==> s.requests[t].role in s.store.roles)
      && (OnCurrent(s.store, s.requests[t]) ==> Attached(s.store, s.requests[t]))
  }

  ghost predicate Linked(s: Sys) {
    SlotsLinked(s) && RolesLinked(s)
  }

  lemma LinkedStep(s: Sys, step: Step)
    requires SysInv(s) && Linked(s) && Enabled(s, step)
    ensures Linked(Do(s, step))
  {
    SlotsLinkedStep(s, step);
    match step
    case Admin(op) => RolesLinkedAdmin(s, op);
    case Look(t, token, today) => RolesLinkedLook(s, t, token, today);
    case _ =>
  }

  lemma SlotsLinkedStep(s: Sys, step: Step)
    requires TablesOk(s) && SlotsLinked(s) && Enabled(s, step)
    ensures SlotsLinked(Do(s, step))
  {
    match step
    case Admin(op) => SlotsLinkedAdmin(s, op);
    case Look(t, token, today) => SlotsLinkedLook(s, t, token, today);
    case Ask(t, now) => SlotsLinkedAsk(s, t, now);
    case _ =>
  }

  lemma SlotsLinkedAdmin(s: Sys, op: Op<nat>)
    requires SlotsLinked(s) && Enabled(s, Admin(op))
    ensures SlotsLinked(Do(s, Admin(op)))
  {
  }

  lemma SlotsLinkedLook(s: Sys, t: nat, token: string, today: int)
    requires SlotsLinked(s) && Enabled(s, Look(t, token, today))
    ensures SlotsLinked(Do(s, Look(t, token, today)))
  {
  }

  lemma SlotsLinkedAsk(s: Sys, t: nat, now: int)
    requires TablesOk(s) && SlotsLinked(s) && Enabled(s, Ask(t, now))
    ensures SlotsLinked(Do(s, Ask(t, now)))
  {
  }

  lemma RolesLinkedAdmin(s: Sys, op: Op<nat>)
    requires Inv(s.store) && RolesLinked(s) && Enabled(s, Admin(op))
    ensures RolesLinked(Do(s, Admin(op)))
  {
    var store := Apply(s.store, op);
    forall t | t in s.requests
      ensures var r := Detached(s.requests[t], s.store.roles, store.roles);
              && (r.gone.None? ==> r.role in store.roles)
              && (OnCurrent(store, r) ==> Attached(store, r))
    {
      if OnCurrent(store, s.requests[t]) {
        AdminCacheKept(s.store, op);
        AttachedKept(s.store, op, s.requests[t]);
      }
    }
  }

  lemma RolesLinkedLook(s: Sys, t: nat, token: string, today: int)
    requires SysInv(s) && RolesLinked(s) && Enabled(s, Look(t, token, today))
    ensures RolesLinked(Do(s, Look(t, token, today)))
  {
    var s' := Do(s, Look(t, token, today));
    var (store, r) := Lookup(s.store, token, today, |s.limiters|);
    if r.Ok? {
      forall u | u in s'.requests
        ensures s'.requests[u].gone.None? ==> s'.requests[u].role in store.roles
        ensures OnCurrent(store, s'.requests[u]) ==> Attached(store, s'.requests[u])
      {
        if u == t {
          NewAttached(s.store, token, today, |s.limiters|, s'.requests[t]);
        } else {
          WasAttached(s, token, today, s.requests[u]);
        }
      }
    }
  }

  lemma WasAttached(s: Sys, token: string, today: int, r: Request)
    requires r.limiter < |s.limiters| && (OnCurrent(s.store, r) ==> Attached(s.store, r))
    ensures var store := Lookup(s.store, token, today, |s.limiters|).0; OnCurrent(store, r) ==> Attached(store, r)
  {
    LookCache(s.store, token, today, |s.limiters|);
  }

  /** While the limiter stays cached, so do the user's record and role: DeleteRole is refused. */
  lemma AttachedKept(s: State<nat>, op: Op<nat>, r: Request)
    requires Inv(s) && Legal(s, op) && !op.LookupOp?
    requires Attached(s, r) && OnCurrent(Apply(s, op), r)
    ensures Attached(Apply(s, op), Detached(r, s.roles, Apply(s, op).roles))
  {
    RecordKept(s, op, r.user);
    ApplyInv(s, op);
  }

  /** An operation that leaves a user's limiter cached leaves the user's record. */
  lemma RecordKept(s: State<nat>, op: Op<nat>, user: string)
    requires Inv(s) && Legal(s, op) && !op.LookupOp?
    requires user in s.cache && user in Apply(s, op).cache
    ensures user in s.byUser && user in Apply(s, op).byUser && Apply(s, op).byUser[user] == s.byUser[user]
  {
    CacheResets(s, op);
    if user !in Subject(s, op) {
      OtherRecordsUntouched(s, op, user);
    }
  }

  /** Slots from position `from` on that one limiter gave within [lo, lo + width). */
  function SlotsIn(slots: seq<Slot>, from: nat, limiter: nat, lo: int, width: int): nat {
    if |slots| <= from then 0
    else
      var n := |slots| - 1;
      SlotsIn(slots[..n], from, limiter, lo, width)
      + if slots[n].limiter == limiter && lo <= slots[n].at < lo + width then 1 else 0
  }

  /** Score entries returned under the user's slots in that interval, to requests numbered `first` or later. */
  function EntriesIn(slots: seq<Slot>, from: nat, user: string, first: nat, lo: int, width: int): int {
    if |slots| <= from then 0
    else
      var n := |slots| - 1;
      EntriesIn(slots[..n], from, user, first, lo, width)
      + if Mine(slots[n], user, first) && lo <= slots[n].at < lo + width then slots[n].entries else 0
  }

  predicate Mine(slot: Slot, user: string, first: nat) {
    slot.user == user && slot.serial >= first
  }

  lemma SlotsAppend(slots: seq<Slot>, slot: Slot, from: nat, limiter: nat, lo: int, width: int)
    requires from <= |slots|
    ensures SlotsIn(slots + [slot], from, limiter, lo, width) ==
            SlotsIn(slots, from, limiter, lo, width)
            + if slot.limiter == limiter && lo <= slot.at < lo + width then 1 else 0
  {
    assert (slots + [slot])[..|slots|] == slots;
  }

  lemma EntriesAppend(slots: seq<Slot>, slot: Slot, from: nat, user: string, first: nat, lo: int, width: int)
    requires from <= |slots|
    ensures EntriesIn(slots + [slot], from, user, first, lo, width) ==
            EntriesIn(slots, from, user, first, lo, width)
            + if Mine(slot, user, first) && lo <= slot.at < lo + width then slot.entries else 0
  {
    assert (slots + [slot])[..|slots|] == slots;
  }

  lemma {:induction false} SlotsSame(a: seq<Slot>, b: seq<Slot>, from: nat, limiter: nat, lo: int, width: int)
    requires |a| == |b|
    requires forall i :: 0 <= i < |a| ==> a[i].limiter == b[i].limiter && a[i].at == b[i].at
    ensures SlotsIn(a, from, limiter, lo, width) == SlotsIn(b, from, limiter, lo, width)
  {
    if |a| > from {
      SlotsSame(a[..|a| - 1], b[..|b| - 1], from, limiter, lo, width);
    }
  }

  lemma {:induction false} SlotsNone(slots: seq<Slot>, from: nat, limiter: nat, lo: int, width: int)
    requires forall i :: 0 <= i < |slots| ==> slots[i].limiter != limiter
    ensures SlotsIn(slots, from, limiter, lo, width) == 0
  {
    if |slots| > from {
      SlotsNone(slots[..|slots| - 1], from, limiter, lo, width);
    }
  }

  /** Where every such slot returned nothing, or is of one limiter and returned at most k entries. */
  lemma {:induction false} EntriesBound(slots: seq<Slot>, from: nat, user: string, first: nat, limiter: nat, k: nat, lo: int, width: int)
    requires forall i :: from <= i < |slots| && Mine(slots[i], user, first) ==>
               slots[i].entries == 0 || (slots[i].limiter == limiter && slots[i].entries <= k)
    ensures EntriesIn(slots, from, user, first, lo, width) <= k * SlotsIn(slots, from, limiter, lo, width)
  {
    if |slots| > from {
      var n := |slots| - 1;
      EntriesBound(slots[..n], from, user, first, limiter, k, lo, width);
      var c := SlotsIn(slots[..n], from, limiter, lo, width);
      assert k * (c + 1) == k * c + k;
    }
  }

  lemma {:induction false} EntriesNone(slots: seq<Slot>, from: nat, user: string, first: nat, lo: int, width: int)
    requires forall i :: from <= i < |slots| && Mine(slots[i], user, first) ==> slots[i].entries == 0
    ensures EntriesIn(slots, from, user, first, lo, width) == 0
  {
    if |slots| > from {
      EntriesNone(slots[..|slots| - 1], from, user, first, lo, width);
    }
  }

  // ---- a span without a reset of one user's limiter ------------------------

  /** The user's role, if any, allows at most k. */
  ghost predicate UserTopK(store: State<nat>, user: string, k: int) {
    user in store.byUser && store.byUser[user].role in store.roles ==> store.roles[store.byUser[user].role].topK <= k
  }

  /** No step of the run drops the user's cached limiter, and the user's role never allows more than k. */
  ghost predicate Span(s: Sys, run: seq<Step>, user: string, k: int)
    requires CanRun(s, run)
    decreases |run|
  {
    run != [] ==>
      var s' := Do(s, run[0]);
      && (user in s.store.cache ==> user in s'.store.cache)
      && UserTopK(s'.store, user, k)
      && Span(s', run[1..], user, k)
  }

  /** The request cannot return entries: its deleted role allows none, or fails the scope check to come. */
  predicate Sterile(r: Request) {
    r.gone.Some? && (r.gone.value.topK < 1 || (!r.cleared && !InScope(r.gone)))
  }

  /**
   What the request may still return counts towards its user's bound, or it
   returns nothing that counts: its slot is older than position `from`, or its
   limiter admits nothing, or its role is gone and allows nothing.
   */
  ghost predicate Contained(s: Sys, r: Request, from: nat) {
    || (r.slot.Some? && r.slot.value < from)
    || (r.slot.None? && r.limiter < |s.limiters| && s.limiters[r.limiter].limit.max <= 0)
    || Sterile(r)
    || Attached(s.store, r)
  }

  ghost predicate RequestsInSpan(s: Sys, user: string, first: nat, from: nat) {
    forall t :: t in s.requests && s.requests[t].user == user && s.requests[t].serial >= first ==>
      Contained(s, s.requests[t], from)
  }

  ghost predicate SlotsInSpan(s: Sys, user: string, first: nat, from: nat, k: int) {
    forall i :: from <= i < |s.slots| && Mine(s.slots[i], user, first) ==>
      || s.slots[i].entries == 0
      || (user in s.store.cache && s.slots[i].limiter == s.store.cache[user].handle && s.slots[i].entries <= k)
  }

  /** Every slot of the span given by the user's cached limiter is in that limiter's history. */
  ghost predicate HistoryCovers(s: Sys, user: string, from: nat) {
    user in s.store.cache && s.store.cache[user].handle < |s.limiters| ==>
      forall lo, width ::
        SlotsIn(s.slots, from, s.store.cache[user].handle, lo, width)
        <= CountIn(s.limiters[s.store.cache[user].handle].history, lo, width)
  }

  ghost predicate Held(s: Sys, user: string, first: nat, from: nat, k: nat) {
    RequestsInSpan(s, user, first, from) && SlotsInSpan(s, user, first, from, k) && HistoryCovers(s, user, from)
  }

  ghost predicate SpanInv(s: Sys, user: string, first: nat, from: nat, k: nat) {
    SysInv(s) && Linked(s) && from <= |s.slots| && UserTopK(s.store, user, k) && Held(s, user, first, from, k)
  }

  lemma SpanAdmin(s: Sys, op: Op<nat>, user: string, first: nat, from: nat, k: nat)
    requires SpanInv(s, user, first, from, k) && Enabled(s, Admin(op))
    requires user in s.store.cache ==> user in Apply(s.store, op).cache
    ensures Held(Do(s, Admin(op)), user, first, from, k)
  {
    var s' := Do(s, Admin(op));
    forall t | t in s'.requests && s'.requests[t].user == user && s'.requests[t].serial >= first
      ensures Contained(s', s'.requests[t], from)
    {
      ContainedAdmin(s, s', op, s.requests[t], from);
    }
    SlotsAdmin(s, op, user, first, from, k);
  }

  lemma SlotsAdmin(s: Sys, op: Op<nat>, user: string, first: nat, from: nat, k: nat)
    requires TablesOk(s) && Enabled(s, Admin(op))
    requires SlotsInSpan(s, user, first, from, k) && HistoryCovers(s, user, from)
    requires user in s.store.cache ==> user in Apply(s.store, op).cache
    ensures SlotsInSpan(Do(s, Admin(op)), user, first, from, k) && HistoryCovers(Do(s, Admin(op)), user, from)
  {
    AdminCacheKept(s.store, op);
    if user in s.store.cache {
      ForgottenOther(s.store, op, user);
    }
  }

  lemma ContainedAdmin(s: Sys, e: Sys, op: Op<nat>, r: Request, from: nat)
    requires Inv(s.store) && Legal(s.store, op) && !op.LookupOp? && Contained(s, r, from)
    requires e.store == Apply(s.store, op) && e.limiters == Forget(s.limiters, Forgotten(s.store, op))
    requires r.user in s.store.cache ==> r.user in e.store.cache
    ensures Contained(e, Detached(r, s.store.roles, e.store.roles), from)
  {
    var r' := Detached(r, s.store.roles, e.store.roles);
    if Attached(s.store, r) {
      StaysAttached(s.store, op, r);
      assert Attached(e.store, r');
    } else if Sterile(r) {
      assert r' == r;
    } else {
      assert r'.slot == r.slot && r'.limiter == r.limiter;
    }
  }

  lemma StaysAttached(s: State<nat>, op: Op<nat>, r: Request)
    requires Inv(s) && Legal(s, op) && !op.LookupOp? && Attached(s, r) && r.user in Apply(s, op).cache
    ensures Attached(Apply(s, op), Detached(r, s.roles, Apply(s, op).roles))
  {
    AdminCacheKept(s, op);
    AttachedKept(s, op, r);
  }

  /** A revocation or rotation that leaves the user's limiter cached told another limiter to forget. */
  lemma ForgottenOther(s: State<nat>, op: Op<nat>, user: string)
    requires user in s.cache && user in Apply(s, op).cache
    requires forall u, v :: u in s.cache && v in s.cache && u != v ==> s.cache[u].handle != s.cache[v].handle
    ensures Forgotten(s, op) != Some(s.cache[user].handle)
  {
  }

  lemma SpanLook(s: Sys, t: nat, token: string, today: int, user: string, first: nat, from: nat, k: nat)
    requires SpanInv(s, user, first, from, k) && Enabled(s, Look(t, token, today))
    ensures Held(Do(s, Look(t, token, today)), user, first, from, k)
  {
    RequestsLook(s, t, token, today, user, first, from);
    SlotsLook(s, t, token, today, user, first, from, k);
  }

  lemma SlotsLook(s: Sys, t: nat, token: string, today: int, user: string, first: nat, from: nat, k: nat)
    requires SlotsLinked(s) && SlotsInSpan(s, user, first, from, k) && HistoryCovers(s, user, from)
    requires Enabled(s, Look(t, token, today)) && HandlesOk(s.store.cache, s.limiters)
    ensures SlotsInSpan(Do(s, Look(t, token, today)), user, first, from, k)
    ensures HistoryCovers(Do(s, Look(t, token, today)), user, from)
  {
    LookCache(s.store, token, today, |s.limiters|);
    var r := Lookup(s.store, token, today, |s.limiters|).1;
    if r.Ok? && user == r.value.user && user !in s.store.cache {
      forall lo, width ensures SlotsIn(s.slots, from, |s.limiters|, lo, width) == 0 {
        SlotsNone(s.slots, from, |s.limiters|, lo, width);
      }
    }
  }

  lemma RequestsLook(s: Sys, t: nat, token: string, today: int, user: string, first: nat, from: nat)
    requires SysInv(s) && RequestsInSpan(s, user, first, from)
    requires Enabled(s, Look(t, token, today))
    ensures RequestsInSpan(Do(s, Look(t, token, today)), user, first, from)
  {
    var s' := Do(s, Look(t, token, today));
    var (store, r) := Lookup(s.store, token, today, |s.limiters|);
    if r.Ok? {
      forall u | u in s'.requests && s'.requests[u].user == user && s'.requests[u].serial >= first
        ensures Contained(s', s'.requests[u], from)
      {
        if u == t {
          NewAttached(s.store, token, today, |s.limiters|, s'.requests[t]);
        } else {
          assert Contained(s, s.requests[u], from);
          if Attached(s.store, s.requests[u]) {
            OldAttached(s.store, token, today, |s.limiters|, s.requests[u]);
          }
        }
      }
    }
  }

  /** A request starts with its user's limiter and a pointer to its user's role. */
  lemma NewAttached(s: State<nat>, token: string, today: int, spare: nat, r: Request)
    requires IndexesAgree(s) && Lookup(s, token, today, spare).1.Ok?
    requires var g := Lookup(s, token, today, spare).1.value;
             r.user == g.user && r.limiter == g.cached.handle && r.role == s.tokens[token].role && r.gone.None?
    ensures Attached(Lookup(s, token, today, spare).0, r)
  {
    LookCache(s, token, today, spare);
  }

  lemma OldAttached(s: State<nat>, token: string, today: int, spare: nat, r: Request)
    requires Attached(s, r)
    ensures Attached(Lookup(s, token, today, spare).0, r)
  {
    LookCache(s, token, today, spare);
  }

  lemma SpanAsk(s: Sys, t: nat, now: int, user: string, first: nat, from: nat, k: nat)
    requires SpanInv(s, user, first, from, k) && Enabled(s, Ask(t, now))
    ensures Held(Do(s, Ask(t, now)), user, first, from, k)
  {
    var s' := Do(s, Ask(t, now));
    var r := s.requests[t];
    RequestsAsk(s, t, now, user, first, from, k);
    if user in s.store.cache {
      var h := s.store.cache[user].handle;
      forall lo, width ensures SlotsIn(s'.slots, from, h, lo, width) <= CountIn(s'.limiters[h].history, lo, width) {
        assert SlotsIn(s.slots, from, h, lo, width) <= CountIn(s.limiters[h].history, lo, width);
        SlotsAppend(s.slots, Slot(r.serial, r.user, r.limiter, now, 0), from, h, lo, width);
        CountInAppend(s.limiters[h].history, now, lo, width);
      }
    }
  }

  lemma RequestsAsk(s: Sys, t: nat, now: int, user: string, first: nat, from: nat, k: nat)
    requires TablesOk(s) && from <= |s.slots| && Enabled(s, Ask(t, now))
    requires RequestsInSpan(s, user, first, from) && SlotsInSpan(s, user, first, from, k)
    ensures RequestsInSpan(Do(s, Ask(t, now)), user, first, from)
    ensures SlotsInSpan(Do(s, Ask(t, now)), user, first, from, k)
  {
    var s' := Do(s, Ask(t, now));
    forall u | u in s'.requests && s'.requests[u].user == user && s'.requests[u].serial >= first
      ensures Contained(s', s'.requests[u], from)
    {
      assert Contained(s, s.requests[u], from);
    }
  }

  lemma SpanCheck(s: Sys, t: nat, user: string, first: nat, from: nat, k: nat)
    requires Held(s, user, first, from, k) && Enabled(s, CheckScope(t))
    ensures Held(Do(s, CheckScope(t)), user, first, from, k)
  {
    var s' := Do(s, CheckScope(t));
    forall u | u in s'.requests && s'.requests[u].user == user && s'.requests[u].serial >= first
      ensures Contained(s', s'.requests[u], from)
    {
      assert Contained(s, s.requests[u], from);
    }
  }

  lemma SpanDrop(s: Sys, t: nat, user: string, first: nat, from: nat, k: nat)
    requires Held(s, user, first, from, k) && Enabled(s, Drop(t))
    ensures Held(Do(s, Drop(t)), user, first, from, k)
  {
    var s' := Do(s, Drop(t));
    forall u | u in s'.requests && s'.requests[u].user == user && s'.requests[u].serial >= first
      ensures Contained(s', s'.requests[u], from)
    {
      assert Contained(s, s.requests[u], from);
    }
  }

  lemma SpanDisclose(s: Sys, t: nat, topK: int, total: nat, user: string, first: nat, from: nat, k: nat)
    requires SpanInv(s, user, first, from, k) && Enabled(s, Disclose(t, topK, total))
    ensures Held(Do(s, Disclose(t, topK, total)), user, first, from, k)
  {
    var s' := Do(s, Disclose(t, topK, total));
    DiscloseBounded(s, t, topK, total, user, first, from, k);
    RequestsDisclose(s, t, topK, total, user, first, from);
    if user in s.store.cache {
      var h := s.store.cache[user].handle;
      forall lo, width ensures SlotsIn(s'.slots, from, h, lo, width) == SlotsIn(s.slots, from, h, lo, width) {
        SlotsSame(s.slots, s'.slots, from, h, lo, width);
      }
    }
  }

  lemma RequestsDisclose(s: Sys, t: nat, topK: int, total: nat, user: string, first: nat, from: nat)
    requires RequestsInSpan(s, user, first, from) && Enabled(s, Disclose(t, topK, total))
    ensures RequestsInSpan(Do(s, Disclose(t, topK, total)), user, first, from)
  {
    var s' := Do(s, Disclose(t, topK, total));
    forall u | u in s'.requests && s'.requests[u].user == user && s'.requests[u].serial >= first
      ensures Contained(s', s'.requests[u], from)
    {
      assert Contained(s, s.requests[u], from);
    }
  }

  /** A contained request returns nothing that counts, or at most what its user's role allows now. */
  lemma DiscloseBounded(s: Sys, t: nat, topK: int, total: nat, user: string, first: nat, from: nat, k: nat)
    requires SlotsLinked(s) && UserTopK(s.store, user, k) && Enabled(s, Disclose(t, topK, total))
    requires RequestsInSpan(s, user, first, from) && SlotsInSpan(s, user, first, from, k)
    ensures SlotsInSpan(Do(s, Disclose(t, topK, total)), user, first, from, k)
  {
    var r := s.requests[t];
    if r.user == user && r.serial >= first {
      assert Contained(s, r, from);
    }
  }

  lemma SpanStep(s: Sys, step: Step, user: string, first: nat, from: nat, k: nat)
    requires SpanInv(s, user, first, from, k) && Enabled(s, step)
    requires UserTopK(Do(s, step).store, user, k) && (user in s.store.cache ==> user in Do(s, step).store.cache)
    ensures SpanInv(Do(s, step), user, first, from, k)
  {
    SysStep(s, step);
    match step
    case Admin(op) => SpanAdmin(s, op, user, first, from, k);
    case Look(t, token, today) => SpanLook(s, t, token, today, user, first, from, k);
    case Ask(t, now) => SpanAsk(s, t, now, user, first, from, k);
    case CheckScope(t) => SpanCheck(s, t, user, first, from, k);
    case Disclose(t, topK, total) => SpanDisclose(s, t, topK, total, user, first, from, k);
    case Drop(t) => SpanDrop(s, t, user, first, from, k);
  }

  lemma {:induction false} SpanRun(s: Sys, run: seq<Step>, user: string, first: nat, from: nat, k: nat)
    requires SpanInv(s, user, first, from, k)
    requires CanRun(s, run) && Span(s, run, user, k)
    ensures SpanInv(After(s, run), user, first, from, k)
    decreases |run|
  {
    if run != [] {
      SpanStep(s, run[0], user, first, from, k);
      SpanRun(Do(s, run[0]), run[1..], user, first, from, k);
    }
  }

  /** Under the user's slots from position `from` on, each window from `lo` returned at most k entries a request. */
  ghost predicate WithinBound(e: Sys, from: nat, user: string, first: nat, k: nat, lo: int) {
    if user in e.store.cache then
      var limit := e.store.cache[user].limit;
      EntriesIn(e.slots, from, user, first, lo, limit.window) <= k * limit.max
    else forall width :: EntriesIn(e.slots, from, user, first, lo, width) == 0
  }

  /**
   The disclosure bound. Take any span of steps in which the user's limiter is
   not reset and the user's role never allows more than k, with other users and
   administrators interleaving freely. The score entries returned to the user's
   requests numbered `first` or later, admitted in the span within any one
   window, number at most k times the request limit, provided the requests of
   these already in flight are contained. With `first` the next serial number
   that is nothing to ask for.
   */
  lemma DisclosureBound(s: Sys, run: seq<Step>, user: string, first: nat, k: nat, lo: int)
    requires SysInv(s) && Linked(s) && UserTopK(s.store, user, k)
    requires RequestsInSpan(s, user, first, |s.slots|)
    requires CanRun(s, run) && Span(s, run, user, k)
    ensures WithinBound(After(s, run), |s.slots|, user, first, k, lo)
  {
    var from := |s.slots|;
    assert Held(s, user, first, from, k);
    SpanRun(s, run, user, first, from, k);
    BoundFromInv(After(s, run), user, first, from, k, lo);
  }

  lemma BoundFromInv(e: Sys, user: string, first: nat, from: nat, k: nat, lo: int)
    requires SpanInv(e, user, first, from, k)
    ensures WithinBound(e, from, user, first, k, lo)
  {
    if user in e.store.cache {
      var cached := e.store.cache[user];
      var h, width := cached.handle, cached.limit.window;
      EntriesBound(e.slots, from, user, first, h, k, lo, width);
      var l := e.limiters[h];
      assert LimiterOk(l) && l.limit == cached.limit;
      assert SlotsIn(e.slots, from, h, lo, width) <= CountIn(l.history, lo, width) <= l.limit.max;
      MulMonotone(k, SlotsIn(e.slots, from, h, lo, width), l.limit.max);
    } else {
      forall width ensures EntriesIn(e.slots, from, user, first, lo, width) == 0 {
        EntriesNone(e.slots, from, user, first, lo, width);
      }
    }
  }

  /**
   From a load: on files that leave the indexes in agreement, every run keeps
   the invariant, and one that does not reset the user's limiter keeps ALL the
   user's requests within the bound.
   */
  lemma LoadedDisclosureBound(roles: File<RolesDoc>, tokens: File<TokensDoc>, run: seq<Step>, user: string, k: nat, lo: int)
    requires LoadFromFiles<nat>(NewStore(), roles, tokens).1
    requires tokens.Doc? ==> SameLastEntries(tokens.doc)
    requires var s := Fresh(LoadFromFiles(NewStore(), roles, tokens).0); CanRun(s, run)
    ensures var s := Fresh(LoadFromFiles(NewStore(), roles, tokens).0);
            && SysInv(After(s, run))
            && (UserTopK(s.store, user, k) && Span(s, run, user, k) ==> WithinBound(After(s, run), 0, user, 0, k, lo))
  {
    LoadedInvIff<nat>(roles, tokens);
    var s := Fresh(LoadFromFiles(NewStore(), roles, tokens).0);
    FreshSysInv(LoadFromFiles(NewStore(), roles, tokens).0);
    ReachableSysInv(s, run);
    if UserTopK(s.store, user, k) && Span(s, run, user, k) {
      DisclosureBound(s, run, user, 0, k, lo);
    }
  }

  lemma MulMonotone(k: nat, a: int, b: int)
    requires a <= b
    ensures k * a <= k * b
  {
  }
}
