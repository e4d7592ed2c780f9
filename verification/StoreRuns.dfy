/**
 Runs of the store: any sequence of locked sections, from any number of
 callers. Every locked section holds the store's mutex, so a concurrent run is
 such a sequence (vault/internal/tokens/store.go).
 */
module StoreRuns {
  import opened Wrappers
  import opened RateText
  import opened Dates
  import opened Strings
  import opened TokenStore

  datatype Op<L> =
    | LookupOp(token: string, today: int, spare: L)
    | AddTokenOp(user: string, role: string, days: Option<int>, gen: Option<string>, today: int)
    | RevokeOp(user: string)
    | RotateOp(user: string, gen: Option<string>, today: int)
    | AddRoleOp(name: string, scope: seq<string>, topK: int, rateLimit: string)
    | UpdateRoleOp(name: string, edit: RoleEdit)
    | DeleteRoleOp(name: string)

  function Apply<L>(s: State<L>, op: Op<L>): State<L> {
    match op
    case LookupOp(token, today, spare) => Lookup(s, token, today, spare).0
    case AddTokenOp(user, role, days, gen, today) => AddToken(s, user, role, days, gen, today).0
    case RevokeOp(user) => RevokeToken(s, user).0
    case RotateOp(user, gen, today) => RotateToken(s, user, gen, today).0
    case AddRoleOp(name, scope, topK, rateLimit) => AddRole(s, name, scope, topK, rateLimit).0
    case UpdateRoleOp(name, edit) => UpdateRole(s, name, edit).0
    case DeleteRoleOp(name) => DeleteRole(s, name).0
  }

  /** Generated token strings are new to the process. */
  ghost predicate Legal<L>(s: State<L>, op: Op<L>) {
    (op.AddTokenOp? || op.RotateOp?) && op.gen.Some? ==> op.gen.value !in s.issued
  }

  function RunOf<L>(s: State<L>, ops: seq<Op<L>>): State<L>
    decreases |ops|
  {
    if ops == [] then s else RunOf(Apply(s, ops[0]), ops[1..])
  }

  ghost predicate LegalRun<L>(s: State<L>, ops: seq<Op<L>>)
    decreases |ops|
  {
    ops == [] || (Legal(s, ops[0]) && LegalRun(Apply(s, ops[0]), ops[1..]))
  }

  // ---- the invariant along runs -----------------------------------------

  lemma ApplyInv<L>(s: State<L>, op: Op<L>)
    requires Inv(s) && Legal(s, op)
    ensures Inv(Apply(s, op))
    ensures s.issued <= Apply(s, op).issued
  {
    match op
    case LookupOp(token, today, spare) => LookupInv(s, token, today, spare);
    case AddTokenOp(user, role, days, gen, today) =>
      var r := AddToken(s, user, role, days, gen, today);
      if r.1.Ok? { PutInv(s, r.1.value); }
    case RevokeOp(user) => if user in s.byUser { DropInv(s, user); }
    case RotateOp(user, gen, today) => RotateInv(s, user, gen, today);
    case AddRoleOp(name, scope, topK, rateLimit) =>
    case UpdateRoleOp(name, edit) => UpdateRoleInv(s, name, edit);
    case DeleteRoleOp(name) => DeleteRoleInv(s, name);
  }

  lemma RotateInv<L>(s: State<L>, user: string, gen: Option<string>, today: int)
    requires Inv(s)
    requires gen.Some? ==> gen.value !in s.issued
    ensures Inv(RotateToken(s, user, gen, today).0)
  {
    if user in s.byUser {
      DropInv(s, user);
      var r := RotateToken(s, user, gen, today);
      if r.1.Ok? { PutInv(Drop(s, user), r.1.value); }
    }
  }

  /**
   In every reachable state the two token indexes are mutual inverses, both
   default roles are present, and every cached limiter carries its owner's
   current limit, also after a rotation whose generation failed.
   */
  lemma {:induction false} ReachableInv<L>(s: State<L>, ops: seq<Op<L>>)
    requires Inv(s) && LegalRun(s, ops)
    ensures Inv(RunOf(s, ops))
    ensures s.issued <= RunOf(s, ops).issued
    decreases |ops|
  {
    if ops != [] {
      ApplyInv(s, ops[0]);
      ReachableInv(Apply(s, ops[0]), ops[1..]);
    }
  }

  /**
   The cache is invisible in what Validate's locked section decides: in a
   reachable state the answer is a function of the two token fields and the
   role, as if the limit were parsed afresh each time.
   */
  lemma LookupIgnoresCache<L>(s: State<L>, token: string, today: int, spare: L)
    requires Inv(s)
    ensures var r := Lookup(s, token, today, spare).1;
            r.Ok? <==> && token in s.tokens
                       && !IsExpiredAt(s.tokens[token].expires, today)
                       && s.tokens[token].role in s.roles
                       && RateLimitParsed(s.roles[s.tokens[token].role].rateLimit).Ok?
    ensures var r := Lookup(s, token, today, spare).1;
            r.Ok? ==>
              && r.value.user == s.tokens[token].user
              && r.value.role == s.roles[s.tokens[token].role]
              && Ok(r.value.cached.limit) == RateLimitParsed(r.value.role.rateLimit)
              && Lookup(s, token, today, spare).0.cache == s.cache[r.value.user := r.value.cached]
  {
    if token in s.tokens && s.tokens[token].user in s.cache {
      assert s.cache == s.cache[s.tokens[token].user := s.cache[s.tokens[token].user]];
    }
  }

  // ---- dead tokens ------------------------------------------------------

  lemma ApplyKeepsDead<L>(s: State<L>, op: Op<L>, token: string)
    requires Legal(s, op)
    requires token in s.issued && token !in s.tokens
    ensures token in Apply(s, op).issued && token !in Apply(s, op).tokens
  {
  }

  /** Only revoking or rotating its owner makes a live token string unknown. */
  lemma WhatKillsAToken<L>(s: State<L>, op: Op<L>, token: string)
    requires Inv(s) && Legal(s, op)
    requires token in s.tokens
    ensures token !in Apply(s, op).tokens <==>
            (op.RevokeOp? || op.RotateOp?) && op.user == s.tokens[token].user
  {
    if op.RevokeOp? || op.RotateOp? {
      if op.user in s.byUser && op.user != s.tokens[token].user {
        assert s.byUser[op.user].token != token;
      }
    }
  }

  /**
   A token string that a step removed is refused by every later Validate of
   the process, whatever operations come in between.
   */
  lemma {:induction false} DeadTokensStayDead<L>(s: State<L>, ops: seq<Op<L>>, token: string, today: int, spare: L)
    requires LegalRun(s, ops)
    requires token in s.issued && token !in s.tokens
    ensures token !in RunOf(s, ops).tokens
    ensures Lookup(RunOf(s, ops), token, today, spare) == (RunOf(s, ops), Err(TokenNotFound))
    decreases |ops|
  {
    if ops != [] {
      ApplyKeepsDead(s, ops[0], token);
      DeadTokensStayDead(Apply(s, ops[0]), ops[1..], token, today, spare);
    }
  }

  // ---- role references --------------------------------------------------

  lemma ApplyResolves<L>(s: State<L>, op: Op<L>)
    requires Inv(s) && RolesResolve(s) && Legal(s, op)
    ensures RolesResolve(Apply(s, op))
  {
    if op.DeleteRoleOp? {
      HoldersExact(s, op.name);
    }
  }

  /**
   From a state where every token's role exists, no run leaves a token naming
   a missing role in either index, and `admin` and `member` stay.
   */
  lemma {:induction false} RoleReferencesNeverDangle<L>(s: State<L>, ops: seq<Op<L>>)
    requires Inv(s) && RolesResolve(s) && LegalRun(s, ops)
    ensures RolesResolve(RunOf(s, ops))
    ensures "admin" in RunOf(s, ops).roles && "member" in RunOf(s, ops).roles
    decreases |ops|
  {
    if ops != [] {
      ApplyInv(s, ops[0]);
      ApplyResolves(s, ops[0]);
      RoleReferencesNeverDangle(Apply(s, ops[0]), ops[1..]);
    }
  }

  /**
   Index agreement is what makes DeleteRole's scan sufficient: with a record in
   `tokens` alone, its role can be deleted under it.
   */
  lemma DeleteRoleNeedsAgreement<L>(tok: Token, cache: map<string, Cached<L>>)
    requires tok.role != "admin" && tok.role != "member"
    ensures var roles := DefaultRoles()[tok.role := Role(tok.role, [], 1, "1/1s")];
            var s := State(map[tok.token := tok], map[], roles, cache, {tok.token});
            && !IndexesAgree(s) && RolesNamed(s) && RolesResolve(s)
            && !RolesResolve(DeleteRole(s, tok.role).0)
  {
    var roles := DefaultRoles()[tok.role := Role(tok.role, [], 1, "1/1s")];
    var s := State(map[tok.token := tok], map[], roles, cache, {tok.token});
    assert tok.token in s.tokens && Holders(s, tok.role) == {};
  }

  // ---- what a step leaves alone, and what it asks to be written --------

  /** The user an operation is about; the others are about roles. */
  function Subject<L>(s: State<L>, op: Op<L>): set<string> {
    match op
    case LookupOp(token, _, _) => if token in s.tokens then {s.tokens[token].user} else {}
    case AddTokenOp(user, _, _, _, _) => {user}
    case RevokeOp(user) => {user}
    case RotateOp(user, _, _) => {user}
    case _ => {}
  }

  /** No operation touches another user's record or token string. */
  lemma OtherRecordsUntouched<L>(s: State<L>, op: Op<L>, user: string)
    requires Inv(s) && Legal(s, op)
    requires user in s.byUser && user !in Subject(s, op)
    ensures var s' := Apply(s, op);
            var tok := s.byUser[user];
            && user in s'.byUser && s'.byUser[user] == tok
            && tok.token in s'.tokens && s'.tokens[tok.token] == tok
  {
    if (op.RevokeOp? || op.RotateOp?) && op.user in s.byUser {
      assert s.byUser[op.user].token != s.byUser[user].token;
    }
  }

  /** The users whose cached limiter an administrative operation has to reset. */
  ghost function Resets<L>(s: State<L>, op: Op<L>): set<string> {
    match op
    case RevokeOp(user) => {user}
    case RotateOp(user, _, _) => {user}
    case UpdateRoleOp(name, edit) =>
      if edit.rateLimit.Some? && ValidateRateLimit(edit.rateLimit.value) && name in s.roles
      then set u | u in s.byUser && s.byUser[u].role == name
      else {}
    case _ => {}
  }

  /**
   Which limiters are dropped: a revocation or rotation drops exactly its
   user's, also when generation fails; a rate-limit edit that goes through,
   exactly those of the role's holders; any other operation none.
   */
  lemma CacheResets<L>(s: State<L>, op: Op<L>)
    requires Inv(s) && !op.LookupOp?
    ensures Apply(s, op).cache == s.cache - Resets(s, op)
  {
    match op
    case UpdateRoleOp(name, edit) => EditCache(s, name, edit);
    case RevokeOp(user) => DropCache(s, user);
    case RotateOp(user, _, _) => DropCache(s, user);
    case _ => NothingReset(s.cache);
  }

  lemma NothingReset<K, V>(m: map<K, V>)
    ensures m - {} == m
  {
  }

  lemma DropCache<L>(s: State<L>, user: string)
    requires Inv(s)
    ensures user in s.byUser ==> Drop(s, user).cache == s.cache - {user}
    ensures user !in s.byUser ==> s.cache == s.cache - {user}
  {
  }

  lemma EditCache<L>(s: State<L>, name: string, edit: RoleEdit)
    requires Inv(s)
    ensures UpdateRole(s, name, edit).0.cache == s.cache - Resets(s, UpdateRoleOp(name, edit))
  {
    HoldersAre(s, name);
    assert s.cache - {} == s.cache;
  }

  lemma HoldersAre<L>(s: State<L>, name: string)
    requires IndexesAgree(s)
    ensures Holders(s, name) == set u | u in s.byUser && s.byUser[u].role == name
  {
    HoldersExact(s, name);
  }

  /** Whether the operation goes on to call schedulePersist. */
  predicate Schedules<L>(s: State<L>, op: Op<L>) {
    match op
    case LookupOp(_, _, _) => false
    case AddTokenOp(user, role, days, gen, today) => AddToken(s, user, role, days, gen, today).1.Ok?
    case RevokeOp(user) => RevokeToken(s, user).1
    case RotateOp(user, gen, today) => RotateToken(s, user, gen, today).1.Ok?
    case AddRoleOp(name, scope, topK, rateLimit) => AddRole(s, name, scope, topK, rateLimit).1.Ok?
    case UpdateRoleOp(name, edit) => UpdateRole(s, name, edit).1.Ok?
    case DeleteRoleOp(name) => DeleteRole(s, name).1.Ok?
  }

  /**
   A change to what is persisted goes unscheduled exactly when a rotation drops
   an existing record and then fails to generate its successor.
   */
  lemma UnscheduledChange<L>(s: State<L>, op: Op<L>)
    requires Inv(s)
    ensures var s' := Apply(s, op);
            (s'.tokens, s'.byUser, s'.roles) != (s.tokens, s.byUser, s.roles) && !Schedules(s, op)
            <==> op.RotateOp? && op.user in s.byUser && op.gen.None?
  {
    if op.RotateOp? && op.user in s.byUser && op.gen.None? {
      assert op.user !in Apply(s, op).byUser;
    }
  }

  /**
   An operation that calls schedulePersist went through: apart from a role
   edit, which may set a field to what it was, it changed what is persisted.
   */
  lemma ScheduledChange<L>(s: State<L>, op: Op<L>)
    requires Inv(s) && Legal(s, op) && Schedules(s, op)
    ensures var s' := Apply(s, op);
            op.UpdateRoleOp? || (s'.tokens, s'.byUser, s'.roles) != (s.tokens, s.byUser, s.roles)
    ensures op.UpdateRoleOp? ==> op.name in s.roles && (op.edit.rateLimit.Some? ==> ValidateRateLimit(op.edit.rateLimit.value))
  {
    var s' := Apply(s, op);
    match op
    case AddTokenOp(user, _, _, _, _) => assert user in s'.byUser && user !in s.byUser;
    case RevokeOp(user) => assert user !in s'.byUser && user in s.byUser;
    case RotateOp(user, gen, _) => assert gen.value in s'.tokens && gen.value !in s.tokens;
    case AddRoleOp(name, _, _, _) => assert name in s'.roles && name !in s.roles;
    case DeleteRoleOp(name) => assert name !in s'.roles && name in s.roles;
    case _ =>
  }

  // ---- RotateAllTokens ---------------------------------------------------

  /** The loop of RotateAllTokens over a snapshot of the users. */
  function RotateEach<L>(s: State<L>, users: seq<string>, gens: seq<Option<string>>, days: seq<int>)
    : (State<L>, seq<Token>, Option<Error>)
    requires |gens| == |days| == |users|
    decreases |users|
  {
    if users == [] then (s, [], None)
    else
      var (s1, r) := RotateToken(s, users[0], gens[0], days[0]);
      if r.Err? then (s1, [], Some(r.error))
      else
        var (s2, rest, err) := RotateEach(s1, users[1..], gens[1..], days[1..]);
        (s2, [r.value] + rest, err)
  }

  /** With `done` returned so far and users from i on to go, the loop ends in `goal`. */
  ghost predicate Pending<L>(goal: (State<L>, seq<Token>, Option<Error>), s: State<L>, done: seq<Token>,
                             users: seq<string>, gens: seq<Option<string>>, days: seq<int>, i: nat)
    requires |gens| == |days| == |users| && i <= |users|
  {
    var (s', rest, err) := RotateEach(s, users[i..], gens[i..], days[i..]);
    goal == (s', done + rest, err)
  }

  lemma PendingStart<L>(s: State<L>, users: seq<string>, gens: seq<Option<string>>, days: seq<int>)
    requires |gens| == |days| == |users|
    ensures Pending(RotateEach(s, users, gens, days), s, [], users, gens, days, 0)
  {
    assert users[0..] == users && gens[0..] == gens && days[0..] == days;
    var rest := RotateEach(s, users, gens, days).1;
    assert [] + rest == rest;
  }

  lemma PendingStep<L>(goal: (State<L>, seq<Token>, Option<Error>), s: State<L>, done: seq<Token>,
                       users: seq<string>, gens: seq<Option<string>>, days: seq<int>, i: nat)
    requires |gens| == |days| == |users| && i < |users|
    requires Pending(goal, s, done, users, gens, days, i)
    ensures var (s1, r) := RotateToken(s, users[i], gens[i], days[i]);
            if r.Err? then goal == (s1, done, Some(r.error))
            else Pending(goal, s1, done + [r.value], users, gens, days, i + 1)
  {
    assert users[i..][1..] == users[i + 1..] && gens[i..][1..] == gens[i + 1..] && days[i..][1..] == days[i + 1..];
    var (s1, r) := RotateToken(s, users[i], gens[i], days[i]);
    if r.Ok? {
      var rest := RotateEach(s1, users[i + 1..], gens[i + 1..], days[i + 1..]).1;
      assert done + ([r.value] + rest) == done + [r.value] + rest;
    } else {
      assert done + [] == done;
    }
  }

  lemma PendingEnd<L>(goal: (State<L>, seq<Token>, Option<Error>), s: State<L>, done: seq<Token>,
                      users: seq<string>, gens: seq<Option<string>>, days: seq<int>)
    requires |gens| == |days| == |users|
    requires Pending(goal, s, done, users, gens, days, |users|)
    ensures goal == (s, done, None)
  {
    assert users[|users|..] == [] && done + [] == done;
  }

  ghost predicate FreshGens(gens: seq<Option<string>>, issued: set<string>) {
    && (forall i :: 0 <= i < |gens| && gens[i].Some? ==> gens[i].value !in issued)
    && (forall i, j :: 0 <= i < j < |gens| && gens[i].Some? && gens[j].Some? ==> gens[i] != gens[j])
  }

  ghost predicate LiveUsers<L>(s: State<L>, users: seq<string>) {
    && (forall i, j :: 0 <= i < j < |users| ==> users[i] != users[j])
    && (forall u :: u in users ==> u in s.byUser)
  }

  /** The users the loop reaches: it stops at the first failed generation. */
  function Attempted(users: seq<string>, gens: seq<Option<string>>): (r: set<string>)
    requires |gens| == |users|
    ensures forall u :: u in r ==> u in users
    ensures (forall i :: 0 <= i < |gens| ==> gens[i].Some?) ==> r == Elems(users)
  {
    if users == [] then {}
    else
      assert users == [users[0]] + users[1..];
      {users[0]} + if gens[0].None? then {} else Attempted(users[1..], gens[1..])
  }

  /** The user whose generation failed, if any. */
  function Failed(users: seq<string>, gens: seq<Option<string>>): (r: set<string>)
    requires |gens| == |users|
    ensures forall u :: u in r ==> u in users
    ensures r <= Attempted(users, gens)
    ensures (forall i :: 0 <= i < |gens| ==> gens[i].Some?) ==> r == {}
  {
    if users == [] then {}
    else if gens[0].None? then {users[0]}
    else
      assert users == [users[0]] + users[1..];
      Failed(users[1..], gens[1..])
  }

  /**
   What rotating the users `reached` does to the store: the users `gone` lose
   their record and nobody else does, users not reached keep record and
   limiter, roles of users stay, and exactly the reached limiters are dropped.
   */
  ghost predicate RotationEffect<L>(s: State<L>, s': State<L>, reached: set<string>, gone: set<string>) {
    && s'.byUser.Keys == s.byUser.Keys - gone
    && (forall u :: u in s.byUser && u !in reached ==> u in s'.byUser && s'.byUser[u] == s.byUser[u])
    && (forall u :: u in s'.byUser ==> s'.byUser[u].role == s.byUser[u].role)
    && s'.cache == s.cache - reached
    && s'.roles == s.roles
  }

  lemma EffectsCompose<L>(s: State<L>, s1: State<L>, s2: State<L>, first: set<string>, rest: set<string>, gone: set<string>)
    requires RotationEffect(s, s1, first, {}) && RotationEffect(s1, s2, rest, gone)
    ensures RotationEffect(s, s2, first + rest, gone)
  {
  }

  /** One rotation, field by field. */
  lemma RotateOne<L>(s: State<L>, user: string, gen: Option<string>, today: int)
    requires user in s.byUser
    ensures var (s', r) := RotateToken(s, user, gen, today);
            && (r.Ok? <==> gen.Some?)
            && RotationEffect(s, s', {user}, if r.Ok? then {} else {user})
            && s'.issued == s.issued + (if r.Ok? then {gen.value} else {})
            && (r.Ok? ==> RecordFor(s, s', user, gen, r.value))
            && (r.Err? ==> r.error == GenerationFailed)
  {
  }

  /** The store after the loop, whichever of the generations fail. */
  lemma {:induction false} RotateEachState<L>(s: State<L>, users: seq<string>, gens: seq<Option<string>>, days: seq<int>)
    requires |gens| == |days| == |users|
    requires LiveUsers(s, users)
    ensures RotationEffect(s, RotateEach(s, users, gens, days).0, Attempted(users, gens), Failed(users, gens))
    decreases |users|
  {
    if users != [] {
      var (s1, r) := RotateToken(s, users[0], gens[0], days[0]);
      RotateOne(s, users[0], gens[0], days[0]);
      if r.Ok? {
        var us, gs, ds := users[1..], gens[1..], days[1..];
        RotateEachState(s1, us, gs, ds);
        var s2 := RotateEach(s1, us, gs, ds).0;
        EffectsCompose(s, s1, s2, {users[0]}, Attempted(us, gs), Failed(us, gs));
      }
    }
  }

  lemma TailFresh<L>(s: State<L>, s1: State<L>, gens: seq<Option<string>>)
    requires gens != [] && gens[0].Some?
    requires FreshGens(gens, s.issued)
    requires s1.issued == s.issued + {gens[0].value}
    ensures FreshGens(gens[1..], s1.issued)
  {
    forall i | 0 <= i < |gens[1..]| && gens[1..][i].Some? ensures gens[1..][i].value !in s1.issued {
      assert gens[0] != gens[i + 1];
    }
  }

  lemma {:induction false} RotatedStaysDead<L>(s: State<L>, users: seq<string>, gens: seq<Option<string>>, days: seq<int>, token: string)
    requires |gens| == |days| == |users|
    requires FreshGens(gens, s.issued)
    requires token in s.issued && token !in s.tokens
    ensures token !in RotateEach(s, users, gens, days).0.tokens
    decreases |users|
  {
    if users != [] {
      var (s1, r) := RotateToken(s, users[0], gens[0], days[0]);
      ApplyKeepsDead(s, RotateOp(users[0], gens[0], days[0]), token);
      if r.Ok? {
        TailFresh(s, s1, gens);
        RotatedStaysDead(s1, users[1..], gens[1..], days[1..], token);
      }
    }
  }

  /** The first rotation that goes through leaves what the rest of the loop needs. */
  lemma RotateHead<L>(s: State<L>, users: seq<string>, gens: seq<Option<string>>, day: int)
    requires Inv(s) && |gens| == |users| && users != [] && gens[0].Some?
    requires FreshGens(gens, s.issued) && LiveUsers(s, users)
    ensures var s1 := RotateToken(s, users[0], gens[0], day).0;
            && Inv(s1) && FreshGens(gens[1..], s1.issued) && LiveUsers(s1, users[1..])
            && s.byUser[users[0]].token in s1.issued && s.byUser[users[0]].token !in s1.tokens
            && forall u :: u in s.byUser && u != users[0] ==> u in s1.byUser && s1.byUser[u] == s.byUser[u]
  {
    var s1 := RotateToken(s, users[0], gens[0], day).0;
    RotateInv(s, users[0], gens[0], day);
    RotateOne(s, users[0], gens[0], day);
    TailFresh(s, s1, gens);
  }

  /** The old token string of every user the loop reached is unknown afterwards. */
  lemma {:induction false} RotateEachKills<L>(s: State<L>, users: seq<string>, gens: seq<Option<string>>, days: seq<int>, user: string)
    requires Inv(s)
    requires |gens| == |days| == |users|
    requires FreshGens(gens, s.issued) && LiveUsers(s, users)
    requires user in Attempted(users, gens)
    ensures s.byUser[user].token !in RotateEach(s, users, gens, days).0.tokens
    decreases |users|
  {
    var (s1, r) := RotateToken(s, users[0], gens[0], days[0]);
    if r.Ok? {
      RotateHead(s, users, gens, days[0]);
      if user == users[0] {
        RotatedStaysDead(s1, users[1..], gens[1..], days[1..], s.byUser[user].token);
      } else {
        RotateEachKills(s1, users[1..], gens[1..], days[1..], user);
      }
    }
  }

  /** Record i returned is for user i, with its old role and the generated string, and is now the user's. */
  ghost predicate RecordFor<L>(s: State<L>, s': State<L>, user: string, gen: Option<string>, tok: Token) {
    && tok.user == user && Some(tok.token) == gen
    && user in s.byUser && tok.role == s.byUser[user].role
    && user in s'.byUser && s'.byUser[user] == tok
  }

  lemma RecordSurvives<L>(s: State<L>, s1: State<L>, s': State<L>, user: string, gen: Option<string>, tok: Token,
                          reached: set<string>, gone: set<string>)
    requires RecordFor(s, s1, user, gen, tok)
    requires RotationEffect(s1, s', reached, gone) && user !in reached
    ensures RecordFor(s, s', user, gen, tok)
  {
  }

  lemma RecordLifts<L>(s: State<L>, s1: State<L>, s': State<L>, user: string, gen: Option<string>, tok: Token, first: string)
    requires RotationEffect(s, s1, {first}, {})
    requires RecordFor(s1, s', user, gen, tok)
    ensures RecordFor(s, s', user, gen, tok)
  {
  }

  ghost predicate Returned<L>(s: State<L>, s': State<L>, toks: seq<Token>, err: Option<Error>,
                              users: seq<string>, gens: seq<Option<string>>)
    requires |gens| == |users|
  {
    && |toks| <= |users|
    && err == (if |toks| == |users| then None else Some(GenerationFailed))
    && (|toks| < |users| ==> gens[|toks|].None? && Failed(users, gens) == {users[|toks|]})
    && forall i :: 0 <= i < |toks| ==> RecordFor(s, s', users[i], gens[i], toks[i])
  }

  /**
   What the loop returns: one record for each rotated user, in order. The
   error is set exactly when the loop stopped early, at a failed generation.
   */
  lemma {:induction false} RotateEachReturns<L>(s: State<L>, users: seq<string>, gens: seq<Option<string>>, days: seq<int>)
    requires |gens| == |days| == |users|
    requires LiveUsers(s, users)
    ensures var (s', toks, err) := RotateEach(s, users, gens, days); Returned(s, s', toks, err, users, gens)
    decreases |users|
  {
    if users != [] {
      var (s1, r) := RotateToken(s, users[0], gens[0], days[0]);
      RotateOne(s, users[0], gens[0], days[0]);
      if r.Ok? {
        var us, gs, ds := users[1..], gens[1..], days[1..];
        RotateEachReturns(s1, us, gs, ds);
        RotateEachState(s1, us, gs, ds);
        var (s', rest, err) := RotateEach(s1, us, gs, ds);
        ReturnedCons(s, s1, s', r.value, rest, err, users, gens);
      }
    }
  }

  lemma ReturnedCons<L>(s: State<L>, s1: State<L>, s': State<L>, tok: Token, rest: seq<Token>, err: Option<Error>,
                        users: seq<string>, gens: seq<Option<string>>)
    requires |gens| == |users| && users != [] && gens[0].Some? && LiveUsers(s, users)
    requires RotationEffect(s, s1, {users[0]}, {}) && RecordFor(s, s1, users[0], gens[0], tok)
    requires RotationEffect(s1, s', Attempted(users[1..], gens[1..]), Failed(users[1..], gens[1..]))
    requires Returned(s1, s', rest, err, users[1..], gens[1..])
    ensures Returned(s, s', [tok] + rest, err, users, gens)
  {
    var us, gs := users[1..], gens[1..];
    assert users[0] !in us;
    RecordSurvives(s, s1, s', users[0], gens[0], tok, Attempted(us, gs), Failed(us, gs));
    forall i | 0 <= i < |rest| + 1 ensures RecordFor(s, s', users[i], gens[i], ([tok] + rest)[i]) {
      if i > 0 {
        RecordLifts(s, s1, s', us[i - 1], gs[i - 1], rest[i - 1], users[0]);
      }
    }
  }

  ghost function RoleMap<L>(s: State<L>): map<string, string> {
    map u | u in s.byUser :: s.byUser[u].role
  }

  /**
   RotateAllTokens without interference and with generation succeeding: one
   record per user in ascending user order, the same user-to-role map, no
   previously known token string left, and no limiter left.
   */
  lemma RotateAllComplete<L>(s: State<L>, gens: seq<Option<string>>, days: seq<int>)
    requires Inv(s)
    requires |gens| == |days| == |s.byUser.Keys|
    requires FreshGens(gens, s.issued)
    requires forall i :: 0 <= i < |gens| ==> gens[i].Some?
    ensures |SortedOf(s.byUser.Keys)| == |gens|
    ensures var users := SortedOf(s.byUser.Keys);
            var (s', toks, err) := RotateEach(s, users, gens, days);
            && err == None && |toks| == |users|
            && (forall i :: 0 <= i < |users| ==> RecordFor(s, s', users[i], gens[i], toks[i]))
            && RoleMap(s') == RoleMap(s)
            && s'.tokens.Keys !! s.tokens.Keys
            && s'.cache == map[]
  {
    var users := SortedOf(s.byUser.Keys);
    SortedUsersLive(s);
    RotateEachState(s, users, gens, days);
    RotateEachReturns(s, users, gens, days);
    var (s', toks, err) := RotateEach(s, users, gens, days);
    assert Attempted(users, gens) == s.byUser.Keys && Failed(users, gens) == {};
    EveryoneRotated(s, s');
    forall t | t in s.tokens ensures t !in s'.tokens {
      RotateEachKills(s, users, gens, days, s.tokens[t].user);
    }
  }

  lemma EveryoneRotated<L>(s: State<L>, s': State<L>)
    requires Inv(s)
    requires RotationEffect(s, s', s.byUser.Keys, {})
    ensures RoleMap(s') == RoleMap(s)
    ensures s'.cache == map[]
  {
    assert s.cache.Keys <= s.byUser.Keys;
  }

  lemma SortedUsersLive<L>(s: State<L>)
    ensures LiveUsers(s, SortedOf(s.byUser.Keys))
  {
    var users := SortedOf(s.byUser.Keys);
    forall i, j | 0 <= i < j < |users| ensures users[i] != users[j] { AscendingDistinct(users, i, j); }
    forall u | u in users ensures u in s.byUser { assert u in Elems(users); }
  }
}
