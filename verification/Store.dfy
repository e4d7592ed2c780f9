/**
 The store object (vault/internal/tokens/store.go) and the role object it
 hands out (vault/internal/tokens/role.go). Each method carries out one locked
 section, or the lock-free glue between them, and its effect is the operation
 of module TokenStore on the store's value.
 */
module Store {
  import opened Wrappers
  import opened RateText
  import opened Dates
  import opened Strings
  import opened TokenStore
  import opened StoreRuns
  import opened Documents
  import opened SlidingWindow
  import opened Limiter

  /** A role record; callers keep the pointer and see later edits. */
  class RoleObject {
    const name: string
    var scope: seq<string>
    var topK: int
    var rateLimit: string

    constructor (name: string, scope: seq<string>, topK: int, rateLimit: string)
      ensures Rec() == Role(name, scope, topK, rateLimit)
    {
      this.name, this.scope, this.topK, this.rateLimit := name, scope, topK, rateLimit;
    }

    function Rec(): Role
      reads this
    {
      Role(name, scope, topK, rateLimit)
    }

    /** The field assignments of UpdateRole. */
    method Edit(edit: RoleEdit)
      modifies this
      ensures Rec() == Edited(old(Rec()), edit)
    {
      if edit.scope.Some? {
        scope := edit.scope.value;
      }
      if edit.topK.Some? {
        topK := edit.topK.value;
      }
      if edit.rateLimit.Some? {
        rateLimit := edit.rateLimit.value;
      }
    }

    method CheckScope(method_: string) returns (ok: bool)
      ensures ok <==> method_ in scope
    {
      for i := 0 to |scope|
        invariant method_ !in scope[..i]
      {
        if scope[i] == method_ {
          return true;
        }
      }
      return false;
    }
  }

  class Store {
    var tokens: map<string, Token>
    var tokensByUser: map<string, Token>
    var roles: map<string, RoleObject>
    var rateLimiters: map<string, RateLimiter>
    /** Calls of schedulePersist so far. */
    var persistCalls: nat

    /** The contents of the role objects, by name. */
    ghost var recs: map<string, Role>
    /** The cached limiters with their limits. */
    ghost var cache: map<string, Cached<RateLimiter>>
    /** Every limiter this store made; requests in flight may hold one that is no longer cached. */
    ghost var limiters: set<RateLimiter>
    /** Every token string loaded or generated so far. */
    ghost var issued: set<string>

    /** The store's value. */
    ghost function View(): State<RateLimiter>
      reads this
    {
      State(tokens, tokensByUser, recs, cache, issued)
    }

    ghost predicate RolesMatch()
      reads `roles, `recs, roles.Values
    {
      && recs.Keys == roles.Keys
      && forall n :: n in roles ==> roles[n].Rec() == recs[n] && roles[n].name == n
    }

    /** No two users share a limiter. */
    ghost predicate CacheMatches()
      reads `rateLimiters, `cache, `limiters
    {
      && cache.Keys == rateLimiters.Keys
      && (forall u :: u in rateLimiters ==>
            && rateLimiters[u] in limiters
            && cache[u] == Cached(Limit(rateLimiters[u].maxRequests, rateLimiters[u].window), rateLimiters[u]))
      && (forall u, v :: u in rateLimiters && v in rateLimiters && u != v ==> rateLimiters[u] != rateLimiters[v])
    }

    ghost predicate Valid()
      reads this, roles.Values, limiters, ArraysOf(limiters)
    {
      RolesMatch() && CacheMatches() && AllReady(limiters)
    }

    /** The limiter object of a user, if one is cached. */
    ghost function LimiterOf(user: string): set<object>
      reads `rateLimiters
    {
      if user in rateLimiters then {rateLimiters[user]} else {}
    }

    constructor ()
      ensures Valid() && View() == NewStore() && persistCalls == 0
      ensures roles == map[]
    {
      tokens, tokensByUser, roles, rateLimiters := map[], map[], map[], map[];
      persistCalls := 0;
      recs, cache, issued, limiters := map[], map[], {}, {};
    }

    method SchedulePersist()
      requires Valid()
      modifies `persistCalls
      ensures Valid() && persistCalls == old(persistCalls) + 1
    {
      persistCalls := persistCalls + 1;
    }

    // ---- tokens ------------------------------------------------------------

    method AddToken(user: string, role: string, days: Option<int>, gen: Option<string>, today: int)
      returns (r: Result<Token, Error>)
      requires Valid()
      modifies `tokens, `tokensByUser, `issued, `persistCalls
      ensures Valid()
      ensures (View(), r) == TokenStore.AddToken(old(View()), user, role, days, gen, today)
      ensures persistCalls == old(persistCalls) + if r.Ok? then 1 else 0
    {
      if role !in roles {
        return Err(NoSuchRole(role));
      }
      if user in tokensByUser {
        return Err(TokenExists(user));
      }
      if gen.None? {
        return Err(GenerationFailed);
      }
      var tok := Token(user, gen.value, role, Day(today), ExpiryDate(today, days));
      PutRecord(tok);
      SchedulePersist();
      return Ok(tok);
    }

    /** Store a new record under both keys. */
    method PutRecord(tok: Token)
      requires Valid()
      modifies `tokens, `tokensByUser, `issued
      ensures Valid() && View() == Put(old(View()), tok)
    {
      tokens := tokens[tok.token := tok];
      tokensByUser := tokensByUser[tok.user := tok];
      issued := issued + {tok.token};
    }

    /** Delete a user's record from both maps, and the user's limiter. */
    method DropRecord(user: string)
      requires Valid() && user in tokensByUser
      modifies `tokens, `tokensByUser, `rateLimiters, `cache, LimiterOf(user)
      ensures Valid() && View() == Drop(old(View()), user)
      ensures rateLimiters == old(rateLimiters) - {user}
      ensures user in old(rateLimiters) ==>
                old(rateLimiters)[user].accepted == old(rateLimiters[user].accepted) - {user}
    {
      var tok := tokensByUser[user];
      tokensByUser := tokensByUser - {user};
      tokens := tokens - {tok.token};
      DropLimiter(user);
    }

    /** delete(rateLimiters, user), and the limiter itself forgets the user. */
    method DropLimiter(user: string)
      requires Valid()
      modifies `rateLimiters, `cache, LimiterOf(user)
      ensures Valid()
      ensures cache == old(cache) - {user} && rateLimiters == old(rateLimiters) - {user}
      ensures user in old(rateLimiters) ==>
                old(rateLimiters)[user].accepted == old(rateLimiters[user].accepted) - {user}
    {
      if user in rateLimiters {
        var l := rateLimiters[user];
        rateLimiters := rateLimiters - {user};
        cache := cache - {user};
        Forget(l, limiters, user);
      } else {
        assert cache - {user} == cache && rateLimiters - {user} == rateLimiters;
      }
    }

    method RevokeToken(user: string) returns (ok: bool)
      requires Valid()
      modifies `tokens, `tokensByUser, `persistCalls, `rateLimiters, `cache, LimiterOf(user)
      ensures Valid()
      ensures (View(), ok) == TokenStore.RevokeToken(old(View()), user)
      ensures persistCalls == old(persistCalls) + if ok then 1 else 0
      ensures rateLimiters == if ok then old(rateLimiters) - {user} else old(rateLimiters)
      ensures ok && user in old(rateLimiters) ==>
                old(rateLimiters)[user].accepted == old(rateLimiters[user].accepted) - {user}
    {
      if user !in tokensByUser {
        return false;
      }
      DropRecord(user);
      SchedulePersist();
      return true;
    }

    /** The day count of the record being replaced, where both its dates parse. */
    method LifetimeDays(tok: Token) returns (days: Option<int>)
      ensures days == CarriedDays(tok.issuedAt, tok.expires)
    {
      days := None;
      if tok.expires != Blank {
        var issued, exp := Parse(tok.issuedAt), Parse(tok.expires);
        if issued.Some? && exp.Some? {
          days := Some(TruncatedDays(SubNanos(exp.value, issued.value)));
        }
      }
    }

    method RotateToken(user: string, gen: Option<string>, today: int) returns (r: Result<Token, Error>)
      requires Valid()
      modifies `tokens, `tokensByUser, `issued, `persistCalls, `rateLimiters, `cache, LimiterOf(user)
      ensures Valid()
      ensures (View(), r) == TokenStore.RotateToken(old(View()), user, gen, today)
      ensures persistCalls == old(persistCalls) + if r.Ok? then 1 else 0
      ensures rateLimiters == if user in old(tokensByUser) then old(rateLimiters) - {user} else old(rateLimiters)
      ensures user in old(tokensByUser) && user in old(rateLimiters) ==>
                old(rateLimiters)[user].accepted == old(rateLimiters[user].accepted) - {user}
    {
      if user !in tokensByUser {
        return Err(NoTokenForUser(user));
      }
      var old' := tokensByUser[user];
      var days := LifetimeDays(old');
      DropRecord(user);
      if gen.None? {
        return Err(GenerationFailed);
      }
      var tok := Token(user, gen.value, old'.role, Day(today), ExpiryDate(today, days));
      PutRecord(tok);
      SchedulePersist();
      return Ok(tok);
    }

    /** The generator and the clock are consulted once per user reached. */
    method RotateAllTokens(gens: seq<Option<string>>, days: seq<int>) returns (result: seq<Token>, err: Option<Error>)
      requires Valid()
      requires |gens| == |days| == |SortedOf(tokensByUser.Keys)|
      modifies `tokens, `tokensByUser, `issued, `persistCalls, `rateLimiters, `cache, limiters
      ensures Valid()
      ensures (View(), result, err) == RotateEach(old(View()), SortedOf(old(tokensByUser).Keys), gens, days)
      ensures persistCalls == old(persistCalls) + |result|
    {
      var users := SortedKeys(tokensByUser.Keys);
      result, err := RotateUsers(users, gens, days);
    }

    /** The loop of RotateAllTokens. */
    method RotateUsers(users: seq<string>, gens: seq<Option<string>>, days: seq<int>)
      returns (result: seq<Token>, err: Option<Error>)
      requires Valid() && |gens| == |days| == |users|
      modifies `tokens, `tokensByUser, `issued, `persistCalls, `rateLimiters, `cache, limiters
      ensures Valid()
      ensures (View(), result, err) == RotateEach(old(View()), users, gens, days)
      ensures persistCalls == old(persistCalls) + |result|
    {
      ghost var goal := RotateEach(View(), users, gens, days);
      PendingStart(View(), users, gens, days);
      result := [];
      for i := 0 to |users|
        invariant Valid()
        invariant persistCalls == old(persistCalls) + |result|
        invariant Pending(goal, View(), result, users, gens, days, i)
      {
        var r := RotateNext(goal, result, users, gens, days, i);
        if r.Err? {
          return result, Some(r.error);
        }
        result := result + [r.value];
      }
      PendingEnd(goal, View(), result, users, gens, days);
      return result, None;
    }

    /** One turn of that loop: it is done, or the goal is still ahead. */
    method RotateNext(ghost goal: (State<RateLimiter>, seq<Token>, Option<Error>), ghost done: seq<Token>,
                      users: seq<string>, gens: seq<Option<string>>, days: seq<int>, i: nat) returns (r: Result<Token, Error>)
      requires Valid() && |gens| == |days| == |users| && i < |users|
      requires Pending(goal, View(), done, users, gens, days, i)
      modifies `tokens, `tokensByUser, `issued, `persistCalls, `rateLimiters, `cache, limiters
      ensures Valid()
      ensures r.Err? ==> goal == (View(), done, Some(r.error)) && persistCalls == old(persistCalls)
      ensures r.Ok? ==> Pending(goal, View(), done + [r.value], users, gens, days, i + 1)
                        && persistCalls == old(persistCalls) + 1
    {
      PendingStep(goal, View(), done, users, gens, days, i);
      assert LimiterOf(users[i]) <= limiters;
      r := RotateToken(users[i], gens[i], days[i]);
    }

    // ---- validation --------------------------------------------------------

    /** The user's stored timestamps and all its acceptances, in the cached limiter. */
    ghost function ListOf(user: string): seq<int>
      reads `rateLimiters, LimiterOf(user)
    {
      if user in rateLimiters then TimesOf(rateLimiters[user].lists, user) else []
    }

    ghost function AcceptedOf(user: string): seq<int>
      reads `rateLimiters, LimiterOf(user)
    {
      if user in rateLimiters then TimesOf(rateLimiters[user].accepted, user) else []
    }

    /** The same for the user of a token string. */
    ghost function StoredFor(tokenStr: string): seq<int>
      reads `tokens, `rateLimiters, if tokenStr in tokens then LimiterOf(tokens[tokenStr].user) else {}
    {
      if tokenStr in tokens then ListOf(tokens[tokenStr].user) else []
    }

    ghost function SlotsFor(tokenStr: string): seq<int>
      reads `tokens, `rateLimiters, if tokenStr in tokens then LimiterOf(tokens[tokenStr].user) else {}
    {
      if tokenStr in tokens then AcceptedOf(tokens[tokenStr].user) else []
    }

    /** s.rateLimiters[user] = l, for a limiter no user has. */
    method SetLimiter(user: string, l: RateLimiter)
      requires CacheMatches() && l in limiters && l !in rateLimiters.Values
      modifies `rateLimiters, `cache
      ensures CacheMatches() && rateLimiters == old(rateLimiters)[user := l]
      ensures cache == old(cache)[user := Cached(Limit(l.maxRequests, l.window), l)]
    {
      rateLimiters := rateLimiters[user := l];
      cache := cache[user := Cached(Limit(l.maxRequests, l.window), l)];
    }

    /** A cache miss. */
    method CacheNew(user: string, limit: Limit) returns (l: RateLimiter)
      requires CacheMatches() && AllReady(limiters) && user !in rateLimiters
      modifies `rateLimiters, `cache, `limiters
      ensures CacheMatches() && AllReady(limiters) && fresh(l) && l.owner == map[]
      ensures rateLimiters == old(rateLimiters)[user := l] && cache == old(cache)[user := Cached(limit, l)]
      ensures forall v :: ListOf(v) == old(ListOf(v)) && AcceptedOf(v) == old(AcceptedOf(v))
    {
      l := NewLimiter(limiters, limit);
      limiters := limiters + {l};
      SetLimiter(user, l);
      forall v ensures ListOf(v) == old(ListOf(v)) && AcceptedOf(v) == old(AcceptedOf(v)) {
        if v != user && v in rateLimiters {
          assert rateLimiters[v] == old(rateLimiters)[v];
        }
      }
    }

    /** getOrCreateLimiterLocked */
    method GetOrCreateLimiter(user: string, role: RoleObject) returns (r: Result<RateLimiter, Error>)
      requires Valid()
      modifies `rateLimiters, `cache, `limiters
      ensures Valid()
      ensures forall v :: ListOf(v) == old(ListOf(v)) && AcceptedOf(v) == old(AcceptedOf(v))
      ensures user in old(rateLimiters) ==>
                r == Ok(old(rateLimiters)[user]) && cache == old(cache) && rateLimiters == old(rateLimiters)
      ensures r.Ok? ==> (fresh(r.value) && r.value.owner == map[]) || r.value in old(limiters)
      ensures user !in old(rateLimiters) && RateLimitParsed(role.rateLimit).Err? ==>
                r == Err(BadRateLimit(role.rateLimit)) && cache == old(cache) && rateLimiters == old(rateLimiters)
      ensures user !in old(rateLimiters) && RateLimitParsed(role.rateLimit).Ok? ==>
                && r.Ok?
                && rateLimiters == old(rateLimiters)[user := r.value]
                && cache == old(cache)[user := Cached(RateLimitParsed(role.rateLimit).value, r.value)]
    {
      if user in rateLimiters {
        return Ok(rateLimiters[user]);
      }
      var parsed := RateLimitParsed(role.rateLimit);
      if parsed.Err? {
        return Err(BadRateLimit(parsed.error));
      }
      var l := CacheNew(user, parsed.value);
      return Ok(l);
    }

    /** Validate up to its unlock. */
    method LookupLocked(tokenStr: string, today: int) returns (r: Result<(string, RoleObject, RateLimiter), Error>)
      requires Valid()
      modifies `rateLimiters, `cache, `limiters
      ensures Valid()
      ensures r.Err? <==> Refusal(old(View()), tokenStr, today).Some?
      ensures r.Err? ==> r == Err(Refusal(old(View()), tokenStr, today).value)
                         && rateLimiters == old(rateLimiters) && cache == old(cache)
      ensures r.Ok? ==>
                var (user, role, l) := r.value;
                && tokenStr in tokens && user == tokens[tokenStr].user
                && tokens[tokenStr].role in roles && role == roles[tokens[tokenStr].role]
                && user in rateLimiters && l == rateLimiters[user]
                && View() == Lookup(old(View()), tokenStr, today, l).0
                && ((fresh(l) && l.owner == map[]) || l in old(limiters))
      ensures forall v :: ListOf(v) == old(ListOf(v)) && AcceptedOf(v) == old(AcceptedOf(v))
    {
      if tokenStr !in tokens {
        return Err(TokenNotFound);
      }
      var tok := tokens[tokenStr];
      if IsExpiredAt(tok.expires, today) {
        return Err(TokenExpired(tok.user));
      }
      if tok.role !in roles {
        return Err(TokenNotFound);
      }
      var role := roles[tok.role];
      assert role.Rec() == recs[tok.role];
      var l := GetOrCreateLimiter(tok.user, role);
      if l.Err? {
        return Err(l.error);
      }
      LookupWith(old(View()), tokenStr, today, l.value, cache);
      return Ok((tok.user, role, l.value));
    }

    /** Validate after its unlock: only this user's limiter is touched. */
    method AskCached(l: RateLimiter, user: string, now: int, later: int) returns (denied: Option<int>)
      requires Valid() && user in rateLimiters && l == rateLimiters[user]
      modifies l, l.owner.Keys
      ensures Valid()
      ensures forall v :: v != user ==> ListOf(v) == old(ListOf(v)) && AcceptedOf(v) == old(AcceptedOf(v))
      ensures var d := Decide(l.maxRequests, l.window, old(ListOf(user)), now);
              && ListOf(user) == d.list
              && AcceptedOf(user) == old(AcceptedOf(user)) + (if d.ok then [now] else [])
              && denied == (if d.ok then None else Some(RetrySeconds(l.window, d.list, later)))
              && (Nondecreasing(l.calls) ==>
                    (denied.None? <==> HistoryAllows(l.maxRequests, l.window, old(AcceptedOf(user)), now)))
    {
      denied := AskListed(l, user, now, later);
    }

    /** The same, as far as the limiters go. */
    method AskListed(l: RateLimiter, user: string, now: int, later: int) returns (denied: Option<int>)
      requires CacheMatches() && AllReady(limiters) && user in rateLimiters && l == rateLimiters[user]
      modifies l, l.owner.Keys
      ensures AllReady(limiters)
      ensures forall v :: v != user ==> ListOf(v) == old(ListOf(v)) && AcceptedOf(v) == old(AcceptedOf(v))
      ensures var d := Decide(l.maxRequests, l.window, old(ListOf(user)), now);
              && ListOf(user) == d.list
              && AcceptedOf(user) == old(AcceptedOf(user)) + (if d.ok then [now] else [])
              && denied == (if d.ok then None else Some(RetrySeconds(l.window, d.list, later)))
              && (Nondecreasing(l.calls) ==>
                    (denied.None? <==> HistoryAllows(l.maxRequests, l.window, old(AcceptedOf(user)), now)))
    {
      denied := AskOne(l, limiters, user, now, later);
      forall v | v != user ensures ListOf(v) == old(ListOf(v)) && AcceptedOf(v) == old(AcceptedOf(v)) {
        if v in rateLimiters {
          assert rateLimiters[v] != l && rateLimiters[v] in limiters;
        }
      }
    }

    /**
     Validate. The limiter is asked after the store's mutex is released, at
     `now`; on a denial its retry hint is read at `later`. An accepted call
     uses exactly one slot of the user, a refused or denied one none, and no
     other user's record or limiter is touched.
     */
    method Validate(tokenStr: string, today: int, now: int, later: int)
      returns (r: Result<(string, RoleObject), Error>)
      requires Valid()
      modifies `rateLimiters, `cache, `limiters, limiters, ArraysOf(limiters)
      ensures Valid()
      ensures var refusal := Refusal(old(View()), tokenStr, today);
              refusal.Some? ==> r == Err(refusal.value) && View() == old(View()) && rateLimiters == old(rateLimiters)
      ensures Refusal(old(View()), tokenStr, today).None? ==>
                var tok := tokens[tokenStr];
                tok.user in rateLimiters &&
                var l := rateLimiters[tok.user];
                var d := Decide(l.maxRequests, l.window, old(ListOf(tok.user)), now);
                && View() == Lookup(old(View()), tokenStr, today, l).0
                && ListOf(tok.user) == d.list
                && AcceptedOf(tok.user) == old(AcceptedOf(tok.user)) + (if d.ok then [now] else [])
                && r == (if d.ok then Ok((tok.user, roles[tok.role]))
                         else Err(RateLimited(RetrySeconds(l.window, d.list, later))))
                && (Nondecreasing(l.calls) ==>
                      (r.Ok? <==> HistoryAllows(l.maxRequests, l.window, old(AcceptedOf(tok.user)), now)))
      ensures forall v :: Refusal(old(View()), tokenStr, today).Some? || v != tokens[tokenStr].user ==>
                ListOf(v) == old(ListOf(v)) && AcceptedOf(v) == old(AcceptedOf(v))
    {
      var found := LookupLocked(tokenStr, today);
      if found.Err? {
        r := Err(found.error);
      } else {
        var (user, role, l) := found.value;
        var denied := AskCached(l, user, now, later);
        r := if denied.Some? then Err(RateLimited(denied.value)) else Ok((user, role));
      }
    }

    // ---- roles -------------------------------------------------------------

    /** The object of a role, if there is one. */
    ghost function RoleOf(name: string): set<object>
      reads `roles
    {
      if name in roles then {roles[name]} else {}
    }

    /** The error and record of an operation agree with what the specification gives. */
    ghost predicate Returns(r: Result<RoleObject, Error>, name: string, q: Result<Role, Error>)
      reads `roles, roles.Values
    {
      match q
      case Err(e) => r == Err(e)
      case Ok(rec) => name in roles && r == Ok(roles[name]) && roles[name].Rec() == rec
    }

    /** s.roles[name] = &Role{...} */
    method SetRole(rec: Role) returns (role: RoleObject)
      requires RolesMatch()
      modifies `roles, `recs
      ensures RolesMatch() && recs == old(recs)[rec.name := rec]
      ensures roles == old(roles)[rec.name := role] && role.Rec() == rec && fresh(role)
    {
      role := new RoleObject(rec.name, rec.scope, rec.topK, rec.rateLimit);
      roles := roles[rec.name := role];
      recs := recs[rec.name := rec];
    }

    method AddRole(name: string, scope: seq<string>, topK: int, rateLimit: string) returns (r: Result<RoleObject, Error>)
      requires Valid()
      modifies `roles, `recs, `persistCalls
      ensures Valid()
      ensures View() == TokenStore.AddRole(old(View()), name, scope, topK, rateLimit).0
      ensures Returns(r, name, TokenStore.AddRole(old(View()), name, scope, topK, rateLimit).1)
      ensures persistCalls == old(persistCalls) + if r.Ok? then 1 else 0
    {
      if !ValidateRateLimit(rateLimit) {
        return Err(BadRateLimit(rateLimit));
      }
      if name in roles {
        return Err(RoleExists(name));
      }
      var role := SetRole(Role(name, scope, topK, rateLimit));
      SchedulePersist();
      return Ok(role);
    }

    /** The role object is changed in place. */
    method EditRole(name: string, edit: RoleEdit)
      requires Valid() && name in roles
      modifies `recs, roles[name]
      ensures Valid() && recs == old(recs)[name := Edited(old(recs)[name], edit)]
    {
      EditObject(name, edit);
    }

    method EditObject(name: string, edit: RoleEdit)
      requires RolesMatch() && name in roles
      modifies `recs, roles[name]
      ensures RolesMatch() && recs == old(recs)[name := Edited(old(recs)[name], edit)]
    {
      roles[name].Edit(edit);
      recs := recs[name := Edited(recs[name], edit)];
    }

    method UpdateRole(name: string, edit: RoleEdit) returns (r: Result<RoleObject, Error>)
      requires Valid()
      modifies `recs, `rateLimiters, `cache, `persistCalls, RoleOf(name)
      ensures Valid()
      ensures View() == TokenStore.UpdateRole(old(View()), name, edit).0
      ensures Returns(r, name, TokenStore.UpdateRole(old(View()), name, edit).1)
      ensures persistCalls == old(persistCalls) + if r.Ok? then 1 else 0
    {
      if edit.rateLimit.Some? && !ValidateRateLimit(edit.rateLimit.value) {
        return Err(BadRateLimit(edit.rateLimit.value));
      }
      if name !in roles {
        return Err(NoSuchRole(name));
      }
      var role := roles[name];
      EditRole(name, edit);
      if edit.rateLimit.Some? {
        ResetHolders(name);
      }
      SchedulePersist();
      return Ok(role);
    }

    /** Drop the limiters of all users holding the role. */
    method ResetHolders(name: string)
      requires Valid()
      modifies `rateLimiters, `cache
      ensures Valid() && cache == old(cache) - Holders(old(View()), name)
    {
      ScanHolders(name);
    }

    /** The scan of UpdateRole. */
    method ScanHolders(name: string)
      requires CacheMatches()
      modifies `rateLimiters, `cache
      ensures CacheMatches() && cache == old(cache) - Holders(old(View()), name)
    {
      ghost var before := View();
      ghost var dropped: set<string> := {};
      var rest := tokensByUser.Keys;
      while rest != {}
        invariant CacheMatches()
        invariant rest <= tokensByUser.Keys
        invariant dropped == set u | u in tokensByUser.Keys - rest && tokensByUser[u].role == name :: tokensByUser[u].user
        invariant cache == old(cache) - dropped
        decreases rest
      {
        var u :| u in rest;
        var tok := tokensByUser[u];
        if tok.role == name {
          rateLimiters := rateLimiters - {tok.user};
          cache := cache - {tok.user};
          dropped := dropped + {tok.user};
        }
        rest := rest - {u};
      }
      assert dropped == Holders(before, name);
    }

    /** On RoleInUse, `holder` is the user the message names. */
    method DeleteRole(name: string) returns (r: Result<(), Error>, holder: string)
      requires Valid()
      modifies `roles, `recs, `persistCalls
      ensures Valid()
      ensures (View(), r) == TokenStore.DeleteRole(old(View()), name)
      ensures r == Err(RoleInUse(name)) ==> holder in Holders(View(), name)
      ensures persistCalls == old(persistCalls) + if r.Ok? then 1 else 0
    {
      holder := "";
      if IsDefaultRoleName(name) {
        return Err(DefaultRoleKept(name)), holder;
      }
      if name !in roles {
        return Err(NoSuchRole(name)), holder;
      }
      var rest := tokensByUser.Keys;
      while rest != {}
        invariant rest <= tokensByUser.Keys
        invariant forall u :: u in tokensByUser.Keys - rest ==> tokensByUser[u].role != name
        decreases rest
      {
        var u :| u in rest;
        if tokensByUser[u].role == name {
          assert tokensByUser[u].user in Holders(View(), name);
          return Err(RoleInUse(name)), tokensByUser[u].user;
        }
        rest := rest - {u};
      }
      assert Holders(View(), name) == {};
      roles := roles - {name};
      recs := recs - {name};
      SchedulePersist();
      return Ok(()), holder;
    }

    // ---- documents ---------------------------------------------------------

    method SetDefaults(onlyMissing: bool)
      requires RolesMatch()
      modifies `roles, `recs
      ensures RolesMatch()
      ensures recs == if onlyMissing then DefaultRoles() + old(recs) else old(recs) + DefaultRoles()
    {
      SetDefault(ADMIN, onlyMissing);
      SetDefault(MEMBER, onlyMissing);
      DefaultsSet(old(recs), onlyMissing);
    }

    method SetDefault(role: Role, onlyMissing: bool)
      requires RolesMatch()
      modifies `roles, `recs
      ensures RolesMatch()
      ensures recs == if onlyMissing && role.name in old(recs) then old(recs) else old(recs)[role.name := role]
    {
      if !onlyMissing || role.name !in roles {
        var r := SetRole(role);
      }
    }

    method LoadRolesDoc(doc: RolesDoc)
      requires RolesMatch()
      modifies `roles, `recs
      ensures RolesMatch() && recs == old(recs) + map n | n in doc :: LoadedRole(n, doc[n])
    {
      var rest := doc.Keys;
      while rest != {}
        invariant RolesMatch()
        invariant rest <= doc.Keys
        invariant recs.Keys == old(recs).Keys + (doc.Keys - rest)
        invariant forall n :: n in recs ==>
          recs[n] == if n in doc && n !in rest then LoadedRole(n, doc[n]) else old(recs)[n]
        decreases rest
      {
        var n :| n in rest;
        var role := SetRole(LoadedRole(n, doc[n]));
        rest := rest - {n};
      }
      MergedRoles(old(recs), recs, doc);
    }

    /** The roles part: the document or the defaults, then any default still missing. */
    method LoadRolesFile(file: File<RolesDoc>)
      requires Valid() && (file.Doc? || file.Missing?)
      modifies `roles, `recs
      ensures Valid()
      ensures View() == AddMissingDefaults(if file.Doc? then LoadRoles(old(View()), file.doc)
                                           else old(View()).(roles := old(recs) + DefaultRoles()))
    {
      FillRoles(file);
    }

    method FillRoles(file: File<RolesDoc>)
      requires RolesMatch() && (file.Doc? || file.Missing?)
      modifies `roles, `recs
      ensures RolesMatch()
      ensures recs == DefaultRoles() + (old(recs) + if file.Doc? then map n | n in file.doc :: LoadedRole(n, file.doc[n])
                                                    else DefaultRoles())
    {
      if file.Doc? {
        LoadRolesDoc(file.doc);
      } else {
        SetDefaults(false);
      }
      SetDefaults(true);
    }

    /** LoadFromFiles, with the files' contents as arguments. */
    method LoadFromFiles(rolesFile: File<RolesDoc>, tokensFile: File<TokensDoc>) returns (ok: bool)
      requires Valid()
      modifies `tokens, `tokensByUser, `roles, `recs, `issued, `persistCalls
      ensures Valid()
      ensures var (s', ok', scheduled) := Documents.LoadFromFiles(old(View()), rolesFile, tokensFile);
              View() == s' && ok == ok' && persistCalls == old(persistCalls) + if scheduled then 1 else 0
    {
      if rolesFile.Unreadable? || rolesFile.NotParsed? {
        return false;
      }
      LoadRolesFile(rolesFile);
      if tokensFile.Unreadable? || tokensFile.NotParsed? {
        return false;
      }
      if tokensFile.Doc? {
        LoadTokensDoc(tokensFile.doc);
      }
      if rolesFile.Missing? || tokensFile.Missing? {
        SchedulePersist();
      }
      return true;
    }

    method LoadTokensDoc(doc: TokensDoc)
      requires Valid()
      modifies `tokens, `tokensByUser, `issued
      ensures Valid() && View() == LoadTokens(old(View()), doc)
    {
      ghost var base := View();
      for i := 0 to |doc|
        invariant Valid() && View() == LoadTokens(base, doc[..i])
      {
        PutRecord(LoadedToken(doc[i]));
        assert doc[..i + 1][..i] == doc[..i];
      }
      assert doc[..|doc|] == doc;
    }

    /** The part of doPersist that runs under the read lock. */
    method BuildDocuments() returns (rolesDoc: RolesDoc, tokensDoc: TokensDoc)
      requires Valid()
      ensures rolesDoc == RolesDocOf(View()) && tokensDoc == TokensDocOf(View())
    {
      rolesDoc := BuildRolesDoc();
      tokensDoc := BuildTokensDoc();
    }

    method BuildRolesDoc() returns (doc: RolesDoc)
      requires RolesMatch()
      ensures doc == RolesDocOf(View())
    {
      doc := map[];
      var rest := roles.Keys;
      while rest != {}
        invariant rest <= roles.Keys
        invariant doc.Keys == roles.Keys - rest
        invariant forall n :: n in doc ==> doc[n] == RoleConfig(recs[n].scope, recs[n].topK, recs[n].rateLimit)
        decreases rest
      {
        var n :| n in rest;
        var r := roles[n];
        assert r.Rec() == recs[n];
        doc := doc[n := RoleConfig(r.scope, r.topK, r.rateLimit)];
        rest := rest - {n};
      }
    }

    method BuildTokensDoc() returns (doc: TokensDoc)
      ensures doc == TokensDocOf(View())
    {
      var users := SortedKeys(tokensByUser.Keys);
      forall u | u in users ensures u in tokensByUser { assert u in Elems(users); }
      doc := [];
      for i := 0 to |users|
        invariant doc == EntriesOf(tokensByUser, users[..i])
      {
        doc := doc + [EntryOf(tokensByUser[users[i]])];
        assert users[..i + 1][..i] == users[..i];
      }
      assert users[..|users|] == users;
    }
  }
}
