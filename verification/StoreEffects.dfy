/**
 What one administrative operation means for a later validation
 (vault/internal/tokens/store.go): operations composed with Validate's locked
 section, on reachable states.
 */
module StoreEffects {
  import opened Wrappers
  import opened RateText
  import opened Dates
  import opened TokenStore
  import opened StoreRuns

  /** The day an expiry text takes effect, if it reads as a date. */
  ghost predicate ExpiredBy(today: int, days: Option<int>, at: int) {
    days.Some? && FourDigitYear(today + days.value) && today + days.value < at
  }

  /**
   A token issued for a number of days validates, as its user and with its
   role's current record, through the last of those days and never after,
   unless the expiry date prints with more than four year digits: then it
   never expires.
   */
  lemma IssuedTokenValidates<L>(s: State<L>, user: string, role: string, days: Option<int>, gen: string,
                                today: int, at: int, spare: L)
    requires Inv(s) && gen !in s.issued
    requires role in s.roles && user !in s.byUser
    requires RateLimitParsed(s.roles[role].rateLimit).Ok?
    ensures var (s', r) := AddToken(s, user, role, days, Some(gen), today);
            var v := Lookup(s', gen, at, spare).1;
            && r.Ok?
            && (if ExpiredBy(today, days, at) then v == Err(TokenExpired(user))
                else v.Ok? && v.value.user == user && v.value.role == s.roles[role]
                     && Ok(v.value.cached.limit) == RateLimitParsed(s.roles[role].rateLimit))
  {
    var (s', r) := AddToken(s, user, role, days, Some(gen), today);
    PutInv(s, r.value);
    LookupIgnoresCache(s', gen, at, spare);
    IssuedExpiry(today, days, at);
  }

  /** The written expiry takes effect exactly after the last day it was given. */
  lemma IssuedExpiry(today: int, days: Option<int>, at: int)
    ensures IsExpiredAt(ExpiryDate(today, days), at) <==> ExpiredBy(today, days, at)
  {
  }

  /**
   Whom Validate refuses in a reachable state, and with which error, as if
   there were no limiter cache.
   */
  lemma RefusalIs<L>(s: State<L>, token: string, today: int)
    requires Inv(s)
    ensures var refusal := Refusal(s, token, today);
            var known := token in s.tokens;
            var expired := known && IsExpiredAt(s.tokens[token].expires, today);
            var served := known && s.tokens[token].role in s.roles;
            && (refusal == Some(TokenExpired(if known then s.tokens[token].user else "")) <==> expired)
            && (refusal == Some(TokenNotFound) <==> !known || (!expired && !served))
            && (refusal == None <==> served && !expired && RateLimitParsed(s.roles[s.tokens[token].role].rateLimit).Ok?)
            && (served && !expired && RateLimitParsed(s.roles[s.tokens[token].role].rateLimit).Err? ==>
                  refusal == Some(BadRateLimit(s.roles[s.tokens[token].role].rateLimit)))
  {
  }

  /**
   AddToken goes through exactly for an existing role, a user without a token
   and a generated string; otherwise nothing changes. The new record has the
   user, role and string given and the day of issue, and its lifetime is the
   number of days asked for.
   */
  lemma AddTokenIs<L>(s: State<L>, user: string, role: string, days: Option<int>, gen: Option<string>, today: int)
    ensures var (s', r) := AddToken(s, user, role, days, gen, today);
            && (r.Ok? <==> role in s.roles && user !in s.byUser && gen.Some?)
            && (role !in s.roles ==> r == Err(NoSuchRole(role)))
            && (role in s.roles && user in s.byUser ==> r == Err(TokenExists(user)))
            && (role in s.roles && user !in s.byUser && gen.None? ==> r == Err(GenerationFailed))
            && (r.Err? ==> s' == s)
            && (r.Ok? ==>
                  var tok := r.value;
                  && tok.user == user && tok.role == role && Some(tok.token) == gen
                  && s'.byUser.Keys == s.byUser.Keys + {user} && s'.byUser[user] == tok
                  && s'.tokens.Keys == s.tokens.Keys + {tok.token} && s'.tokens[tok.token] == tok
                  && (FourDigitYear(today) ==> Parse(tok.issuedAt) == Some(today))
                  && (days == None ==> tok.expires == Blank)
                  && (days.Some? && FourDigitYear(today) && FourDigitYear(today + days.value) ==>
                        Lifetime(tok.issuedAt, tok.expires) == days))
  {
  }

  /** An issued token keeps its number of days over a rotation, up to what a Duration holds. */
  lemma IssuedThenRotated<L>(s: State<L>, user: string, role: string, n: int, gen: string, today: int, next: string, day: int)
    requires role in s.roles && user !in s.byUser
    requires FourDigitYear(today) && FourDigitYear(today + n) && FourDigitYear(day) && FourDigitYear(day + Clamp(n))
    ensures var (s1, added) := AddToken(s, user, role, Some(n), Some(gen), today);
            var (s2, rotated) := RotateToken(s1, user, Some(next), day);
            && added.Ok? && rotated.Ok?
            && Parse(rotated.value.issuedAt) == Some(day)
            && Lifetime(rotated.value.issuedAt, rotated.value.expires) == Some(Clamp(n))
  {
    AddTokenIs(s, user, role, Some(n), Some(gen), today);
    var (s1, added) := AddToken(s, user, role, Some(n), Some(gen), today);
    RotateTokenKeepsLifetime(s1, user, next, day);
  }

  /** A revocation answers whether the user had a token, and removes that record and its limiter, no other. */
  lemma RevokeTokenIs<L>(s: State<L>, user: string)
    requires IndexesAgree(s)
    ensures var (s', ok) := RevokeToken(s, user);
            && (ok <==> user in s.byUser)
            && (!ok ==> s' == s)
            && s'.byUser == s.byUser - {user}
            && (forall t :: t in s'.tokens <==> t in s.tokens && s.tokens[t].user != user)
            && (forall t :: t in s'.tokens ==> s'.tokens[t] == s.tokens[t])
            && s'.roles == s.roles && s'.issued == s.issued
  {
    if user !in s.byUser { assert s.byUser - {user} == s.byUser; }
  }

  /**
   RotateToken goes through exactly for a user with a token and a generated
   string. The new record keeps user and role; one without a readable lifetime
   gets no expiry. Otherwise the error says which was missing.
   */
  lemma RotateTokenIs<L>(s: State<L>, user: string, gen: Option<string>, today: int)
    ensures var (s', r) := RotateToken(s, user, gen, today);
            && (r.Ok? <==> user in s.byUser && gen.Some?)
            && (user !in s.byUser ==> r == Err(NoTokenForUser(user)) && s' == s)
            && (user in s.byUser && gen.None? ==> r == Err(GenerationFailed) && s'.byUser == s.byUser - {user})
            && (r.Ok? ==>
                  && r.value.user == user && r.value.role == s.byUser[user].role && Some(r.value.token) == gen
                  && s'.byUser == s.byUser[user := r.value]
                  && (Lifetime(s.byUser[user].issuedAt, s.byUser[user].expires).None? ==> r.value.expires == Blank)
                  && (FourDigitYear(today) ==> Parse(r.value.issuedAt) == Some(today)))
            && s'.roles == s.roles
  {
    if user in s.byUser {
      CarriedIsClamped(s.byUser[user].issuedAt, s.byUser[user].expires);
    }
  }

  /**
   AddRole goes through exactly on a parsable limit and a free name. Then it
   adds only that role, and a token issued under it validates on the day of
   issue, with the scope, TopK and limit given.
   */
  lemma AddedRoleUsable<L>(s: State<L>, name: string, scope: seq<string>, topK: int, rateLimit: string,
                           user: string, gen: string, today: int, spare: L)
    requires Inv(s) && gen !in s.issued && user !in s.byUser
    ensures var (s1, added) := AddRole(s, name, scope, topK, rateLimit);
            var (s2, r) := AddToken(s1, user, name, None, Some(gen), today);
            var v := Lookup(s2, gen, today, spare).1;
            && (added.Ok? <==> RateLimitParsed(rateLimit).Ok? && name !in s.roles)
            && (added.Err? ==> s1 == s)
            && (added.Ok? ==>
                  && s1.roles.Keys == s.roles.Keys + {name}
                  && (forall n :: n in s.roles ==> s1.roles[n] == s.roles[n])
                  && r.Ok? && v.Ok? && v.value.user == user
                  && v.value.role == Role(name, scope, topK, rateLimit)
                  && Ok(v.value.cached.limit) == RateLimitParsed(rateLimit))
  {
    ValidatedIffParsable(rateLimit);
    var (s1, added) := AddRole(s, name, scope, topK, rateLimit);
    if added.Ok? {
      ApplyInv(s, AddRoleOp(name, scope, topK, rateLimit));
      IssuedTokenValidates(s1, user, name, None, gen, today, today, spare);
    }
  }

  /**
   A rotated token: the old string is unknown at once. The new one validates,
   as the same user with the same role, exactly while that role exists with a
   parsable limit and the carried lifetime, counted from the rotation, lasts.
   */
  lemma RotatedTokenValidates<L>(s: State<L>, user: string, gen: string, today: int, at: int, spare: L)
    requires Inv(s) && gen !in s.issued && user in s.byUser
    ensures var (s', r) := RotateToken(s, user, Some(gen), today);
            var before := s.byUser[user];
            var v := Lookup(s', gen, at, spare).1;
            && r.Ok?
            && Lookup(s', before.token, at, spare).1 == Err(TokenNotFound)
            && (v.Ok? <==> && before.role in s.roles && RateLimitParsed(s.roles[before.role].rateLimit).Ok?
                           && !ExpiredBy(today, CarriedDays(before.issuedAt, before.expires), at))
            && (v.Ok? ==> v.value.user == user && v.value.role == s.roles[before.role])
  {
    RotateInv(s, user, Some(gen), today);
    var s' := RotateToken(s, user, Some(gen), today).0;
    LookupIgnoresCache(s', gen, at, spare);
    IssuedExpiry(today, CarriedDays(s.byUser[user].issuedAt, s.byUser[user].expires), at);
  }

  /**
   RotateToken keeps the record's lifetime, clamped to what a Duration holds,
   exactly when the new expiry has a four-digit year.
   */
  lemma RotateTokenKeepsLifetime<L>(s: State<L>, user: string, gen: string, today: int)
    requires user in s.byUser && FourDigitYear(today)
    requires Lifetime(s.byUser[user].issuedAt, s.byUser[user].expires).Some?
    ensures var tok := RotateToken(s, user, Some(gen), today).1.value;
            var n := Clamp(Lifetime(s.byUser[user].issuedAt, s.byUser[user].expires).value);
            && Parse(tok.issuedAt) == Some(today)
            && (Lifetime(tok.issuedAt, tok.expires) == Some(n) <==> FourDigitYear(today + n))
  {
    RotationKeepsLifetime((s.byUser[user].issuedAt, s.byUser[user].expires), today);
  }

  /**
   An accepted edit is what every later validation of a holder sees: the edited
   record, and the limit of its text, whether or not a limiter was cached
   under the old one.
   */
  lemma EditedRoleSeen<L>(s: State<L>, name: string, edit: RoleEdit, token: string, today: int, spare: L)
    requires Inv(s)
    requires UpdateRole(s, name, edit).1.Ok?
    requires token in s.tokens && s.tokens[token].role == name && !IsExpiredAt(s.tokens[token].expires, today)
    requires edit.rateLimit.Some?
    ensures var s' := UpdateRole(s, name, edit).0;
            var v := Lookup(s', token, today, spare).1;
            && v.Ok?
            && v.value.role == Role(name,
                 if edit.scope.Some? then edit.scope.value else s.roles[name].scope,
                 if edit.topK.Some? then edit.topK.value else s.roles[name].topK,
                 edit.rateLimit.value)
            && Ok(v.value.cached.limit) == RateLimitParsed(edit.rateLimit.value)
            && v.value.cached.handle == spare
  {
    UpdateRoleInv(s, name, edit);
    ValidatedIffParsable(edit.rateLimit.value);
    CacheResets(s, UpdateRoleOp(name, edit));
    LookupIgnoresCache(UpdateRole(s, name, edit).0, token, today, spare);
  }

  /**
   UpdateRole goes through exactly on an existing role whose new limit, if one
   is given, parses. It sets the fields given, keeps the others and the name,
   and touches no other role and no record.
   */
  lemma UpdateRoleIs<L>(s: State<L>, name: string, edit: RoleEdit)
    ensures var (s', r) := UpdateRole(s, name, edit);
            var parses := edit.rateLimit.Some? ==> RateLimitParsed(edit.rateLimit.value).Ok?;
            && (r.Ok? <==> name in s.roles && parses)
            && (!parses ==> r == Err(BadRateLimit(edit.rateLimit.value)))
            && (parses && name !in s.roles ==> r == Err(NoSuchRole(name)))
            && (r.Err? ==> s' == s)
            && (r.Ok? ==>
                  && s'.roles.Keys == s.roles.Keys && s'.roles[name] == r.value
                  && (forall n :: n in s.roles && n != name ==> s'.roles[n] == s.roles[n])
                  && r.value.name == s.roles[name].name
                  && (forall v :: edit.scope == Some(v) ==> r.value.scope == v)
                  && (edit.scope == None ==> r.value.scope == s.roles[name].scope)
                  && (forall v :: edit.topK == Some(v) ==> r.value.topK == v)
                  && (edit.topK == None ==> r.value.topK == s.roles[name].topK)
                  && (forall v :: edit.rateLimit == Some(v) ==> r.value.rateLimit == v)
                  && (edit.rateLimit == None ==> r.value.rateLimit == s.roles[name].rateLimit && s'.cache == s.cache))
            && s'.tokens == s.tokens && s'.byUser == s.byUser && s'.issued == s.issued
  {
    if edit.rateLimit.Some? {
      ValidatedIffParsable(edit.rateLimit.value);
    }
  }

  /**
   DeleteRole goes through exactly on an existing role that is neither default
   nor named by a token of either index, though it scans only one.
   */
  lemma DeleteRoleExact<L>(s: State<L>, name: string)
    requires Inv(s)
    ensures var (s', r) := DeleteRole(s, name);
            && (r.Ok? <==> name in s.roles && name != "admin" && name != "member"
                           && forall t :: t in s.tokens ==> s.tokens[t].role != name)
            && (name == "admin" || name == "member" ==> r == Err(DefaultRoleKept(name)))
            && (name != "admin" && name != "member" && name !in s.roles ==> r == Err(NoSuchRole(name)))
            && (r.Err? ==> r.error in {DefaultRoleKept(name), NoSuchRole(name), RoleInUse(name)})
            && s'.roles == (if r.Ok? then s.roles - {name} else s.roles)
            && s'.tokens == s.tokens && s'.byUser == s.byUser && s'.cache == s.cache
  {
    HoldersExact(s, name);
    if t :| t in s.tokens && s.tokens[t].role == name {
      assert s.tokens[t].user in Holders(s, name);
    }
    if u :| u in Holders(s, name) {
      assert s.tokens[s.byUser[u].token].role == name;
    }
  }
}
