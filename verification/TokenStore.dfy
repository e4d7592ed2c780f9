/**
 The token and role store on values (vault/internal/tokens/store.go): what each
 operation does to the four maps in its locked section. A limiter is named by a
 handle of any type; `Cached` carries the limits it was built with.
 */
module TokenStore {
  import opened Wrappers
  import opened RateText
  import opened Dates

  datatype Token = Token(user: string, token: string, role: string, issuedAt: DateText, expires: DateText)

  datatype Role = Role(name: string, scope: seq<string>, topK: int, rateLimit: string)

  datatype Cached<L> = Cached(limit: Limit, handle: L)

  /** `issued` is every token string this process has seen loaded or generated. */
  datatype State<L> = State(
    tokens: map<string, Token>,
    byUser: map<string, Token>,
    roles: map<string, Role>,
    cache: map<string, Cached<L>>,
    issued: set<string>
  )

  datatype Error =
    | TokenNotFound
    | TokenExpired(user: string)
    | RateLimited(retryAfter: int)
    | BadRateLimit(text: string)
    | NoSuchRole(name: string)
    | TokenExists(user: string)
    | NoTokenForUser(user: string)
    | RoleExists(name: string)
    | DefaultRoleKept(name: string)
    | RoleInUse(name: string)
    | GenerationFailed

  const ADMIN: Role := Role("admin", ["get_public_key", "decrypt_scores", "decrypt_metadata", "manage_tokens"], 50, "150/60s")
  const MEMBER: Role := Role("member", ["get_public_key", "decrypt_scores", "decrypt_metadata"], 10, "30/60s")

  function DefaultRoles(): map<string, Role> {
    map["admin" := ADMIN, "member" := MEMBER]
  }

  /** What the two default roles allow: requests a minute, entries a request, and calls. */
  lemma DefaultsAllow()
    ensures RateLimitParsed(ADMIN.rateLimit) == Ok(Limit(150, 60 * SECOND)) && ADMIN.topK == 50
    ensures RateLimitParsed(MEMBER.rateLimit) == Ok(Limit(30, 60 * SECOND)) && MEMBER.topK == 10
  {
    DefaultText(150, "150/60s");
    DefaultText(30, "30/60s");
  }

  lemma DefaultsAre(name: string)
    ensures name in DefaultRoles() <==> name == "admin" || name == "member"
    ensures name in DefaultRoles() ==> DefaultRoles()[name].name == name
  {
  }

  /** The member may do all the admin may, except manage tokens. */
  lemma DefaultScopes(call: string)
    ensures call in ADMIN.scope <==> call in MEMBER.scope || call == "manage_tokens"
    ensures call in MEMBER.scope <==> call == "get_public_key" || call == "decrypt_scores" || call == "decrypt_metadata"
  {
  }

  lemma DefaultText(max: nat, text: string)
    requires (max == 150 && text == "150/60s") || (max == 30 && text == "30/60s")
    ensures RateLimitParsed(text) == Ok(Limit(max, 60 * SECOND))
  {
    RateRoundTrip(max, 60);
    Digits();
    assert PrintRate(max, 60) == text;
  }

  lemma Digits()
    ensures PrintNat(30) == "30" && PrintNat(60) == "60" && PrintNat(150) == "150"
  {
    assert PrintNat(3) == "3" && PrintNat(6) == "6" && PrintNat(15) == "15";
  }

  /** The two defaults set one after the other, or only where missing. */
  lemma DefaultsSet(roles: map<string, Role>, onlyMissing: bool)
    ensures roles["admin" := ADMIN]["member" := MEMBER] == roles + DefaultRoles()
    ensures var first := if "admin" in roles then roles else roles["admin" := ADMIN];
            (if "member" in first then first else first["member" := MEMBER]) == DefaultRoles() + roles
  {
  }

  predicate IsDefaultRoleName(name: string) { name == "admin" || name == "member" }

  // ---- operations --------------------------------------------------------

  datatype Grant<L> = Grant(user: string, role: Role, cached: Cached<L>)

  /** Why Validate's locked section refuses a token string, if it does. */
  function Refusal<L>(s: State<L>, token: string, today: int): Option<Error> {
    if token !in s.tokens then Some(TokenNotFound)
    else
      var tok := s.tokens[token];
      if IsExpiredAt(tok.expires, today) then Some(TokenExpired(tok.user))
      else if tok.role !in s.roles then Some(TokenNotFound)
      else if tok.user !in s.cache && RateLimitParsed(s.roles[tok.role].rateLimit).Err? then
        Some(BadRateLimit(s.roles[tok.role].rateLimit))
      else None
  }

  /** Validate up to its unlock; `spare` is the limiter a cache miss creates. */
  function Lookup<L>(s: State<L>, token: string, today: int, spare: L): (State<L>, Result<Grant<L>, Error>) {
    var refusal := Refusal(s, token, today);
    if refusal.Some? then (s, Err(refusal.value))
    else
      var tok := s.tokens[token];
      var role := s.roles[tok.role];
      var cached := if tok.user in s.cache then s.cache[tok.user]
                    else Cached(RateLimitParsed(role.rateLimit).value, spare);
      (s.(cache := s.cache[tok.user := cached]), Ok(Grant(tok.user, role, cached)))
  }

  /** A granted lookup changes the cache at most. */
  lemma LookupWith<L>(s: State<L>, token: string, today: int, spare: L, cache: map<string, Cached<L>>)
    requires Refusal(s, token, today).None?
    requires var user := s.tokens[token].user;
             cache == if user in s.cache then s.cache
                      else s.cache[user := Cached(RateLimitParsed(s.roles[s.tokens[token].role].rateLimit).value, spare)]
    ensures Lookup(s, token, today, spare).0 == s.(cache := cache)
  {
  }

  /** Store a new record under both keys. */
  function Put<L>(s: State<L>, tok: Token): State<L> {
    s.(tokens := s.tokens[tok.token := tok], byUser := s.byUser[tok.user := tok], issued := s.issued + {tok.token})
  }

  /** Drop a user's record from both maps, and the user's limiter. */
  function Drop<L>(s: State<L>, user: string): State<L>
    requires user in s.byUser
  {
    s.(tokens := s.tokens - {s.byUser[user].token}, byUser := s.byUser - {user}, cache := s.cache - {user})
  }

  function AddToken<L>(s: State<L>, user: string, role: string, days: Option<int>, gen: Option<string>, today: int)
    : (State<L>, Result<Token, Error>)
  {
    if role !in s.roles then (s, Err(NoSuchRole(role)))
    else if user in s.byUser then (s, Err(TokenExists(user)))
    else if gen.None? then (s, Err(GenerationFailed))
    else
      var tok := Token(user, gen.value, role, Day(today), ExpiryDate(today, days));
      (Put(s, tok), Ok(tok))
  }

  function RevokeToken<L>(s: State<L>, user: string): (State<L>, bool) {
    if user in s.byUser then (Drop(s, user), true) else (s, false)
  }

  /** The record is dropped before generation is tried, so a failure loses it. */
  function RotateToken<L>(s: State<L>, user: string, gen: Option<string>, today: int)
    : (State<L>, Result<Token, Error>)
  {
    if user !in s.byUser then (s, Err(NoTokenForUser(user)))
    else
      var old' := s.byUser[user];
      var dropped := Drop(s, user);
      if gen.None? then (dropped, Err(GenerationFailed))
      else
        var tok := Token(user, gen.value, old'.role, Day(today),
                         ExpiryDate(today, CarriedDays(old'.issuedAt, old'.expires)));
        (Put(dropped, tok), Ok(tok))
  }

  function AddRole<L>(s: State<L>, name: string, scope: seq<string>, topK: int, rateLimit: string)
    : (State<L>, Result<Role, Error>)
  {
    if !ValidateRateLimit(rateLimit) then (s, Err(BadRateLimit(rateLimit)))
    else if name in s.roles then (s, Err(RoleExists(name)))
    else
      var role := Role(name, scope, topK, rateLimit);
      (s.(roles := s.roles[name := role]), Ok(role))
  }

  datatype RoleEdit = RoleEdit(scope: Option<seq<string>>, topK: Option<int>, rateLimit: Option<string>)

  function Edited(role: Role, edit: RoleEdit): Role {
    Role(role.name,
         if edit.scope.Some? then edit.scope.value else role.scope,
         if edit.topK.Some? then edit.topK.value else role.topK,
         if edit.rateLimit.Some? then edit.rateLimit.value else role.rateLimit)
  }

  /** Users whose record names this role; only the by-user map is scanned. */
  function Holders<L>(s: State<L>, role: string): set<string> {
    set u | u in s.byUser && s.byUser[u].role == role :: s.byUser[u].user
  }

  function UpdateRole<L>(s: State<L>, name: string, edit: RoleEdit): (State<L>, Result<Role, Error>) {
    if edit.rateLimit.Some? && !ValidateRateLimit(edit.rateLimit.value) then
      (s, Err(BadRateLimit(edit.rateLimit.value)))
    else if name !in s.roles then (s, Err(NoSuchRole(name)))
    else
      var role := Edited(s.roles[name], edit);
      var cache := if edit.rateLimit.Some? then s.cache - Holders(s, name) else s.cache;
      (s.(roles := s.roles[name := role], cache := cache), Ok(role))
  }

  function DeleteRole<L>(s: State<L>, name: string): (State<L>, Result<(), Error>) {
    if IsDefaultRoleName(name) then (s, Err(DefaultRoleKept(name)))
    else if name !in s.roles then (s, Err(NoSuchRole(name)))
    else if Holders(s, name) != {} then (s, Err(RoleInUse(name)))
    else (s.(roles := s.roles - {name}), Ok(()))
  }

  // ---- the invariant -----------------------------------------------------

  /** The two token indexes are mutual inverses and keys match record fields. */
  ghost predicate IndexesAgree<L>(s: State<L>) {
    && (forall t :: t in s.tokens ==>
          && s.tokens[t].token == t
          && s.tokens[t].user in s.byUser && s.byUser[s.tokens[t].user] == s.tokens[t])
    && (forall u :: u in s.byUser ==>
          && s.byUser[u].user == u
          && s.byUser[u].token in s.tokens && s.tokens[s.byUser[u].token] == s.byUser[u])
  }

  ghost predicate RolesNamed<L>(s: State<L>) {
    && "admin" in s.roles && "member" in s.roles
    && forall n :: n in s.roles ==> s.roles[n].name == n
  }

  /** A cached limiter belongs to a live token and carries its role's current limit. */
  ghost predicate CacheCoherent<L>(s: State<L>) {
    forall u :: u in s.cache ==>
      && u in s.byUser
      && s.byUser[u].role in s.roles
      && RateLimitParsed(s.roles[s.byUser[u].role].rateLimit) == Ok(s.cache[u].limit)
  }

  ghost predicate Inv<L>(s: State<L>) {
    IndexesAgree(s) && RolesNamed(s) && CacheCoherent(s) && s.tokens.Keys <= s.issued
  }

  /** Every token's role exists. */
  ghost predicate RolesResolve<L>(s: State<L>) {
    && (forall t :: t in s.tokens ==> s.tokens[t].role in s.roles)
    && (forall u :: u in s.byUser ==> s.byUser[u].role in s.roles)
  }

  lemma PutInv<L>(s: State<L>, tok: Token)
    requires Inv(s)
    requires tok.user !in s.byUser && tok.token !in s.issued
    ensures Inv(Put(s, tok))
  {
  }

  lemma DropInv<L>(s: State<L>, user: string)
    requires Inv(s)
    requires user in s.byUser
    ensures Inv(Drop(s, user))
  {
  }

  lemma LookupInv<L>(s: State<L>, token: string, today: int, spare: L)
    requires Inv(s)
    ensures Inv(Lookup(s, token, today, spare).0)
  {
  }

  /** On agreeing indexes the scan finds exactly the users holding the role. */
  lemma HoldersExact<L>(s: State<L>, role: string)
    requires IndexesAgree(s)
    ensures forall u :: u in Holders(s, role) <==> u in s.byUser && s.byUser[u].role == role
  {
    forall u | u in s.byUser && s.byUser[u].role == role ensures u in Holders(s, role) {
      assert s.byUser[u].user == u;
    }
  }

  lemma UpdateRoleInv<L>(s: State<L>, name: string, edit: RoleEdit)
    requires Inv(s)
    ensures Inv(UpdateRole(s, name, edit).0)
  {
    HoldersExact(s, name);
  }

  lemma DeleteRoleInv<L>(s: State<L>, name: string)
    requires Inv(s)
    ensures Inv(DeleteRole(s, name).0)
  {
    HoldersExact(s, name);
  }
}
