/**
 The two documents the store is loaded from and persisted to
 (vault/internal/tokens/store.go, lines 45-138 and 508-564). YAML text is not
 modelled: a document is a value.
 */
module Documents {
  import opened Dates
  import opened Strings
  import opened TokenStore

  datatype RoleConfig = RoleConfig(scope: seq<string>, topK: int, rateLimit: string)

  /** One element of the tokens document; an absent field reads as blank. */
  datatype Entry = Entry(user: string, token: string, role: string,
                         issuedAt: DateText, created: DateText, expires: DateText)

  type RolesDoc = map<string, RoleConfig>
  type TokensDoc = seq<Entry>

  datatype File<D> = Missing | Unreadable | NotParsed | Doc(doc: D)

  // ---- loading -----------------------------------------------------------

  function NewStore<L>(): State<L> {
    State(map[], map[], map[], map[], {})
  }

  function LoadedRole(name: string, cfg: RoleConfig): Role {
    Role(name, cfg.scope,
         if cfg.topK == 0 then 5 else cfg.topK,
         if cfg.rateLimit == "" then "30/60s" else cfg.rateLimit)
  }

  function LoadedToken(e: Entry): Token {
    Token(e.user, e.token, e.role, if e.issuedAt == Blank then e.created else e.issuedAt, e.expires)
  }

  function LoadRoles<L>(s: State<L>, doc: RolesDoc): State<L> {
    s.(roles := s.roles + map n | n in doc :: LoadedRole(n, doc[n]))
  }

  lemma MergedRoles(before: map<string, Role>, after: map<string, Role>, doc: RolesDoc)
    requires after.Keys == before.Keys + doc.Keys
    requires forall n :: n in after ==> after[n] == if n in doc then LoadedRole(n, doc[n]) else before[n]
    ensures after == before + map n | n in doc :: LoadedRole(n, doc[n])
  {
  }

  function AddMissingDefaults<L>(s: State<L>): State<L> {
    s.(roles := DefaultRoles() + s.roles)
  }

  function LoadTokens<L>(s: State<L>, doc: TokensDoc): State<L> {
    if doc == [] then s
    else Put(LoadTokens(s, doc[..|doc| - 1]), LoadedToken(doc[|doc| - 1]))
  }

  /** LoadFromFiles: the store afterwards, whether it succeeded, and whether it schedules a persist. */
  function LoadFromFiles<L>(s: State<L>, roles: File<RolesDoc>, tokens: File<TokensDoc>): (State<L>, bool, bool) {
    if roles.Unreadable? || roles.NotParsed? then (s, false, false)
    else
      var s1 := AddMissingDefaults(if roles.Doc? then LoadRoles(s, roles.doc) else s.(roles := s.roles + DefaultRoles()));
      if tokens.Unreadable? || tokens.NotParsed? then (s1, false, false)
      else
        (if tokens.Doc? then LoadTokens(s1, tokens.doc) else s1, true, roles.Missing? || tokens.Missing?)
  }

  /**
   When a load succeeds, and when it schedules a persist: it fails exactly on an
   unreadable or unparsable file, and a successful one schedules exactly when a
   file was missing. On any store, a roles file that fails changes nothing, and
   a missing one puts both default roles in place.
   */
  lemma LoadOutcome<L>(s: State<L>, roles: File<RolesDoc>, tokens: File<TokensDoc>)
    ensures var (s', ok, scheduled) := LoadFromFiles(s, roles, tokens);
            && (ok <==> (roles.Missing? || roles.Doc?) && (tokens.Missing? || tokens.Doc?))
            && (scheduled <==> ok && (roles == Missing || tokens == Missing))
            && (roles.Unreadable? || roles.NotParsed? ==> s' == s)
            && (roles == Missing ==> "admin" in s'.roles && "member" in s'.roles
                                     && s'.roles["admin"] == ADMIN && s'.roles["member"] == MEMBER)
            && (!tokens.Doc? || !ok ==> s'.tokens == s.tokens && s'.byUser == s.byUser)
            && s'.cache == s.cache
  {
    if tokens.Doc? {
      LoadTokensKeeps(if roles.Doc? then AddMissingDefaults(LoadRoles(s, roles.doc))
                      else AddMissingDefaults(s.(roles := s.roles + DefaultRoles())), tokens.doc);
    }
  }

  lemma {:induction false} LoadTokensKeeps<L>(s: State<L>, doc: TokensDoc)
    ensures LoadTokens(s, doc).roles == s.roles && LoadTokens(s, doc).cache == s.cache
  {
    if doc != [] {
      LoadTokensKeeps(s, doc[..|doc| - 1]);
    }
  }

  /**
   An entry that is the last with its user and with its token string is found
   under both after a load into an empty store, with the issue date of
   `issued_at`, or of `created` where that is blank.
   */
  lemma LoadedRecord<L>(s: State<L>, doc: TokensDoc, i: nat)
    requires s.tokens == map[] && s.byUser == map[] && i < |doc|
    requires Last(TokenKeys(doc), i) && Last(UserKeys(doc), i)
    ensures var s' := LoadTokens(s, doc);
            var e := doc[i];
            && e.token in s'.tokens && e.user in s'.byUser && s'.tokens[e.token] == s'.byUser[e.user]
            && s'.byUser[e.user] ==
               Token(e.user, e.token, e.role, if e.issuedAt != Blank then e.issuedAt else e.created, e.expires)
  {
    LoadedIndexes(s, doc);
    IndexLast(TokenKeys(doc), Records(doc), i);
    IndexLast(UserKeys(doc), Records(doc), i);
  }

  // ---- persisting --------------------------------------------------------

  function RolesDocOf<L>(s: State<L>): RolesDoc {
    map n | n in s.roles :: RoleConfig(s.roles[n].scope, s.roles[n].topK, s.roles[n].rateLimit)
  }

  function EntryOf(t: Token): Entry {
    Entry(t.user, t.token, t.role, t.issuedAt, Blank, t.expires)
  }

  /** Only the by-user index is written, in ascending user order. */
  ghost function TokensDocOf<L>(s: State<L>): TokensDoc {
    EntriesOf(s.byUser, SortedOf(s.byUser.Keys))
  }

  function EntriesOf(byUser: map<string, Token>, users: seq<string>): (r: seq<Entry>)
    requires forall u :: u in users ==> u in byUser
    ensures |r| == |users|
    ensures forall i :: 0 <= i < |r| ==> r[i] == EntryOf(byUser[users[i]])
  {
    if users == [] then []
    else EntriesOf(byUser, users[..|users| - 1]) + [EntryOf(byUser[users[|users| - 1]])]
  }

  // ---- maps built entry by entry ----------------------------------------

  function TokenKeys(doc: TokensDoc): seq<string> { seq(|doc|, i requires 0 <= i < |doc| => doc[i].token) }

  function UserKeys(doc: TokensDoc): seq<string> { seq(|doc|, i requires 0 <= i < |doc| => doc[i].user) }

  function Records(doc: TokensDoc): seq<Token> { seq(|doc|, i requires 0 <= i < |doc| => LoadedToken(doc[i])) }

  /** Insert the records one after the other; a later one overwrites. */
  function IndexBy(keys: seq<string>, recs: seq<Token>): map<string, Token>
    requires |keys| == |recs|
  {
    if keys == [] then map[]
    else
      var n := |keys| - 1;
      IndexBy(keys[..n], recs[..n])[keys[n] := recs[n]]
  }

  ghost predicate Last(keys: seq<string>, i: int)
    requires 0 <= i < |keys|
  {
    forall j :: i < j < |keys| ==> keys[j] != keys[i]
  }

  lemma {:induction false} IndexKeys(keys: seq<string>, recs: seq<Token>)
    requires |keys| == |recs|
    ensures IndexBy(keys, recs).Keys == Elems(keys)
  {
    if keys != [] {
      var n := |keys| - 1;
      IndexKeys(keys[..n], recs[..n]);
      assert keys == keys[..n] + [keys[n]];
    }
  }

  /** The last record with a key is the one found under it. */
  lemma {:induction false} IndexLast(keys: seq<string>, recs: seq<Token>, i: int)
    requires |keys| == |recs| && 0 <= i < |keys| && Last(keys, i)
    ensures keys[i] in IndexBy(keys, recs) && IndexBy(keys, recs)[keys[i]] == recs[i]
  {
    var n := |keys| - 1;
    if i < n {
      assert keys[n] != keys[i];
      forall j | i < j < n ensures keys[..n][j] != keys[..n][i] {}
      IndexLast(keys[..n], recs[..n], i);
    }
  }

  lemma {:induction false} LastIndex(keys: seq<string>, key: string) returns (i: int)
    requires key in Elems(keys)
    ensures 0 <= i < |keys| && keys[i] == key && Last(keys, i)
  {
    i := |keys| - 1;
    while keys[i] != key
      invariant 0 <= i < |keys|
      invariant key in keys[..i + 1]
      invariant forall k :: i < k < |keys| ==> keys[k] != key
      decreases i
    {
      assert keys[..i + 1] == keys[..i] + [keys[i]];
      i := i - 1;
    }
  }

  lemma {:induction false} LoadedIndexes<L>(s: State<L>, doc: TokensDoc)
    requires s.tokens == map[] && s.byUser == map[]
    ensures var r := LoadTokens(s, doc);
            && r.tokens == IndexBy(TokenKeys(doc), Records(doc))
            && r.byUser == IndexBy(UserKeys(doc), Records(doc))
            && r.issued == s.issued + r.tokens.Keys
            && r.roles == s.roles && r.cache == s.cache
  {
    if doc != [] {
      var n := |doc| - 1;
      LoadedIndexes(s, doc[..n]);
      assert TokenKeys(doc)[..n] == TokenKeys(doc[..n]);
      assert UserKeys(doc)[..n] == UserKeys(doc[..n]);
      assert Records(doc)[..n] == Records(doc[..n]);
    }
  }

  // ---- which files give agreeing indexes ---------------------------------

  /** An entry is the last with its token string exactly when it is the last with its user. */
  ghost predicate SameLastEntries(doc: TokensDoc) {
    forall i :: 0 <= i < |doc| ==> (Last(TokenKeys(doc), i) <==> Last(UserKeys(doc), i))
  }

  ghost predicate InverseMaps(tokens: map<string, Token>, byUser: map<string, Token>) {
    && (forall t :: t in tokens ==>
          tokens[t].token == t && tokens[t].user in byUser && byUser[tokens[t].user] == tokens[t])
    && (forall u :: u in byUser ==>
          byUser[u].user == u && byUser[u].token in tokens && tokens[byUser[u].token] == byUser[u])
  }

  lemma SameLastGivesInverse(doc: TokensDoc)
    requires SameLastEntries(doc)
    ensures InverseMaps(IndexBy(TokenKeys(doc), Records(doc)), IndexBy(UserKeys(doc), Records(doc)))
  {
    var ts, us, recs := TokenKeys(doc), UserKeys(doc), Records(doc);
    var tokens, byUser := IndexBy(ts, recs), IndexBy(us, recs);
    IndexKeys(ts, recs);
    IndexKeys(us, recs);
    forall t | t in tokens
      ensures tokens[t].token == t && tokens[t].user in byUser && byUser[tokens[t].user] == tokens[t]
    {
      var i := LastIndex(ts, t);
      IndexLast(ts, recs, i);
      IndexLast(us, recs, i);
    }
    forall u | u in byUser
      ensures byUser[u].user == u && byUser[u].token in tokens && tokens[byUser[u].token] == byUser[u]
    {
      var i := LastIndex(us, u);
      IndexLast(us, recs, i);
      IndexLast(ts, recs, i);
    }
  }

  lemma InverseGivesSameLast(doc: TokensDoc)
    requires InverseMaps(IndexBy(TokenKeys(doc), Records(doc)), IndexBy(UserKeys(doc), Records(doc)))
    ensures SameLastEntries(doc)
  {
    var ts, us, recs := TokenKeys(doc), UserKeys(doc), Records(doc);
    var tokens, byUser := IndexBy(ts, recs), IndexBy(us, recs);
    forall i | 0 <= i < |doc| ensures Last(ts, i) <==> Last(us, i) {
      var j := LastIndex(us, us[i]);
      var k := LastIndex(ts, ts[i]);
      IndexLast(us, recs, j);
      IndexLast(ts, recs, k);
      if Last(ts, i) {
        IndexLast(ts, recs, i);
        assert byUser[us[i]] == recs[i] && recs[j].token == ts[j];
      }
      if Last(us, i) {
        IndexLast(us, recs, i);
        assert tokens[ts[i]] == recs[i] && recs[k].user == us[k];
      }
    }
  }

  /**
   Loading a tokens document into an empty store leaves the two indexes in
   agreement exactly when no entry is overwritten in one index only.
   */
  lemma LoadAgreesIff<L>(s: State<L>, doc: TokensDoc)
    requires s.tokens == map[] && s.byUser == map[]
    ensures IndexesAgree(LoadTokens(s, doc)) <==> SameLastEntries(doc)
  {
    LoadedIndexes(s, doc);
    var r := LoadTokens(s, doc);
    assert IndexesAgree(r) <==> InverseMaps(r.tokens, r.byUser);
    if SameLastEntries(doc) { SameLastGivesInverse(doc); }
    if IndexesAgree(r) { InverseGivesSameLast(doc); }
  }

  function LoadedBase<L>(roles: File<RolesDoc>): State<L> {
    var s: State<L> := NewStore();
    AddMissingDefaults(if roles.Doc? then LoadRoles(s, roles.doc) else s.(roles := s.roles + DefaultRoles()))
  }

  lemma BaseInv<L>(roles: File<RolesDoc>)
    ensures Inv<L>(LoadedBase(roles))
  {
  }

  lemma LoadShape<L>(roles: File<RolesDoc>, tokens: File<TokensDoc>)
    requires LoadFromFiles<L>(NewStore(), roles, tokens).1
    ensures LoadFromFiles<L>(NewStore(), roles, tokens).0 ==
            if tokens.Doc? then LoadTokens(LoadedBase(roles), tokens.doc) else LoadedBase(roles)
  {
  }

  lemma TokensInvIff<L>(s: State<L>, doc: TokensDoc)
    requires Inv(s) && s.tokens == map[] && s.byUser == map[] && s.cache == map[]
    ensures Inv(LoadTokens(s, doc)) <==> SameLastEntries(doc)
  {
    LoadAgreesIff(s, doc);
    LoadedIndexes(s, doc);
  }

  /**
   A fresh store that loads without error satisfies the store invariant exactly
   when the tokens document is absent or overwrites no entry one-sidedly.
   Distinct users and distinct token strings are one way to get there.
   */
  lemma LoadedInvIff<L>(roles: File<RolesDoc>, tokens: File<TokensDoc>)
    requires LoadFromFiles<L>(NewStore(), roles, tokens).1
    ensures Inv(LoadFromFiles<L>(NewStore(), roles, tokens).0) <==> (tokens.Doc? ==> SameLastEntries(tokens.doc))
  {
    LoadShape<L>(roles, tokens);
    BaseInv<L>(roles);
    if tokens.Doc? {
      TokensInvIff<L>(LoadedBase(roles), tokens.doc);
    }
  }

  // ---- persist then load ---------------------------------------------------

  /** What a restart makes of a store: roles completed, limiters and history gone. */
  function Normalised<L>(s: State<L>): State<L> {
    State(s.tokens, s.byUser, NormalRoles(s.roles), map[], s.tokens.Keys)
  }

  function NormalRoles(roles: map<string, Role>): map<string, Role> {
    DefaultRoles() + map n | n in roles :: NormalRole(roles[n])
  }

  function NormalRole(r: Role): Role {
    Role(r.name, r.scope, if r.topK == 0 then 5 else r.topK, if r.rateLimit == "" then "30/60s" else r.rateLimit)
  }

  /** The persisted entries are the records of the by-user index, one per user. */
  lemma PersistedKeys<L>(s: State<L>)
    requires IndexesAgree(s)
    ensures var doc := TokensDocOf(s);
            var users := SortedOf(s.byUser.Keys);
            && UserKeys(doc) == users
            && |Records(doc)| == |users|
            && forall i :: 0 <= i < |users| ==> users[i] in s.byUser && Records(doc)[i] == s.byUser[users[i]]
  {
    var users := SortedOf(s.byUser.Keys);
    var doc := TokensDocOf(s);
    forall i | 0 <= i < |users| ensures users[i] in s.byUser { assert users[i] in Elems(users); }
    forall i | 0 <= i < |users| ensures doc[i].user == users[i] && LoadedToken(doc[i]) == s.byUser[users[i]] {
      var t := s.byUser[users[i]];
      assert doc[i] == EntryOf(t);
    }
  }

  /** What doPersist writes: each user's record once, in user order, each field under its own name, `created` never. */
  lemma PersistedEntries<L>(s: State<L>)
    requires IndexesAgree(s)
    ensures var doc := TokensDocOf(s);
            && Ascending(UserKeys(doc)) && Elems(UserKeys(doc)) == s.byUser.Keys
            && (forall i :: 0 <= i < |doc| ==>
                  var t := s.byUser[doc[i].user];
                  doc[i] == Entry(t.user, t.token, t.role, t.issuedAt, Blank, t.expires))
  {
    PersistedKeys(s);
    var users := SortedOf(s.byUser.Keys);
    forall i | 0 <= i < |users|
      ensures users[i] in s.byUser && TokensDocOf(s)[i] == EntryOf(s.byUser[users[i]])
    {
      assert users[i] in Elems(users);
    }
  }

  /** ... and each role's fields as they are. */
  lemma PersistedRolesDoc<L>(s: State<L>, n: string)
    ensures n in RolesDocOf(s) <==> n in s.roles
    ensures n in s.roles ==>
              var c := RolesDocOf(s)[n];
              c.scope == s.roles[n].scope && c.topK == s.roles[n].topK && c.rateLimit == s.roles[n].rateLimit
  {
  }

  /** doPersist writes distinct users and distinct token strings. */
  lemma PersistedDistinct<L>(s: State<L>, i: int, j: int)
    requires IndexesAgree(s)
    requires 0 <= i < |TokensDocOf(s)| && 0 <= j < |TokensDocOf(s)| && i != j
    ensures UserKeys(TokensDocOf(s))[i] != UserKeys(TokensDocOf(s))[j]
    ensures TokenKeys(TokensDocOf(s))[i] != TokenKeys(TokensDocOf(s))[j]
  {
    PersistedKeys(s);
    var users := SortedOf(s.byUser.Keys);
    AscendingDistinct(users, i, j);
    var recs := Records(TokensDocOf(s));
    assert s.byUser[users[i]] == recs[i] && s.byUser[users[j]] == recs[j];
    assert recs[i].token == TokenKeys(TokensDocOf(s))[i] && recs[j].token == TokenKeys(TokensDocOf(s))[j];
  }

  lemma PersistedSameLast<L>(s: State<L>)
    requires IndexesAgree(s)
    ensures SameLastEntries(TokensDocOf(s))
  {
    var doc := TokensDocOf(s);
    forall i | 0 <= i < |doc| ensures Last(TokenKeys(doc), i) && Last(UserKeys(doc), i) {
      forall j | i < j < |doc| ensures TokenKeys(doc)[j] != TokenKeys(doc)[i] && UserKeys(doc)[j] != UserKeys(doc)[i] {
        PersistedDistinct(s, i, j);
      }
    }
  }

  /** Records inserted under an enumeration of a map's keys rebuild the map. */
  lemma IndexOfEnumeration(keys: seq<string>, recs: seq<Token>, m: map<string, Token>)
    requires |keys| == |recs| && Elems(keys) == m.Keys
    requires forall i :: 0 <= i < |keys| ==> recs[i] == m[keys[i]]
    ensures IndexBy(keys, recs) == m
  {
    IndexKeys(keys, recs);
    forall k | k in m ensures IndexBy(keys, recs)[k] == m[k] {
      var i := LastIndex(keys, k);
      IndexLast(keys, recs, i);
    }
  }

  lemma PersistedByUser<L>(s: State<L>)
    requires IndexesAgree(s)
    ensures IndexBy(UserKeys(TokensDocOf(s)), Records(TokensDocOf(s))) == s.byUser
  {
    PersistedKeys(s);
    IndexOfEnumeration(UserKeys(TokensDocOf(s)), Records(TokensDocOf(s)), s.byUser);
  }

  lemma PersistedRoles<L>(s: State<L>)
    requires RolesNamed(s)
    ensures LoadedBase<L>(Doc(RolesDocOf(s))).roles == NormalRoles(s.roles)
  {
    var s0: State<L> := NewStore();
    var doc := RolesDocOf(s);
    assert LoadRoles(s0, doc).roles == map n | n in s.roles :: NormalRole(s.roles[n]);
  }

  lemma PersistedTokens<L>(s: State<L>)
    requires IndexesAgree(s)
    ensures IndexBy(TokenKeys(TokensDocOf(s)), Records(TokensDocOf(s))) == s.tokens
  {
    var doc := TokensDocOf(s);
    PersistedSameLast(s);
    SameLastGivesInverse(doc);
    PersistedByUser(s);
    InverseUnique(IndexBy(TokenKeys(doc), Records(doc)), s.tokens, s.byUser);
  }

  /**
   Loading what doPersist writes into a fresh store gives the same records
   under both indexes, though only one index was written, and the same roles up
   to the stated defaults.
   */
  lemma PersistThenLoad<L>(s: State<L>)
    requires Inv(s)
    ensures LoadFromFiles<L>(NewStore(), Doc(RolesDocOf(s)), Doc(TokensDocOf(s))) == (Normalised(s), true, false)
  {
    PersistedRoles(s);
    PersistedByUser(s);
    PersistedTokens(s);
    LoadedIs(s, RolesDocOf(s), TokensDocOf(s));
  }

  lemma LoadedIs<L>(s: State<L>, roles: RolesDoc, doc: TokensDoc)
    requires LoadedBase<L>(Doc(roles)).roles == NormalRoles(s.roles)
    requires IndexBy(UserKeys(doc), Records(doc)) == s.byUser
    requires IndexBy(TokenKeys(doc), Records(doc)) == s.tokens
    ensures LoadFromFiles<L>(NewStore(), Doc(roles), Doc(doc)) == (Normalised(s), true, false)
  {
    var s1: State<L> := LoadedBase(Doc(roles));
    LoadedIndexes(s1, doc);
    assert LoadTokens(s1, doc).issued == s.tokens.Keys;
    assert LoadTokens(s1, doc) == Normalised(s);
  }

  /** The by-user index determines the other one. */
  lemma InverseUnique(a: map<string, Token>, b: map<string, Token>, byUser: map<string, Token>)
    requires InverseMaps(a, byUser) && InverseMaps(b, byUser)
    ensures a == b
  {
    forall t | t in a ensures t in b && b[t] == a[t] {
      assert byUser[a[t].user].token == t;
    }
    forall t | t in b ensures t in a {
      assert byUser[b[t].user].token == t;
    }
  }

  lemma NormalRolesIdempotent(roles: map<string, Role>)
    ensures NormalRoles(NormalRoles(roles)) == NormalRoles(roles)
  {
  }

  /** The normalisation keeps the invariant and is idempotent: a second restart changes nothing. */
  lemma RestartIdempotent<L>(s: State<L>)
    requires Inv(s)
    ensures Inv(Normalised(s))
    ensures Normalised(Normalised(s)) == Normalised(s)
    ensures var n := Normalised(s);
            LoadFromFiles<L>(NewStore(), Doc(RolesDocOf(n)), Doc(TokensDocOf(n))) == (n, true, false)
  {
    NormalRolesIdempotent(s.roles);
    assert IndexesAgree(Normalised(s));
    PersistThenLoad(Normalised(s));
  }
}
