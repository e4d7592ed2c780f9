/**
 The two decrypting RPC handlers (vault/internal/server/grpc.go, lines 157-215
 and 259-362): gating, accounting and the ordered all-or-nothing metadata loop.
 Deserialised inputs and decrypted score matrices are arguments.
 */
module Handlers {
  import opened Wrappers
  import RateText
  import opened TokenStore
  import opened SlidingWindow
  import opened Limiter
  import S = Store
  import TopK
  import Admission
  import Base64
  import opened Metadata

  datatype Code = Unauthenticated | ResourceExhausted | PermissionDenied | InvalidArgument | Internal

  datatype Status = Success | Denied | Failed

  /** The audit record the deferred emit writes. */
  datatype Audit = Audit(user: string, resultCount: nat, status: Status)

  /** What becomes of the encrypted score blob. */
  datatype Blob = NotBase64Blob | NoKey | NotDecrypted | Scores(scores: seq<seq<real>>, shards: seq<int>)

  /** One element of the metadata list after JSON parsing. */
  datatype Envelope = NotJson | Envelope(agentID: string, cipherText: string)

  type KeyDerivation = (string, string) -> Bytes

  function MapTokenError(e: Error): Code {
    if e.RateLimited? then ResourceExhausted else Unauthenticated
  }

  /** A role whose rate_limit does not parse is an error; the other refusals are denials. */
  function ErrStatus(e: Error): Status {
    if e.TokenNotFound? || e.TokenExpired? || e.RateLimited? then Denied else Failed
  }

  /** Which code and audit status each refusal of Validate gets. */
  lemma RefusalCodes(e: Error)
    ensures MapTokenError(e) == ResourceExhausted <==> exists r :: e == RateLimited(r)
    ensures MapTokenError(e) == Unauthenticated || MapTokenError(e) == ResourceExhausted
    ensures ErrStatus(e) == Denied <==> e == TokenNotFound || (exists u :: e == TokenExpired(u)) || exists r :: e == RateLimited(r)
    ensures ErrStatus(e) == Denied || ErrStatus(e) == Failed
  {
    if e.RateLimited? { assert e == RateLimited(e.retryAfter); }
    if e.TokenExpired? { assert e == TokenExpired(e.user); }
  }

  // ---- answers as values ---------------------------------------------------

  /** What DecryptScores answers once Validate has granted `role`. */
  function ScoresAnswer(role: Role, topK: int, blob: Blob): (Result<seq<TopK.Entry>, Code>, Status)
    requires topK >= 1
  {
    if "decrypt_scores" !in role.scope then (Err(PermissionDenied), Denied)
    else if topK > role.topK then (Err(InvalidArgument), Denied)
    else
      match blob
      case NotBase64Blob => (Err(InvalidArgument), Failed)
      case NoKey => (Err(Internal), Failed)
      case NotDecrypted => (Err(Internal), Failed)
      case Scores(scores, shards) => (Ok(TopK.Selected(TopK.Flatten(scores, shards, |scores|), topK)), Success)
  }

  /**
   Whatever the blob, at most min(top_k, role limit, scores present) entries are
   returned, and as many as the disclosure bound of module Admission counts.
   */
  lemma ScoresAnswerBounded(role: Role, topK: int, blob: Blob)
    requires topK >= 1
    ensures var (r, status) := ScoresAnswer(role, topK, blob);
            && (r.Ok? <==> status == Success)
            && (r.Ok? ==>
                  && "decrypt_scores" in role.scope && blob.Scores?
                  && |r.value| <= topK <= role.topK
                  && |r.value| <= |TopK.Flatten(blob.scores, blob.shards, |blob.scores|)|
                  && |r.value| == Admission.EntriesReturned(topK, role.topK, |TopK.Flatten(blob.scores, blob.shards, |blob.scores|)|)
                  && TopK.IsTopK(TopK.Flatten(blob.scores, blob.shards, |blob.scores|), topK, r.value))
  {
    if blob.Scores? {
      var all := TopK.Flatten(blob.scores, blob.shards, |blob.scores|);
      TopK.TopKUnique(all, topK, TopK.Selected(all, topK));
    }
  }

  /** Every answer of DecryptScores: when it is each of the refusals, and when it succeeds. */
  lemma ScoresAnswerIs(role: Role, topK: int, blob: Blob)
    requires topK >= 1
    ensures var (r, status) := ScoresAnswer(role, topK, blob);
            var scoped, within := "decrypt_scores" in role.scope, topK <= role.topK;
            && (r == Err(PermissionDenied) <==> !scoped)
            && (status == Denied <==> !scoped || !within)
            && (r == Err(InvalidArgument) <==> scoped && (!within || blob.NotBase64Blob?))
            && (r == Err(Internal) <==> scoped && within && (blob.NoKey? || blob.NotDecrypted?))
            && (r.Ok? <==> scoped && within && blob.Scores?)
            && (status == Success <==> r.Ok?)
  {
  }

  /** Opening one metadata element. */
  function OpenOne(cipher: BlockCipher, derive: KeyDerivation, secret: string, env: Envelope): Result<Bytes, Code> {
    if env.NotJson? then Err(InvalidArgument)
    else if secret == "" then Err(Internal)
    else
      match Decrypted(cipher, env.cipherText, derive(secret, env.agentID))
      case Err(_) => Err(Internal)
      case Ok(pt) => Ok(pt)
  }

  /** Which elements open, and the error of each other: a JSON error is the caller's, any other the server's. */
  lemma OpenOneIs(cipher: BlockCipher, derive: KeyDerivation, secret: string, env: Envelope)
    ensures var r := OpenOne(cipher, derive, secret, env);
            && (r == Err(InvalidArgument) <==> env == NotJson)
            && (r.Err? ==> r.error == InvalidArgument || r.error == Internal)
            && (r.Ok? <==> env != NotJson && secret != ""
                           && |derive(secret, env.agentID)| == 32
                           && var raw := Base64.Decode(env.cipherText); raw.Some? && |raw.value| >= 16)
            && (r.Ok? ==>
                  var raw := Base64.Decode(env.cipherText).value;
                  Stream(cipher, derive(secret, env.agentID), raw[..16], r.value) == raw[16..])
  {
    if env.Envelope? {
      OpeningIs(cipher, env.cipherText, derive(secret, env.agentID));
    }
  }

  /** All elements in order, or the first failure. */
  function OpenAll(cipher: BlockCipher, derive: KeyDerivation, secret: string, envs: seq<Envelope>): Result<seq<Bytes>, Code> {
    if envs == [] then Ok([])
    else
      match OpenOne(cipher, derive, secret, envs[0])
      case Err(e) => Err(e)
      case Ok(pt) =>
        match OpenAll(cipher, derive, secret, envs[1..])
        case Err(e) => Err(e)
        case Ok(rest) => Ok([pt] + rest)
  }

  /**
   All or nothing, in order: the list is answered exactly when every element
   opens, with the i-th plaintext from the i-th element; otherwise the error is
   that of the first element that does not open.
   */
  lemma {:induction false} OpenAllExact(cipher: BlockCipher, derive: KeyDerivation, secret: string, envs: seq<Envelope>)
    ensures var r := OpenAll(cipher, derive, secret, envs);
            && (r.Ok? <==> forall i :: 0 <= i < |envs| ==> OpenOne(cipher, derive, secret, envs[i]).Ok?)
            && (r.Ok? ==> |r.value| == |envs|
                          && forall i :: 0 <= i < |envs| ==> OpenOne(cipher, derive, secret, envs[i]) == Ok(r.value[i]))
            && (r.Err? ==> exists i :: 0 <= i < |envs| && OpenOne(cipher, derive, secret, envs[i]) == Err(r.error)
                             && forall j :: 0 <= j < i ==> OpenOne(cipher, derive, secret, envs[j]).Ok?)
  {
    if envs != [] {
      OpenAllExact(cipher, derive, secret, envs[1..]);
      var r := OpenAll(cipher, derive, secret, envs[1..]);
      assert forall i :: 1 <= i < |envs| ==> envs[i] == envs[1..][i - 1];
      if r.Err? {
        var i :| 0 <= i < |envs[1..]| && OpenOne(cipher, derive, secret, envs[1..][i]) == Err(r.error)
                 && forall j :: 0 <= j < i ==> OpenOne(cipher, derive, secret, envs[1..][j]).Ok?;
        assert envs[i + 1] == envs[1..][i];
      }
    }
  }

  /** Envelopes made by the other side, under any mix of agents and IVs, open to the plaintexts in order. */
  lemma {:induction false} EnvelopesRoundTrip(cipher: BlockCipher, derive: KeyDerivation, secret: string,
                                              plaintexts: seq<Bytes>, agents: seq<string>, ivs: seq<Bytes>, envs: seq<Envelope>)
    requires secret != ""
    requires forall a :: |derive(secret, a)| == DEK_LEN
    requires |plaintexts| == |agents| == |ivs| == |envs|
    requires forall i :: 0 <= i < |ivs| ==> |ivs[i]| == IV_LEN
    requires forall i :: 0 <= i < |envs| ==>
               && envs[i].Envelope? && envs[i].agentID == agents[i]
               && Encrypted(cipher, plaintexts[i], derive(secret, agents[i]), Some(ivs[i])) == Ok(envs[i].cipherText)
    ensures OpenAll(cipher, derive, secret, envs) == Ok(plaintexts)
  {
    forall i | 0 <= i < |envs| ensures OpenOne(cipher, derive, secret, envs[i]) == Ok(plaintexts[i]) {
      MetadataRoundTrip(cipher, plaintexts[i], derive(secret, agents[i]), ivs[i]);
    }
    OpenAllExact(cipher, derive, secret, envs);
    assert OpenAll(cipher, derive, secret, envs).value == plaintexts;
  }

  // ---- the handlers ----------------------------------------------------------

  /** The common opening: audit name, Validate. */
  method Authorise(store: S.Store, token: string, today: int, now: int, later: int)
    returns (r: Result<S.RoleObject, Error>, user: string)
    requires store.Valid()
    modifies store`rateLimiters, store`cache, store`limiters, store.limiters, ArraysOf(store.limiters)
    ensures store.Valid()
    ensures r == old(Granted(store, token, today, now, later))
    ensures r.Ok? ==> token in store.tokens && user == store.tokens[token].user
    ensures r.Err? ==> user == NameFor(store, token)
    ensures store.SlotsFor(token) == old(store.SlotsFor(token)) + (if r.Ok? then [now] else [])
  {
    user := if token in store.tokens then store.tokens[token].user else "";
    if user == "" {
      user := "unknown";
    }
    var v := store.Validate(token, today, now, later);
    if v.Err? {
      return Err(v.error), user;
    }
    return Ok(v.value.1), v.value.0;
  }

  /** The name audited before Validate has answered. */
  ghost function NameFor(store: S.Store, token: string): string
    reads store`tokens
  {
    if token in store.tokens && store.tokens[token].user != "" then store.tokens[token].user else "unknown"
  }

  /** It is never empty. */
  lemma AuditName(store: S.Store, token: string)
    ensures NameFor(store, token) != ""
    ensures token in store.tokens && store.tokens[token].user != "" ==> NameFor(store, token) == store.tokens[token].user
    ensures token !in store.tokens || store.tokens[token].user == "" ==> NameFor(store, token) == "unknown"
  {
  }

  /** Validate's answer, from the store as it stands before the call. */
  ghost function Granted(store: S.Store, token: string, today: int, now: int, later: int): Result<S.RoleObject, Error>
    requires store.RolesMatch()
    reads store, store.roles.Values, if token in store.tokens then store.LimiterOf(store.tokens[token].user) else {}
  {
    var s := store.View();
    var refusal := Refusal(s, token, today);
    if refusal.Some? then Err(refusal.value)
    else
      var limit := LimitOf(s, token);
      var d := Decide(limit.max, limit.window, store.StoredFor(token), now);
      if d.ok then Ok(store.roles[s.tokens[token].role]) else Err(RateLimited(RetrySeconds(limit.window, d.list, later)))
  }

  /** The limit a granted token is held to: the cached one, or the role's text parsed. */
  ghost function LimitOf(s: State<RateLimiter>, token: string): RateText.Limit
    requires token in s.tokens && s.tokens[token].role in s.roles
    requires s.tokens[token].user in s.cache || RateText.RateLimitParsed(s.roles[s.tokens[token].role].rateLimit).Ok?
  {
    if s.tokens[token].user in s.cache then s.cache[s.tokens[token].user].limit
    else RateText.RateLimitParsed(s.roles[s.tokens[token].role].rateLimit).value
  }

  /**
   DecryptScores. A refused or denied token is answered with its mapped code
   and uses no slot; a granted one uses exactly one slot, whatever follows, and
   is answered from the role as it stands. The audit count is the number of
   entries returned.
   */
  method DecryptScores(store: S.Store, token: string, topK: int, blob: Blob, today: int, now: int, later: int)
    returns (resp: Result<seq<TopK.Entry>, Code>, audit: Audit)
    requires store.Valid()
    requires topK >= 1
    modifies store`rateLimiters, store`cache, store`limiters, store.limiters, ArraysOf(store.limiters)
    ensures store.Valid()
    ensures var granted := old(Granted(store, token, today, now, later));
            && (resp, audit.status) == (if granted.Err? then (Err(MapTokenError(granted.error)), ErrStatus(granted.error))
                                        else ScoresAnswer(granted.value.Rec(), topK, blob))
            && store.SlotsFor(token) == old(store.SlotsFor(token)) + (if granted.Ok? then [now] else [])
            && audit.user == (if granted.Ok? then store.tokens[token].user else NameFor(store, token))
    ensures audit.resultCount == if resp.Ok? then |resp.value| else 0
  {
    var role, user := Authorise(store, token, today, now, later);
    var status;
    resp, status := ServeScores(store, token, role, topK, blob);
    audit := Audit(user, if resp.Ok? then |resp.value| else 0, status);
  }

  /** DecryptScores with Validate's result; the store is not touched again. */
  method ServeScores(store: S.Store, ghost token: string, granted: Result<S.RoleObject, Error>, topK: int, blob: Blob)
    returns (resp: Result<seq<TopK.Entry>, Code>, status: Status)
    requires store.Valid() && topK >= 1
    ensures store.Valid() && store.SlotsFor(token) == old(store.SlotsFor(token))
    ensures (resp, status) == (if granted.Err? then (Err(MapTokenError(granted.error)), ErrStatus(granted.error))
                               else ScoresAnswer(granted.value.Rec(), topK, blob))
  {
    if granted.Err? {
      return Err(MapTokenError(granted.error)), ErrStatus(granted.error);
    }
    resp, status := AnswerScores(granted.value, topK, blob);
  }

  /** DecryptScores after Validate. */
  method AnswerScores(role: S.RoleObject, topK: int, blob: Blob) returns (r: Result<seq<TopK.Entry>, Code>, status: Status)
    requires topK >= 1
    ensures (r, status) == ScoresAnswer(role.Rec(), topK, blob)
  {
    var inScope := role.CheckScope("decrypt_scores");
    if !inScope {
      return Err(PermissionDenied), Denied;
    }
    if topK > role.topK {
      return Err(InvalidArgument), Denied;
    }
    match blob
    case NotBase64Blob => return Err(InvalidArgument), Failed;
    case NoKey => return Err(Internal), Failed;
    case NotDecrypted => return Err(Internal), Failed;
    case Scores(scores, shards) =>
      var entries := TopK.TopKFromShards(scores, shards, topK);
      return Ok(entries), Success;
  }

  /** What DecryptMetadata answers once Validate has granted `role`. */
  function MetadataAnswer(role: Role, cipher: BlockCipher, derive: KeyDerivation, secret: string, envs: seq<Envelope>)
    : (Result<seq<Bytes>, Code>, Status)
  {
    if "decrypt_metadata" !in role.scope then (Err(PermissionDenied), Denied)
    else if secret == "" then (Err(Internal), Failed)
    else
      var r := OpenAll(cipher, derive, secret, envs);
      (r, if r.Ok? then Success else Failed)
  }

  /**
   Every answer of DecryptMetadata: refused without the scope, whatever the
   list; otherwise all plaintexts in order exactly when the secret is set and
   every element opens.
   */
  lemma MetadataAnswerIs(role: Role, cipher: BlockCipher, derive: KeyDerivation, secret: string, envs: seq<Envelope>)
    ensures var (r, status) := MetadataAnswer(role, cipher, derive, secret, envs);
            var scoped := "decrypt_metadata" in role.scope;
            && (r == Err(PermissionDenied) <==> !scoped)
            && (status == Denied <==> !scoped)
            && (r.Ok? <==> scoped && secret != ""
                           && forall i :: 0 <= i < |envs| ==> OpenOne(cipher, derive, secret, envs[i]).Ok?)
            && (status == Success <==> r.Ok?)
            && (r.Ok? ==> |r.value| == |envs|
                          && forall i :: 0 <= i < |envs| ==> OpenOne(cipher, derive, secret, envs[i]) == Ok(r.value[i]))
            && (scoped && secret == "" ==> r == Err(Internal))
            && (scoped && secret != "" && r.Err? ==>
                  exists i :: 0 <= i < |envs| && OpenOne(cipher, derive, secret, envs[i]) == Err(r.error)
                    && forall j :: 0 <= j < i ==> OpenOne(cipher, derive, secret, envs[j]).Ok?)
  {
    OpenAllExact(cipher, derive, secret, envs);
    forall i | 0 <= i < |envs| && OpenOne(cipher, derive, secret, envs[i]).Err?
      ensures OpenOne(cipher, derive, secret, envs[i]).error != PermissionDenied
    {
      OpenOneIs(cipher, derive, secret, envs[i]);
    }
  }

  method DecryptMetadata(store: S.Store, token: string, cipher: BlockCipher, derive: KeyDerivation, secret: string,
                         envs: seq<Envelope>, today: int, now: int, later: int)
    returns (resp: Result<seq<Bytes>, Code>, audit: Audit)
    requires store.Valid()
    requires IsCipher(cipher)
    modifies store`rateLimiters, store`cache, store`limiters, store.limiters, ArraysOf(store.limiters)
    ensures store.Valid()
    ensures var granted := old(Granted(store, token, today, now, later));
            && (resp, audit.status) == (if granted.Err? then (Err(MapTokenError(granted.error)), ErrStatus(granted.error))
                                        else MetadataAnswer(granted.value.Rec(), cipher, derive, secret, envs))
            && store.SlotsFor(token) == old(store.SlotsFor(token)) + (if granted.Ok? then [now] else [])
            && audit.user == (if granted.Ok? then store.tokens[token].user else NameFor(store, token))
    ensures audit.resultCount == if resp.Ok? then |resp.value| else 0
  {
    var role, user := Authorise(store, token, today, now, later);
    var status;
    resp, status := ServeMetadata(store, token, role, cipher, derive, secret, envs);
    audit := Audit(user, if resp.Ok? then |resp.value| else 0, status);
  }

  /** DecryptMetadata with Validate's result; the store is not touched again. */
  method ServeMetadata(store: S.Store, ghost token: string, granted: Result<S.RoleObject, Error>,
                       cipher: BlockCipher, derive: KeyDerivation, secret: string, envs: seq<Envelope>)
    returns (resp: Result<seq<Bytes>, Code>, status: Status)
    requires store.Valid() && IsCipher(cipher)
    ensures store.Valid() && store.SlotsFor(token) == old(store.SlotsFor(token))
    ensures (resp, status) == (if granted.Err? then (Err(MapTokenError(granted.error)), ErrStatus(granted.error))
                               else MetadataAnswer(granted.value.Rec(), cipher, derive, secret, envs))
  {
    if granted.Err? {
      return Err(MapTokenError(granted.error)), ErrStatus(granted.error);
    }
    resp, status := AnswerMetadata(granted.value, cipher, derive, secret, envs);
  }

  /** DecryptMetadata after Validate. */
  method AnswerMetadata(role: S.RoleObject, cipher: BlockCipher, derive: KeyDerivation, secret: string, envs: seq<Envelope>)
    returns (r: Result<seq<Bytes>, Code>, status: Status)
    requires IsCipher(cipher)
    ensures (r, status) == MetadataAnswer(role.Rec(), cipher, derive, secret, envs)
  {
    var inScope := role.CheckScope("decrypt_metadata");
    if !inScope {
      return Err(PermissionDenied), Denied;
    }
    if secret == "" {
      return Err(Internal), Failed;
    }
    r := OpenEnvelopes(cipher, derive, secret, envs);
    status := if r.Ok? then Success else Failed;
  }

  /** The loop of DecryptMetadata. */
  method OpenEnvelopes(cipher: BlockCipher, derive: KeyDerivation, secret: string, envs: seq<Envelope>)
    returns (r: Result<seq<Bytes>, Code>)
    requires IsCipher(cipher) && secret != ""
    ensures r == OpenAll(cipher, derive, secret, envs)
  {
    var out: seq<Bytes> := [];
    ghost var all := OpenAll(cipher, derive, secret, envs);
    assert envs[0..] == envs && (all.Ok? ==> [] + all.value == all.value);
    for i := 0 to |envs|
      invariant OpenAll(cipher, derive, secret, envs) == Prefixed(out, OpenAll(cipher, derive, secret, envs[i..]))
    {
      var env := envs[i];
      assert envs[i..][0] == env && envs[i..][1..] == envs[i + 1..];
      if env.NotJson? {
        return Err(InvalidArgument);
      }
      var pt := Metadata.DecryptMetadata(cipher, env.cipherText, derive(secret, env.agentID));
      if pt.Err? {
        return Err(Internal);
      }
      if OpenAll(cipher, derive, secret, envs[i + 1..]).Ok? {
        PrefixedCons(out, pt.value, OpenAll(cipher, derive, secret, envs[i + 1..]));
      }
      out := out + [pt.value];
    }
    assert envs[|envs|..] == [] && out + [] == out;
    return Ok(out);
  }

  function Prefixed(out: seq<Bytes>, r: Result<seq<Bytes>, Code>): Result<seq<Bytes>, Code> {
    if r.Err? then r else Ok(out + r.value)
  }

  lemma PrefixedCons(out: seq<Bytes>, pt: Bytes, r: Result<seq<Bytes>, Code>)
    requires r.Ok?
    ensures Prefixed(out, Ok([pt] + r.value)) == Prefixed(out + [pt], r)
  {
    assert out + ([pt] + r.value) == out + [pt] + r.value;
  }
}
