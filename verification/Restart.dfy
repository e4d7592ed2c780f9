/**
 The persistence protocol run by the store's own operations: what a restart
 after a quiescent moment finds (vault/internal/tokens/store.go).
 */
module Restart {
  import opened Wrappers
  import opened TokenStore
  import opened StoreRuns
  import opened Documents
  import opened PersistControl
  import PersistProtocol

  type Sys<L> = PersistProtocol.Sys<State<L>>
  type Step<L> = PersistProtocol.Step<State<L>>

  function Current<L>(s: Sys<L>): State<L>
    requires s.history != []
  {
    s.history[|s.history| - 1]
  }

  /** `b` comes from `a` by an operation that does not go on to schedulePersist. */
  ghost predicate Unscheduled<L(!new)>(a: State<L>, b: State<L>) {
    exists op: Op<L> :: Legal(a, op) && b == Apply(a, op) && !Schedules(a, op)
  }

  /** Version v comes of such an operation. */
  ghost predicate UnscheduledAt<L(!new)>(h: seq<State<L>>, v: int) {
    0 < v < |h| && Unscheduled(h[v - 1], h[v])
  }

  /** `b` comes from `a` by a rotation that dropped the user's record and then failed. */
  ghost predicate LostRotation<L>(a: State<L>, b: State<L>) {
    exists user :: user in a.byUser && b == Drop(a, user)
  }

  /**
   The step is the store's: a mutation is a legal operation on the state it
   finds, validations and refused calls included, and one that skips
   schedulePersist is of an operation that does not call it.
   */
  ghost predicate StoreStep<L(!new)>(s: Sys<L>, step: Step<L>)
    requires PersistProtocol.Enabled(s, step)
  {
    && (step.Mutate? ==>
          s.history != [] && exists op: Op<L> :: Legal(Current(s), op) && step.state == Apply(Current(s), op))
    && (step.Skip? ==> UnscheduledAt(s.history, s.mutated[step.thread]))
  }

  ghost predicate StoreSteps<L(!new)>(s: Sys<L>, run: seq<Step<L>>)
    requires PersistProtocol.CanRun(s, run)
    decreases |run|
  {
    run != [] ==> StoreStep(s, run[0]) && StoreSteps(PersistProtocol.Do(s, run[0]), run[1..])
  }

  ghost predicate AllInv<L>(history: seq<State<L>>) {
    forall v :: 0 <= v < |history| ==> Inv(history[v])
  }

  /** Each version is scheduled, or its mutator has yet to, or it came of an operation that does not. */
  ghost predicate Accounted<L(!new)>(s: Sys<L>) {
    s.paths && !s.ctl.closed ==>
      forall v :: 0 <= v < |s.history| ==>
        || v <= s.scheduled
        || (exists t :: t in s.mutated && s.mutated[t] == v)
        || UnscheduledAt(s.history, v)
  }

  lemma InvStep<L(!new)>(s: Sys<L>, step: Step<L>)
    requires PersistProtocol.Sane(s) && PersistProtocol.Enabled(s, step) && AllInv(s.history)
    requires StoreStep(s, step)
    ensures AllInv(PersistProtocol.Do(s, step).history)
  {
    if step.Mutate? {
      var op: Op<L> :| Legal(Current(s), op) && step.state == Apply(Current(s), op);
      ApplyInv(Current(s), op);
    }
  }

  lemma AccountedStep<L(!new)>(s: Sys<L>, step: Step<L>)
    requires PersistProtocol.Sane(s) && PersistProtocol.Enabled(s, step) && Accounted(s)
    requires StoreStep(s, step)
    ensures Accounted(PersistProtocol.Do(s, step))
  {
    var s' := PersistProtocol.Do(s, step);
    if s'.paths && !s'.ctl.closed {
      forall v | 0 <= v < |s'.history| && v > s'.scheduled
        ensures (exists t :: t in s'.mutated && s'.mutated[t] == v) || UnscheduledAt(s'.history, v)
      {
        if v == |s.history| {
          assert s'.mutated[step.thread] == v;
        } else if t :| t in s.mutated && s.mutated[t] == v {
          assert t in s'.mutated || step.Skip?;
        } else {
          assert UnscheduledAt(s.history, v);
        }
      }
    }
  }

  lemma {:induction false} StoreRun<L(!new)>(s: Sys<L>, run: seq<Step<L>>)
    requires PersistProtocol.CanRun(s, run) && StoreSteps(s, run)
    requires PersistProtocol.Sane(s) && AllInv(s.history) && Accounted(s)
    ensures PersistProtocol.Sane(PersistProtocol.After(s, run))
    ensures AllInv(PersistProtocol.After(s, run).history) && Accounted(PersistProtocol.After(s, run))
    decreases |run|
  {
    if run != [] {
      PersistProtocol.SaneStep(s, run[0]);
      InvStep(s, run[0]);
      AccountedStep(s, run[0]);
      StoreRun(PersistProtocol.Do(s, run[0]), run[1..]);
    }
  }

  // ---- what unscheduled operations change ------------------------------------

  ghost predicate SamePersistent<L>(a: State<L>, b: State<L>) {
    a.tokens == b.tokens && a.byUser == b.byUser && a.roles == b.roles
  }

  /** What is persisted stays, or a rotation lost its user. */
  ghost predicate Loses<L>(a: State<L>, b: State<L>) {
    if LostRotation(a, b) then b.byUser.Keys < a.byUser.Keys else SamePersistent(a, b)
  }

  /** Of the unscheduled operations only a lost rotation changes what is persisted. */
  lemma UnscheduledLoses<L(!new)>(a: State<L>, b: State<L>)
    requires Inv(a) && Unscheduled(a, b)
    ensures Loses(a, b)
  {
    var op: Op<L> :| Legal(a, op) && b == Apply(a, op) && !Schedules(a, op);
    UnscheduledChange(a, op);
    if op.RotateOp? && op.user in a.byUser && op.gen.None? {
      assert b == Drop(a, op.user);
    }
    if LostRotation(a, b) {
      var user :| user in a.byUser && b == Drop(a, user);
      assert user !in b.byUser;
    }
  }

  ghost predicate LosesAt<L>(h: seq<State<L>>, v: int) {
    0 < v < |h| && Loses(h[v - 1], h[v])
  }

  ghost predicate LostAt<L>(h: seq<State<L>>, v: int) {
    0 < v < |h| && LostRotation(h[v - 1], h[v])
  }

  ghost predicate NoLostRotation<L>(h: seq<State<L>>, from: int, upTo: int)
    requires 0 <= from && upTo < |h|
  {
    forall v :: from < v <= upTo ==> !LostAt(h, v)
  }

  /** From version `from` on, either nothing persistent changed, or users were lost for good. */
  lemma {:induction false} TailLoses<L>(h: seq<State<L>>, from: nat, upTo: nat)
    requires from <= upTo < |h|
    requires forall v :: from < v <= upTo ==> LosesAt(h, v)
    ensures NoLostRotation(h, from, upTo) ==> SamePersistent(h[from], h[upTo])
    ensures !NoLostRotation(h, from, upTo) ==> h[upTo].byUser.Keys < h[from].byUser.Keys
    decreases upTo
  {
    if upTo > from {
      TailLoses(h, from, upTo - 1);
      assert LosesAt(h, upTo);
      assert NoLostRotation(h, from, upTo) <==> NoLostRotation(h, from, upTo - 1) && !LostAt(h, upTo);
    }
  }

  lemma TailUnscheduled<L(!new)>(h: seq<State<L>>, from: nat)
    requires from < |h| && AllInv(h)
    requires forall v :: from < v < |h| ==> UnscheduledAt(h, v)
    ensures NoLostRotation(h, from, |h| - 1) <==> SamePersistent(Normalised(h[from]), Normalised(h[|h| - 1]))
  {
    forall v | from < v < |h| ensures LosesAt(h, v) {
      assert UnscheduledAt(h, v);
      UnscheduledLoses(h[v - 1], h[v]);
    }
    TailLoses(h, from, |h| - 1);
  }

  /** The document holds version v: written from it, or, for version 0, the one the store was loaded from. */
  predicate HoldsRoles<L>(h: seq<State<L>>, loadedFrom: File<RolesDoc>, v: int, doc: RolesDoc) {
    0 <= v < |h| && (doc == RolesDocOf(h[v]) || (v == 0 && loadedFrom == Doc(doc)))
  }

  ghost predicate HoldsTokens<L>(h: seq<State<L>>, loadedFrom: File<TokensDoc>, v: int, doc: TokensDoc) {
    0 <= v < |h| && (doc == TokensDocOf(h[v]) || (v == 0 && loadedFrom == Doc(doc)))
  }

  /** A restart on these documents gives the records and roles of `state`, normalised. */
  ghost predicate RestartGives<L>(roles: RolesDoc, tokens: TokensDoc, state: State<L>) {
    var (s, ok, scheduled) := LoadFromFiles<L>(NewStore(), Doc(roles), Doc(tokens));
    ok && !scheduled && s.cache == map[] && SamePersistent(s, Normalised(state))
  }

  /** What a load makes of the two documents, each for itself. */
  lemma LoadParts<L>(roles: RolesDoc, tokens: TokensDoc)
    ensures var (s, ok, scheduled) := LoadFromFiles<L>(NewStore(), Doc(roles), Doc(tokens));
            && ok && !scheduled && s.cache == map[]
            && s.roles == LoadedBase<L>(Doc(roles)).roles
            && s.tokens == IndexBy(TokenKeys(tokens), Records(tokens))
            && s.byUser == IndexBy(UserKeys(tokens), Records(tokens))
  {
    LoadedIndexes<L>(LoadedBase(Doc(roles)), tokens);
  }

  /** The roles of a load are in normal form already. */
  lemma LoadedNormal<L>(roles: File<RolesDoc>)
    ensures NormalRoles(LoadedBase<L>(roles).roles) == LoadedBase<L>(roles).roles
  {
    var loaded := LoadedBase<L>(roles).roles;
    assert forall n :: n in loaded ==> NormalRole(loaded[n]) == loaded[n];
    NormalKept(loaded);
  }

  lemma NormalKept(roles: map<string, Role>)
    requires "admin" in roles && "member" in roles
    requires forall n :: n in roles ==> NormalRole(roles[n]) == roles[n]
    ensures NormalRoles(roles) == roles
  {
    assert (map n | n in roles :: NormalRole(roles[n])) == roles;
  }

  /** Whichever documents hold a version, a restart on them gives that version. */
  lemma RestartHeld<L>(h: seq<State<L>>, rolesFile: File<RolesDoc>, tokensFile: File<TokensDoc>, v: int, roles: RolesDoc, tokens: TokensDoc)
    requires h != [] && LoadFromFiles<L>(NewStore(), rolesFile, tokensFile).1
    requires h[0] == LoadFromFiles<L>(NewStore(), rolesFile, tokensFile).0
    requires HoldsRoles(h, rolesFile, v, roles) && HoldsTokens(h, tokensFile, v, tokens) && Inv(h[v])
    ensures RestartGives(roles, tokens, h[v])
  {
    LoadParts<L>(roles, tokens);
    LoadShape<L>(rolesFile, tokensFile);
    PersistedRoles(h[v]);
    PersistedByUser(h[v]);
    PersistedTokens(h[v]);
    LoadedNormal<L>(rolesFile);
    if tokensFile.Doc? {
      LoadedIndexes<L>(LoadedBase(rolesFile), tokensFile.doc);
    }
  }

  lemma RestartIs<L>(roles: RolesDoc, tokens: TokensDoc, held: State<L>, state: State<L>)
    requires RestartGives(roles, tokens, held)
    ensures RestartGives(roles, tokens, state) <==> SamePersistent(Normalised(held), Normalised(state))
  {
  }

  /** The protocol after LoadFromFiles on these files. */
  function Loaded<L>(rolesFile: File<RolesDoc>, tokensFile: File<TokensDoc>): Sys<L> {
    PersistProtocol.Start(true, LoadFromFiles<L>(NewStore(), rolesFile, tokensFile).0, rolesFile == Missing || tokensFile == Missing)
  }

  ghost predicate GoodRun<L(!new)>(s: Sys<L>, run: seq<Step<L>>) {
    PersistProtocol.CanRun(s, run) && PersistProtocol.SerialRun(s, run) && StoreSteps(s, run)
  }

  ghost predicate Settled<L>(s: Sys<L>) {
    !s.ctl.closed && PersistProtocol.Quiet(s) && s.mutated == map[]
  }

  /**
   After a load, and any interleaving of store operations, timers, callbacks
   and flushes in which doPersist calls did not overlap and writes succeeded:
   once nothing is live and no mutator is left, both files hold one version, and
   a restart on them gives the current state, normalised, exactly when no
   rotation lost its record after that version.
   */
  lemma RestartFindsCurrentState<L(!new)>(rolesFile: File<RolesDoc>, tokensFile: File<TokensDoc>, run: seq<Step<L>>,
                                          roles: RolesDoc, tokens: TokensDoc)
    requires LoadFromFiles<L>(NewStore(), rolesFile, tokensFile).1
    requires tokensFile.Doc? ==> SameLastEntries(tokensFile.doc)
    requires GoodRun(Loaded(rolesFile, tokensFile), run) && Settled(PersistProtocol.After(Loaded(rolesFile, tokensFile), run))
    ensures var e := PersistProtocol.After(Loaded(rolesFile, tokensFile), run);
            && e.history != [] && Inv(Current(e))
            && e.rolesFile == e.tokensFile && e.rolesFile.Some? && 0 <= e.rolesFile.value < |e.history|
            && e.scheduled <= e.rolesFile.value
            && RestartExact(e.history, rolesFile, tokensFile, e.rolesFile.value, roles, tokens)
  {
    var e := PersistProtocol.After(Loaded<L>(rolesFile, tokensFile), run);
    SettledVersion(rolesFile, tokensFile, run);
    SettledFiles(e.history, rolesFile, tokensFile, e.snapped, roles, tokens);
  }

  /** On documents holding version v a restart gives the last state exactly when no rotation lost its record since. */
  ghost predicate RestartExact<L>(h: seq<State<L>>, rolesFile: File<RolesDoc>, tokensFile: File<TokensDoc>, v: int,
                                  roles: RolesDoc, tokens: TokensDoc)
    requires 0 <= v < |h|
  {
    HoldsRoles(h, rolesFile, v, roles) && HoldsTokens(h, tokensFile, v, tokens) ==>
      (RestartGives(roles, tokens, h[|h| - 1]) <==> NoLostRotation(h, v, |h| - 1))
  }

  lemma SettledVersion<L(!new)>(rolesFile: File<RolesDoc>, tokensFile: File<TokensDoc>, run: seq<Step<L>>)
    requires LoadFromFiles<L>(NewStore(), rolesFile, tokensFile).1
    requires tokensFile.Doc? ==> SameLastEntries(tokensFile.doc)
    requires GoodRun(Loaded(rolesFile, tokensFile), run) && Settled(PersistProtocol.After(Loaded(rolesFile, tokensFile), run))
    ensures var e := PersistProtocol.After(Loaded(rolesFile, tokensFile), run);
            && 0 <= e.scheduled <= e.snapped < |e.history| && PersistProtocol.FilesAt(e, e.snapped)
            && AllInv(e.history) && e.history[0] == LoadFromFiles<L>(NewStore(), rolesFile, tokensFile).0
            && forall v :: e.snapped < v < |e.history| ==> UnscheduledAt(e.history, v)
  {
    var loaded := LoadFromFiles<L>(NewStore(), rolesFile, tokensFile).0;
    var missing := rolesFile == Missing || tokensFile == Missing;
    LoadedInvIff<L>(rolesFile, tokensFile);
    var s := PersistProtocol.Start(true, loaded, missing);
    StartAccounted(loaded, missing);
    StoreRun(s, run);
    PersistProtocol.SaneRun(s, run);
    PersistProtocol.NoMutationForgotten(s, run);
    AccountedEnd(PersistProtocol.After(s, run));
    PersistProtocol.QuiescentFiles(true, loaded, missing, run);
  }

  lemma StartAccounted<L(!new)>(loaded: State<L>, missing: bool)
    requires Inv(loaded)
    ensures var s := PersistProtocol.Start(true, loaded, missing);
            PersistProtocol.Sane(s) && AllInv(s.history) && Accounted(s)
  {
    assert missing ==> PersistProtocol.Start(true, loaded, missing).mutated[0] == 0;
  }

  lemma SettledFiles<L(!new)>(h: seq<State<L>>, rolesFile: File<RolesDoc>, tokensFile: File<TokensDoc>, v: nat,
                              roles: RolesDoc, tokens: TokensDoc)
    requires v < |h| && AllInv(h) && LoadFromFiles<L>(NewStore(), rolesFile, tokensFile).1
    requires h[0] == LoadFromFiles<L>(NewStore(), rolesFile, tokensFile).0
    requires forall w :: v < w < |h| ==> UnscheduledAt(h, w)
    ensures RestartExact(h, rolesFile, tokensFile, v, roles, tokens)
  {
    TailUnscheduled(h, v);
    if HoldsRoles(h, rolesFile, v, roles) && HoldsTokens(h, tokensFile, v, tokens) {
      RestartHeld(h, rolesFile, tokensFile, v, roles, tokens);
      RestartIs(roles, tokens, h[v], h[|h| - 1]);
    }
  }

  /** With no mutator left, what is not scheduled came of an operation that does not; the load itself is scheduled. */
  lemma AccountedEnd<L(!new)>(e: Sys<L>)
    requires Accounted(e) && e.paths && !e.ctl.closed && e.mutated == map[] && e.history != []
    ensures e.scheduled >= 0
    ensures forall v :: e.scheduled < v < |e.history| ==> UnscheduledAt(e.history, v)
  {
    assert !UnscheduledAt(e.history, 0);
  }

  // ---- a lost rotation comes back ----------------------------------------------

  lemma LoseRecord<L(!new)>(loaded: State<L>, user: string, today: int) returns (run: seq<Step<L>>)
    requires user in loaded.byUser
    ensures var s := PersistProtocol.Start(true, loaded, false);
            GoodRun(s, run) && PersistProtocol.After(s, run) == s.(history := [loaded, Drop(loaded, user)])
  {
    var op: Op<L> := RotateOp(user, None, today);
    var lost := Drop(loaded, user);
    assert Legal(loaded, op) && lost == Apply(loaded, op) && !Schedules(loaded, op);
    var s := PersistProtocol.Start(true, loaded, false);
    var first, second := PersistProtocol.Mutate(2, lost), PersistProtocol.Step<State<L>>.Skip(2);
    var s1 := PersistProtocol.Do(s, first);
    assert Current(s) == loaded && s1.history == [loaded, lost] && UnscheduledAt(s1.history, 1);
    GoodCons(s1, second, []);
    GoodCons(s, first, [second] + []);
    run := [first] + ([second] + []);
  }

  lemma GoodCons<L(!new)>(s: Sys<L>, step: Step<L>, rest: seq<Step<L>>)
    requires PersistProtocol.Enabled(s, step) && PersistProtocol.SerialStep(s, step) && StoreStep(s, step)
    requires GoodRun(PersistProtocol.Do(s, step), rest)
    ensures GoodRun(s, [step] + rest)
    ensures PersistProtocol.After(s, [step] + rest) == PersistProtocol.After(PersistProtocol.Do(s, step), rest)
  {
    assert ([step] + rest)[1..] == rest;
  }

  /**
   On a store loaded from its files, a rotation drops a user's record and
   fails. The store stays quiet without the user, the files are as they were,
   and a restart gives the old token back.
   */
  lemma LostRotationRevived<L(!new)>(rolesFile: File<RolesDoc>, tokensFile: File<TokensDoc>, user: string, today: int)
    returns (run: seq<Step<L>>)
    requires rolesFile.Doc? && tokensFile.Doc? && SameLastEntries(tokensFile.doc)
    requires user in LoadFromFiles<L>(NewStore(), rolesFile, tokensFile).0.byUser
    ensures GoodRun(Loaded(rolesFile, tokensFile), run)
    ensures var loaded := LoadFromFiles<L>(NewStore(), rolesFile, tokensFile).0;
            PersistProtocol.After(Loaded(rolesFile, tokensFile), run) ==
            Loaded(rolesFile, tokensFile).(history := [loaded, Drop(loaded, user)])
    ensures var loaded := LoadFromFiles<L>(NewStore(), rolesFile, tokensFile).0;
            var token := loaded.byUser[user].token;
            && user !in Drop(loaded, user).byUser && token !in Drop(loaded, user).tokens
            && RestartGives(rolesFile.doc, tokensFile.doc, loaded)
            && user in Normalised(loaded).byUser && token in Normalised(loaded).tokens
  {
    var loaded := LoadFromFiles<L>(NewStore(), rolesFile, tokensFile).0;
    LoadedInvIff<L>(rolesFile, tokensFile);
    RestartHeld([loaded], rolesFile, tokensFile, 0, rolesFile.doc, tokensFile.doc);
    run := LoseRecord(loaded, user, today);
  }
}
