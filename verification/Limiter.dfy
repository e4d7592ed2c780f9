/**
 The limiter object (vault/internal/tokens/ratelimit.go). Each client's
 timestamps live in a Go slice: a backing array and a length. IsAllowed
 filters into requests[:0], that is, into the array it is reading.
 */
module Limiter {
  import opened Wrappers
  import opened RateText
  import opened SlidingWindow

  /** A slice from the start of `buf`; the array's length is its capacity. */
  datatype Slice = Slice(buf: array<int>, len: nat)

  class RateLimiter {
    const maxRequests: int
    const window: int
    var requests: map<string, Slice>

    /** Every acceptance since the client was last removed. */
    ghost var accepted: map<string, seq<int>>
    /** The timestamps of all IsAllowed calls, in the order they took the mutex. */
    ghost var calls: seq<int>
    /** The backing arrays, and the one client each belongs to. */
    ghost var owner: map<array<int>, string>

    /** The stored timestamps, client by client. */
    ghost var lists: map<string, seq<int>>

    /** Each client has a backing array of its own, and it holds the client's list. */
    ghost predicate Valid()
      reads `requests, `owner, `lists, owner.Keys
    {
      && lists.Keys == requests.Keys
      && forall c :: c in requests ==>
           && requests[c].buf in owner && owner[requests[c].buf] == c
           && requests[c].len <= requests[c].buf.Length
           && lists[c] == requests[c].buf[..requests[c].len]
    }

    /** The lists stand for everything accepted so far. */
    ghost predicate Truthful()
      reads `lists, `accepted, `calls
    {
      AllFaithful(maxRequests, window, calls, lists, accepted)
    }

    /** Consistent, and true to its history. */
    ghost predicate Ready()
      reads this, owner.Keys
    {
      Valid() && Truthful()
    }

    constructor (maxRequests: int, window: int)
      ensures Valid() && Truthful() && owner == map[]
      ensures this.maxRequests == maxRequests && this.window == window
      ensures lists == map[] && accepted == map[] && calls == []
    {
      this.maxRequests := maxRequests;
      this.window := window;
      requests := map[];
      accepted := map[];
      calls := [];
      owner, lists := map[], map[];
    }

    /**
     One request at `now`. The answer is the reference's whenever the calls so
     far entered in time order, and in any order a denial means the reference
     denies too. Only this client's list changes.
     */
    method IsAllowed(clientID: string, now: int) returns (ok: bool)
      requires Valid()
      modifies this, owner.Keys
      ensures Valid() && fresh(owner.Keys - old(owner.Keys))
      ensures var d := Decide(maxRequests, window, TimesOf(old(lists), clientID), now);
              ok == d.ok && lists == old(lists)[clientID := d.list]
      ensures calls == old(calls) + [now]
      ensures accepted == if ok then old(accepted)[clientID := TimesOf(old(accepted), clientID) + [now]] else old(accepted)
      ensures old(Truthful()) ==>
                var history := TimesOf(old(accepted), clientID);
                && Truthful()
                && (HistoryAllows(maxRequests, window, history, now) ==> ok)
                && (Nondecreasing(calls) ==> (ok <==> HistoryAllows(maxRequests, window, history, now)))
    {
      ghost var lists0, accepted0, calls0 := lists, accepted, calls;
      ok := Admit(clientID, now);
      Note(clientID, now, ok);
      if AllFaithful(maxRequests, window, calls0, lists0, accepted0) {
        AllFaithfulStep(maxRequests, window, calls0, lists0, accepted0, clientID, now);
      }
    }

    /** The call goes on record. */
    ghost method Note(clientID: string, now: int, ok: bool)
      modifies `accepted, `calls
      ensures calls == old(calls) + [now]
      ensures accepted == if ok then old(accepted)[clientID := TimesOf(old(accepted), clientID) + [now]] else old(accepted)
    {
      if ok {
        accepted := accepted[clientID := TimesOf(accepted, clientID) + [now]];
      }
      calls := calls + [now];
    }

    /** The locked body of IsAllowed. */
    method Admit(clientID: string, now: int) returns (ok: bool)
      requires Valid()
      modifies `requests, `owner, `lists, owner.Keys
      ensures Valid() && fresh(owner.Keys - old(owner.Keys))
      ensures var d := Decide(maxRequests, window, TimesOf(old(lists), clientID), now);
              ok == d.ok && lists == old(lists)[clientID := d.list]
    {
      var s := SliceOf(clientID);
      var kept := Compact(s, now - window);
      var next := Slice(s.buf, kept);
      ok := kept < maxRequests;
      if ok {
        next := Append(next, now);
      }
      SetSlice(clientID, next);
    }

    /** rl.requests[clientID] = s, where no other client uses the array of `s` */
    method SetSlice(clientID: string, s: Slice)
      requires lists.Keys == requests.Keys
      requires forall c :: c in requests && c != clientID ==>
        && requests[c].buf in owner && owner[requests[c].buf] == c
        && requests[c].len <= requests[c].buf.Length
        && lists[c] == requests[c].buf[..requests[c].len]
      requires s.len <= s.buf.Length && (s.buf in owner ==> owner[s.buf] == clientID)
      modifies `requests, `owner, `lists
      ensures Valid() && owner == old(owner)[s.buf := clientID]
      ensures lists == old(lists)[clientID := s.buf[..s.len]]
    {
      requests := requests[clientID := s];
      owner := owner[s.buf := clientID];
      lists := lists[clientID := s.buf[..s.len]];
    }

    /** rl.requests[clientID] */
    method SliceOf(clientID: string) returns (s: Slice)
      requires Valid()
      ensures s.len <= s.buf.Length
      ensures s.buf[..s.len] == TimesOf(lists, clientID)
      ensures if clientID in requests then s == requests[clientID] else fresh(s.buf)
    {
      if clientID in requests {
        s := requests[clientID];
      } else {
        var empty := new int[0];
        s := Slice(empty, 0);
      }
    }

    /**
     RetryAfter: the loop finds the oldest stored timestamp, and the rest of
     the window is truncated to whole seconds.
     */
    method RetryAfter(clientID: string, now: int) returns (seconds: int)
      requires Valid()
      ensures seconds == RetrySeconds(window, TimesOf(lists, clientID), now)
    {
      if clientID !in requests || requests[clientID].len == 0 {
        return 0;
      }
      var s := requests[clientID];
      var oldest := s.buf[0];
      var i := 1;
      while i < s.len
        invariant 1 <= i <= s.len
        invariant oldest in s.buf[..i]
        invariant forall k :: 0 <= k < i ==> oldest <= s.buf[k]
      {
        if s.buf[i] < oldest {
          oldest := s.buf[i];
        }
        i := i + 1;
      }
      assert oldest == Oldest(s.buf[..s.len]);
      var remaining := window - (now - oldest);
      if remaining < 0 {
        return 0;
      }
      return remaining / SECOND;
    }

    method Remove(clientID: string)
      modifies `requests, `lists, `accepted
      ensures requests == old(requests) - {clientID}
      ensures lists == old(lists) - {clientID}
      ensures accepted == old(accepted) - {clientID}
      ensures old(Valid()) ==> Valid()
      ensures old(Truthful()) ==> Truthful()
    {
      requests := requests - {clientID};
      lists := lists - {clientID};
      accepted := accepted - {clientID};
      if old(Truthful()) {
        AllFaithfulRemove(maxRequests, window, calls, old(lists), old(accepted), clientID);
      }
    }
  }

  /** A client's timestamps; a missing key is the nil slice. */
  function TimesOf(m: map<string, seq<int>>, c: string): seq<int> {
    if c in m then m[c] else []
  }

  ghost predicate AllFaithful(max: int, window: int, calls: seq<int>,
                              lists: map<string, seq<int>>, accepted: map<string, seq<int>>) {
    forall c :: Faithful(max, window, calls, TimesOf(lists, c), TimesOf(accepted, c))
  }

  lemma AllFaithfulStep(max: int, window: int, calls: seq<int>, lists: map<string, seq<int>>,
                        accepted: map<string, seq<int>>, client: string, now: int)
    requires AllFaithful(max, window, calls, lists, accepted)
    ensures var d := Decide(max, window, TimesOf(lists, client), now);
            var history := TimesOf(accepted, client);
            && AllFaithful(max, window, calls + [now], lists[client := d.list],
                           if d.ok then accepted[client := history + [now]] else accepted)
            && (HistoryAllows(max, window, history, now) ==> d.ok)
            && (Nondecreasing(calls + [now]) ==> (d.ok <==> HistoryAllows(max, window, history, now)))
  {
    var d := Decide(max, window, TimesOf(lists, client), now);
    var history := TimesOf(accepted, client);
    assert Faithful(max, window, calls, TimesOf(lists, client), history);
    FaithfulStep(max, window, calls, TimesOf(lists, client), history, now);
    var accepted' := if d.ok then accepted[client := history + [now]] else accepted;
    AllFaithfulOthers(max, window, calls, lists, accepted, client, now, d.list, accepted');
  }

  lemma AllFaithfulOthers(max: int, window: int, calls: seq<int>, lists: map<string, seq<int>>,
                          accepted: map<string, seq<int>>, client: string, now: int,
                          list': seq<int>, accepted': map<string, seq<int>>)
    requires AllFaithful(max, window, calls, lists, accepted)
    requires accepted' == accepted || (client in accepted' && accepted' == accepted[client := accepted'[client]])
    requires Faithful(max, window, calls + [now], list', TimesOf(accepted', client))
    ensures AllFaithful(max, window, calls + [now], lists[client := list'], accepted')
  {
    forall c ensures Faithful(max, window, calls + [now], TimesOf(lists[client := list'], c), TimesOf(accepted', c)) {
      if c != client {
        assert Faithful(max, window, calls, TimesOf(lists, c), TimesOf(accepted, c));
        FaithfulIdle(max, window, calls, TimesOf(lists, c), TimesOf(accepted, c), now);
      }
    }
  }

  lemma AllFaithfulRemove(max: int, window: int, calls: seq<int>, lists: map<string, seq<int>>,
                          accepted: map<string, seq<int>>, client: string)
    requires AllFaithful(max, window, calls, lists, accepted)
    ensures AllFaithful(max, window, calls, lists - {client}, accepted - {client})
  {
    forall c ensures Faithful(max, window, calls, TimesOf(lists - {client}, c), TimesOf(accepted - {client}, c)) {
      if c != client {
        assert Faithful(max, window, calls, TimesOf(lists, c), TimesOf(accepted, c));
      }
    }
  }

  /**
   The pruning of IsAllowed: later timestamps are moved to the front of the
   array being read. The write index never passes the read index, so no unread
   entry is lost.
   */
  method Compact(s: Slice, cutoff: int) returns (kept: nat)
    requires s.len <= s.buf.Length
    modifies s.buf
    ensures kept <= s.len
    ensures s.buf[..kept] == After(old(s.buf[..s.len]), cutoff)
    ensures s.buf[s.len..] == old(s.buf[s.len..])
  {
    kept := 0;
    var i := 0;
    ghost var all := s.buf[..s.len];
    while i < s.len
      invariant kept <= i <= s.len
      invariant s.buf[..kept] == After(all[..i], cutoff)
      invariant forall k :: i <= k < s.buf.Length ==> s.buf[k] == old(s.buf[k])
    {
      var t := s.buf[i];
      assert t == all[i];
      AfterNext(all, i, cutoff);
      if t > cutoff {
        s.buf[kept] := t;
        kept := kept + 1;
        assert s.buf[..kept] == s.buf[..kept - 1] + [t];
      }
      i := i + 1;
    }
    assert all[..s.len] == all;
  }

  lemma AfterNext(all: seq<int>, i: nat, cutoff: int)
    requires i < |all|
    ensures After(all[..i + 1], cutoff) == if all[i] > cutoff then After(all[..i], cutoff) + [all[i]] else After(all[..i], cutoff)
  {
    AfterAppend(all[..i], all[i], cutoff);
    assert all[..i + 1] == all[..i] + [all[i]];
  }

  /** Go's append of one element: in place while there is capacity, else into a new array. */
  method Append(s: Slice, t: int) returns (r: Slice)
    requires s.len <= s.buf.Length
    modifies s.buf
    ensures r.len == s.len + 1 <= r.buf.Length
    ensures r.buf[..r.len] == old(s.buf[..s.len]) + [t]
    ensures r.buf == s.buf || (fresh(r.buf) && s.buf[..] == old(s.buf[..]))
  {
    if s.len < s.buf.Length {
      s.buf[s.len] := t;
      r := Slice(s.buf, s.len + 1);
    } else {
      var buf := new int[2 * s.len + 1];
      var i := 0;
      while i < s.len
        invariant 0 <= i <= s.len
        invariant buf[..i] == s.buf[..i]
        invariant s.buf[..] == old(s.buf[..])
      {
        buf[i] := s.buf[i];
        i := i + 1;
      }
      buf[s.len] := t;
      r := Slice(buf, s.len + 1);
    }
  }

  // ---- several limiters ------------------------------------------------

  /** One request to a limiter, and the retry hint if it is denied. */
  method Ask(l: RateLimiter, user: string, now: int, later: int) returns (denied: Option<int>)
    requires l.Ready()
    modifies l, l.owner.Keys
    ensures l.Ready() && fresh(l.owner.Keys - old(l.owner.Keys))
    ensures var d := Decide(l.maxRequests, l.window, TimesOf(old(l.lists), user), now);
            && TimesOf(l.lists, user) == d.list
            && TimesOf(l.accepted, user) == TimesOf(old(l.accepted), user) + (if d.ok then [now] else [])
            && denied == (if d.ok then None else Some(RetrySeconds(l.window, d.list, later)))
    ensures Nondecreasing(l.calls) ==>
              (denied.None? <==> HistoryAllows(l.maxRequests, l.window, TimesOf(old(l.accepted), user), now))
  {
    var ok := l.IsAllowed(user, now);
    if ok {
      return None;
    }
    var seconds := l.RetryAfter(user, later);
    return Some(seconds);
  }

  /** The backing arrays of some limiters. */
  ghost function ArraysOf(limiters: set<RateLimiter>): set<object>
    reads limiters
  {
    set l, a | l in limiters && a in l.owner :: a as object
  }

  /** Each limiter is consistent and true to its history, and no two share an array. */
  ghost predicate AllReady(limiters: set<RateLimiter>)
    reads limiters, ArraysOf(limiters)
  {
    && (forall l :: l in limiters ==> l.Ready())
    && (forall k, l :: k in limiters && l in limiters && k != l ==> k.owner.Keys !! l.owner.Keys)
  }

  /** A new limiter has no arrays yet. */
  method NewLimiter(ghost limiters: set<RateLimiter>, limit: Limit) returns (l: RateLimiter)
    requires AllReady(limiters)
    ensures AllReady(limiters + {l}) && fresh(l) && l.owner == map[] && l.lists == map[] && l.accepted == map[]
    ensures l.maxRequests == limit.max && l.window == limit.window
  {
    l := new RateLimiter(limit.max, limit.window);
  }

  /** One limiter forgets a client. */
  method Forget(l: RateLimiter, ghost limiters: set<RateLimiter>, user: string)
    requires AllReady(limiters) && l in limiters
    modifies l
    ensures AllReady(limiters) && l.accepted == old(l.accepted) - {user}
  {
    l.Remove(user);
  }

  /** Asking a limiter leaves alone the others that share no array with it. */
  method AskBeside(l: RateLimiter, ghost others: set<RateLimiter>, user: string, now: int, later: int) returns (denied: Option<int>)
    requires l.Ready() && l !in others
    requires forall o :: o in others ==> o.Ready() && o.owner.Keys !! l.owner.Keys
    modifies l, l.owner.Keys
    ensures l.Ready()
    ensures forall o :: o in others ==>
              && o.Ready() && o.owner.Keys !! l.owner.Keys
              && o.owner == old(o.owner) && o.lists == old(o.lists) && o.accepted == old(o.accepted)
    ensures var d := Decide(l.maxRequests, l.window, TimesOf(old(l.lists), user), now);
            && TimesOf(l.lists, user) == d.list
            && TimesOf(l.accepted, user) == TimesOf(old(l.accepted), user) + (if d.ok then [now] else [])
            && denied == (if d.ok then None else Some(RetrySeconds(l.window, d.list, later)))
    ensures Nondecreasing(l.calls) ==>
              (denied.None? <==> HistoryAllows(l.maxRequests, l.window, TimesOf(old(l.accepted), user), now))
  {
    denied := Ask(l, user, now, later);
  }

  /** Asking one limiter of several keeps them all in order. */
  method AskOne(l: RateLimiter, ghost limiters: set<RateLimiter>, user: string, now: int, later: int) returns (denied: Option<int>)
    requires AllReady(limiters) && l in limiters
    modifies l, l.owner.Keys
    ensures AllReady(limiters)
    ensures forall o :: o in limiters && o != l ==> o.lists == old(o.lists) && o.accepted == old(o.accepted)
    ensures var d := Decide(l.maxRequests, l.window, TimesOf(old(l.lists), user), now);
            && TimesOf(l.lists, user) == d.list
            && TimesOf(l.accepted, user) == TimesOf(old(l.accepted), user) + (if d.ok then [now] else [])
            && denied == (if d.ok then None else Some(RetrySeconds(l.window, d.list, later)))
    ensures Nondecreasing(l.calls) ==>
              (denied.None? <==> HistoryAllows(l.maxRequests, l.window, TimesOf(old(l.accepted), user), now))
  {
    ghost var others := limiters - {l};
    denied := AskBeside(l, others, user, now, later);
    forall k, o | k in limiters && o in limiters && k != o ensures k.owner.Keys !! o.owner.Keys {
      assert k == l || k in others;
      assert o == l || o in others;
    }
    forall o | o in limiters ensures o.Ready() {
      assert o == l || o in others;
    }
  }
}
