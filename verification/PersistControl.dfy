/**
 The debounce control of the store (vault/internal/tokens/store.go, lines
 453-506): the fields persistTimer and persistClosed, and the critical sections
 under persistMu. Every timer ever armed is kept on record, because a late
 callback can clear the handle of a newer timer.
 */
module PersistControl {
  import opened Wrappers

  /** A timer is armed, or it fired and its callback has yet to take the lock, or it is over. */
  datatype Timer = Armed | Fired | Spent

  /** `handle` is persistTimer, as a position in `timers`. */
  datatype Ctl = Ctl(closed: bool, handle: Option<nat>, timers: seq<Timer>)

  ghost predicate WellFormed(c: Ctl) {
    && (c.handle.Some? ==> c.handle.value < |c.timers| && c.timers[c.handle.value] != Spent)
    && (c.closed ==> c.handle.None?)
  }

  predicate HandleArmed(c: Ctl) {
    c.handle.Some? && c.handle.value < |c.timers| && c.timers[c.handle.value] == Armed
  }

  /** Timer.Stop on the handle, if any: only an armed timer is stopped. */
  function StopHandle(c: Ctl): seq<Timer> {
    if HandleArmed(c) then c.timers[c.handle.value := Spent] else c.timers
  }

  function Schedule(c: Ctl, paths: bool): Ctl {
    if c.closed || !paths then c
    else c.(handle := Some(|c.timers|), timers := StopHandle(c) + [Armed])
  }

  /** The timer's deadline passes. */
  function Fire(c: Ctl, i: nat): Ctl
    requires i < |c.timers|
  {
    c.(timers := c.timers[i := Fired])
  }

  /** The callback's locked part; it goes on to doPersist unless the store is closed. */
  function Callback(c: Ctl, i: nat): Ctl
    requires i < |c.timers|
  {
    c.(handle := None, timers := c.timers[i := Spent])
  }

  /** Flush's locked part; it goes on to doPersist if it stopped an armed timer. */
  function FlushLocked(c: Ctl): Ctl {
    c.(handle := None, timers := StopHandle(c))
  }

  function ShutdownLocked(c: Ctl): Ctl {
    Ctl(true, None, StopHandle(c))
  }

  /** A timer the control has just replaced, flushed or cancelled: stopped if it was armed, else left to its callback. */
  ghost predicate OnlyHandleStopped(before: seq<Timer>, handle: Option<nat>, after: seq<Timer>) {
    && |before| <= |after|
    && forall i :: 0 <= i < |before| ==>
         after[i] == if handle == Some(i) && before[i] == Armed then Spent else before[i]
  }

  /** schedulePersist: with both paths and the store open, one new armed timer holds the handle; else nothing. */
  lemma ScheduleIs(c: Ctl, paths: bool)
    ensures var d := Schedule(c, paths);
            && (c.closed || !paths ==> d == c)
            && (!c.closed && paths ==>
                  && !d.closed && |d.timers| == |c.timers| + 1
                  && d.handle == Some(|c.timers|) && d.timers[|c.timers|] == Armed
                  && OnlyHandleStopped(c.timers, c.handle, d.timers))
  {
  }

  /** Flush and Shutdown stop the armed timer behind the handle, no other, and clear the handle. */
  lemma CancelIs(c: Ctl)
    ensures var f, d := FlushLocked(c), ShutdownLocked(c);
            && f.handle == None && f.closed == c.closed && |f.timers| == |c.timers|
            && OnlyHandleStopped(c.timers, c.handle, f.timers)
            && d.handle == None && d.closed && |d.timers| == |c.timers|
            && OnlyHandleStopped(c.timers, c.handle, d.timers)
            && (HandleArmed(c) <==> exists i :: c.handle == Some(i) && i < |c.timers| && c.timers[i] == Armed)
  {
  }

  /** A callback ends its own timer and clears the handle, whoever it names. */
  lemma CallbackIs(c: Ctl, i: nat)
    requires i < |c.timers|
    ensures var d := Callback(c, i);
            && d.handle == None && d.closed == c.closed && |d.timers| == |c.timers| && d.timers[i] == Spent
            && forall j :: 0 <= j < |c.timers| && j != i ==> d.timers[j] == c.timers[j]
  {
  }

  class TimerObject {
    var status: Timer

    constructor AfterFunc()
      ensures status == Armed
    {
      status := Armed;
    }

    /** Reports whether the call stopped the timer. */
    method Stop() returns (stopped: bool)
      modifies this
      ensures stopped <==> old(status) == Armed
      ensures status == if stopped then Spent else old(status)
    {
      stopped := status == Armed;
      if stopped {
        status := Spent;
      }
    }
  }

  class Control {
    var persistTimer: TimerObject?
    var persistClosed: bool

    ghost var timers: seq<TimerObject>
    ghost var ctl: Ctl

    ghost predicate Valid()
      reads this, timers
    {
      && WellFormed(ctl)
      && ctl.closed == persistClosed
      && |ctl.timers| == |timers|
      && (forall i :: 0 <= i < |timers| ==> timers[i].status == ctl.timers[i])
      && (forall i, j :: 0 <= i < j < |timers| ==> timers[i] != timers[j])
      && (if ctl.handle.None? then persistTimer == null else persistTimer == timers[ctl.handle.value])
    }

    constructor ()
      ensures Valid() && ctl == Ctl(false, None, [])
    {
      persistTimer, persistClosed := null, false;
      timers, ctl := [], Ctl(false, None, []);
    }

    /** schedulePersist */
    method SchedulePersist(rolesPath: string, tokensPath: string)
      requires Valid()
      modifies this, timers
      ensures Valid() && ctl == Schedule(old(ctl), rolesPath != "" && tokensPath != "")
      ensures old(timers) <= timers && (forall o :: o in timers[|old(timers)|..] ==> fresh(o))
    {
      if persistClosed {
        return;
      }
      if rolesPath == "" || tokensPath == "" {
        return;
      }
      ghost var stopped := StopHandle(ctl);
      if persistTimer != null {
        var b := persistTimer.Stop();
      }
      var t := new TimerObject.AfterFunc();
      persistTimer := t;
      timers := timers + [t];
      ctl := Ctl(false, Some(|timers| - 1), stopped + [Armed]);
    }

    /** The callback of timer i under the lock; `closed` is what it read. */
    method RunCallback(t: TimerObject, ghost i: nat) returns (closed: bool)
      requires Valid()
      requires i < |timers| && t == timers[i] && t.status == Fired
      modifies this, t
      ensures Valid() && ctl == Callback(old(ctl), i) && closed == old(ctl).closed
      ensures timers == old(timers)
    {
      persistTimer := null;
      closed := persistClosed;
      t.status := Spent;
      ctl := Callback(ctl, i);
    }

    /** Flush up to its unlock; `pending` tells it to call doPersist. */
    method FlushLock() returns (pending: bool)
      requires Valid()
      modifies this, timers
      ensures Valid() && ctl == FlushLocked(old(ctl)) && pending == HandleArmed(old(ctl))
      ensures timers == old(timers)
    {
      pending := false;
      ghost var c := ctl;
      if persistTimer != null {
        var stopped := persistTimer.Stop();
        if stopped {
          pending := true;
        }
        persistTimer := null;
      }
      ctl := FlushLocked(c);
    }

    /** Shutdown up to its unlock. */
    method ShutdownLock()
      requires Valid()
      modifies this, timers
      ensures Valid() && ctl == ShutdownLocked(old(ctl))
      ensures timers == old(timers)
    {
      persistClosed := true;
      ghost var c := ctl;
      if persistTimer != null {
        var b := persistTimer.Stop();
        persistTimer := null;
      }
      ctl := ShutdownLocked(c);
    }
  }
}
