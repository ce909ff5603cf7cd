/**
 * The project's cached daemon handle: a single slot holding at most one
 * daemon, stamped with the time it was created and recycled on the first
 * access after it has grown older than a fixed timeout.
 */
module DaemonCache {
  import opened Wrappers

  /**
   * A daemon handle. Constructing a daemon is modelled as drawing the next
   * number from a counter, so every construction yields a new handle.
   */
  type Handle = nat

  /** `timedelta(minutes=1)` in microseconds, the resolution of Python's datetime. */
  const OneMinute: int := 60 * 1000 * 1000

  class Project {
    /** The cached handle, `_daemon_instance`. */
    var daemonInstance: Option<Handle>
    /** The creation time of the cached handle, `_daemon_start`, in microseconds. */
    var daemonStart: Option<int>
    /** The maximum age of a handle that may be returned, `_daemon_timeout`. */
    var daemonTimeout: int
    /** The handle the next daemon construction yields; all handles so far are below it. */
    var nextHandle: Handle
    /** The handles whose `cleanup()` has been called, in call order. */
    ghost var cleanedUp: seq<Handle>

    /** The handles constructed and not yet cleaned up. */
    ghost function Live(): set<Handle>
      reads this
    {
      set h: Handle | h < nextHandle && h !in cleanedUp
    }

    ghost predicate Valid()
      reads this
    {
      && daemonTimeout == OneMinute
      // at most one daemon is alive, and it is the cached one
      && Live() == (if daemonInstance.Some? then {daemonInstance.value} else {})
      && (daemonInstance.Some? ==> daemonStart.Some?)
      // only constructed handles are cleaned up, each at most once
      && (forall i :: 0 <= i < |cleanedUp| ==> cleanedUp[i] < nextHandle)
      && (forall i, j :: 0 <= i < j < |cleanedUp| ==> cleanedUp[i] != cleanedUp[j])
    }

    /** `Project.__init__`: no daemon yet, and a one-minute timeout. */
    constructor ()
      ensures Valid()
      ensures daemonInstance == None && daemonStart == None
      ensures daemonTimeout == OneMinute
      ensures nextHandle == 0 && cleanedUp == []
    {
      daemonInstance := None;
      daemonStart := None;
      daemonTimeout := OneMinute;
      nextHandle := 0;
      cleanedUp := [];
      new;
      assert Live() == {};
    }

    /**
     * `_daemon()`, with the clock reading `now` as a parameter. `depth` is
     * how many times the method re-entered itself.
     */
    method Daemon(now: int) returns (h: Handle, ghost depth: nat)
      requires Valid()
      modifies this`daemonInstance, this`daemonStart, this`nextHandle, this`cleanedUp
      decreases if daemonInstance.None? then 0 else 1
      ensures Valid()
      // the returned handle is the cached one, and it is not older than the timeout
      ensures daemonInstance == Some(h) && daemonStart.Some?
      ensures now - daemonStart.value <= daemonTimeout
      ensures depth <= 1
      // empty slot: a new daemon, created now
      ensures old(daemonInstance).None? ==>
        && h == old(nextHandle) && nextHandle == old(nextHandle) + 1
        && daemonStart == Some(now)
        && cleanedUp == old(cleanedUp) && depth == 0
      // young enough: the cached daemon, nothing changed
      ensures old(daemonInstance).Some? && now - old(daemonStart).value <= daemonTimeout ==>
        && h == old(daemonInstance).value
        && daemonStart == old(daemonStart) && nextHandle == old(nextHandle)
        && cleanedUp == old(cleanedUp) && depth == 0
      // too old: cleaned up once and replaced by a new daemon, created now
      ensures old(daemonInstance).Some? && now - old(daemonStart).value > daemonTimeout ==>
        && cleanedUp == old(cleanedUp) + [old(daemonInstance).value]
        && h == old(nextHandle) && h != old(daemonInstance).value
        && nextHandle == old(nextHandle) + 1
        && daemonStart == Some(now) && depth == 1
    {
      if daemonInstance.None? {
        daemonStart := Some(now);
        daemonInstance := Some(nextHandle);
        nextHandle := nextHandle + 1;
        assert Live() == {nextHandle - 1};
        depth := 0;
      } else if now - daemonStart.value > daemonTimeout {
        // cleanup() on the expired daemon, then the slot is cleared
        ghost var expired := daemonInstance.value;
        ghost var before := cleanedUp;
        assert forall x: Handle :: x < nextHandle && x !in before ==> x in Live();
        cleanedUp := cleanedUp + [daemonInstance.value];
        daemonInstance := None;
        forall x: Handle | x < nextHandle
          ensures x in cleanedUp
        {
          assert x in before || x == expired;
        }
        assert Live() == {};
        ghost var d;
        h, d := Daemon(now);
        depth := d + 1;
        return;
      } else {
        depth := 0;
      }
      h := daemonInstance.value;
    }
  }

  /**
   * Two requests: the second gets the same daemon exactly when it comes
   * within the timeout of that daemon's creation.
   */
  method RequestTwice(p: Project, first: int, second: int) returns (h1: Handle, h2: Handle, ghost created: int)
    requires p.Valid()
    modifies p`daemonInstance, p`daemonStart, p`nextHandle, p`cleanedUp
    ensures p.Valid()
    ensures created == (if old(p.daemonInstance).Some? && first - old(p.daemonStart).value <= OneMinute
                        then old(p.daemonStart).value else first)
    ensures first - created <= OneMinute
    ensures h1 == h2 <==> second - created <= OneMinute
    ensures h1 != h2 ==> |p.cleanedUp| > 0 && p.cleanedUp[|p.cleanedUp| - 1] == h1
  {
    ghost var d;
    h1, d := p.Daemon(first);
    created := p.daemonStart.value;
    h2, d := p.Daemon(second);
  }

  /**
   * The timeout counts from creation, not from last use: requests at 0, 50
   * and 70 seconds get the same daemon twice, then a new one, although the
   * last use was only 20 seconds earlier.
   */
  method TimeoutFromCreation() returns (h1: Handle, h2: Handle, h3: Handle)
    ensures h1 == h2 && h3 != h2
  {
    var p := new Project();
    ghost var d;
    h1, d := p.Daemon(0);
    h2, d := p.Daemon(50 * 1000 * 1000);
    h3, d := p.Daemon(70 * 1000 * 1000);
    assert p.cleanedUp == [h1];
  }
}
