/** The idle-restart watchdog (`check_activity` and `restart_program`): every
    request cancels the pending `threading.Timer` and arms a new one
    `server_restart_time` seconds ahead; a timer that runs out replaces the
    process. Time is an integer clock passed to each step. */
module Watchdog {
  import opened Wrappers

  /** The watchdog as a state machine. `Restarted` is terminal: the process image
      has been replaced, and the new process starts again from `Idle`. */
  datatype State = Idle | Armed(deadline: int) | Restarted

  /** What the watchdog observes: a request passing the middleware, the pending
      timer's thread waking up, or `/restart_v2` calling `restart_program`. */
  datatype Event = Request(at: int) | Tick(at: int) | ForceRestart(at: int)

  /** One transition of the watchdog whose restart window is `window`. */
  function Step(s: State, e: Event, window: int): State {
    if s.Restarted? then Restarted
    else
      match e
      case Request(t) => Armed(t + window)
      case Tick(t) => if s.Armed? && t >= s.deadline then Restarted else s
      case ForceRestart(_) => Restarted
  }

  /** The state after the events `es`, starting from a freshly started process. */
  function Run(es: seq<Event>, window: int): State
    decreases |es|
  {
    if es == [] then Idle else Step(Run(es[..|es| - 1], window), es[|es| - 1], window)
  }

  /** Events arrive in time order. */
  ghost predicate Chronological(es: seq<Event>) {
    forall i, j :: 0 <= i < j < |es| ==> es[i].at <= es[j].at
  }

  /** The time of the last request among `es`, if there is one. */
  function LastRequest(es: seq<Event>): (r: Option<int>)
    ensures r.Some? <==> exists i :: 0 <= i < |es| && es[i].Request?
    decreases |es|
  {
    if es == [] then None
    else if es[|es| - 1].Request? then Some(es[|es| - 1].at)
    else LastRequest(es[..|es| - 1])
  }

  /** Every timer wake-up comes less than `window` after some earlier request,
      and nothing forces a restart: the server is never idle for a whole window. */
  ghost predicate Busy(es: seq<Event>, window: int) {
    (forall i :: 0 <= i < |es| ==> !es[i].ForceRestart?) &&
    forall i :: 0 <= i < |es| && es[i].Tick? ==>
      exists j :: 0 <= j < i && es[j].Request? && es[i].at < es[j].at + window
  }

  /** In a chronological trace the last request is the latest one. */
  lemma {:induction false} LastRequestIsLatest(es: seq<Event>, j: int)
    requires Chronological(es)
    requires 0 <= j < |es| && es[j].Request?
    ensures LastRequest(es).Some? && es[j].at <= LastRequest(es).value
    decreases |es|
  {
    if j < |es| - 1 && !es[|es| - 1].Request? {
      var init := es[..|es| - 1];
      assert init[j] == es[j];
      LastRequestIsLatest(init, j);
    }
  }

  /** While the server stays busy the watchdog is armed `window` after the last
      request, and it never restarts. */
  lemma {:induction false} BusyStaysArmed(es: seq<Event>, window: int)
    requires Chronological(es) && Busy(es, window)
    ensures Run(es, window) == match LastRequest(es)
                               case None => Idle
                               case Some(t) => Armed(t + window)
    decreases |es|
  {
    if es != [] {
      var init, e := es[..|es| - 1], es[|es| - 1];
      assert forall i :: 0 <= i < |init| ==> init[i] == es[i];
      BusyStaysArmed(init, window);
      if e.Tick? {
        var j :| 0 <= j < |init| && es[j].Request? && e.at < es[j].at + window;
        LastRequestIsLatest(init, j);
      }
    }
  }

  /** While every timer wake-up comes less than a window after some request, and
      nothing forces a restart, no restart happens. */
  lemma NoRestartWhileBusy(es: seq<Event>, window: int)
    requires Chronological(es) && Busy(es, window)
    ensures Run(es, window) != Restarted
  {
    BusyStaysArmed(es, window);
  }

  /** After a busy period, a timer wake-up a full window after the last request
      restarts the server. */
  lemma IdleWindowRestarts(es: seq<Event>, window: int, t: int)
    requires Chronological(es) && Busy(es, window)
    requires LastRequest(es).Some? && t >= LastRequest(es).value + window
    ensures Run(es + [Tick(t)], window) == Restarted
  {
    BusyStaysArmed(es, window);
    assert (es + [Tick(t)])[..|es|] == es;
  }

  /** A restart happens once: no later event leaves the `Restarted` state. */
  lemma {:induction false} RestartIsFinal(es: seq<Event>, more: seq<Event>, window: int)
    requires Run(es, window) == Restarted
    ensures Run(es + more, window) == Restarted
    decreases |more|
  {
    if more == [] {
      assert es + more == es;
    } else {
      var init := more[..|more| - 1];
      RestartIsFinal(es, init, window);
      assert (es + more)[..|es + more| - 1] == es + init;
    }
  }

  /** `/restart_v2` restarts from any state. */
  lemma ForcedRestart(es: seq<Event>, window: int, t: int)
    ensures Run(es + [ForceRestart(t)], window) == Restarted
  {
  }

  /** A `threading.Timer` the middleware created, with its deadline. */
  datatype TimerStatus = Pending | Cancelled | Fired
  datatype Timer = Timer(deadline: int, status: TimerStatus)

  /** `ts` with the status of its newest timer set to `status`. */
  function MarkLast(ts: seq<Timer>, status: TimerStatus): (r: seq<Timer>)
    requires ts != []
    ensures |r| == |ts| && r[..|ts| - 1] == ts[..|ts| - 1]
    ensures r[|ts| - 1] == Timer(ts[|ts| - 1].deadline, status)
  {
    ts[..|ts| - 1] + [Timer(ts[|ts| - 1].deadline, status)]
  }

  /** The process-wide timer state: every timer ever armed, oldest first (the last
      one is the global `restart_timer`), and whether the process was replaced. */
  class RestartWatchdog {
    const window: int
    var timers: seq<Timer>
    var restarted: bool

    /** Only the timer `restart_timer` refers to can still be pending, and while
        the process lives it is. */
    ghost predicate Valid()
      reads this
    {
      (forall i :: 0 <= i < |timers| - 1 ==> timers[i].status != Pending) &&
      (!restarted && timers != [] ==> timers[|timers| - 1].status == Pending)
    }

    /** The pending timers. */
    function PendingTimers(): (p: set<int>)
      reads this
      requires Valid()
      ensures |p| <= 1
      ensures forall i :: i in p <==> 0 <= i < |timers| && timers[i].status == Pending
    {
      if timers != [] && timers[|timers| - 1].status == Pending then
        assert forall i :: 0 <= i < |timers| && timers[i].status == Pending ==> i == |timers| - 1;
        {|timers| - 1}
      else {}
    }

    /** The state machine this object implements. */
    function State(): State
      reads this
    {
      if restarted then Restarted
      else if timers == [] then Idle
      else Armed(timers[|timers| - 1].deadline)
    }

    constructor (window: int)
      ensures Valid() && this.window == window
      ensures timers == [] && !restarted && State() == Idle
    {
      this.window := window;
      timers, restarted := [], false;
    }

    /** `check_activity`: cancel `restart_timer` if there is one, then arm and
        start a new timer `window` ahead of `now`. */
    method OnRequest(now: int)
      requires Valid()
      modifies this
      ensures Valid()
      ensures State() == Step(old(State()), Request(now), window)
      ensures !old(restarted) ==>
        !restarted &&
        timers == (if old(timers) == [] then [] else MarkLast(old(timers), Cancelled)) + [Timer(now + window, Pending)]
      ensures old(restarted) ==> unchanged(this)
    {
      if restarted {
        return;
      }
      if timers != [] {
        timers := MarkLast(timers, Cancelled);
      }
      timers := timers + [Timer(now + window, Pending)];
    }

    /** The pending timer's thread wakes at `now`: it calls `restart_program`
        when its deadline has passed and nothing cancelled it. */
    method WakeTimer(now: int)
      requires Valid()
      modifies this
      ensures Valid()
      ensures State() == Step(old(State()), Tick(now), window)
      ensures
        var due := !old(restarted) && old(timers) != [] && now >= old(timers)[|old(timers)| - 1].deadline;
        (due ==> restarted && timers == MarkLast(old(timers), Fired)) &&
        (!due ==> unchanged(this))
    {
      if !restarted && timers != [] && now >= timers[|timers| - 1].deadline {
        timers := MarkLast(timers, Fired);
        restarted := true;
      }
    }

    /** `restart_program` called directly, as `/restart_v2` does. */
    method RestartProgram(now: int)
      requires Valid()
      modifies this
      ensures Valid()
      ensures State() == Step(old(State()), ForceRestart(now), window)
      ensures restarted && timers == old(timers)
    {
      restarted := true;
    }
  }
}
