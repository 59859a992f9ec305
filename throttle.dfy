/**
 * The streaming throttle `useThrottledValue` of
 * src/components/thread/markdown-text.tsx: a rapidly changing string is meant
 * to be shown at most once per interval, and a single pending timer always
 * shows the freshest value when it fires.  `Step` is the code as written;
 * `StepCleared` also clears a pending timer on an immediate update, which is
 * what the once-per-interval promise needs.
 *
 * Time is a parameter of every event instead of a read of the clock, and the
 * timer firing is an event of its own.  The pure functions below are the
 * state machine; class `ThrottledValue` is the hook's mutable state, and each
 * of its methods is proved to make exactly the move the functions describe.
 */
module Throttle {

  /** The interval the hook uses when none is given, and the one the markdown view passes. */
  const DefaultIntervalMs: nat := 100

  /**
   * The hook's state: `display` is `displayValue`, `latest` is
   * `latestValue.current`, `interval` the `intervalMs` of the latest render,
   * `lastUpdate` is `lastUpdateTime.current`, `pending` says that
   * `pendingUpdate.current` holds a timer, `due` is the earliest time that
   * timer can fire, and `disposed` says the component has been unmounted.
   */
  datatype State = State(
    display: string,
    latest: string,
    interval: nat,
    lastUpdate: nat,
    pending: bool,
    due: nat,
    disposed: bool)

  /** The invariant the source relies on: with no timer pending, the display is up to date. */
  predicate Converged(s: State) {
    !s.pending ==> s.display == s.latest
  }

  /**
   * The layout effect, run at time `now` for the render of `value` with
   * `interval`.  The immediate branch leaves a pending timer set, so that timer
   * can update the display a second time within the same interval (see
   * `AsWrittenUpdatesTwiceAtOnce` and `StepCleared`).
   */
  function Effect(s: State, value: string, interval: nat, now: nat): State {
    var sinceLastUpdate := now - s.lastUpdate;
    if sinceLastUpdate >= interval then
      s.(lastUpdate := now, display := value)
    else if !s.pending then
      s.(pending := true, due := now + (interval - sinceLastUpdate))
    else
      s
  }

  /** First render (the display starts as the value, `lastUpdateTime` as 0), then its effect. */
  function OnMount(value: string, interval: nat, now: nat): State {
    var initial := State(value, value, interval, 0, false, 0, false);
    Effect(initial, value, interval, now)
  }

  /**
   * A later render: `latestValue` is refreshed every time; the effect runs only
   * when its dependencies `[value, intervalMs]` differ from the previous render's.
   */
  function OnRender(s: State, value: string, interval: nat, now: nat): State
    requires !s.disposed
  {
    var rendered := s.(latest := value, interval := interval);
    if value != s.latest || interval != s.interval then Effect(rendered, value, interval, now)
    else rendered
  }

  /**
   * The timer queue reaching time `now`: a timer that is still set (not cleared
   * by unmounting) and whose delay has elapsed runs its callback, which clears
   * the marker, records the fire time and shows the value current at that time.
   */
  function OnTimer(s: State, now: nat): State {
    if s.pending && !s.disposed && s.due <= now then
      s.(pending := false, lastUpdate := now, display := s.latest)
    else
      s
  }

  /** Unmounting: the cleanup clears the timer, so it never fires. */
  function OnUnmount(s: State): State {
    s.(disposed := true)
  }

  datatype Event =
    | Render(value: string, interval: nat, now: nat)
    | TimerDue(now: nat)
    | Unmount

  /** One event.  React never renders an unmounted component, so such a render has no effect. */
  function Step(s: State, e: Event): State {
    match e
    case Render(value, interval, now) => if s.disposed then s else OnRender(s, value, interval, now)
    case TimerDue(now) => OnTimer(s, now)
    case Unmount => OnUnmount(s)
  }

  /** A sequence of events, in order. */
  function Run(s: State, events: seq<Event>): State
    decreases |events|
  {
    if |events| == 0 then s else Run(Step(s, events[0]), events[1..])
  }

  /** The clock after an event: the event's time, or the old clock for an unmount. */
  function ClockAfter(clock: nat, e: Event): nat {
    match e
    case Render(_, _, now) => now
    case TimerDue(now) => now
    case Unmount => clock
  }

  /** The clock after a sequence of events. */
  function FinalClock(clock: nat, events: seq<Event>): nat
    decreases |events|
  {
    if |events| == 0 then clock else FinalClock(ClockAfter(clock, events[0]), events[1..])
  }

  /** Event times never go back, starting from `clock`. */
  predicate Monotone(clock: nat, events: seq<Event>)
    decreases |events|
  {
    |events| == 0 || (clock <= ClockAfter(clock, events[0]) && Monotone(ClockAfter(clock, events[0]), events[1..]))
  }

  /** Every render passes the same interval. */
  predicate KeepsInterval(interval: nat, events: seq<Event>) {
    forall i :: 0 <= i < |events| && events[i].Render? ==> events[i].interval == interval
  }

  /** A pending timer is due exactly one interval after the last update. */
  predicate Paced(s: State) {
    s.pending ==> s.due == s.lastUpdate + s.interval
  }

  /**
   * Whether event `e` makes the hook call `setDisplayValue`: a render with
   * changed dependencies once an interval has passed, or a firing timer.
   */
  predicate Updates(s: State, e: Event) {
    match e
    case Render(value, interval, now) =>
      !s.disposed && (value != s.latest || interval != s.interval) && now - s.lastUpdate >= interval
    case TimerDue(now) => s.pending && !s.disposed && s.due <= now
    case Unmount => false
  }

  /**
   * The corrected step: as `Step`, except that an immediate update by a render
   * also clears a timer still pending, which the source does not do.
   */
  function StepCleared(s: State, e: Event): State {
    var r := Step(s, e);
    if e.Render? && Updates(s, e) then r.(pending := false) else r
  }

  /** A sequence of events under the corrected step. */
  function RunCleared(s: State, events: seq<Event>): State
    decreases |events|
  {
    if |events| == 0 then s else RunCleared(StepCleared(s, events[0]), events[1..])
  }

  /** The times of the updates a sequence of events makes under the corrected step, in order. */
  function UpdateTimes(s: State, events: seq<Event>): seq<nat>
    decreases |events|
  {
    if |events| == 0 then []
    else
      var first := match events[0]
        case Render(_, _, now) => if Updates(s, events[0]) then [now] else []
        case TimerDue(now) => if Updates(s, events[0]) then [now] else []
        case Unmount => [];
      first + UpdateTimes(StepCleared(s, events[0]), events[1..])
  }

  /** Each time is at least `gap` after the one before it, and the first at least `gap` after `from`. */
  predicate Spaced(times: seq<nat>, from: nat, gap: nat) {
    && (|times| > 0 ==> from + gap <= times[0])
    && (forall i :: 0 < i < |times| ==> times[i - 1] + gap <= times[i])
  }

  /**
   * Timing invariant under a monotone clock: the last update lies in the past
   * and a pending timer is due at most one interval after the last update.
   */
  predicate Timely(s: State, clock: nat) {
    s.lastUpdate <= clock && (s.pending ==> s.due <= s.lastUpdate + s.interval)
  }

  /**
   * Mounting shows the first value at once, whatever the time.  Because
   * `lastUpdateTime` starts at 0, a mount at any `now >= interval` takes the
   * immediate branch; an earlier one schedules a timer for time `interval`.
   */
  lemma MountShowsFirstValue(value: string, interval: nat, now: nat)
    ensures var s := OnMount(value, interval, now);
      && s.display == value && s.latest == value && !s.disposed
      && Converged(s) && Timely(s, now) && Paced(s)
      && (now >= interval ==> !s.pending && s.lastUpdate == now)
      && (now < interval ==> s.pending && s.due == interval && s.lastUpdate == 0)
  {
  }

  /**
   * What one render does.  An immediate update happens exactly when at least
   * one interval has passed since the last update, and it shows the new value
   * and records `now`, leaving a pending timer set.  Otherwise a timer is
   * scheduled only if none is pending, for `interval - elapsed` from now, a
   * delay in (0, interval] when the clock has not gone back; a pending timer is
   * never replaced nor cleared.
   */
  lemma RenderDecision(s: State, value: string, interval: nat, now: nat)
    requires !s.disposed && (value != s.latest || interval != s.interval)
    ensures var r := OnRender(s, value, interval, now);
      && r.latest == value
      && (now - s.lastUpdate >= interval ==>
            r.lastUpdate == now && r.display == value && r.pending == s.pending && r.due == s.due)
      && (now - s.lastUpdate < interval ==> r.display == s.display && r.lastUpdate == s.lastUpdate && r.pending)
      && (now - s.lastUpdate < interval && !s.pending ==>
            r.due - now == interval - (now - s.lastUpdate) && now < r.due
            && (s.lastUpdate <= now ==> r.due - now <= interval))
      && (s.pending ==> r.pending && r.due == s.due)
  {
  }

  /**
   * A firing timer shows the latest value as of the firing, not the value of
   * the render that scheduled it, clears the marker and records the fire time.
   */
  lemma TimerShowsLatest(s: State, now: nat)
    requires s.pending && !s.disposed && s.due <= now
    ensures var r := OnTimer(s, now);
      r.display == s.latest && !r.pending && r.lastUpdate == now && r.latest == s.latest
  {
  }

  /** Each event either leaves the display alone or makes it the latest value (never a stale one). */
  lemma StepShowsOnlyLatest(s: State, e: Event)
    ensures var r := Step(s, e); r.display == s.display || r.display == r.latest
  {
  }

  /** The convergence invariant holds after every single event. */
  lemma StepKeepsConverged(s: State, e: Event)
    requires Converged(s)
    ensures Converged(Step(s, e))
  {
  }

  /** The convergence invariant holds after any sequence of events. */
  lemma {:induction false} RunKeepsConverged(s: State, events: seq<Event>)
    requires Converged(s)
    ensures Converged(Run(s, events))
    decreases |events|
  {
    if |events| > 0 {
      StepKeepsConverged(s, events[0]);
      RunKeepsConverged(Step(s, events[0]), events[1..]);
    }
  }

  /** After unmounting, no sequence of events changes the display. */
  lemma {:induction false} UnmountFreezesDisplay(s: State, events: seq<Event>)
    requires s.disposed
    ensures Run(s, events).display == s.display && Run(s, events).disposed
    decreases |events|
  {
    if |events| > 0 {
      UnmountFreezesDisplay(Step(s, events[0]), events[1..]);
    }
  }

  /** One event, with a clock that does not go back and an unchanged interval, keeps `Timely`. */
  lemma StepKeepsTimely(s: State, clock: nat, e: Event)
    requires Timely(s, clock) && clock <= ClockAfter(clock, e)
    requires e.Render? ==> e.interval == s.interval
    ensures Timely(Step(s, e), ClockAfter(clock, e)) && Step(s, e).interval == s.interval
  {
  }

  /** `Timely` holds along any monotone sequence of events that keeps the interval. */
  lemma {:induction false} RunKeepsTimely(s: State, clock: nat, events: seq<Event>)
    requires Timely(s, clock) && Monotone(clock, events) && KeepsInterval(s.interval, events)
    ensures Timely(Run(s, events), FinalClock(clock, events)) && Run(s, events).interval == s.interval
    decreases |events|
  {
    if |events| > 0 {
      StepKeepsTimely(s, clock, events[0]);
      var rest := events[1..];
      assert forall i :: 0 <= i < |rest| ==> rest[i] == events[i + 1];
      RunKeepsTimely(Step(s, events[0]), ClockAfter(clock, events[0]), rest);
    }
  }

  /**
   * Under the corrected step, one event keeps `Paced` when it keeps the
   * interval.  An update happens at least one interval after the last one and
   * records its time; any other event leaves the display and the last update
   * time alone.
   */
  lemma StepKeepsPaced(s: State, e: Event)
    requires Paced(s)
    requires e.Render? ==> e.interval == s.interval
    ensures var r := StepCleared(s, e);
      && Paced(r) && r.interval == s.interval
      && (Updates(s, e) ==> s.lastUpdate + s.interval <= e.now && r.lastUpdate == e.now && r.display == r.latest)
      && (!Updates(s, e) ==> r.display == s.display && r.lastUpdate == s.lastUpdate)
  {
  }

  /**
   * At most one update per interval, under the corrected step: along any
   * sequence of events that keeps the interval, every update comes at least
   * one interval after the previous one (the first at least one interval after
   * the last update before them).
   */
  lemma {:induction false} UpdatesAtMostOncePerInterval(s: State, events: seq<Event>)
    requires Paced(s) && KeepsInterval(s.interval, events)
    ensures Spaced(UpdateTimes(s, events), s.lastUpdate, s.interval)
    decreases |events|
  {
    if |events| > 0 {
      var e, rest := events[0], events[1..];
      StepKeepsPaced(s, e);
      assert forall i :: 0 <= i < |rest| ==> rest[i] == events[i + 1];
      UpdatesAtMostOncePerInterval(StepCleared(s, e), rest);
    }
  }

  /**
   * The source as written updates twice at one instant.  Mounted with "a" at
   * 1000 and an interval of 100, the render of "b" at 1050 schedules a timer
   * for 1100; the render of "c" at 1100 shows "c" at once and leaves that timer
   * set; the render of "d" at 1100 waits for it; and the timer, firing at 1100,
   * shows "d".  Each render here has changed dependencies, so its effect runs.
   */
  lemma AsWrittenUpdatesTwiceAtOnce()
    ensures var mounted := OnMount("a", 100, 1000);
      var b := Run(mounted, [Render("b", 100, 1050)]);
      var c := Run(mounted, [Render("b", 100, 1050), Render("c", 100, 1100)]);
      var d := Run(mounted, [Render("b", 100, 1050), Render("c", 100, 1100), Render("d", 100, 1100)]);
      var fired := Run(mounted, [Render("b", 100, 1050), Render("c", 100, 1100), Render("d", 100, 1100), TimerDue(1100)]);
      && mounted.display == "a" && mounted.lastUpdate == 1000
      && b.display == "a" && b.pending && b.due == 1100
      && c.display == "c" && c.lastUpdate == 1100 && c.pending && !Paced(c)
      && d.display == "c" && d.pending
      && fired.display == "d" && fired.lastUpdate == 1100
  {
  }

  /** The same events with the timer cleared: "d" waits a full interval, until 1200. */
  lemma ClearedTimerDefersSecondUpdate()
    ensures var events := [Render("b", 100, 1050), Render("c", 100, 1100), Render("d", 100, 1100), TimerDue(1100)];
      var s := RunCleared(OnMount("a", 100, 1000), events);
      && s.display == "c" && s.pending && s.due == 1200
      && OnTimer(s, 1200).display == "d"
  {
  }

  /**
   * Convergence: after any monotone stream of updates with a fixed interval,
   * once the stream has been quiet for one interval the timer (if one is
   * pending) has fired and the display shows the last value received.
   */
  lemma SettlesWithinInterval(s: State, clock: nat, events: seq<Event>, t: nat)
    requires Converged(s) && Timely(s, clock)
    requires Monotone(clock, events) && KeepsInterval(s.interval, events)
    requires !Run(s, events).disposed
    requires FinalClock(clock, events) + s.interval <= t
    ensures var settled := OnTimer(Run(s, events), t);
      settled.display == Run(s, events).latest && !settled.pending
  {
    RunKeepsConverged(s, events);
    RunKeepsTimely(s, clock, events);
  }

  /**
   * The hook's state for one mounted component.  Fields mirror the hook's
   * state and refs; `dueTime` is when the pending timer is due.
   */
  class ThrottledValue {
    var displayValue: string
    var latestValue: string
    var intervalMs: nat
    var lastUpdateTime: nat
    var pendingUpdate: bool
    var dueTime: nat
    var disposed: bool

    /** The state as a value of the state machine. */
    function Snapshot(): State
      reads this
    {
      State(displayValue, latestValue, intervalMs, lastUpdateTime, pendingUpdate, dueTime, disposed)
    }

    ghost predicate Valid()
      reads this
    {
      Converged(Snapshot())
    }

    /** Mounting with `value` at time `now`: the first render and its effect. */
    constructor (value: string, intervalMs: nat, now: nat)
      ensures Valid()
      ensures Snapshot() == OnMount(value, intervalMs, now)
      ensures displayValue == value && !disposed
    {
      displayValue := value;
      latestValue := value;
      this.intervalMs := intervalMs;
      lastUpdateTime := 0;
      pendingUpdate := false;
      dueTime := 0;
      disposed := false;
      new;
      RunEffect(value, intervalMs, now);
    }

    /** The body of the first layout effect. */
    method RunEffect(value: string, intervalMs: nat, now: nat)
      modifies this
      ensures Snapshot() == Effect(old(Snapshot()), value, intervalMs, now)
    {
      var timeSinceLastUpdate := now - lastUpdateTime;
      if timeSinceLastUpdate >= intervalMs {
        lastUpdateTime := now;
        displayValue := value;
      } else if !pendingUpdate {
        var delay := intervalMs - timeSinceLastUpdate;
        pendingUpdate := true;
        dueTime := now + delay;
      }
    }

    /** A re-render with `value` and `intervalMs` at time `now`. */
    method Render(value: string, intervalMs: nat, now: nat)
      requires Valid() && !disposed
      modifies this
      ensures Valid()
      ensures Snapshot() == OnRender(old(Snapshot()), value, intervalMs, now)
      ensures latestValue == value
      ensures displayValue == old(displayValue) || displayValue == value
      ensures old(pendingUpdate) ==> pendingUpdate && dueTime == old(dueTime)
    {
      var depsChanged := value != latestValue || intervalMs != this.intervalMs;
      latestValue := value;
      this.intervalMs := intervalMs;
      if depsChanged {
        RunEffect(value, intervalMs, now);
      }
    }

    /** The timer queue reaching time `now`; the pending timer runs if it is due and was not cleared. */
    method TimerDue(now: nat)
      requires Valid()
      modifies this
      ensures Valid()
      ensures Snapshot() == OnTimer(old(Snapshot()), now)
      ensures old(disposed) ==> displayValue == old(displayValue)
      ensures old(pendingUpdate) && !old(disposed) && old(dueTime) <= now ==>
        displayValue == latestValue && !pendingUpdate && lastUpdateTime == now
    {
      if pendingUpdate && !disposed && dueTime <= now {
        pendingUpdate := false;
        lastUpdateTime := now;
        displayValue := latestValue;
      }
    }

    /** Unmounting: the cleanup clears the pending timer. */
    method Unmount()
      requires Valid()
      modifies this
      ensures Valid()
      ensures Snapshot() == OnUnmount(old(Snapshot()))
      ensures disposed && displayValue == old(displayValue)
    {
      disposed := true;
    }
  }

  /** A short stream at 100 ms: the first value shows at once, later ones wait for the timer. */
  method StreamScenario() {
    var t := new ThrottledValue("", DefaultIntervalMs, 1000);
    assert t.displayValue == "" && !t.pendingUpdate;
    t.Render("a", DefaultIntervalMs, 1010);
    assert t.displayValue == "" && t.pendingUpdate && t.dueTime == 1100;
    t.Render("ab", DefaultIntervalMs, 1020);
    assert t.displayValue == "" && t.dueTime == 1100;
    t.TimerDue(1050);
    assert t.displayValue == "";
    t.TimerDue(1100);
    assert t.displayValue == "ab" && !t.pendingUpdate;
  }

  /** The class as written shows "c" and then "d" at the same instant, as `AsWrittenUpdatesTwiceAtOnce` says. */
  method DoubleUpdateScenario() {
    var t := new ThrottledValue("a", 100, 1000);
    t.Render("b", 100, 1050);
    t.Render("c", 100, 1100);
    assert t.displayValue == "c" && t.pendingUpdate && t.dueTime == 1100;
    t.Render("d", 100, 1100);
    t.TimerDue(1100);
    assert t.displayValue == "d" && t.lastUpdateTime == 1100;
  }
}
