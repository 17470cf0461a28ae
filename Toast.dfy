/** The toast hook of frontend/src/Toast.jsx: `useToast` keeps the toast on screen, the time of
    the last accepted call, the message currently blocked from repeating and the pending dismiss
    timer; `showToast` throttles and de-duplicates, `removeToast` clears. The browser's clock and
    its timer queue are explicit: `now` is passed in, and a pending timeout is a timer id with
    its due time until the browser runs it. */
module Toast {
  import opened Maybe

  /** The minimum gap between two accepted `showToast` calls, in milliseconds. */
  const ThrottleMillis: int := 500
  /** How long after an accepted call its message stays blocked from repeating. */
  const DismissMillis: int := 3400
  /** The `type` a toast gets when `showToast` is called without one. */
  const DefaultType := "info"

  /** An id `setTimeout` hands out; browsers use positive integers. */
  type TimerId = nat

  /** The value of the `toast` state: `{ id, message, type }`. */
  datatype ToastItem = ToastItem(id: int, message: string, kind: string)

  /** Everything `useToast` keeps between calls, with the timeouts it has scheduled and not yet
      seen run or cancelled. */
  datatype HookState = HookState(
    toast: Option<ToastItem>,
    lastCallTime: int,
    currentMessage: Option<string>,
    dismissTimer: Option<TimerId>,
    timers: map<TimerId, int>,
    nextTimer: TimerId)

  /** The state on first render: no toast, `lastCallTime` 0, nothing blocked, no timer. */
  const Initial := HookState(None, 0, None, None, map[], 1)

  /** `clearTimeout` of the timer the ref holds, if any (clearing a timer that already ran does
      nothing). */
  function CancelDismiss(timers: map<TimerId, int>, dismissTimer: Option<TimerId>): map<TimerId, int> {
    if dismissTimer.Some? then timers - {dismissTimer.value} else timers
  }

  /** Whether `showToast(message)` at `now` gets past the throttle and the repeat check. */
  predicate Accepts(st: HookState, message: string, now: int) {
    now - st.lastCallTime >= ThrottleMillis && st.currentMessage != Some(message)
  }

  /** `showToast(message, type)` at time `now`. */
  function Show(st: HookState, message: string, kind: Option<string>, now: int): HookState {
    if !Accepts(st, message, now) then st
    else
      var t := st.nextTimer;
      HookState(Some(ToastItem(now, message, if kind.Some? then kind.value else DefaultType)),
                now, Some(message), Some(t),
                CancelDismiss(st.timers, st.dismissTimer)[t := now + DismissMillis], t + 1)
  }

  /** `removeToast()`: the ref keeps the id of the cancelled timer. */
  function Remove(st: HookState): HookState {
    st.(toast := None, currentMessage := None, timers := CancelDismiss(st.timers, st.dismissTimer))
  }

  /** The browser runs timeout `t` at `now`, if it is pending and due: its callback clears the
      blocked message. */
  function Fire(st: HookState, t: TimerId, now: int): HookState {
    if t in st.timers && now >= st.timers[t] then st.(currentMessage := None, timers := st.timers - {t})
    else st
  }

  /** What `useToast` keeps true between events: at most one timeout is pending, the one the ref
      holds, due `DismissMillis` after the last accepted call; a message is blocked exactly while
      that timeout is pending, and it is then the message on screen; the toast on screen carries
      the time of the last accepted call as its id. */
  ghost predicate HookInvariant(st: HookState) {
    && (st.dismissTimer.None? ==> st.timers == map[])
    && (st.dismissTimer.Some? ==> st.timers.Keys <= {st.dismissTimer.value} && st.dismissTimer.value < st.nextTimer)
    && (forall t :: t in st.timers ==> st.timers[t] == st.lastCallTime + DismissMillis)
    && (st.currentMessage.Some? <==> st.timers != map[])
    && (st.currentMessage.Some? ==> st.toast.Some? && st.toast.value.message == st.currentMessage.value)
    && (st.toast.Some? ==> st.toast.value.id == st.lastCallTime)
  }

  lemma InitialInvariant()
    ensures HookInvariant(Initial)
    ensures Initial.toast.None? && Initial.lastCallTime == 0 && Initial.currentMessage.None?
  {
  }

  /** A call is ignored, leaving every part of the state as it was, exactly when it comes less
      than 500 ms after the last accepted call or repeats the blocked message. */
  lemma ShowIgnored(st: HookState, message: string, kind: Option<string>, now: int)
    ensures Show(st, message, kind, now) == st <==>
      now - st.lastCallTime < ThrottleMillis || st.currentMessage == Some(message)
  {
  }

  /** An accepted call records `now` and the message, puts `{ id: now, message, type }` on screen
      with `type` defaulting to "info", cancels the earlier dismiss timer and leaves exactly one
      timeout pending, its own, due 3400 ms later. */
  lemma ShowAccepted(st: HookState, message: string, kind: Option<string>, now: int)
    requires HookInvariant(st) && Accepts(st, message, now)
    ensures var r := Show(st, message, kind, now);
      && r.lastCallTime == now && r.currentMessage == Some(message)
      && r.toast == Some(ToastItem(now, message, if kind.Some? then kind.value else DefaultType))
      && r.dismissTimer.Some? && r.timers == map[r.dismissTimer.value := now + DismissMillis]
      && (st.dismissTimer.Some? ==> st.dismissTimer.value !in r.timers)
  {
    var r := Show(st, message, kind, now);
    assert CancelDismiss(st.timers, st.dismissTimer) == map[];
  }

  lemma ShowKeepsInvariant(st: HookState, message: string, kind: Option<string>, now: int)
    requires HookInvariant(st)
    ensures HookInvariant(Show(st, message, kind, now))
  {
    if Accepts(st, message, now) {
      ShowAccepted(st, message, kind, now);
      var r := Show(st, message, kind, now);
      assert r.dismissTimer.value in r.timers;
    }
  }

  /** `removeToast` takes the toast off screen, unblocks the message and leaves no timeout
      pending; the throttle is not reset. */
  lemma RemoveOutcome(st: HookState)
    requires HookInvariant(st)
    ensures var r := Remove(st);
      && HookInvariant(r)
      && r.toast.None? && r.currentMessage.None? && r.timers == map[]
      && r.lastCallTime == st.lastCallTime
  {
    assert CancelDismiss(st.timers, st.dismissTimer) == map[];
  }

  /** A timeout that runs clears the blocked message, and only once it is due: never earlier
      than 3400 ms after the last accepted call. The toast stays on screen. A timeout that was
      cancelled never runs. */
  lemma FireOutcome(st: HookState, t: TimerId, now: int)
    requires HookInvariant(st)
    ensures var r := Fire(st, t, now);
      && HookInvariant(r)
      && r.toast == st.toast && r.lastCallTime == st.lastCallTime
      && (st.currentMessage.Some? && r.currentMessage.None? ==> now >= st.lastCallTime + DismissMillis)
      && (st.dismissTimer.None? || t != st.dismissTimer.value ==> r == st)
      && (t in st.timers && now >= st.timers[t] ==>
            r.currentMessage.None? && r.timers == map[] && r.dismissTimer == st.dismissTimer)
      && (t !in st.timers || now < st.timers[t] ==> r == st)
  {
    var r := Fire(st, t, now);
    if t in st.timers && now >= st.timers[t] {
      assert r.timers == map[];
    }
  }

  /** An event the hook sees: a call of `showToast`, a call of `removeToast`, or the browser
      running a timeout. */
  datatype Event =
    | ShowCall(message: string, kind: Option<string>, at: int)
    | RemoveCall
    | TimerRuns(timer: TimerId, at: int)

  function Step(st: HookState, e: Event): HookState {
    match e
    case ShowCall(message, kind, at) => Show(st, message, kind, at)
    case RemoveCall => Remove(st)
    case TimerRuns(t, at) => Fire(st, t, at)
  }

  /** The state after a run of events. */
  function Run(st: HookState, events: seq<Event>): HookState
    decreases |events|
  {
    if events == [] then st else Run(Step(st, events[0]), events[1..])
  }

  /** The times of the `showToast` calls in a run that were accepted. */
  function AcceptedTimes(st: HookState, events: seq<Event>): seq<int>
    decreases |events|
  {
    if events == [] then []
    else
      var e := events[0];
      var rest := AcceptedTimes(Step(st, e), events[1..]);
      if e.ShowCall? && Accepts(st, e.message, e.at) then [e.at] + rest else rest
  }

  /** Every event keeps the hook's invariant, over any run. */
  lemma {:induction false} RunKeepsInvariant(st: HookState, events: seq<Event>)
    requires HookInvariant(st)
    ensures HookInvariant(Run(st, events))
    decreases |events|
  {
    if events != [] {
      match events[0] {
        case ShowCall(message, kind, at) => ShowKeepsInvariant(st, message, kind, at);
        case RemoveCall => RemoveOutcome(st);
        case TimerRuns(t, at) => FireOutcome(st, t, at);
      }
      RunKeepsInvariant(Step(st, events[0]), events[1..]);
    }
  }

  /** The throttle over any run of events, whatever the clock does: accepted calls are at least
      500 ms apart, the first at least 500 ms after the last call accepted before the run, and
      `lastCallTime` ends at the last accepted time (nothing but an accepted call moves it). */
  lemma {:induction false} AcceptedCallsAreSpaced(st: HookState, events: seq<Event>)
    ensures var times := AcceptedTimes(st, events);
      && (forall i :: 0 < i < |times| ==> times[i] - times[i - 1] >= ThrottleMillis)
      && (|times| > 0 ==> times[0] - st.lastCallTime >= ThrottleMillis)
      && Run(st, events).lastCallTime == (if |times| > 0 then times[|times| - 1] else st.lastCallTime)
    decreases |events|
  {
    if events != [] {
      var e := events[0];
      var next := Step(st, e);
      AcceptedCallsAreSpaced(next, events[1..]);
      var rest := AcceptedTimes(next, events[1..]);
      if e.ShowCall? && Accepts(st, e.message, e.at) {
        assert next.lastCallTime == e.at;
        var times := [e.at] + rest;
        forall i | 0 < i < |times| ensures times[i] - times[i - 1] >= ThrottleMillis {
          if i > 1 { assert times[i] == rest[i - 1] && times[i - 1] == rest[i - 2]; }
        }
      } else {
        assert next.lastCallTime == st.lastCallTime;
      }
    }
  }

  /** The same message twice in quick succession shows once; a different message within 500 ms
      is dropped too; once the first dismiss timeout has run, the message may show again. */
  lemma RepeatScenario(m: string, other: string)
    requires m != other
    ensures var s1 := Show(Initial, m, None, 10000);
      && s1.toast == Some(ToastItem(10000, m, "info"))
      && Show(s1, m, Some("error"), 11000) == s1
      && Show(s1, other, None, 10200) == s1
      && var s2 := Fire(s1, s1.dismissTimer.value, 13400);
         && s2.currentMessage.None?
         && Show(s2, m, Some("error"), 13500).toast == Some(ToastItem(13500, m, "error"))
  {
  }

  // ---------------------------------------------------------------------------------------
  // Presentation: which of the four styles a toast gets.

  datatype Style = Success | Error | Warning | Info

  /** `typeStyles[type] || typeStyles.info`: the four known types pick their own style; any
      other type falls back to the info style. */
  function StyleFor(kind: string): (s: Style)
    ensures kind == "success" <==> s == Success
    ensures kind == "error" <==> s == Error
    ensures kind == "warning" <==> s == Warning
    ensures kind !in {"success", "error", "warning"} <==> s == Info
  {
    if kind == "success" then Success
    else if kind == "error" then Error
    else if kind == "warning" then Warning
    else Info
  }

  /** `useToast` with its refs and state as fields. */
  class ToastHook {
    var toast: Option<ToastItem>
    var lastCallTime: int
    var currentMessage: Option<string>
    var dismissTimer: Option<TimerId>
    var timers: map<TimerId, int>
    var nextTimer: TimerId

    function State(): HookState
      reads this
    {
      HookState(toast, lastCallTime, currentMessage, dismissTimer, timers, nextTimer)
    }

    ghost predicate Valid()
      reads this
    {
      HookInvariant(State())
    }

    constructor ()
      ensures Valid() && State() == Initial
    {
      toast := None;
      lastCallTime := 0;
      currentMessage := None;
      dismissTimer := None;
      timers := map[];
      nextTimer := 1;
    }

    method ShowToast(message: string, kind: Option<string>, now: int)
      requires Valid()
      modifies this
      ensures Valid()
      ensures State() == Show(old(State()), message, kind, now)
    {
      ShowKeepsInvariant(State(), message, kind, now);
      if now - lastCallTime < ThrottleMillis {
        return;
      }
      if currentMessage == Some(message) {
        return;
      }
      lastCallTime := now;
      currentMessage := Some(message);
      if dismissTimer.Some? {
        timers := timers - {dismissTimer.value};
      }
      var id := now;
      toast := Some(ToastItem(id, message, if kind.Some? then kind.value else DefaultType));
      var t := nextTimer;
      nextTimer := nextTimer + 1;
      timers := timers[t := now + DismissMillis];
      dismissTimer := Some(t);
    }

    method RemoveToast()
      requires Valid()
      modifies this
      ensures Valid()
      ensures State() == Remove(old(State()))
    {
      RemoveOutcome(State());
      toast := None;
      currentMessage := None;
      if dismissTimer.Some? {
        timers := timers - {dismissTimer.value};
      }
    }

    /** The browser runs timeout `t` at `now`. */
    method TimerFires(t: TimerId, now: int)
      requires Valid()
      modifies this
      ensures Valid()
      ensures State() == Fire(old(State()), t, now)
    {
      FireOutcome(State(), t, now);
      if t in timers && now >= timers[t] {
        timers := timers - {t};
        currentMessage := None;
      }
    }
  }
}
