/**
 * The coalescing of clipboard events: the reducer (src/hooks/clipboardEventReducer.ts) and the
 * timers that drive it (src/hooks/useClipboardEventStream.ts).
 */
module ClipboardEvents {
  import opened JsString
  import opened Throttle

  // ---------- the reducer ----------

  datatype State = State(
    lastLocalFetchMs: Option<int>,
    localFlushScheduled: bool,
    pendingLocalEntryIds: seq<string>,
    lastRemoteInvalidateMs: Option<int>,
    remoteInvalidateScheduled: bool)

  datatype Effect =
    | FlushLocalEntries(entryIds: seq<string>)
    | ScheduleLocalFlush(delayMs: int)
    | InvalidateRemote
    | ScheduleRemoteInvalidate(delayMs: int)

  datatype Event =
    | IncomingPending
    | NewContent(entryId: string, origin: string)
    | TransferStatusChanged
    | TransferProgress
    | OtherEvent

  const INITIAL := State(None, false, [], None, false)

  function FlushClipboardLocal(state: State, now: int): (State, seq<Effect>) {
    var pending := state.pendingLocalEntryIds;
    (state.(localFlushScheduled := false,
            lastLocalFetchMs := if |pending| > 0 then Some(now) else state.lastLocalFetchMs,
            pendingLocalEntryIds := []),
     if |pending| > 0 then [FlushLocalEntries(pending)] else [])
  }

  function FlushClipboardRemote(state: State, now: int): (State, seq<Effect>) {
    (state.(remoteInvalidateScheduled := false, lastRemoteInvalidateMs := Some(now)), [InvalidateRemote])
  }

  /** Whether at least `throttle` has passed since `last`; forever has passed since nothing. */
  predicate Elapsed(last: Option<int>, now: int, throttle: int) {
    last.Some? ==> now - last.value >= throttle
  }

  function ReduceLocalNewContent(entryId: string, state: State, now: int, throttle: int): (State, seq<Effect>) {
    var pending := if entryId in state.pendingLocalEntryIds then state.pendingLocalEntryIds
                   else state.pendingLocalEntryIds + [entryId];
    if Elapsed(state.lastLocalFetchMs, now, throttle) then
      FlushClipboardLocal(state.(localFlushScheduled := false, pendingLocalEntryIds := pending), now)
    else if !state.localFlushScheduled then
      (state.(localFlushScheduled := true, pendingLocalEntryIds := pending),
       [ScheduleLocalFlush(throttle - (now - state.lastLocalFetchMs.value))])
    else
      (state.(pendingLocalEntryIds := pending), [])
  }

  function ReduceRemoteNewContent(state: State, now: int, throttle: int): (State, seq<Effect>) {
    if Elapsed(state.lastRemoteInvalidateMs, now, throttle) then
      (state.(remoteInvalidateScheduled := false, lastRemoteInvalidateMs := Some(now)), [InvalidateRemote])
    else if !state.remoteInvalidateScheduled then
      (state.(remoteInvalidateScheduled := true),
       [ScheduleRemoteInvalidate(throttle - (now - state.lastRemoteInvalidateMs.value))])
    else
      (state, [])
  }

  function ReduceClipboardRealtimeEvent(event: Event, state: State, now: int, throttle: int): (State, seq<Effect>) {
    match event
    case NewContent(entryId, origin) =>
      if origin == "local" then ReduceLocalNewContent(entryId, state, now, throttle)
      else ReduceRemoteNewContent(state, now, throttle)
    case _ => (state, [])
  }

  // ---------- the timers ----------

  /** Reducer, timers (the time each armed one is due) and what has happened on the two channels. */
  datatype World = World(state: State, localTimer: Option<int>, remoteTimer: Option<int>, localLog: Log, remoteLog: Log)

  const START := World(INITIAL, None, None, [], [])

  function ApplyEffect(w: World, effect: Effect, now: int): World {
    match effect
    case FlushLocalEntries(ids) => w.(localTimer := None, localLog := w.localLog + [Served(ids, now)])
    case ScheduleLocalFlush(delay) => if w.localTimer.Some? then w else w.(localTimer := Some(now + delay))
    case InvalidateRemote =>
      w.(remoteTimer := None, remoteLog := w.remoteLog + [Served(Distinct(Waiting(w.remoteLog)), now)])
    case ScheduleRemoteInvalidate(delay) => if w.remoteTimer.Some? then w else w.(remoteTimer := Some(now + delay))
  }

  function ApplyEffects(w: World, effects: seq<Effect>, now: int): World
    decreases |effects|
  {
    if effects == [] then w else ApplyEffects(ApplyEffect(w, effects[0], now), effects[1..], now)
  }

  datatype Step = Receive(event: Event) | LocalTimerFires | RemoteTimerFires

  /** A timer that is armed fires some time after it is due, never before. */
  predicate Enabled(w: World, step: Step, now: int) {
    match step
    case Receive(_) => true
    case LocalTimerFires => w.localTimer.Some? && w.localTimer.value <= now
    case RemoteTimerFires => w.remoteTimer.Some? && w.remoteTimer.value <= now
  }

  /** The arrival, as the two logs record it. */
  function Recorded(w: World, event: Event, now: int): World {
    match event
    case NewContent(entryId, origin) =>
      if origin == "local" then w.(localLog := w.localLog + [Arrived(entryId, now)])
      else w.(remoteLog := w.remoteLog + [Arrived(entryId, now)])
    case _ => w
  }

  function Next(w: World, step: Step, now: int, throttle: nat): World {
    match step
    case Receive(event) =>
      var (state, effects) := ReduceClipboardRealtimeEvent(event, w.state, now, throttle);
      ApplyEffects(Recorded(w, event, now).(state := state), effects, now)
    case LocalTimerFires =>
      var (state, effects) := FlushClipboardLocal(w.state, now);
      ApplyEffects(w.(localTimer := None, state := state), effects, now)
    case RemoteTimerFires =>
      var (state, effects) := FlushClipboardRemote(w.state, now);
      ApplyEffects(w.(remoteTimer := None, state := state), effects, now)
  }

  /** The closure of `createClipboardEventReducer`. */
  class Reducer {
    const throttleMs: nat
    var state: State

    constructor (throttleMs: nat)
      ensures this.throttleMs == throttleMs && state == INITIAL
    {
      this.throttleMs, state := throttleMs, INITIAL;
    }

    method Reduce(event: Event, now: int) returns (effects: seq<Effect>)
      modifies this
      ensures (state, effects) == ReduceClipboardRealtimeEvent(event, old(state), now, throttleMs)
    {
      var (next, result) := ReduceClipboardRealtimeEvent(event, state, now, throttleMs);
      state, effects := next, result;
    }

    method FlushLocal(now: int) returns (effects: seq<Effect>)
      modifies this
      ensures (state, effects) == FlushClipboardLocal(old(state), now)
    {
      var (next, result) := FlushClipboardLocal(state, now);
      state, effects := next, result;
    }

    method FlushRemote(now: int) returns (effects: seq<Effect>)
      modifies this
      ensures (state, effects) == FlushClipboardRemote(old(state), now)
    {
      var (next, result) := FlushClipboardRemote(state, now);
      state, effects := next, result;
    }
  }

  /** The effect of the hook: the subscription with its two timers. */
  class EventStream {
    const reducer: Reducer
    var localFlushTimer: Option<int>
    var remoteInvalidateTimer: Option<int>
    ghost var localLog: Log
    ghost var remoteLog: Log

    constructor (throttleMs: nat)
      ensures fresh(reducer) && reducer.throttleMs == throttleMs && Current() == START
    {
      reducer := new Reducer(throttleMs);
      localFlushTimer, remoteInvalidateTimer := None, None;
      localLog, remoteLog := [], [];
    }

    ghost function Current(): World
      reads this, reducer
    {
      World(reducer.state, localFlushTimer, remoteInvalidateTimer, localLog, remoteLog)
    }

    method ApplyAll(effects: seq<Effect>, now: int)
      modifies this
      ensures Current() == ApplyEffects(old(Current()), effects, now)
    {
      var i := 0;
      while i < |effects|
        invariant 0 <= i <= |effects|
        invariant ApplyEffects(Current(), effects[i..], now) == ApplyEffects(old(Current()), effects, now)
      {
        assert effects[i..][0] == effects[i] && effects[i..][1..] == effects[i + 1..];
        match effects[i] {
          case FlushLocalEntries(ids) =>
            if localFlushTimer != None {
              localFlushTimer := None;
            }
            localLog := localLog + [Served(ids, now)];
          case ScheduleLocalFlush(delayMs) =>
            if localFlushTimer == None {
              localFlushTimer := Some(now + delayMs);
            }
          case InvalidateRemote =>
            if remoteInvalidateTimer != None {
              remoteInvalidateTimer := None;
            }
            remoteLog := remoteLog + [Served(Distinct(Waiting(remoteLog)), now)];
          case ScheduleRemoteInvalidate(delayMs) =>
            if remoteInvalidateTimer == None {
              remoteInvalidateTimer := Some(now + delayMs);
            }
        }
        i := i + 1;
      }
    }

    method Handle(event: Event, now: int)
      modifies this, reducer
      ensures Current() == Next(old(Current()), Receive(event), now, reducer.throttleMs)
    {
      var effects := reducer.Reduce(event, now);
      if event.NewContent? {
        if event.origin == "local" {
          localLog := localLog + [Arrived(event.entryId, now)];
        } else {
          remoteLog := remoteLog + [Arrived(event.entryId, now)];
        }
      }
      ApplyAll(effects, now);
    }

    method LocalTimer(now: int)
      requires Enabled(Current(), LocalTimerFires, now)
      modifies this, reducer
      ensures Current() == Next(old(Current()), LocalTimerFires, now, reducer.throttleMs)
    {
      localFlushTimer := None;
      var effects := reducer.FlushLocal(now);
      ApplyAll(effects, now);
    }

    method RemoteTimer(now: int)
      requires Enabled(Current(), RemoteTimerFires, now)
      modifies this, reducer
      ensures Current() == Next(old(Current()), RemoteTimerFires, now, reducer.throttleMs)
    {
      remoteInvalidateTimer := None;
      var effects := reducer.FlushRemote(now);
      ApplyAll(effects, now);
    }
  }

  // ---------- runs ----------

  datatype Timed = Timed(step: Step, at: int)

  function After(run: seq<Timed>, throttle: nat): World {
    if run == [] then START
    else Next(After(run[..|run| - 1], throttle), run[|run| - 1].step, run[|run| - 1].at, throttle)
  }

  /** The clock never goes back and timers never fire early. */
  ghost predicate IsRun(run: seq<Timed>, throttle: nat) {
    run == [] ||
    (var n := |run| - 1;
     && IsRun(run[..n], throttle)
     && Enabled(After(run[..n], throttle), run[n].step, run[n].at)
     && (n > 0 ==> run[n - 1].at <= run[n].at))
  }

  /** No armed timer is ever more than `late` behind. */
  ghost predicate LateAtMost(run: seq<Timed>, throttle: nat, late: nat) {
    run == [] ||
    (var n := |run| - 1;
     var w := After(run[..n], throttle);
     && LateAtMost(run[..n], throttle, late)
     && (w.localTimer.Some? ==> run[n].at <= w.localTimer.value + late)
     && (w.remoteTimer.Some? ==> run[n].at <= w.remoteTimer.value + late))
  }

  /** What every reachable state satisfies. */
  ghost predicate Inv(w: World, throttle: nat, clock: int) {
    && Channel(w.localLog, w.state.lastLocalFetchMs, w.localTimer, throttle, clock)
    && (w.state.localFlushScheduled <==> w.localTimer.Some?)
    && w.state.pendingLocalEntryIds == Distinct(Waiting(w.localLog))
    && Channel(w.remoteLog, w.state.lastRemoteInvalidateMs, w.remoteTimer, throttle, clock)
    && (w.state.remoteInvalidateScheduled <==> w.remoteTimer.Some?)
  }

  lemma ClockMoves(log: Log, last: Option<int>, timer: Option<int>, throttle: nat, clock: int, now: int)
    requires Channel(log, last, timer, throttle, clock) && clock <= now
    ensures Channel(log, last, timer, throttle, now)
  {
  }

  lemma OneEffect(w: World, effect: Effect, now: int)
    ensures ApplyEffects(w, [effect], now) == ApplyEffect(w, effect, now) && ApplyEffects(w, [], now) == w
  {
  }

  lemma DistinctWith(marks: Log, m: Mark)
    requires m.Arrived? && forall x :: x in marks ==> x.Arrived?
    ensures Distinct(marks + [m]) == if m.id in Distinct(marks) then Distinct(marks) else Distinct(marks) + [m.id]
  {
    Appended(marks, m);
  }

  function WithPending(pending: seq<string>, id: string): seq<string> {
    if id in pending then pending else pending + [id]
  }

  /** What one local arrival does to reducer and timer together. */
  lemma LocalArrivalGives(w: World, id: string, now: int, throttle: nat)
    requires w.state.localFlushScheduled <==> w.localTimer.Some?
    ensures var pending := WithPending(w.state.pendingLocalEntryIds, id);
      Next(w, Receive(NewContent(id, "local")), now, throttle) ==
      if Elapsed(w.state.lastLocalFetchMs, now, throttle) then
        w.(state := w.state.(localFlushScheduled := false, lastLocalFetchMs := Some(now), pendingLocalEntryIds := []),
           localTimer := None,
           localLog := w.localLog + [Arrived(id, now)] + [Served(pending, now)])
      else
        w.(state := w.state.(localFlushScheduled := true, pendingLocalEntryIds := pending),
           localTimer := if w.localTimer.Some? then w.localTimer
                         else Some(now + (throttle - (now - w.state.lastLocalFetchMs.value))),
           localLog := w.localLog + [Arrived(id, now)])
  {
    hide ApplyEffects;
    var (state, effects) := ReduceLocalNewContent(id, w.state, now, throttle);
    var r := Recorded(w, NewContent(id, "local"), now).(state := state);
    OneEffect(r, if effects == [] then InvalidateRemote else effects[0], now);
  }

  lemma RemoteArrivalGives(w: World, id: string, origin: string, now: int, throttle: nat)
    requires origin != "local" && (w.state.remoteInvalidateScheduled <==> w.remoteTimer.Some?)
    ensures var log := w.remoteLog + [Arrived(id, now)];
      Next(w, Receive(NewContent(id, origin)), now, throttle) ==
      if Elapsed(w.state.lastRemoteInvalidateMs, now, throttle) then
        w.(state := w.state.(remoteInvalidateScheduled := false, lastRemoteInvalidateMs := Some(now)),
           remoteTimer := None,
           remoteLog := log + [Served(Distinct(Waiting(log)), now)])
      else
        w.(state := w.state.(remoteInvalidateScheduled := true),
           remoteTimer := if w.remoteTimer.Some? then w.remoteTimer
                          else Some(now + (throttle - (now - w.state.lastRemoteInvalidateMs.value))),
           remoteLog := log)
  {
    hide ApplyEffects;
    var (state, effects) := ReduceRemoteNewContent(w.state, now, throttle);
    var r := Recorded(w, NewContent(id, origin), now).(state := state);
    OneEffect(r, if effects == [] then InvalidateRemote else effects[0], now);
  }

  lemma TimersGive(w: World, now: int, throttle: nat)
    ensures w.state.pendingLocalEntryIds != [] ==>
              Next(w, LocalTimerFires, now, throttle) ==
              w.(state := w.state.(localFlushScheduled := false, lastLocalFetchMs := Some(now),
                                   pendingLocalEntryIds := []),
                 localTimer := None,
                 localLog := w.localLog + [Served(w.state.pendingLocalEntryIds, now)])
    ensures Next(w, RemoteTimerFires, now, throttle) ==
            w.(state := w.state.(remoteInvalidateScheduled := false, lastRemoteInvalidateMs := Some(now)),
               remoteTimer := None,
               remoteLog := w.remoteLog + [Served(Distinct(Waiting(w.remoteLog)), now)])
  {
    hide ApplyEffects;
    var (state, effects) := FlushClipboardLocal(w.state, now);
    if effects != [] {
      OneEffect(w.(localTimer := None, state := state), effects[0], now);
    }
    OneEffect(w.(remoteTimer := None, state := FlushClipboardRemote(w.state, now).0), InvalidateRemote, now);
  }

  lemma OtherEventsIgnored(w: World, event: Event, now: int, throttle: nat)
    requires !event.NewContent?
    ensures Next(w, Receive(event), now, throttle) == w
  {
  }

  lemma SomethingWaits(log: Log)
    ensures Waiting(log) != [] ==> Distinct(Waiting(log)) != []
  {
  }

  lemma NothingWaits()
    ensures Distinct([]) == [] && Waiting([]) == []
  {
  }

  /** The first promise of the coalescer: its invariant survives every step it can take. */
  lemma StepKeepsInv(w: World, step: Step, clock: int, now: int, throttle: nat)
    requires Inv(w, throttle, clock) && clock <= now && Enabled(w, step, now)
    ensures Inv(Next(w, step, now, throttle), throttle, now)
  {
    hide Waiting, Distinct, WellBatched, LastServed, Ordered, Next;
    var s := w.state;
    ClockMoves(w.remoteLog, s.lastRemoteInvalidateMs, w.remoteTimer, throttle, clock, now);
    ClockMoves(w.localLog, s.lastLocalFetchMs, w.localTimer, throttle, clock, now);
    NothingWaits();
    match step
    case Receive(NewContent(id, origin)) =>
      if origin == "local" {
        LocalArrivalGives(w, id, now, throttle);
        DistinctWith(Waiting(w.localLog), Arrived(id, now));
        if Elapsed(s.lastLocalFetchMs, now, throttle) {
          ArrivesAndServes(w.localLog, s.lastLocalFetchMs, w.localTimer, throttle, clock, id, now);
        } else {
          Waits(w.localLog, s.lastLocalFetchMs, w.localTimer, throttle, clock, id, now,
                Next(w, step, now, throttle).localTimer);
        }
      } else {
        RemoteArrivalGives(w, id, origin, now, throttle);
        if Elapsed(s.lastRemoteInvalidateMs, now, throttle) {
          ArrivesAndServes(w.remoteLog, s.lastRemoteInvalidateMs, w.remoteTimer, throttle, clock, id, now);
        } else {
          Waits(w.remoteLog, s.lastRemoteInvalidateMs, w.remoteTimer, throttle, clock, id, now,
                Next(w, step, now, throttle).remoteTimer);
        }
      }
    case Receive(event) =>
      OtherEventsIgnored(w, event, now, throttle);
    case LocalTimerFires =>
      TimersGive(w, now, throttle);
      SomethingWaits(w.localLog);
      Serves(w.localLog, throttle, clock, now);
    case RemoteTimerFires =>
      TimersGive(w, now, throttle);
      Serves(w.remoteLog, throttle, clock, now);
  }

  // ---------- what every run promises ----------

  function Clock(run: seq<Timed>): int {
    if run == [] then 0 else run[|run| - 1].at
  }

  lemma StartAnyTime(throttle: nat, clock: int)
    ensures Inv(START, throttle, clock)
  {
    NothingWaits();
  }

  lemma {:induction false} RunKeepsInv(run: seq<Timed>, throttle: nat)
    requires IsRun(run, throttle)
    ensures Inv(After(run, throttle), throttle, Clock(run))
  {
    if run == [] {
      NothingWaits();
    } else {
      var n := |run| - 1;
      RunKeepsInv(run[..n], throttle);
      if n == 0 {
        StartAnyTime(throttle, run[0].at);
        StepKeepsInv(START, run[0].step, run[0].at, run[0].at, throttle);
      } else {
        StepKeepsInv(After(run[..n], throttle), run[n].step, run[n - 1].at, run[n].at, throttle);
      }
    }
  }

  /** The scheduled flag, the armed timer and the pending ids always agree. */
  lemma FlagTimerAndPendingAgree(run: seq<Timed>, throttle: nat)
    requires IsRun(run, throttle)
    ensures var w := After(run, throttle);
      && (w.state.localFlushScheduled <==> w.localTimer.Some?)
      && (w.localTimer.Some? <==> w.state.pendingLocalEntryIds != [])
      && (w.state.remoteInvalidateScheduled <==> w.remoteTimer.Some?)
      && forall i, j :: 0 <= i < j < |w.state.pendingLocalEntryIds| ==>
          w.state.pendingLocalEntryIds[i] != w.state.pendingLocalEntryIds[j]
  {
    RunKeepsInv(run, throttle);
    SomethingWaits(After(run, throttle).localLog);
    NothingWaits();
  }

  /** The arrivals a log records. */
  ghost function Arrivals(log: Log): Log {
    if log == [] then []
    else if Last(log).Arrived? then Arrivals(Front(log)) + [Last(log)]
    else Arrivals(Front(log))
  }

  /** The arrivals a run delivers on one of the channels. */
  ghost function Delivered(run: seq<Timed>, local: bool): Log {
    if run == [] then []
    else
      var earlier := Delivered(run[..|run| - 1], local);
      match run[|run| - 1]
      case Timed(Receive(NewContent(id, origin)), at) =>
        if (origin == "local") == local then earlier + [Arrived(id, at)] else earlier
      case _ => earlier
  }

  lemma ArrivalsAppended(log: Log, m: Mark)
    ensures Arrivals(log + [m]) == if m.Arrived? then Arrivals(log) + [m] else Arrivals(log)
  {
    Appended(log, m);
  }

  lemma StepLogs(w: World, step: Step, clock: int, now: int, throttle: nat)
    requires Inv(w, throttle, clock) && clock <= now && Enabled(w, step, now)
    ensures var w' := Next(w, step, now, throttle);
      && Arrivals(w'.localLog) ==
         (if step.Receive? && step.event.NewContent? && step.event.origin == "local"
          then Arrivals(w.localLog) + [Arrived(step.event.entryId, now)] else Arrivals(w.localLog))
      && Arrivals(w'.remoteLog) ==
         if step.Receive? && step.event.NewContent? && step.event.origin != "local"
         then Arrivals(w.remoteLog) + [Arrived(step.event.entryId, now)] else Arrivals(w.remoteLog)
  {
    hide Waiting, Distinct, WellBatched, LastServed, Ordered, Next, Arrivals;
    match step
    case Receive(NewContent(id, origin)) =>
      var log := if origin == "local" then w.localLog else w.remoteLog;
      ArrivalsAppended(log, Arrived(id, now));
      if origin == "local" {
        LocalArrivalGives(w, id, now, throttle);
        ArrivalsAppended(log + [Arrived(id, now)], Served(WithPending(w.state.pendingLocalEntryIds, id), now));
      } else {
        RemoteArrivalGives(w, id, origin, now, throttle);
        ArrivalsAppended(log + [Arrived(id, now)], Served(Distinct(Waiting(log + [Arrived(id, now)])), now));
      }
    case Receive(event) =>
      OtherEventsIgnored(w, event, now, throttle);
    case LocalTimerFires =>
      TimersGive(w, now, throttle);
      SomethingWaits(w.localLog);
      ArrivalsAppended(w.localLog, Served(w.state.pendingLocalEntryIds, now));
    case RemoteTimerFires =>
      TimersGive(w, now, throttle);
      ArrivalsAppended(w.remoteLog, Served(Distinct(Waiting(w.remoteLog)), now));
  }

  /** The logs record exactly the arrivals of the run, in order: what the logs promise is promised of the run. */
  lemma {:induction false} LogsAreFaithful(run: seq<Timed>, throttle: nat)
    requires IsRun(run, throttle)
    ensures Arrivals(After(run, throttle).localLog) == Delivered(run, true)
    ensures Arrivals(After(run, throttle).remoteLog) == Delivered(run, false)
  {
    if run != [] {
      var n := |run| - 1;
      LogsAreFaithful(run[..n], throttle);
      RunKeepsInv(run[..n], throttle);
      if n == 0 {
        StartAnyTime(throttle, run[0].at);
      }
      StepLogs(After(run[..n], throttle), run[n].step,
               if n == 0 then run[n].at else run[n - 1].at, run[n].at, throttle);
    }
  }

  /** While something waits, the timer is armed and due within the throttle of every waiting arrival. */
  lemma WaitingIsDue(log: Log, last: Option<int>, timer: Option<int>, throttle: nat, clock: int)
    requires Channel(log, last, timer, throttle, clock)
    ensures forall m :: m in Waiting(log) ==> timer.Some? && timer.value <= m.at + throttle
  {
    if Waiting(log) != [] {
      LastServedWasLogged(log, clock);
    }
  }

  lemma PromptBatch(log: Log, limit: int, ids: seq<string>, now: int)
    requires Prompt(log, limit) && forall m :: m in Waiting(log) ==> now <= m.at + limit
    ensures Prompt(log + [Served(ids, now)], limit)
  {
    Appended(log, Served(ids, now));
  }

  lemma PromptArrival(log: Log, limit: nat, id: string, now: int)
    requires Prompt(log, limit) && forall m :: m in Waiting(log) ==> now <= m.at + limit
    ensures Prompt(log + [Arrived(id, now)], limit)
    ensures forall m :: m in Waiting(log + [Arrived(id, now)]) ==> now <= m.at + limit
  {
    Appended(log, Arrived(id, now));
  }

  lemma StepIsPrompt(w: World, step: Step, clock: int, now: int, throttle: nat, late: nat)
    requires Inv(w, throttle, clock) && clock <= now && Enabled(w, step, now)
    requires Prompt(w.localLog, throttle + late) && Prompt(w.remoteLog, throttle + late)
    requires w.localTimer.Some? ==> now <= w.localTimer.value + late
    requires w.remoteTimer.Some? ==> now <= w.remoteTimer.value + late
    ensures var w' := Next(w, step, now, throttle);
      Prompt(w'.localLog, throttle + late) && Prompt(w'.remoteLog, throttle + late)
  {
    hide Waiting, Distinct, WellBatched, LastServed, Ordered, Next, Prompt;
    var limit := throttle + late;
    WaitingIsDue(w.localLog, w.state.lastLocalFetchMs, w.localTimer, throttle, clock);
    WaitingIsDue(w.remoteLog, w.state.lastRemoteInvalidateMs, w.remoteTimer, throttle, clock);
    match step
    case Receive(NewContent(id, origin)) =>
      if origin == "local" {
        LocalArrivalGives(w, id, now, throttle);
        PromptArrival(w.localLog, limit, id, now);
        PromptBatch(w.localLog + [Arrived(id, now)], limit, WithPending(w.state.pendingLocalEntryIds, id), now);
      } else {
        var log := w.remoteLog + [Arrived(id, now)];
        RemoteArrivalGives(w, id, origin, now, throttle);
        PromptArrival(w.remoteLog, limit, id, now);
        PromptBatch(log, limit, Distinct(Waiting(log)), now);
      }
    case Receive(event) =>
      OtherEventsIgnored(w, event, now, throttle);
    case LocalTimerFires =>
      TimersGive(w, now, throttle);
      SomethingWaits(w.localLog);
      PromptBatch(w.localLog, limit, w.state.pendingLocalEntryIds, now);
    case RemoteTimerFires =>
      TimersGive(w, now, throttle);
      PromptBatch(w.remoteLog, limit, Distinct(Waiting(w.remoteLog)), now);
  }

  lemma {:induction false} RunIsPrompt(run: seq<Timed>, throttle: nat, late: nat)
    requires IsRun(run, throttle) && LateAtMost(run, throttle, late)
    ensures var w := After(run, throttle); Prompt(w.localLog, throttle + late) && Prompt(w.remoteLog, throttle + late)
  {
    if run != [] {
      var n := |run| - 1;
      RunIsPrompt(run[..n], throttle, late);
      RunKeepsInv(run[..n], throttle);
      if n == 0 {
        StartAnyTime(throttle, run[0].at);
      }
      StepIsPrompt(After(run[..n], throttle), run[n].step,
                   if n == 0 then run[n].at else run[n - 1].at, run[n].at, throttle, late);
    }
  }

  // ---------- the promises, channel by channel ----------

  ghost function ChannelLog(w: World, local: bool): Log {
    if local then w.localLog else w.remoteLog
  }

  ghost function ChannelTimer(w: World, local: bool): Option<int> {
    if local then w.localTimer else w.remoteTimer
  }

  lemma ChannelServes(log: Log, last: Option<int>, timer: Option<int>, throttle: nat, clock: int, late: nat, i: nat)
    requires Channel(log, last, timer, throttle, clock) && Prompt(log, throttle + late)
    requires i < |log| && log[i].Arrived?
    ensures
      || (timer.Some? && timer.value <= log[i].at + throttle && log[i].id in Distinct(Waiting(log)))
      || exists k :: i < k < |log| && log[k].Served? && log[i].id in log[k].ids
          && log[k].at <= log[i].at + throttle + late
  {
    hide WellBatched, Ordered, Prompt, LastServed;
    NoneLost(log, throttle, throttle + late, i);
    WaitingIsDue(log, last, timer, throttle, clock);
  }

  /**
   * Whatever arrives is served: by a batch at most `throttle + late` later, where `late` bounds the
   * lateness of the timers, or it still waits for an armed timer that is due within the throttle.
   */
  lemma EveryArrivalServed(run: seq<Timed>, throttle: nat, late: nat, local: bool, i: nat)
    requires IsRun(run, throttle) && LateAtMost(run, throttle, late)
    requires i < |ChannelLog(After(run, throttle), local)| && ChannelLog(After(run, throttle), local)[i].Arrived?
    ensures var log := ChannelLog(After(run, throttle), local);
      var timer := ChannelTimer(After(run, throttle), local);
      || (timer.Some? && timer.value <= log[i].at + throttle
          && (local ==> log[i].id in After(run, throttle).state.pendingLocalEntryIds))
      || exists k :: i < k < |log| && log[k].Served? && log[i].id in log[k].ids
          && log[k].at <= log[i].at + throttle + late
  {
    var w := After(run, throttle);
    RunKeepsInv(run, throttle);
    RunIsPrompt(run, throttle, late);
    ChannelServes(ChannelLog(w, local), if local then w.state.lastLocalFetchMs else w.state.lastRemoteInvalidateMs,
                  ChannelTimer(w, local), throttle, Clock(run), late, i);
  }

  /** No batch of the log is less than the throttle ago. */
  ghost predicate Quiet(log: Log, throttle: nat, now: int) {
    forall k :: 0 <= k < |log| && log[k].Served? ==> now - log[k].at >= throttle
  }

  /** From `before` to `after` the channel has taken in one arrival, and served it exactly if it was quiet. */
  ghost predicate TakesIn(before: World, after: World, local: bool, id: string, now: int, throttle: nat) {
    var log, log' := ChannelLog(before, local), ChannelLog(after, local);
    && log <= log' && |log'| > |log| && log'[|log|] == Arrived(id, now)
    && (if Quiet(log, throttle, now)
        then |log'| == |log| + 2 && log'[|log| + 1].Served? && log'[|log| + 1].at == now
             && id in log'[|log| + 1].ids && ChannelTimer(after, local).None?
        else |log'| == |log| + 1 && ChannelTimer(after, local).Some?)
  }

  lemma NewestWaits(log: Log, id: string, now: int)
    ensures id in Distinct(Waiting(log + [Arrived(id, now)]))
  {
    Appended(log, Arrived(id, now));
    var marks := Waiting(log + [Arrived(id, now)]);
    assert marks[|marks| - 1] == Arrived(id, now) && marks[|marks| - 1] in marks;
  }

  lemma StepServesAtOnce(w: World, id: string, origin: string, clock: int, now: int, throttle: nat)
    requires Inv(w, throttle, clock) && clock <= now
    ensures var w' := Next(w, Receive(NewContent(id, origin)), now, throttle);
      && TakesIn(w, w', origin == "local", id, now, throttle)
      && ChannelLog(w', origin != "local") == ChannelLog(w, origin != "local")
  {
    hide Waiting, Distinct, WellBatched, LastServed, Ordered, Next;
    QuietExactly(ChannelLog(w, origin == "local"), throttle, clock, now);
    NewestWaits(ChannelLog(w, origin == "local"), id, now);
    if origin == "local" {
      LocalArrivalGives(w, id, now, throttle);
    } else {
      RemoteArrivalGives(w, id, origin, now, throttle);
    }
  }

  /**
   * An arrival is served at once, together with whatever waits, exactly if every batch of its channel is at
   * least the throttle ago; otherwise it only joins what waits for the timer.  The other channel is not touched.
   */
  lemma ServedAtOnceExactly(run: seq<Timed>, throttle: nat, id: string, origin: string)
    requires IsRun(run, throttle) && run != [] && run[|run| - 1].step == Receive(NewContent(id, origin))
    ensures var n := |run| - 1;
      var before, after := After(run[..n], throttle), After(run, throttle);
      && TakesIn(before, after, origin == "local", id, run[n].at, throttle)
      && ChannelLog(after, origin != "local") == ChannelLog(before, origin != "local")
  {
    var n := |run| - 1;
    RunKeepsInv(run[..n], throttle);
    if n == 0 {
      StartAnyTime(throttle, run[0].at);
    }
    hide Inv, TakesIn, Next;
    StepServesAtOnce(After(run[..n], throttle), id, origin, if n == 0 then run[0].at else run[n - 1].at, run[n].at,
                     throttle);
  }

  /** The timer of a channel is due the throttle after its last batch. */
  lemma TimerDueExactly(run: seq<Timed>, throttle: nat, local: bool)
    requires IsRun(run, throttle) && ChannelTimer(After(run, throttle), local).Some?
    ensures var log := ChannelLog(After(run, throttle), local);
      exists k :: 0 <= k < |log| && log[k].Served? && (forall j :: k < j < |log| ==> log[j].Arrived?)
                  && ChannelTimer(After(run, throttle), local) == Some(log[k].at + throttle)
  {
    hide IsRun, After, WellBatched, Ordered, Waiting, Distinct, LastServed;
    RunKeepsInv(run, throttle);
    var k := LastBatch(ChannelLog(After(run, throttle), local));
  }

  /** Even if timers are arbitrarily late, no local id is dropped. */
  lemma NoLocalIdLost(run: seq<Timed>, throttle: nat, i: nat)
    requires IsRun(run, throttle) && i < |After(run, throttle).localLog| && After(run, throttle).localLog[i].Arrived?
    ensures var w := After(run, throttle);
      || w.localLog[i].id in w.state.pendingLocalEntryIds
      || exists k :: i < k < |w.localLog| && w.localLog[k].Served? && w.localLog[i].id in w.localLog[k].ids
  {
    RunKeepsInv(run, throttle);
    NoneLost(After(run, throttle).localLog, throttle, 0, i);
  }

  /** What a batch contains arrived after the batch before it. */
  lemma BatchesAreGenuine(run: seq<Timed>, throttle: nat, local: bool, k: nat, id: string)
    requires IsRun(run, throttle) && k < |ChannelLog(After(run, throttle), local)|
    requires ChannelLog(After(run, throttle), local)[k].Served? && id in ChannelLog(After(run, throttle), local)[k].ids
    ensures var log := ChannelLog(After(run, throttle), local);
      exists i :: 0 <= i < k && log[i].Arrived? && log[i].id == id && forall j :: i < j < k ==> log[j].Arrived?
  {
    RunKeepsInv(run, throttle);
    NoneInvented(ChannelLog(After(run, throttle), local), throttle, k, id);
  }

  /** Batches of one channel are never closer than the throttle, however timers and arrivals race. */
  lemma BatchesKeepDistance(run: seq<Timed>, throttle: nat, local: bool, i: nat, k: nat)
    requires IsRun(run, throttle) && i < k < |ChannelLog(After(run, throttle), local)|
    requires ChannelLog(After(run, throttle), local)[i].Served? && ChannelLog(After(run, throttle), local)[k].Served?
    ensures ChannelLog(After(run, throttle), local)[k].at - ChannelLog(After(run, throttle), local)[i].at >= throttle
  {
    RunKeepsInv(run, throttle);
    KeepDistance(ChannelLog(After(run, throttle), local), throttle, Clock(run), i, k);
  }
}
