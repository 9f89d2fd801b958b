/**
 * The WebSocket client (src/lib/daemon-ws.ts) and the world around it: sockets, timers and session
 * refreshes.  Only an open socket delivers messages, and `send` does not throw.
 */
module DaemonWs {
  import opened JsString

  type Callback = nat

  datatype Event = Event(topic: string, body: string)

  /** The states of a socket; one that is closing has been closed by the client, and its close event is still to come.
      */
  datatype Ready = Connecting | Open | Closing | Closed

  /** A socket, which of its handlers are still set, and the topics subscribed to on it. */
  datatype Socket = Socket(ready: Ready, onopen: bool, onmessage: bool, onclose: bool, sent: set<string>)

  /** Who waits for a session refresh: `connect`, or the reconnect timer. */
  datatype Origin = ByConnect | ByTimer

  datatype Client = Client(
    ws: Option<nat>,
    wsUrl: Option<string>,
    callbacks: map<string, set<Callback>>,
    activeTopics: set<string>,
    onReconnectCallbacks: set<Callback>,
    hasConnectedOnce: bool,
    reconnectAttempt: nat,
    reconnectTimer: Option<nat>,
    isReconnecting: bool,
    // outside the client
    sockets: map<nat, Socket>,
    nextSocket: nat,
    timers: set<nat>,      // the timers running; timer `t` was set with the delay `delays[t]`
    delays: seq<int>,      // the delays of all timers so far, in milliseconds
    refreshes: map<nat, Origin>,
    nextRefresh: nat,
    delivered: multiset<(Callback, Event)>,
    resynced: multiset<Callback>)

  const INITIAL := Client(None, None, map[], {}, {}, false, 0, None, false, map[], 0, {}, [], map[], 0, multiset{},
                          multiset{})

  const RECONNECT_BASE_DELAY_MS: nat := 1000
  const RECONNECT_MAX_DELAY_MS: nat := 30000
  const MAX_RECONNECT_ATTEMPTS: nat := 10

  /** `random` is what `Math.random()` returns where a step schedules a reconnect. */
  datatype Step =
    | Connect(url: string)
    | Disconnect
    | Reset
    | Subscribe(topics: seq<string>, callback: Callback)
    | Unsubscribe(topics: seq<string>, callback: Callback)
    | OnReconnect(callback: Callback)
    | OffReconnect(callback: Callback)
    | RefreshDone(refresh: nat)
    | SocketFails(refresh: nat, random: real)     // the refresh succeeds, the constructor of the socket throws
    | RefreshFailed(refresh: nat, random: real)
    | SocketOpens(socket: nat)
    | SocketCloses(socket: nat, random: real)
    | Message(socket: nat, event: Option<Event>)   // `None`: not a JSON object
    | TimerFires(timer: nat)

  // ---------- the specification ----------

  predicate IsOpen(c: Client) {
    c.ws.Some? && c.ws.value in c.sockets && c.sockets[c.ws.value].ready == Open
  }

  function TopicSet(topics: seq<string>): set<string> {
    set t | t in topics
  }

  function Sent(c: Client, topics: set<string>): Client {
    if IsOpen(c)
    then c.(sockets := c.sockets[c.ws.value := c.sockets[c.ws.value].(sent := c.sockets[c.ws.value].sent + topics)])
    else c
  }

  function CallbacksOf(callbacks: map<string, set<Callback>>, topic: string): set<Callback> {
    if topic in callbacks then callbacks[topic] else {}
  }

  function WithCallback(callbacks: map<string, set<Callback>>, topics: set<string>, callback: Callback)
    : map<string, set<Callback>>
  {
    map t | t in callbacks.Keys + topics ::
      if t in topics then CallbacksOf(callbacks, t) + {callback} else callbacks[t]
  }

  function WithoutCallback(callbacks: map<string, set<Callback>>, topics: set<string>, callback: Callback)
    : map<string, set<Callback>>
  {
    map t | t in callbacks && (t in topics ==> callbacks[t] - {callback} != {}) ::
      if t in topics then callbacks[t] - {callback} else callbacks[t]
  }

  function Emptied(callbacks: map<string, set<Callback>>, topics: set<string>, callback: Callback): set<string> {
    set t | t in callbacks && t in topics && callbacks[t] - {callback} == {}
  }

  predicate Live(ready: Ready) {
    ready == Connecting || ready == Open
  }

  /** `close()`: the socket closes, and its close event comes later, unless it is closed already. */
  function AfterClose(ready: Ready): Ready {
    if ready == Closed then Closed else Closing
  }

  /** The sockets after the current one has lost every handler and been closed. */
  function Discarding(ws: Option<nat>, sockets: map<nat, Socket>): map<nat, Socket> {
    if ws.Some? && ws.value in sockets
    then sockets[ws.value := Socket(AfterClose(sockets[ws.value].ready), false, false, false, sockets[ws.value].sent)]
    else sockets
  }

  /** `disconnect` and `reset` discard the current socket. */
  function SocketDiscarded(c: Client): Client {
    c.(ws := None, sockets := Discarding(c.ws, c.sockets))
  }

  function ReconnectCancelled(c: Client): Client {
    if c.reconnectTimer.Some? then c.(timers := c.timers - {c.reconnectTimer.value}, reconnectTimer := None) else c
  }

  function Power2(n: nat): nat {
    if n == 0 then 1 else 2 * Power2(n - 1)
  }

  /** The delay of an attempt before the jitter; the first attempt has number one. */
  function BaseDelay(attempt: nat): nat
    requires attempt >= 1
  {
    var doubled := RECONNECT_BASE_DELAY_MS * Power2(attempt - 1);
    if doubled < RECONNECT_MAX_DELAY_MS then doubled else RECONNECT_MAX_DELAY_MS
  }

  function Round(x: real): int {
    (x + 0.5).Floor
  }

  function Jitter(base: real, random: real): real {
    base * 0.1 * (random * 2.0 - 1.0)
  }

  function DelayMs(attempt: nat, random: real): int
    requires attempt >= 1
  {
    var base := BaseDelay(attempt) as real;
    Round(base + Jitter(base, random))
  }

  predicate WillSchedule(c: Client) {
    !c.isReconnecting && c.wsUrl.Some? && c.reconnectAttempt < MAX_RECONNECT_ATTEMPTS
  }

  /** A new timer, for the next attempt. */
  function TimerSet(c: Client, delay: int): Client {
    c.(isReconnecting := true, reconnectAttempt := c.reconnectAttempt + 1,
       reconnectTimer := Some(|c.delays|), timers := c.timers + {|c.delays|}, delays := c.delays + [delay])
  }

  function ScheduleReconnect(c: Client, random: real): Client {
    if WillSchedule(c) then TimerSet(c, DelayMs(c.reconnectAttempt + 1, random)) else c
  }

  function StartRefresh(c: Client, origin: Origin): Client {
    c.(refreshes := c.refreshes[c.nextRefresh := origin], nextRefresh := c.nextRefresh + 1)
  }

  /** The sockets after the current one has lost its `onclose` and been closed. */
  function ClosingOld(ws: Option<nat>, sockets: map<nat, Socket>): map<nat, Socket> {
    if ws.Some? && ws.value in sockets
    then sockets[ws.value := sockets[ws.value].(ready := AfterClose(sockets[ws.value].ready), onclose := false)]
    else sockets
  }

  /** `_openSocket` closes the current socket, without its `onclose`, before it creates a new one. */
  function OldSocketClosed(c: Client): Client {
    c.(sockets := ClosingOld(c.ws, c.sockets))
  }

  function NewSocket(c: Client): Client {
    c.(ws := Some(c.nextSocket), nextSocket := c.nextSocket + 1,
       sockets := c.sockets[c.nextSocket := Socket(Connecting, true, true, true, {})])
  }

  /** The part of `_openSocket` after its `await`. */
  function SocketCreated(c: Client): Client {
    if c.wsUrl.None? then c else NewSocket(OldSocketClosed(c))
  }

  /** Each of some callbacks called once. */
  function Calls(cbs: set<Callback>, event: Event): multiset<(Callback, Event)> {
    multiset(set cb | cb in cbs :: (cb, event))
  }

  function Deliveries(c: Client, event: Event): multiset<(Callback, Event)> {
    if event.topic in c.callbacks then Calls(c.callbacks[event.topic], event) else multiset{}
  }

  function Opened(c: Client): Client {
    var d := c.(hasConnectedOnce := true, reconnectAttempt := 0, isReconnecting := false);
    var e := if d.activeTopics != {} then Sent(d, d.activeTopics) else d;
    if c.hasConnectedOnce then e.(resynced := e.resynced + multiset(e.onReconnectCallbacks)) else e
  }

  function ProgressForgotten(c: Client): Client {
    c.(reconnectAttempt := 0, isReconnecting := false, hasConnectedOnce := false)
  }

  function Connected(c: Client, url: string): Client {
    if IsOpen(c) then c else StartRefresh(c.(wsUrl := Some(url)), ByConnect)
  }

  function Disconnected(c: Client): Client {
    SocketDiscarded(ProgressForgotten(ReconnectCancelled(c))).(wsUrl := None)
  }

  function WasReset(c: Client): Client {
    ProgressForgotten(SocketDiscarded(ReconnectCancelled(c.(wsUrl := None)))
                      .(callbacks := map[], activeTopics := {}, onReconnectCallbacks := {}))
  }

  function Registering(c: Client, topics: set<string>, callback: Callback): Client {
    c.(callbacks := WithCallback(c.callbacks, topics, callback), activeTopics := c.activeTopics + topics)
  }

  function Unregistering(c: Client, topics: set<string>, callback: Callback): Client {
    c.(callbacks := WithoutCallback(c.callbacks, topics, callback),
       activeTopics := c.activeTopics - Emptied(c.callbacks, topics, callback))
  }

  function RefreshEnds(c: Client, r: nat): Client {
    c.(refreshes := c.refreshes - {r})
  }

  /** `_openSocket` has failed: only the reconnect timer tries again. */
  function OpeningFailed(c: Client, origin: Origin, random: real): Client {
    if origin.ByTimer? then ScheduleReconnect(c, random) else c
  }

  function RefreshRefused(c: Client, r: nat, random: real): Client
    requires r in c.refreshes
  {
    OpeningFailed(RefreshEnds(c, r), c.refreshes[r], random)
  }

  function SocketRefused(c: Client, r: nat, random: real): Client
    requires r in c.refreshes
  {
    OpeningFailed(OldSocketClosed(RefreshEnds(c, r)), c.refreshes[r], random)
  }

  function WithReady(c: Client, s: nat, ready: Ready): Client
    requires s in c.sockets
  {
    c.(sockets := c.sockets[s := c.sockets[s].(ready := ready)])
  }

  function SocketOpened(c: Client, s: nat): Client
    requires s in c.sockets
  {
    if c.sockets[s].onopen then Opened(WithReady(c, s, Open)) else WithReady(c, s, Open)
  }

  function SocketClosed(c: Client, s: nat, random: real): Client
    requires s in c.sockets
  {
    if c.sockets[s].onclose then ScheduleReconnect(WithReady(c, s, Closed), random) else WithReady(c, s, Closed)
  }

  function Received(c: Client, s: nat, event: Option<Event>): Client
    requires s in c.sockets
  {
    if c.sockets[s].onmessage && event.Some? then c.(delivered := c.delivered + Deliveries(c, event.value)) else c
  }

  function TimerFired(c: Client, t: nat): Client {
    var d := c.(timers := c.timers - {t}, isReconnecting := false);
    if d.wsUrl.Some? then StartRefresh(d, ByTimer) else d
  }

  predicate Enabled(c: Client, step: Step) {
    match step
    case RefreshDone(r) => r in c.refreshes
    case SocketFails(r, random) => r in c.refreshes && c.wsUrl.Some? && 0.0 <= random < 1.0
    case RefreshFailed(r, random) => r in c.refreshes && 0.0 <= random < 1.0
    case SocketOpens(s) => s in c.sockets && c.sockets[s].ready == Connecting
    case SocketCloses(s, random) => s in c.sockets && c.sockets[s].ready != Closed && 0.0 <= random < 1.0
    case Message(s, _) => s in c.sockets && c.sockets[s].ready == Open
    case TimerFires(t) => t in c.timers
    case _ => true
  }

  function Next(c: Client, step: Step): Client
    requires Enabled(c, step)
  {
    match step
    case Connect(url) => Connected(c, url)
    case Disconnect => Disconnected(c)
    case Reset => WasReset(c)
    case Subscribe(topics, callback) => Sent(Registering(c, TopicSet(topics), callback), TopicSet(topics))
    case Unsubscribe(topics, callback) => Unregistering(c, TopicSet(topics), callback)
    case OnReconnect(callback) => c.(onReconnectCallbacks := c.onReconnectCallbacks + {callback})
    case OffReconnect(callback) => c.(onReconnectCallbacks := c.onReconnectCallbacks - {callback})
    case RefreshDone(r) => SocketCreated(RefreshEnds(c, r))
    case SocketFails(r, random) => SocketRefused(c, r, random)
    case RefreshFailed(r, random) => RefreshRefused(c, r, random)
    case SocketOpens(s) => SocketOpened(c, s)
    case SocketCloses(s, random) => SocketClosed(c, s, random)
    case Message(s, event) => Received(c, s, event)
    case TimerFires(t) => TimerFired(c, t)
  }

  // ---------- runs ----------

  ghost predicate IsRun(c: Client, run: seq<Step>)
    decreases |run|
  {
    run == [] || (Enabled(c, run[0]) && IsRun(Next(c, run[0]), run[1..]))
  }

  ghost function After(c: Client, run: seq<Step>): Client
    requires IsRun(c, run)
    decreases |run|
  {
    if run == [] then c else After(Next(c, run[0]), run[1..])
  }

  /** The active topics are the keys of the callback map, which has no empty set. */
  ghost predicate Registered(c: Client) {
    c.activeTopics == c.callbacks.Keys && forall t :: t in c.callbacks ==> c.callbacks[t] != {}
  }

  /** Only the current socket can be live; it then has all its handlers, and once it is open every active topic has
      been sent on it.  A socket that is closing does not report its end. */
  ghost predicate OneSocketIn(ws: Option<nat>, sockets: map<nat, Socket>, next: nat, topics: set<string>) {
    && (forall s :: s in sockets ==> s < next)
    && (ws.Some? ==> ws.value in sockets)
    && (forall s :: s in sockets && sockets[s].ready == Closing ==> !sockets[s].onclose)
    && (forall s :: s in sockets && Live(sockets[s].ready) ==>
          ws == Some(s) && sockets[s].onopen && sockets[s].onmessage && sockets[s].onclose)
    && (ws.Some? && sockets[ws.value].ready == Open ==> topics <= sockets[ws.value].sent)
  }

  ghost predicate OneSocket(c: Client) {
    OneSocketIn(c.ws, c.sockets, c.nextSocket, c.activeTopics)
  }

  /** Timers and refreshes in flight have been handed out before; attempts are limited. */
  ghost predicate Counted(c: Client) {
    && (forall t :: t in c.timers ==> t < |c.delays|)
    && (forall r :: r in c.refreshes ==> r < c.nextRefresh)
    && c.reconnectAttempt <= MAX_RECONNECT_ATTEMPTS
  }

  /** Holds in every reachable state, whatever is called when. */
  ghost predicate Inv(c: Client) {
    Registered(c) && OneSocket(c) && Counted(c)
  }

  // ---------- delays ----------

  lemma {:induction false} Power2Grows(n: nat)
    ensures Power2(n) >= 1 && (n >= 5 ==> Power2(n) >= 32)
  {
    if n > 0 {
      Power2Grows(n - 1);
      assert Power2(5) == 32;
    }
  }

  /** Within a tenth of the base of the attempt. */
  predicate NearBase(delay: int, attempt: nat) {
    attempt >= 1 && 9 * BaseDelay(attempt) <= 10 * delay <= 11 * BaseDelay(attempt)
  }

  lemma BaseInSeconds(attempt: nat)
    requires attempt >= 1
    ensures BaseDelay(attempt) == 1000 * (BaseDelay(attempt) / 1000) && 1000 <= BaseDelay(attempt) <= 30000
  {
    Power2Grows(attempt - 1);
  }

  lemma RoundBetween(x: real, low: int, high: int)
    requires low as real <= x <= high as real
    ensures low <= Round(x) <= high
  {
  }

  lemma JitteredNearBase(k: nat, base: real, jitter: real)
    requires base == (1000 * k) as real && -(base * 0.1) <= jitter <= base * 0.1
    ensures 900 * k <= Round(base + jitter) <= 1100 * k
  {
    assert (900 * k) as real == base - base * 0.1 && (1100 * k) as real == base + base * 0.1;
    RoundBetween(base + jitter, 900 * k, 1100 * k);
  }

  lemma Scaled(x: real, f: real)
    requires x >= 0.0 && -1.0 <= f <= 1.0
    ensures -x <= x * f <= x
  {
  }

  lemma JitterBounds(base: real, random: real)
    requires base >= 0.0 && 0.0 <= random < 1.0
    ensures -(base * 0.1) <= Jitter(base, random) <= base * 0.1
  {
    Scaled(base * 0.1, random * 2.0 - 1.0);
  }

  /** One second for the first attempt, doubled with each further one, and half a minute from the sixth on. */
  lemma BaseDelays(attempt: nat)
    requires attempt >= 1
    ensures BaseDelay(attempt) == if attempt == 1 then 1000 else if attempt == 2 then 2000 else if attempt == 3
            then 4000
                                  else if attempt == 4 then 8000 else if attempt == 5 then 16000 else 30000
  {
    Power2Grows(attempt - 1);
  }

  /** Every delay is within a tenth of its base, rounding included. */
  lemma DelayNearBase(attempt: nat, random: real)
    requires attempt >= 1 && 0.0 <= random < 1.0
    ensures NearBase(DelayMs(attempt, random), attempt)
  {
    hide BaseDelay, Round, Jitter;
    BaseInSeconds(attempt);
    var base := BaseDelay(attempt) as real;
    JitterBounds(base, random);
    JitteredNearBase(BaseDelay(attempt) / 1000, base, Jitter(base, random));
  }

  lemma JitterIs(base: real, random: real)
    ensures base + Jitter(base, random) == base * (0.9 + 0.2 * random)
  {
    assert base * 0.1 * (random * 2.0 - 1.0) == base * (0.2 * random - 0.1);
  }

  /** The delay is spread evenly from nine to eleven tenths of the base, and rounded to the nearest millisecond. */
  lemma DelaySpreadEvenly(attempt: nat, random: real)
    requires attempt >= 1
    ensures var exact := BaseDelay(attempt) as real * (0.9 + 0.2 * random);
      exact - 0.5 < DelayMs(attempt, random) as real <= exact + 0.5
  {
    hide BaseDelay, Jitter;
    JitterIs(BaseDelay(attempt) as real, random);
  }

  // ---------- what one step does ----------

  ghost predicate SameRegistry(c: Client, d: Client) {
    d.callbacks == c.callbacks && d.activeTopics == c.activeTopics
  }

  /** The steps that set the number of attempts back to zero. */
  predicate Resets(step: Step) {
    step.SocketOpens? || step.Disconnect? || step.Reset?
  }

  /** Either no timer was set, or one more, with the delay of the attempt it begins. */
  ghost predicate Scheduled(c: Client, resets: bool, d: Client) {
    || (d.delays == c.delays && (resets || d.reconnectAttempt == c.reconnectAttempt))
    || (&& !resets && d.reconnectAttempt == c.reconnectAttempt + 1
        && |d.delays| == |c.delays| + 1 && d.delays[..|c.delays|] == c.delays
        && NearBase(d.delays[|c.delays|], d.reconnectAttempt))
  }

  ghost predicate SameHistory(c: Client, d: Client) {
    && d.hasConnectedOnce == c.hasConnectedOnce && d.resynced == c.resynced
    && d.onReconnectCallbacks == c.onReconnectCallbacks
  }

  /** `connected`: what `hasConnectedOnce` is afterwards; the reconnect callbacks are called iff `fires`. */
  ghost predicate Fires(c: Client, connected: bool, fires: bool, d: Client) {
    && d.hasConnectedOnce == connected
    && d.resynced == if fires then c.resynced + multiset(c.onReconnectCallbacks) else c.resynced
  }

  ghost predicate StepDone(c: Client, step: Step, d: Client) {
    && (Registered(c) ==> Registered(d))
    && (Counted(c) ==> Counted(d))
    && Scheduled(c, Resets(step), d)
    && Fires(c, if Resets(step) then step.SocketOpens? else c.hasConnectedOnce,
             step.SocketOpens? && c.hasConnectedOnce, d)
  }

  /** Sockets that differ in nothing but what has been sent on them. */
  ghost predicate SameButSent(before: map<nat, Socket>, after: map<nat, Socket>) {
    && after.Keys == before.Keys
    && forall s :: s in before ==> after[s] == before[s].(sent := after[s].sent)
  }

  lemma SentKeeps(c: Client, topics: set<string>)
    ensures var d := Sent(c, topics); d == c.(sockets := d.sockets) && SameButSent(c.sockets, d.sockets)
  {
  }

  lemma OpenedKeeps(c: Client)
    ensures var d := Opened(c);
      && d == c.(hasConnectedOnce := true, reconnectAttempt := 0, isReconnecting := false, sockets := d.sockets,
                 resynced := d.resynced)
      && d.resynced == (if c.hasConnectedOnce then c.resynced + multiset(c.onReconnectCallbacks) else c.resynced)
      && SameButSent(c.sockets, d.sockets)
  {
    hide Sent;
    var e := c.(hasConnectedOnce := true, reconnectAttempt := 0, isReconnecting := false);
    SentKeeps(e, e.activeTopics);
  }

  lemma ConnectDone(c: Client, url: string)
    ensures StepDone(c, Connect(url), Connected(c, url))
  {
  }

  /** What `disconnect` and `reset` leave alone when they cancel the timer and drop the socket. */
  lemma CancelKeeps(c: Client)
    ensures var d := ReconnectCancelled(c);
      d == c.(timers := d.timers, reconnectTimer := d.reconnectTimer) && d.timers <= c.timers
  {
  }

  lemma DiscardKeeps(c: Client)
    ensures var d := SocketDiscarded(c); d == c.(ws := None, sockets := d.sockets)
  {
  }

  lemma DisconnectDone(c: Client)
    ensures StepDone(c, Disconnect, Disconnected(c))
  {
    hide SocketDiscarded, ReconnectCancelled;
    CancelKeeps(c);
    DiscardKeeps(ProgressForgotten(ReconnectCancelled(c)));
  }

  lemma ResetDone(c: Client)
    ensures StepDone(c, Reset, WasReset(c))
  {
    hide SocketDiscarded, ReconnectCancelled;
    CancelKeeps(c.(wsUrl := None));
    DiscardKeeps(ReconnectCancelled(c.(wsUrl := None)));
  }

  lemma SubscribeDone(c: Client, topics: seq<string>, callback: Callback)
    ensures StepDone(c, Subscribe(topics, callback), Sent(Registering(c, TopicSet(topics), callback), TopicSet(topics)))
  {
    assert WithCallback(c.callbacks, TopicSet(topics), callback).Keys == c.callbacks.Keys + TopicSet(topics);
  }

  lemma UnsubscribeDone(c: Client, topics: seq<string>, callback: Callback)
    ensures StepDone(c, Unsubscribe(topics, callback), Unregistering(c, TopicSet(topics), callback))
  {
  }

  /** Creating a socket touches nothing but the sockets. */
  lemma CreationKeeps(c: Client)
    ensures var d := OldSocketClosed(c); d == c.(sockets := d.sockets)
    ensures var d := SocketCreated(c); d == c.(ws := d.ws, sockets := d.sockets, nextSocket := d.nextSocket)
  {
  }

  lemma RefreshDoneDone(c: Client, r: nat)
    ensures StepDone(c, RefreshDone(r), SocketCreated(RefreshEnds(c, r)))
  {
    hide SocketCreated;
    CreationKeeps(RefreshEnds(c, r));
  }

  lemma ScheduleDone(c: Client, random: real)
    requires 0.0 <= random < 1.0
    ensures var d := ScheduleReconnect(c, random);
      SameRegistry(c, d) && (Counted(c) ==> Counted(d)) && Scheduled(c, false, d) && SameHistory(c, d)
  {
    hide DelayMs, BaseDelay;
    DelayNearBase(c.reconnectAttempt + 1, random);
  }

  lemma FailureDone(c: Client, origin: Origin, random: real)
    requires 0.0 <= random < 1.0
    ensures var d := OpeningFailed(c, origin, random);
      SameRegistry(c, d) && (Counted(c) ==> Counted(d)) && Scheduled(c, false, d) && SameHistory(c, d)
  {
    hide ScheduleReconnect, NearBase;
    ScheduleDone(c, random);
  }

  lemma RefreshFailedDone(c: Client, r: nat, random: real)
    requires Enabled(c, RefreshFailed(r, random))
    ensures StepDone(c, RefreshFailed(r, random), RefreshRefused(c, r, random))
  {
    hide OpeningFailed, NearBase;
    FailureDone(RefreshEnds(c, r), c.refreshes[r], random);
  }

  lemma SocketFailsDone(c: Client, r: nat, random: real)
    requires Enabled(c, SocketFails(r, random))
    ensures StepDone(c, SocketFails(r, random), SocketRefused(c, r, random))
  {
    hide OpeningFailed, NearBase, OldSocketClosed;
    CreationKeeps(RefreshEnds(c, r));
    FailureDone(OldSocketClosed(RefreshEnds(c, r)), c.refreshes[r], random);
  }

  lemma SocketOpensDone(c: Client, s: nat)
    requires s in c.sockets && c.sockets[s].onopen
    ensures StepDone(c, SocketOpens(s), SocketOpened(c, s))
  {
    hide Opened;
    OpenedKeeps(WithReady(c, s, Open));
  }

  lemma SocketClosesDone(c: Client, s: nat, random: real)
    requires Enabled(c, SocketCloses(s, random))
    ensures StepDone(c, SocketCloses(s, random), SocketClosed(c, s, random))
  {
    hide ScheduleReconnect, NearBase;
    ScheduleDone(WithReady(c, s, Closed), random);
  }

  lemma MessageDone(c: Client, s: nat, event: Option<Event>)
    requires s in c.sockets
    ensures StepDone(c, Message(s, event), Received(c, s, event))
  {
    hide Deliveries;
  }

  lemma TimerFiresDone(c: Client, t: nat)
    ensures StepDone(c, TimerFires(t), TimerFired(c, t))
  {
  }

  lemma StepIsDone(c: Client, step: Step)
    requires OneSocket(c) && Enabled(c, step)
    ensures StepDone(c, step, Next(c, step))
  {
    hide Connected, Disconnected, WasReset, Sent, Registering, Unregistering, SocketCreated, RefreshRefused;
    hide SocketRefused, SocketOpened, SocketClosed, Received, TimerFired, RefreshEnds;
    match step
    case Connect(url) => ConnectDone(c, url);
    case Disconnect => DisconnectDone(c);
    case Reset => ResetDone(c);
    case Subscribe(topics, callback) => SubscribeDone(c, topics, callback);
    case Unsubscribe(topics, callback) => UnsubscribeDone(c, topics, callback);
    case RefreshDone(r) => RefreshDoneDone(c, r);
    case SocketFails(r, random) => SocketFailsDone(c, r, random);
    case RefreshFailed(r, random) => RefreshFailedDone(c, r, random);
    case SocketOpens(s) => SocketOpensDone(c, s);
    case SocketCloses(s, random) => SocketClosesDone(c, s, random);
    case Message(s, event) => MessageDone(c, s, event);
    case TimerFires(t) => TimerFiresDone(c, t);
    case _ =>
  }

  // ---------- one socket ----------

  lemma SubscribeKeepsOneSocket(c: Client, topics: set<string>, callback: Callback)
    requires OneSocket(c)
    ensures OneSocket(Sent(Registering(c, topics, callback), topics))
  {
    hide WithCallback;
  }

  ghost predicate NoneLive(sockets: map<nat, Socket>) {
    forall s :: s in sockets ==> !Live(sockets[s].ready)
  }

  lemma ClosingEndsTheLiveOne(ws: Option<nat>, sockets: map<nat, Socket>, next: nat, topics: set<string>)
    requires OneSocketIn(ws, sockets, next, topics)
    ensures OneSocketIn(None, Discarding(ws, sockets), next, topics) && NoneLive(Discarding(ws, sockets))
    ensures OneSocketIn(ws, ClosingOld(ws, sockets), next, topics) && NoneLive(ClosingOld(ws, sockets))
  {
  }

  lemma DiscardKeepsOneSocket(c: Client)
    requires OneSocket(c)
    ensures OneSocket(SocketDiscarded(c)) && NoneLive(SocketDiscarded(c).sockets)
  {
    ClosingEndsTheLiveOne(c.ws, c.sockets, c.nextSocket, c.activeTopics);
    hide OneSocketIn, NoneLive, Discarding;
  }

  lemma FewerTopics(c: Client, topics: set<string>)
    requires OneSocket(c) && topics <= c.activeTopics
    ensures OneSocketIn(c.ws, c.sockets, c.nextSocket, topics)
  {
  }

  /** After `disconnect` or `reset` there is no live socket. */
  lemma NoSocketLeft(c: Client)
    requires OneSocket(c)
    ensures OneSocket(Disconnected(c)) && NoneLive(Disconnected(c).sockets)
    ensures OneSocket(WasReset(c)) && NoneLive(WasReset(c).sockets)
  {
    hide SocketDiscarded, ReconnectCancelled, NoneLive, OneSocketIn;
    CancelKeeps(c);
    CancelKeeps(c.(wsUrl := None));
    var a := ProgressForgotten(ReconnectCancelled(c));
    var b := ReconnectCancelled(c.(wsUrl := None));
    DiscardKeepsOneSocket(a);
    DiscardKeepsOneSocket(b);
    DiscardKeeps(b);
    FewerTopics(SocketDiscarded(b), {});
  }

  lemma OldCloses(c: Client)
    requires OneSocket(c)
    ensures OneSocket(OldSocketClosed(c)) && NoneLive(OldSocketClosed(c).sockets)
  {
    ClosingEndsTheLiveOne(c.ws, c.sockets, c.nextSocket, c.activeTopics);
    hide OneSocketIn, NoneLive, ClosingOld;
  }

  lemma NewKeepsOneSocket(c: Client)
    requires OneSocket(c) && NoneLive(c.sockets)
    ensures OneSocket(NewSocket(c))
  {
  }

  lemma CreationKeepsOneSocket(c: Client, r: nat)
    requires OneSocket(c)
    ensures OneSocket(OldSocketClosed(RefreshEnds(c, r))) && OneSocket(SocketCreated(RefreshEnds(c, r)))
  {
    var d := RefreshEnds(c, r);
    OldCloses(d);
    hide OldSocketClosed;
    CreationKeeps(d);
    if d.wsUrl.Some? {
      NewKeepsOneSocket(OldSocketClosed(d));
    }
  }

  lemma OpeningKeepsOneSocket(c: Client, s: nat)
    requires OneSocket(c) && Enabled(c, SocketOpens(s))
    ensures OneSocket(SocketOpened(c, s))
  {
    var d := WithReady(c, s, Open);
    assert c.ws == Some(s) && IsOpen(d);
    var e := Opened(d);
    assert e.ws == c.ws && e.nextSocket == c.nextSocket && e.activeTopics == c.activeTopics;
    assert e.sockets == c.sockets[s := c.sockets[s].(ready := Open, sent := e.sockets[s].sent)];
  }

  lemma ClosingKeepsOneSocket(c: Client, s: nat)
    requires OneSocket(c) && s in c.sockets
    ensures OneSocket(WithReady(c, s, Closed))
  {
  }

  lemma StepKeepsOneSocket(c: Client, step: Step)
    requires OneSocket(c) && Enabled(c, step)
    ensures OneSocket(Next(c, step))
  {
    hide WithCallback, WithoutCallback, Emptied, Deliveries, OneSocketIn, Sent, Registering;
    hide Disconnected, WasReset, OldSocketClosed, SocketCreated, SocketOpened, WithReady, WillSchedule, DelayMs;
    match step
    case Disconnect => NoSocketLeft(c);
    case Reset => NoSocketLeft(c);
    case Subscribe(topics, callback) => SubscribeKeepsOneSocket(c, TopicSet(topics), callback);
    case Unsubscribe(topics, callback) =>
      FewerTopics(c, c.activeTopics - Emptied(c.callbacks, TopicSet(topics), callback));
    case RefreshDone(r) => CreationKeepsOneSocket(c, r);
    case SocketFails(r, _) => CreationKeepsOneSocket(c, r);
    case SocketOpens(s) => OpeningKeepsOneSocket(c, s);
    case SocketCloses(s, _) => ClosingKeepsOneSocket(c, s);
    case _ =>
  }

  lemma {:induction false} RunKeepsInv(c: Client, run: seq<Step>)
    requires Inv(c) && IsRun(c, run)
    ensures Inv(After(c, run))
    decreases |run|
  {
    hide Next, Registered, OneSocket, Counted;
    if run != [] {
      StepIsDone(c, run[0]);
      StepKeepsOneSocket(c, run[0]);
      RunKeepsInv(Next(c, run[0]), run[1..]);
    }
  }

  lemma InitialInv()
    ensures Inv(INITIAL)
  {
  }

  /** Across any run: the active topics are those with callbacks, and all of them have been sent on the
      current socket whenever it is open. */
  lemma TopicsAreSubscribed(run: seq<Step>)
    requires IsRun(INITIAL, run)
    ensures var c := After(INITIAL, run);
      && c.activeTopics == c.callbacks.Keys
      && (forall t :: t in c.callbacks ==> c.callbacks[t] != {})
      && (IsOpen(c) ==> c.activeTopics <= c.sockets[c.ws.value].sent)
      && forall s :: s in c.sockets && (c.sockets[s].ready == Connecting || c.sockets[s].ready == Open) ==>
          c.ws == Some(s)
  {
    InitialInv();
    RunKeepsInv(INITIAL, run);
  }

  // ---------- events ----------

  /** An event on any socket that can still deliver reaches each callback registered under its topic
      exactly once, and no other. */
  lemma EachCallbackOnce(c: Client, s: nat, event: Event, cb: Callback, other: Event)
    requires Inv(c) && Enabled(c, Message(s, Some(event)))
    ensures c.ws == Some(s)
    ensures var d := Next(c, Message(s, Some(event))).delivered;
      d[(cb, other)] == c.delivered[(cb, other)]
                        + if other == event && event.topic in c.callbacks && cb in c.callbacks[event.topic]
                          then 1 else 0
  {
    if event.topic in c.callbacks {
      var pairs := set x | x in c.callbacks[event.topic] :: (x, event);
      assert (cb, other) in pairs <==> other == event && cb in c.callbacks[event.topic];
    }
  }

  // ---------- who is registered ----------

  function SubscribedBy(step: Step, topic: string, cb: Callback, before: bool): bool {
    match step
    case Subscribe(topics, x) => (x == cb && topic in topics) || before
    case Unsubscribe(topics, x) => !(x == cb && topic in topics) && before
    case Reset => false
    case _ => before
  }

  /** Whether `cb` is subscribed to `topic`: it has been in a `subscribe` that named the topic, and since then neither
      in an unsubscribe that named it nor in a `reset`; `before` answers for the time before the run. */
  function Subscribed(run: seq<Step>, topic: string, cb: Callback, before: bool): bool
    decreases |run|
  {
    if run == [] then before else Subscribed(run[1..], topic, cb, SubscribedBy(run[0], topic, cb, before))
  }

  function ResyncsBy(step: Step, cb: Callback, before: bool): bool {
    match step
    case OnReconnect(x) => x == cb || before
    case OffReconnect(x) => x != cb && before
    case Reset => false
    case _ => before
  }

  /** The same for the reconnect callbacks. */
  function Resyncs(run: seq<Step>, cb: Callback, before: bool): bool
    decreases |run|
  {
    if run == [] then before else Resyncs(run[1..], cb, ResyncsBy(run[0], cb, before))
  }

  ghost predicate IsRegistered(c: Client, topic: string, cb: Callback) {
    topic in c.callbacks && cb in c.callbacks[topic]
  }

  ghost predicate SameCallbacks(c: Client, d: Client) {
    d.callbacks == c.callbacks && d.onReconnectCallbacks == c.onReconnectCallbacks
  }

  lemma DisconnectKeepsCallbacks(c: Client)
    ensures SameCallbacks(c, Disconnected(c))
  {
    hide SocketDiscarded, ReconnectCancelled;
    CancelKeeps(c);
    DiscardKeeps(ProgressForgotten(ReconnectCancelled(c)));
  }

  lemma SocketsKeepCallbacks(c: Client, topics: set<string>, random: real)
    ensures SameCallbacks(c, Sent(c, topics)) && SameCallbacks(c, SocketCreated(c))
    ensures SameCallbacks(c, OldSocketClosed(c)) && SameCallbacks(c, ScheduleReconnect(c, random))
    ensures SameCallbacks(c, Opened(c))
  {
    hide Sent, SocketCreated, OldSocketClosed, Opened, DelayMs;
    SentKeeps(c, topics);
    CreationKeeps(c);
    OpenedKeeps(c);
  }

  lemma FailureKeepsCallbacks(c: Client, r: nat, random: real)
    requires r in c.refreshes
    ensures SameCallbacks(c, RefreshRefused(c, r, random)) && SameCallbacks(c, SocketRefused(c, r, random))
  {
    hide OldSocketClosed, ScheduleReconnect;
    SocketsKeepCallbacks(RefreshEnds(c, r), {}, random);
    SocketsKeepCallbacks(OldSocketClosed(RefreshEnds(c, r)), {}, random);
  }

  lemma SocketStepsKeepCallbacks(c: Client, s: nat, random: real)
    requires s in c.sockets
    ensures SameCallbacks(c, SocketOpened(c, s)) && SameCallbacks(c, SocketClosed(c, s, random))
  {
    hide Opened, ScheduleReconnect;
    SocketsKeepCallbacks(WithReady(c, s, Open), {}, random);
    SocketsKeepCallbacks(WithReady(c, s, Closed), {}, random);
  }

  lemma OthersKeepCallbacks(c: Client, url: string, t: nat)
    ensures SameCallbacks(c, Connected(c, url)) && SameCallbacks(c, TimerFired(c, t))
    ensures forall s, event :: s in c.sockets ==> SameCallbacks(c, Received(c, s, event))
    ensures forall r :: SameCallbacks(c, RefreshEnds(c, r))
  {
    hide Deliveries;
  }

  lemma StepKeepsCallbacks(c: Client, step: Step)
    requires Enabled(c, step) && !step.Subscribe? && !step.Unsubscribe? && !step.Reset?
    requires !step.OnReconnect? && !step.OffReconnect?
    ensures SameCallbacks(c, Next(c, step))
  {
    hide Disconnected, SocketCreated, RefreshEnds, RefreshRefused, SocketRefused, SocketOpened, SocketClosed,
        Received, TimerFired, Connected, WasReset, Registering, Unregistering, Sent;
    OthersKeepCallbacks(c, if step.Connect? then step.url else "", if step.TimerFires? then step.timer else 0);
    match step
    case Disconnect => DisconnectKeepsCallbacks(c);
    case RefreshDone(r) => SocketsKeepCallbacks(RefreshEnds(c, r), {}, 0.0);
    case SocketFails(r, random) => FailureKeepsCallbacks(c, r, random);
    case RefreshFailed(r, random) => FailureKeepsCallbacks(c, r, random);
    case SocketOpens(s) => SocketStepsKeepCallbacks(c, s, 0.0);
    case SocketCloses(s, random) => SocketStepsKeepCallbacks(c, s, random);
    case _ =>
  }

  lemma ResetForgetsCallbacks(c: Client)
    ensures WasReset(c).callbacks == map[] && WasReset(c).onReconnectCallbacks == {}
  {
    hide SocketDiscarded, ReconnectCancelled;
  }

  lemma SubscribeRegisters(c: Client, topics: seq<string>, x: Callback, topic: string, cb: Callback)
    ensures var d := Sent(Registering(c, TopicSet(topics), x), TopicSet(topics));
      && (IsRegistered(d, topic, cb) <==> (x == cb && topic in topics) || IsRegistered(c, topic, cb))
      && d.onReconnectCallbacks == c.onReconnectCallbacks
  {
    var d := Registering(c, TopicSet(topics), x);
    hide Sent;
    SentKeeps(d, TopicSet(topics));
  }

  lemma UnsubscribeRemoves(c: Client, topics: seq<string>, x: Callback, topic: string, cb: Callback)
    ensures var d := Unregistering(c, TopicSet(topics), x);
      && (IsRegistered(d, topic, cb) <==> !(x == cb && topic in topics) && IsRegistered(c, topic, cb))
      && d.onReconnectCallbacks == c.onReconnectCallbacks
  {
    if IsRegistered(c, topic, cb) && !(x == cb && topic in topics) {
      assert x != cb ==> cb in c.callbacks[topic] - {x};
    }
  }

  lemma StepRegisters(c: Client, step: Step, topic: string, cb: Callback)
    requires Enabled(c, step)
    ensures IsRegistered(Next(c, step), topic, cb) <==> SubscribedBy(step, topic, cb, IsRegistered(c, topic, cb))
    ensures cb in Next(c, step).onReconnectCallbacks <==> ResyncsBy(step, cb, cb in c.onReconnectCallbacks)
  {
    hide Sent, Registering, Unregistering, WasReset, Disconnected, SocketCreated, SocketOpened, SocketClosed,
        SocketRefused, RefreshRefused, Received, TimerFired, Connected, RefreshEnds;
    match step {
      case Subscribe(topics, x) => SubscribeRegisters(c, topics, x, topic, cb);
      case Unsubscribe(topics, x) => UnsubscribeRemoves(c, topics, x, topic, cb);
      case Reset => ResetForgetsCallbacks(c);
      case OnReconnect(_) =>
      case OffReconnect(_) =>
      case _ => StepKeepsCallbacks(c, step);
    }
  }

  lemma {:induction false} RunRegisters(c: Client, run: seq<Step>, topic: string, cb: Callback)
    requires IsRun(c, run)
    ensures IsRegistered(After(c, run), topic, cb) <==> Subscribed(run, topic, cb, IsRegistered(c, topic, cb))
    ensures cb in After(c, run).onReconnectCallbacks <==> Resyncs(run, cb, cb in c.onReconnectCallbacks)
    decreases |run|
  {
    hide Next, Enabled, IsRegistered, SubscribedBy, ResyncsBy;
    if run != [] {
      StepRegisters(c, run[0], topic, cb);
      RunRegisters(Next(c, run[0]), run[1..], topic, cb);
    }
  }

  /** After every run exactly those callbacks are registered that were subscribed and not unsubscribed since, topic
      by topic; the others keep their registration whatever is unsubscribed. */
  lemma RegisteredExactly(run: seq<Step>, topic: string, cb: Callback)
    requires IsRun(INITIAL, run)
    ensures var c := After(INITIAL, run);
      && (topic in c.callbacks && cb in c.callbacks[topic] <==> Subscribed(run, topic, cb, false))
      && (cb in c.onReconnectCallbacks <==> Resyncs(run, cb, false))
  {
    RunRegisters(INITIAL, run, topic, cb);
  }

  /** So an event reaches each callback that is subscribed to its topic once, and no other. */
  lemma EventReachesExactly(run: seq<Step>, s: nat, event: Event, cb: Callback)
    requires IsRun(INITIAL, run) && Enabled(After(INITIAL, run), Message(s, Some(event)))
    ensures var c := After(INITIAL, run);
      Next(c, Message(s, Some(event))).delivered[(cb, event)] ==
      c.delivered[(cb, event)] + if Subscribed(run, event.topic, cb, false) then 1 else 0
  {
    hide Next, IsRun, After, Subscribed, Enabled, Inv;
    InitialInv();
    RunKeepsInv(INITIAL, run);
    RegisteredExactly(run, event.topic, cb);
    EachCallbackOnce(After(INITIAL, run), s, event, cb, event);
  }

  // ---------- reconnect callbacks ----------

  /** Whether a socket has opened since the last `disconnect` or `reset`; `before` answers for the time
      before the run. */
  function OpenedSince(run: seq<Step>, before: bool): bool
    decreases |run|
  {
    if run == [] then before
    else
      OpenedSince(run[1..], match run[0]
                            case SocketOpens(_) => true
                            case Disconnect => false
                            case Reset => false
                            case _ => before)
  }

  lemma {:induction false} OnceConnected(c: Client, run: seq<Step>)
    requires Inv(c) && IsRun(c, run)
    ensures After(c, run).hasConnectedOnce == OpenedSince(run, c.hasConnectedOnce)
    decreases |run|
  {
    hide Next, Registered, OneSocket, Counted, Scheduled;
    if run != [] {
      StepIsDone(c, run[0]);
      StepKeepsOneSocket(c, run[0]);
      OnceConnected(Next(c, run[0]), run[1..]);
    }
  }

  /** The reconnect callbacks fire, each once, on exactly the opens that are not the first since the
      last `disconnect` or `reset`. */
  lemma ReconnectFiresExactly(run: seq<Step>, step: Step)
    requires IsRun(INITIAL, run) && Enabled(After(INITIAL, run), step)
    ensures var c := After(INITIAL, run);
      Next(c, step).resynced ==
      c.resynced + if step.SocketOpens? && OpenedSince(run, false) then multiset(c.onReconnectCallbacks) else multiset{}
  {
    hide Next, Registered, OneSocket, Counted, Scheduled, IsRun, After, OpenedSince;
    InitialInv();
    RunKeepsInv(INITIAL, run);
    OnceConnected(INITIAL, run);
    StepIsDone(After(INITIAL, run), step);
  }

  /** And each callback registered for reconnects is called once on such an open, and no other. */
  lemma ResyncReachesExactly(run: seq<Step>, socket: nat, cb: Callback)
    requires IsRun(INITIAL, run) && Enabled(After(INITIAL, run), SocketOpens(socket))
    ensures var c := After(INITIAL, run);
      Next(c, SocketOpens(socket)).resynced[cb] ==
      c.resynced[cb] + if OpenedSince(run, false) && Resyncs(run, cb, false) then 1 else 0
  {
    hide Next, IsRun, After, OpenedSince, Resyncs, Enabled, Subscribed;
    ReconnectFiresExactly(run, SocketOpens(socket));
    RegisteredExactly(run, "", cb);
  }

  // ---------- what starts when ----------

  /** The calls of `setTimeout`, the session refreshes and the sockets created from `c` to `d`. */
  ghost predicate Starts(c: Client, timer: bool, refresh: Option<Origin>, socket: bool, d: Client) {
    && (if timer then |d.delays| == |c.delays| + 1 && |c.delays| in d.timers && d.reconnectTimer == Some(|c.delays|)
        else d.delays == c.delays && d.timers <= c.timers)
    && (if refresh.Some? then d.nextRefresh == c.nextRefresh + 1
                              && d.refreshes == c.refreshes[c.nextRefresh := refresh.value]
        else d.nextRefresh == c.nextRefresh && d.refreshes.Keys <= c.refreshes.Keys)
    && (if socket then d.nextSocket == c.nextSocket + 1 && d.ws == Some(c.nextSocket)
                       && c.nextSocket in d.sockets && d.sockets[c.nextSocket].ready == Connecting
        else d.nextSocket == c.nextSocket)
  }

  /** A retry is possible: there is an address, no attempt is under way, and there were fewer than ten. */
  predicate MayRetry(c: Client) {
    c.wsUrl.Some? && !c.isReconnecting && c.reconnectAttempt < 10
  }

  lemma NothingStarts(c: Client, topics: set<string>)
    ensures Starts(c, false, None, false, Disconnected(c)) && Starts(c, false, None, false, WasReset(c))
    ensures Starts(c, false, None, false, Sent(c, topics)) && Starts(c, false, None, false, Opened(c))
    ensures Starts(c, false, None, false, OldSocketClosed(c))
  {
    hide SocketDiscarded, ReconnectCancelled, Sent, Opened, OldSocketClosed;
    CancelKeeps(c);
    CancelKeeps(c.(wsUrl := None));
    DiscardKeeps(ProgressForgotten(ReconnectCancelled(c)));
    DiscardKeeps(ReconnectCancelled(c.(wsUrl := None)));
    SentKeeps(c, topics);
    OpenedKeeps(c);
    CreationKeeps(c);
  }

  lemma RetryStarts(c: Client, random: real)
    ensures Starts(c, MayRetry(c), None, false, ScheduleReconnect(c, random))
  {
    hide DelayMs;
  }

  lemma CreationStarts(c: Client)
    ensures Starts(c, false, None, c.wsUrl.Some?, SocketCreated(c))
  {
    hide OldSocketClosed;
    CreationKeeps(c);
  }

  lemma FailureStarts(c: Client, r: nat, random: real)
    requires r in c.refreshes
    ensures Starts(c, MayRetry(c) && c.refreshes[r] == ByTimer, None, false, RefreshRefused(c, r, random))
    ensures Starts(c, MayRetry(c) && c.refreshes[r] == ByTimer, None, false, SocketRefused(c, r, random))
  {
    hide OldSocketClosed, ScheduleReconnect;
    var d := RefreshEnds(c, r);
    RetryStarts(d, random);
    CreationKeeps(d);
    RetryStarts(OldSocketClosed(d), random);
  }

  lemma SocketEventsStart(c: Client, s: nat, random: real)
    requires s in c.sockets
    ensures Starts(c, false, None, false, SocketOpened(c, s))
    ensures Starts(c, MayRetry(c) && c.sockets[s].onclose, None, false, SocketClosed(c, s, random))
  {
    hide Opened, ScheduleReconnect;
    NothingStarts(WithReady(c, s, Open), {});
    RetryStarts(WithReady(c, s, Closed), random);
  }

  lemma ConnectStartsOne(c: Client, url: string)
    ensures Starts(c, false, if IsOpen(c) then None else Some(ByConnect), false, Connected(c, url))
  {
  }

  lemma TimerStartsOne(c: Client, t: nat)
    ensures Starts(c, false, if c.wsUrl.Some? then Some(ByTimer) else None, false, TimerFired(c, t))
  {
  }

  lemma RegistrationStartsNothing(c: Client, topics: set<string>, callback: Callback)
    ensures Starts(c, false, None, false, Sent(Registering(c, topics, callback), topics))
    ensures Starts(c, false, None, false, Unregistering(c, topics, callback))
  {
    hide Sent, WithCallback, WithoutCallback, Emptied;
    NothingStarts(Registering(c, topics, callback), topics);
  }

  lemma CallbacksStartNothing(c: Client, callback: Callback)
    ensures Starts(c, false, None, false, Next(c, OnReconnect(callback)))
    ensures Starts(c, false, None, false, Next(c, OffReconnect(callback)))
  {
  }

  lemma MessageStartsNothing(c: Client, s: nat, event: Option<Event>)
    requires s in c.sockets
    ensures Starts(c, false, None, false, Received(c, s, event))
  {
    hide Deliveries;
  }

  lemma SuccessStarts(c: Client, r: nat)
    ensures Starts(c, false, None, c.wsUrl.Some?, SocketCreated(RefreshEnds(c, r)))
  {
    hide SocketCreated;
    CreationStarts(RefreshEnds(c, r));
  }

  /**
   * Exactly what every step starts: `connect` a session refresh unless the socket is open, the timer one if there
   * still is an address; a refresh that succeeds a socket if there is an address; a timer is set when a socket
   * closes by itself, or when the timer's own attempt fails, if a retry is possible; nothing else starts anything.
   */
  lemma StepStartsExactly(c: Client, step: Step)
    requires OneSocket(c) && Enabled(c, step)
    ensures Starts(c,
                   MayRetry(c) && ((step.SocketCloses? && Live(c.sockets[step.socket].ready))
                                   || (step.RefreshFailed? && c.refreshes[step.refresh] == ByTimer)
                                   || (step.SocketFails? && c.refreshes[step.refresh] == ByTimer)),
                   if step.Connect? && !IsOpen(c) then Some(ByConnect)
                   else if step.TimerFires? && c.wsUrl.Some? then Some(ByTimer) else None,
                   step.RefreshDone? && c.wsUrl.Some?,
                   Next(c, step))
  {
    hide Disconnected, WasReset, Sent, SocketCreated, RefreshRefused, SocketRefused, SocketOpened, SocketClosed,
        MayRetry, Connected, TimerFired, RefreshEnds, Received, Registering, Unregistering, Starts, IsOpen;
    match step
    case Connect(url) => ConnectStartsOne(c, url);
    case TimerFires(t) => TimerStartsOne(c, t);
    case Disconnect => NothingStarts(c, {});
    case Reset => NothingStarts(c, {});
    case Subscribe(topics, callback) => RegistrationStartsNothing(c, TopicSet(topics), callback);
    case Unsubscribe(topics, callback) => RegistrationStartsNothing(c, TopicSet(topics), callback);
    case OnReconnect(callback) => CallbacksStartNothing(c, callback);
    case OffReconnect(callback) => CallbacksStartNothing(c, callback);
    case Message(s, event) => MessageStartsNothing(c, s, event);
    case RefreshDone(r) => SuccessStarts(c, r);
    case SocketFails(r, random) => FailureStarts(c, r, random);
    case RefreshFailed(r, random) => FailureStarts(c, r, random);
    case SocketOpens(s) => SocketEventsStart(c, s, 0.0);
    case SocketCloses(s, random) => SocketEventsStart(c, s, random);
  }

  /** The same in every reachable state. */
  lemma RunStartsExactly(run: seq<Step>, step: Step)
    requires IsRun(INITIAL, run) && Enabled(After(INITIAL, run), step)
    ensures var c := After(INITIAL, run);
      Starts(c,
             c.wsUrl.Some? && !c.isReconnecting && c.reconnectAttempt < 10
             && ((step.SocketCloses?
                  && (c.sockets[step.socket].ready == Connecting || c.sockets[step.socket].ready == Open))
                 || (step.RefreshFailed? && c.refreshes[step.refresh] == ByTimer)
                 || (step.SocketFails? && c.refreshes[step.refresh] == ByTimer)),
             if step.Connect? && !(c.ws.Some? && c.ws.value in c.sockets && c.sockets[c.ws.value].ready == Open)
             then Some(ByConnect)
             else if step.TimerFires? && c.wsUrl.Some? then Some(ByTimer) else None,
             step.RefreshDone? && c.wsUrl.Some?,
             Next(c, step))
  {
    hide Next, IsRun, After, Starts, OneSocketIn, Registered, Counted;
    InitialInv();
    RunKeepsInv(INITIAL, run);
    StepStartsExactly(After(INITIAL, run), step);
  }

  /** Back to the beginning, apart from what is in flight and from the registrations. */
  ghost predicate Forgotten(c: Client, d: Client) {
    && d.ws.None? && d.wsUrl.None? && !d.hasConnectedOnce && d.reconnectAttempt == 0 && d.reconnectTimer.None?
    && !d.isReconnecting && NoneLive(d.sockets)
    && d.timers == c.timers - (set t | t in c.timers && c.reconnectTimer == Some(t))
    && Starts(c, false, None, false, d)
  }

  lemma CancelledTimer(c: Client)
    ensures ReconnectCancelled(c).timers == c.timers - (set t | t in c.timers && c.reconnectTimer == Some(t))
    ensures ReconnectCancelled(c).reconnectTimer.None?
  {
  }

  lemma DisconnectForgets(c: Client)
    requires OneSocket(c)
    ensures Forgotten(c, Disconnected(c))
  {
    NoSocketLeft(c);
    NothingStarts(c, {});
    hide SocketDiscarded, NoneLive, OneSocketIn, ReconnectCancelled, Starts;
    CancelKeeps(c);
    CancelledTimer(c);
    DiscardKeeps(ProgressForgotten(ReconnectCancelled(c)));
  }

  lemma ResetForgets(c: Client)
    requires OneSocket(c)
    ensures Forgotten(c, WasReset(c)) && WasReset(c).activeTopics == {}
  {
    NoSocketLeft(c);
    NothingStarts(c, {});
    hide SocketDiscarded, NoneLive, OneSocketIn, ReconnectCancelled, Starts;
    var d := c.(wsUrl := None);
    CancelKeeps(d);
    CancelledTimer(d);
    DiscardKeeps(ReconnectCancelled(d));
  }

  lemma DisconnectKeepsTopics(c: Client)
    ensures Disconnected(c).activeTopics == c.activeTopics
  {
    hide SocketDiscarded, ReconnectCancelled;
    CancelKeeps(c);
    DiscardKeeps(ProgressForgotten(ReconnectCancelled(c)));
  }

  /** `disconnect` leaves nothing of the connection behind but what is in flight, and keeps the registrations;
      `reset` drops those too. */
  lemma BackToStart(run: seq<Step>)
    requires IsRun(INITIAL, run)
    ensures var c := After(INITIAL, run);
      var d, e := Next(c, Disconnect), Next(c, Reset);
      && Forgotten(c, d) && d.callbacks == c.callbacks && d.activeTopics == c.activeTopics
      && d.onReconnectCallbacks == c.onReconnectCallbacks
      && Forgotten(c, e) && e.callbacks == map[] && e.activeTopics == {} && e.onReconnectCallbacks == {}
  {
    hide IsRun, After, Forgotten, Disconnected, WasReset, OneSocketIn, Registered, Counted;
    InitialInv();
    RunKeepsInv(INITIAL, run);
    var c := After(INITIAL, run);
    DisconnectForgets(c);
    ResetForgets(c);
    DisconnectKeepsCallbacks(c);
    ResetForgetsCallbacks(c);
    DisconnectKeepsTopics(c);
  }

  // ---------- silence after disconnect ----------

  ghost predicate Silent(c: Client) {
    c.wsUrl.None? && NoneLive(c.sockets)
  }

  /** No socket, timer or refresh started, and no callback called, between `c` and `d`. */
  ghost predicate SameOutput(c: Client, d: Client) {
    && d.nextSocket == c.nextSocket && d.delays == c.delays && d.nextRefresh == c.nextRefresh
    && d.delivered == c.delivered && d.resynced == c.resynced
  }

  lemma DiscardLeavesNoneLive(c: Client)
    requires NoneLive(c.sockets)
    ensures NoneLive(SocketDiscarded(c).sockets)
  {
  }

  lemma DiscardStaysSilent(c: Client)
    requires Silent(c)
    ensures Silent(Disconnected(c)) && SameOutput(c, Disconnected(c))
    ensures Silent(WasReset(c)) && SameOutput(c, WasReset(c))
  {
    hide SocketDiscarded, ReconnectCancelled, NoneLive;
    CancelKeeps(c);
    CancelKeeps(c.(wsUrl := None));
    var a := ProgressForgotten(ReconnectCancelled(c));
    var b := ReconnectCancelled(c.(wsUrl := None));
    DiscardKeeps(a);
    DiscardKeeps(b);
    DiscardLeavesNoneLive(a);
    DiscardLeavesNoneLive(b);
  }

  lemma SocketsStaySilent(c: Client, topics: set<string>, random: real)
    requires Silent(c)
    ensures Sent(c, topics) == c && SocketCreated(c) == c && ScheduleReconnect(c, random) == c
  {
  }

  lemma StepStaysSilent(c: Client, step: Step)
    requires Silent(c) && Enabled(c, step) && !step.Connect?
    ensures Silent(Next(c, step)) && SameOutput(c, Next(c, step))
  {
    hide WithCallback, WithoutCallback, Emptied, Deliveries, Disconnected, WasReset, SocketCreated, Sent, Opened,
        ScheduleReconnect;
    match step
    case Disconnect => DiscardStaysSilent(c);
    case Reset => DiscardStaysSilent(c);
    case Subscribe(topics, callback) =>
      SocketsStaySilent(Registering(c, TopicSet(topics), callback), TopicSet(topics), 0.0);
    case RefreshDone(r) => SocketsStaySilent(RefreshEnds(c, r), {}, 0.0);
    case RefreshFailed(r, random) => SocketsStaySilent(RefreshEnds(c, r), {}, random);
    case SocketCloses(s, random) => SocketsStaySilent(WithReady(c, s, Closed), {}, random);
    case _ =>
  }

  lemma {:induction false} StaysSilent(c: Client, run: seq<Step>)
    requires Silent(c) && IsRun(c, run) && forall i :: 0 <= i < |run| ==> !run[i].Connect?
    ensures Silent(After(c, run)) && SameOutput(c, After(c, run))
    decreases |run|
  {
    hide Next, Silent;
    if run != [] {
      StepStaysSilent(c, run[0]);
      StaysSilent(Next(c, run[0]), run[1..]);
    }
  }

  lemma NoUrlLeft(c: Client)
    ensures Disconnected(c).wsUrl == None && WasReset(c).wsUrl == None
  {
    hide SocketDiscarded, ReconnectCancelled;
    CancelKeeps(c.(wsUrl := None));
    DiscardKeeps(ReconnectCancelled(c.(wsUrl := None)));
  }

  /** After `disconnect` (or `reset`) and until the next `connect`, no socket is created, no timer or
      refresh started and nothing delivered, whatever timers and refreshes were outstanding. */
  lemma DisconnectSilences(c: Client, step: Step, run: seq<Step>)
    requires Inv(c) && (step == Disconnect || step == Reset) && IsRun(Next(c, step), run)
    requires forall i :: 0 <= i < |run| ==> !run[i].Connect?
    ensures SameOutput(Next(c, step), After(Next(c, step), run))
  {
    NoSocketLeft(c);
    NoUrlLeft(c);
    hide Disconnected, WasReset, SameOutput, Inv, IsRun, After, NoneLive;
    StaysSilent(Next(c, step), run);
  }

  // ---------- one reconnect at a time ----------

  /** A reconnect timer, a session refresh or an opening socket is under way. */
  predicate Attempting(c: Client) {
    || c.timers != {} || c.refreshes != map[]
    || (c.ws.Some? && c.ws.value in c.sockets && c.sockets[c.ws.value].ready == Connecting)
  }

  /** How many timers, refreshes and live sockets there are. */
  function Load(c: Client): nat {
    |c.timers| + |c.refreshes|
    + if c.ws.Some? && c.ws.value in c.sockets && Live(c.sockets[c.ws.value].ready) then 1 else 0
  }

  ghost predicate Single(c: Client) {
    Load(c) <= 1 && forall t :: t in c.timers ==> c.reconnectTimer == Some(t)
  }

  /** `connect` is called only while nothing is under way (while the socket is open it does nothing). */
  predicate Polite(c: Client, step: Step) {
    step.Connect? ==> IsOpen(c) || !Attempting(c)
  }

  ghost predicate PoliteRun(c: Client, run: seq<Step>)
    requires IsRun(c, run)
    decreases |run|
  {
    run == [] || (Polite(c, run[0]) && PoliteRun(Next(c, run[0]), run[1..]))
  }

  lemma CancelHelper(c: Client)
    requires Single(c)
    ensures Single(ReconnectCancelled(c)) && ReconnectCancelled(c).timers == {}
            && ReconnectCancelled(c).refreshes == c.refreshes
  {
    if c.reconnectTimer.Some? {
      assert c.timers - {c.reconnectTimer.value} == {};
    } else {
      assert c.timers == {};
    }
  }

  lemma ScheduleHelper(c: Client, random: real)
    requires Single(c) && Load(c) == 0
    ensures Single(ScheduleReconnect(c, random))
  {
    hide DelayMs;
    assert c.timers == {};
    assert {} + {|c.delays|} == {|c.delays|};
  }

  lemma OnlyRefresh(refreshes: map<nat, Origin>, r: nat)
    requires |refreshes| <= 1 && r in refreshes
    ensures refreshes - {r} == map[]
  {
    assert refreshes.Keys == {r} + (refreshes.Keys - {r});
    assert |refreshes.Keys - {r}| == 0;
  }

  lemma OnlyTimer(timers: set<nat>, t: nat)
    requires |timers| <= 1 && t in timers
    ensures timers - {t} == {}
  {
    assert timers == {t} + (timers - {t});
    assert |timers - {t}| == 0;
  }

  lemma IdleLoad(c: Client)
    ensures Load(c) == 0 <==> !Attempting(c) && !IsOpen(c)
  {
    assert |c.refreshes| == |c.refreshes.Keys|;
  }

  lemma SentKeepsLoad(c: Client, topics: set<string>)
    ensures Load(Sent(c, topics)) == Load(c) && Load(Opened(c)) == Load(c)
    ensures Sent(c, topics).reconnectTimer == c.reconnectTimer && Opened(c).reconnectTimer == c.reconnectTimer
    ensures Sent(c, topics).timers == c.timers && Opened(c).timers == c.timers
  {
    hide Sent, Opened;
    SentKeeps(c, topics);
    OpenedKeeps(c);
  }

  lemma DiscardLoad(c: Client)
    ensures Load(SocketDiscarded(c)) == |c.timers| + |c.refreshes|
    ensures SocketDiscarded(c).reconnectTimer == c.reconnectTimer && SocketDiscarded(c).timers == c.timers
  {
  }

  lemma CreatedLoad(c: Client)
    requires Load(c) == 0 && Single(c)
    ensures Single(SocketCreated(c))
  {
  }

  lemma ConnectKeepsSingle(c: Client, url: string)
    requires Single(c) && Polite(c, Connect(url))
    ensures Single(Connected(c, url))
  {
    IdleLoad(c);
  }

  lemma DiscardKeepsSingle(c: Client)
    requires Single(c)
    ensures Single(Disconnected(c)) && Single(WasReset(c))
  {
    hide SocketDiscarded, ReconnectCancelled;
    CancelHelper(c);
    DiscardLoad(ProgressForgotten(ReconnectCancelled(c)));
    CancelHelper(c.(wsUrl := None));
    DiscardLoad(ReconnectCancelled(c.(wsUrl := None)));
  }

  lemma ClosedLoad(c: Client)
    requires Load(c) == 0 && Single(c)
    ensures Load(OldSocketClosed(c)) == 0 && Single(OldSocketClosed(c))
  {
  }

  lemma RefreshesKeepSingle(c: Client, r: nat, random: real)
    requires Single(c) && r in c.refreshes
    ensures Single(SocketCreated(RefreshEnds(c, r)))
    ensures Single(RefreshRefused(c, r, random)) && Single(SocketRefused(c, r, random))
  {
    hide OldSocketClosed, SocketCreated, ScheduleReconnect;
    OnlyRefresh(c.refreshes, r);
    var d := RefreshEnds(c, r);
    assert |c.refreshes| >= 1 && Load(d) == 0;
    CreatedLoad(d);
    ScheduleHelper(d, random);
    ClosedLoad(d);
    ScheduleHelper(OldSocketClosed(d), random);
  }

  lemma OpenKeepsLoad(c: Client, s: nat)
    requires s in c.sockets && c.sockets[s].ready == Connecting && c.ws == Some(s)
    ensures var d := WithReady(c, s, Open);
      Load(d) == Load(c) && d.timers == c.timers && d.reconnectTimer == c.reconnectTimer
  {
  }

  lemma OpeningKeepsSingle(c: Client, s: nat)
    requires OneSocket(c) && Single(c) && Enabled(c, SocketOpens(s))
    ensures Single(SocketOpened(c, s))
  {
    assert c.ws == Some(s);
    OpenKeepsLoad(c, s);
    SentKeepsLoad(WithReady(c, s, Open), {});
    hide Opened, Load, WithReady, OneSocketIn;
  }

  lemma ClosingKeepsSingle(c: Client, s: nat, random: real)
    requires OneSocket(c) && Single(c) && Enabled(c, SocketCloses(s, random))
    ensures Single(SocketClosed(c, s, random))
  {
    hide ScheduleReconnect;
    var d := WithReady(c, s, Closed);
    if Live(c.sockets[s].ready) {
      assert c.ws == Some(s) && Load(c) == 1;
      assert Load(d) == 0;
      ScheduleHelper(d, random);
    } else {
      assert Load(d) == Load(c);
    }
  }

  lemma TimerKeepsSingle(c: Client, t: nat)
    requires Single(c) && t in c.timers
    ensures Single(Next(c, TimerFires(t)))
  {
    OnlyTimer(c.timers, t);
    assert |c.timers| >= 1;
    assert |c.refreshes| == 0;
  }

  lemma StepKeepsSingle(c: Client, step: Step)
    requires OneSocket(c) && Single(c) && Enabled(c, step) && Polite(c, step)
    ensures Single(Next(c, step))
  {
    hide OneSocket, Connected, Disconnected, WasReset, SocketCreated, RefreshRefused, SocketOpened, SocketClosed,
        TimerFired;
    hide Sent, Deliveries, WithCallback, WithoutCallback, Emptied, RefreshEnds;
    match step
    case Connect(url) => ConnectKeepsSingle(c, url);
    case Disconnect => DiscardKeepsSingle(c);
    case Reset => DiscardKeepsSingle(c);
    case Subscribe(topics, callback) => SentKeepsLoad(Registering(c, TopicSet(topics), callback), TopicSet(topics));
    case RefreshDone(r) => RefreshesKeepSingle(c, r, 0.0);
    case SocketFails(r, random) => RefreshesKeepSingle(c, r, random);
    case RefreshFailed(r, random) => RefreshesKeepSingle(c, r, random);
    case SocketOpens(s) => OpeningKeepsSingle(c, s);
    case SocketCloses(s, random) => ClosingKeepsSingle(c, s, random);
    case TimerFires(t) => TimerKeepsSingle(c, t);
    case _ =>
  }

  /** In polite runs at most one reconnect timer is outstanding. */
  lemma {:induction false} OneTimerAtATime(c: Client, run: seq<Step>)
    requires OneSocket(c) && Single(c) && IsRun(c, run) && PoliteRun(c, run)
    ensures Single(After(c, run)) && |After(c, run).timers| <= 1
    decreases |run|
  {
    hide Next, OneSocket, Polite;
    if run != [] {
      StepKeepsSingle(c, run[0]);
      StepKeepsOneSocket(c, run[0]);
      OneTimerAtATime(Next(c, run[0]), run[1..]);
    }
  }

  lemma PoliteClientHasOneTimer(run: seq<Step>)
    requires IsRun(INITIAL, run) && PoliteRun(INITIAL, run)
    ensures |After(INITIAL, run).timers| <= 1
  {
    InitialInv();
    OneTimerAtATime(INITIAL, run);
  }

  /** After `disconnect` a polite client has no timer left. */
  lemma DisconnectStopsTimer(run: seq<Step>)
    requires IsRun(INITIAL, run) && PoliteRun(INITIAL, run)
    ensures Next(After(INITIAL, run), Disconnect).timers == {}
  {
    hide IsRun, After, PoliteRun, OneSocketIn, SocketDiscarded, ReconnectCancelled;
    InitialInv();
    OneTimerAtATime(INITIAL, run);
    var c := After(INITIAL, run);
    CancelHelper(c);
    DiscardKeeps(ProgressForgotten(ReconnectCancelled(c)));
  }

  lemma {:induction false} RunConcat(c: Client, first: seq<Step>, second: seq<Step>)
    requires IsRun(c, first) && IsRun(After(c, first), second)
    ensures IsRun(c, first + second) && After(c, first + second) == After(After(c, first), second)
    decreases |first|
  {
    hide Next;
    if first == [] {
      assert first + second == second;
    } else {
      assert (first + second)[1..] == first[1..] + second;
      RunConcat(Next(c, first[0]), first[1..], second);
    }
  }

  lemma {:induction false} NoConnectIsPolite(c: Client, run: seq<Step>)
    requires IsRun(c, run) && forall i :: 0 <= i < |run| ==> !run[i].Connect?
    ensures PoliteRun(c, run)
    decreases |run|
  {
    if run != [] {
      NoConnectIsPolite(Next(c, run[0]), run[1..]);
    }
  }

  ghost predicate OneMoreTimer(c: Client, refreshes: map<nat, Origin>, d: Client) {
    && d.timers == c.timers + {|c.delays|} && |d.delays| == |c.delays| + 1 && d.wsUrl == c.wsUrl
    && d.refreshes == refreshes
  }

  ghost predicate Afresh(c: Client, d: Client) {
    && !d.isReconnecting && d.reconnectAttempt == 0
    && d.timers == c.timers && d.wsUrl == c.wsUrl && d.refreshes == c.refreshes && d.delays == c.delays
  }

  lemma OpeningKeeps(c: Client, s: nat)
    requires c.ws == Some(s) && s in c.sockets
    ensures Afresh(c, Opened(c)) && Opened(c).sockets.Keys == c.sockets.Keys
    ensures Opened(c).sockets[s].ready == c.sockets[s].ready && Opened(c).sockets[s].onclose == c.sockets[s].onclose
  {
    hide Opened;
    OpenedKeeps(c);
  }

  lemma OpenedAfresh(c: Client, s: nat)
    requires OneSocket(c) && Enabled(c, SocketOpens(s))
    ensures Enabled(SocketOpened(c, s), SocketCloses(s, 0.5)) && SocketOpened(c, s).sockets[s].onclose
    ensures Afresh(c, SocketOpened(c, s))
  {
    assert c.ws == Some(s);
    OpeningKeeps(WithReady(c, s, Open), s);
    hide Opened, Sent;
  }

  lemma DropSetsTimer(c: Client, s: nat)
    requires s in c.sockets && c.sockets[s].onclose && WillSchedule(c)
    ensures OneMoreTimer(c, c.refreshes, SocketClosed(c, s, 0.5))
  {
    hide DelayMs;
  }

  /** The current socket opens and drops: one more timer, whatever timers there were. */
  lemma OpenAndDrop(c: Client) returns (run: seq<Step>)
    requires OneSocket(c) && c.wsUrl.Some? && c.ws.Some? && c.sockets[c.ws.value].ready == Connecting
    ensures |run| == 2 && !run[0].Connect? && !run[1].Connect? && IsRun(c, run)
            && OneMoreTimer(c, c.refreshes, After(c, run))
  {
    hide SocketOpened, SocketClosed;
    var s := c.ws.value;
    run := [SocketOpens(s), SocketCloses(s, 0.5)];
    var d := Next(c, SocketOpens(s));
    OpenedAfresh(c, s);
    var e := Next(d, SocketCloses(s, 0.5));
    DropSetsTimer(d, s);
    assert run[1..] == [SocketCloses(s, 0.5)] && run[1..][1..] == [];
    assert IsRun(e, []) && IsRun(d, run[1..]) && After(d, run[1..]) == e;
  }

  lemma OneStepRun(c: Client, step: Step)
    requires Enabled(c, step)
    ensures IsRun(c, [step]) && After(c, [step]) == Next(c, step)
  {
    hide Next, Enabled;
    assert [step][1..] == [] && IsRun(Next(c, step), []);
  }

  lemma CreationConnects(c: Client, r: nat)
    requires OneSocket(c) && c.wsUrl.Some? && r in c.refreshes
    ensures var d := Next(c, RefreshDone(r));
      && OneSocket(d) && d.ws == Some(c.nextSocket) && d.ws.value in d.sockets
      && d.sockets[d.ws.value].ready == Connecting
      && d.wsUrl == c.wsUrl && d.refreshes == c.refreshes - {r} && d.timers == c.timers && d.delays == c.delays
  {
    CreationKeepsOneSocket(c, r);
    CreationKeeps(RefreshEnds(c, r));
    hide OneSocketIn, OldSocketClosed;
  }

  lemma SameTimers(c: Client, d: Client, e: Client)
    requires d.wsUrl == c.wsUrl && d.timers == c.timers && d.delays == c.delays && OneMoreTimer(d, d.refreshes, e)
    ensures OneMoreTimer(c, d.refreshes, e)
  {
  }

  /** A refresh in flight succeeds, and its socket opens and drops. */
  lemma CreateOpenAndDrop(c: Client, r: nat) returns (run: seq<Step>)
    requires OneSocket(c) && c.wsUrl.Some? && r in c.refreshes
    ensures (forall i :: 0 <= i < |run| ==> !run[i].Connect?) && IsRun(c, run)
    ensures OneMoreTimer(c, c.refreshes - {r}, After(c, run))
  {
    OneStepRun(c, RefreshDone(r));
    CreationConnects(c, r);
    hide Next, OneSocketIn, IsRun, After, OneMoreTimer;
    var d := Next(c, RefreshDone(r));
    var rest := OpenAndDrop(d);
    SameTimers(c, d, After(d, rest));
    RunConcat(c, [RefreshDone(r)], rest);
    run := [RefreshDone(r)] + rest;
  }

  lemma {:induction false} RunKeepsOneSocket(c: Client, run: seq<Step>)
    requires OneSocket(c) && IsRun(c, run)
    ensures OneSocket(After(c, run))
    decreases |run|
  {
    hide Next, OneSocket;
    if run != [] {
      StepKeepsOneSocket(c, run[0]);
      RunKeepsOneSocket(Next(c, run[0]), run[1..]);
    }
  }

  lemma ConnectStarts(c: Client, url: string)
    requires Inv(c) && !IsOpen(c)
    ensures var d := Next(c, Connect(url));
      && Inv(d) && d == c.(wsUrl := Some(url), refreshes := c.refreshes[c.nextRefresh := ByConnect],
                           nextRefresh := c.nextRefresh + 1)
      && c.nextRefresh !in c.refreshes && |c.delays| !in c.timers
      && (Attempting(c) && c.timers == {} && c.refreshes == map[] ==>
          c.ws.Some? && d.sockets[c.ws.value].ready == Connecting)
  {
  }

  lemma TwoTimers(timers: set<nat>, t: nat, u: nat)
    requires t in timers && u in timers && t != u
    ensures |timers| >= 2
  {
    assert {t, u} <= timers;
    assert |timers - {t, u}| + |{t, u}| == |timers|;
  }

  /** A `connect` while something is under way can lead to two timers, without any further `connect`. */
  lemma RudeConnectDoubles(c: Client, url: string) returns (run: seq<Step>)
    requires Inv(c) && Attempting(c) && !IsOpen(c)
    ensures var d := Next(c, Connect(url));
      IsRun(d, run) && (forall i :: 0 <= i < |run| ==> !run[i].Connect?) && |After(d, run).timers| >= 2
  {
    hide Next, OneSocketIn, Registered;
    var d := Next(c, Connect(url));
    ConnectStarts(c, url);
    var r := c.nextRefresh;
    if c.timers != {} {
      run := CreateOpenAndDrop(d, r);
      var t :| t in c.timers;
      TwoTimers(After(d, run).timers, t, |d.delays|);
    } else {
      var first;
      if c.refreshes != map[] {
        var q :| q in c.refreshes;
        first := CreateOpenAndDrop(d, q);
      } else {
        first := OpenAndDrop(d);
      }
      var e := After(d, first);
      RunKeepsOneSocket(d, first);
      var second := CreateOpenAndDrop(e, r);
      RunConcat(d, first, second);
      run := first + second;
      TwoTimers(After(d, run).timers, |d.delays|, |e.delays|);
    }
  }

  /** Already right after the first `connect` a second one leads to two timers. */
  lemma TwoConnectsTwoTimers(url: string) returns (run: seq<Step>)
    ensures IsRun(INITIAL, [Connect(url), Connect(url)] + run) && forall i :: 0 <= i < |run| ==> !run[i].Connect?
    ensures |After(INITIAL, [Connect(url), Connect(url)] + run).timers| >= 2
  {
    hide RefreshEnds, SocketCreated;
    InitialInv();
    var c := Next(INITIAL, Connect(url));
    ConnectStarts(INITIAL, url);
    assert 0 in c.refreshes;
    run := RudeConnectDoubles(c, url);
    var both := [Connect(url), Connect(url)] + run;
    assert both[1..] == [Connect(url)] + run && both[1..][1..] == run;
    assert IsRun(c, both[1..]);
  }

  /**
   * Exactly when a `connect` keeps the promise of one timer at a time: if nothing is under way.
   * It is not enough that no timer is running: a session refresh or an opening socket suffices to
   * make two.
   */
  lemma OneTimerExactly(c: Client, url: string)
    requires Inv(c) && Single(c) && !IsOpen(c)
    ensures var d := Next(c, Connect(url));
      (forall run :: IsRun(d, run) && PoliteRun(d, run) ==> |After(d, run).timers| <= 1) <==> !Attempting(c)
  {
    var d := Next(c, Connect(url));
    ConnectStarts(c, url);
    if Attempting(c) {
      var run := RudeConnectDoubles(c, url);
      NoConnectIsPolite(d, run);
    } else {
      StepKeepsSingle(c, Connect(url));
      forall run | IsRun(d, run) && PoliteRun(d, run)
        ensures |After(d, run).timers| <= 1
      {
        OneTimerAtATime(d, run);
      }
    }
  }

  // ---------- attempts and delays ----------

  /** Every timer ever set, and so every timer that is running, waits 0.9 to 33 seconds. */
  ghost predicate DelaysInRange(delays: seq<int>) {
    forall i :: 0 <= i < |delays| ==> 900 <= delays[i] <= 33000
  }

  lemma ScheduledInRange(c: Client, resets: bool, d: Client)
    requires Scheduled(c, resets, d) && DelaysInRange(c.delays)
    ensures DelaysInRange(d.delays)
  {
    if |d.delays| > |c.delays| {
      hide Power2;
      BaseInSeconds(d.reconnectAttempt);
      assert d.delays == c.delays + [d.delays[|c.delays|]];
    }
  }

  lemma {:induction false} RunDelaysInRange(c: Client, run: seq<Step>)
    requires OneSocket(c) && DelaysInRange(c.delays) && IsRun(c, run)
    ensures DelaysInRange(After(c, run).delays)
    decreases |run|
  {
    hide Next, OneSocket, Scheduled, Registered, Counted, DelaysInRange;
    if run != [] {
      StepIsDone(c, run[0]);
      StepKeepsOneSocket(c, run[0]);
      ScheduledInRange(c, Resets(run[0]), Next(c, run[0]));
      RunDelaysInRange(Next(c, run[0]), run[1..]);
    }
  }

  /** In every run, whatever is called when, every timer that is running was set with a delay of 0.9 to 33 seconds. */
  lemma TimersWaitInRange(run: seq<Step>, t: nat)
    requires IsRun(INITIAL, run) && t in After(INITIAL, run).timers
    ensures t < |After(INITIAL, run).delays| && 900 <= After(INITIAL, run).delays[t] <= 33000
  {
    InitialInv();
    RunKeepsInv(INITIAL, run);
    RunDelaysInRange(INITIAL, run);
  }

  function Total(delays: seq<int>): int {
    if delays == [] then 0 else Total(delays[..|delays| - 1]) + delays[|delays| - 1]
  }

  /** The sum of the bases of the first `n` attempts. */
  function TotalBase(n: nat): nat {
    if n == 0 then 0 else TotalBase(n - 1) + BaseDelay(n)
  }

  lemma {:induction false} TotalOfConcat(a: seq<int>, b: seq<int>)
    ensures Total(a + b) == Total(a) + Total(b)
  {
    if b == [] {
      assert a + b == a;
    } else {
      var n := |b| - 1;
      assert (a + b)[..|a| + n] == a + b[..n];
      TotalOfConcat(a, b[..n]);
    }
  }

  /** From `c` to `d` one timer was set per attempt, each with a delay near the base of its attempt. */
  ghost predicate Attempts(c: Client, d: Client) {
    && d.reconnectAttempt >= c.reconnectAttempt && c.delays <= d.delays
    && |d.delays| - |c.delays| == d.reconnectAttempt - c.reconnectAttempt
    && 9 * (TotalBase(d.reconnectAttempt) - TotalBase(c.reconnectAttempt)) <= 10 * (Total(d.delays) - Total(c.delays))
    && 10 * (Total(d.delays) - Total(c.delays)) <= 11 * (TotalBase(d.reconnectAttempt) - TotalBase(c.reconnectAttempt))
  }

  lemma OneAttempt(c: Client, d: Client)
    requires Scheduled(c, false, d)
    ensures Attempts(c, d)
  {
    hide BaseDelay;
    if |d.delays| > |c.delays| {
      assert d.delays[..|d.delays| - 1] == c.delays;
    }
  }

  lemma {:induction false} RunAttempts(c: Client, run: seq<Step>)
    requires OneSocket(c) && IsRun(c, run) && forall i :: 0 <= i < |run| ==> !Resets(run[i])
    ensures Attempts(c, After(c, run))
    decreases |run|
  {
    hide Next, OneSocket, Scheduled, Registered, Counted, Resets, Total, TotalBase;
    if run != [] {
      StepIsDone(c, run[0]);
      StepKeepsOneSocket(c, run[0]);
      OneAttempt(c, Next(c, run[0]));
      RunAttempts(Next(c, run[0]), run[1..]);
    }
  }

  /** Between two opens at most ten reconnects are scheduled, however `connect` is called. */
  lemma TenAttempts(c: Client, run: seq<Step>)
    requires Inv(c) && IsRun(c, run) && forall i :: 0 <= i < |run| ==> !Resets(run[i])
    ensures c.delays <= After(c, run).delays && |After(c, run).delays| - |c.delays| <= MAX_RECONNECT_ATTEMPTS
  {
    hide Total, TotalBase, IsRun, After, OneSocket, Registered;
    RunAttempts(c, run);
    RunKeepsInv(c, run);
  }

  lemma TenBases()
    ensures TotalBase(10) == 181000
  {
    assert Power2(5) == 32 && Power2(6) == 64 && Power2(7) == 128 && Power2(8) == 256 && Power2(9) == 512;
    assert TotalBase(5) == 31000;
  }

  /** In every run that never gets through and schedules all ten attempts, the timers it sets wait 162.9 to
      199.1 seconds together. */
  lemma FailedRunWaits(c: Client, run: seq<Step>)
    requires Inv(c) && c.reconnectAttempt == 0 && IsRun(c, run) && forall i :: 0 <= i < |run| ==> !Resets(run[i])
    requires |After(c, run).delays| == |c.delays| + MAX_RECONNECT_ATTEMPTS
    ensures c.delays <= After(c, run).delays && 162900 <= Total(After(c, run).delays[|c.delays|..]) <= 199100
  {
    hide IsRun, After, OneSocket, Registered, Total, BaseDelay;
    var d := After(c, run);
    RunAttempts(c, run);
    TenBases();
    assert d.delays == c.delays + d.delays[|c.delays|..];
    TotalOfConcat(c.delays, d.delays[|c.delays|..]);
  }

  /** A timer is running whose refresh will be for the same address. */
  predicate Retrying(c: Client) {
    && c.wsUrl.Some? && c.reconnectTimer.Some? && c.reconnectTimer.value in c.timers
    && c.reconnectAttempt <= MAX_RECONNECT_ATTEMPTS
  }

  lemma OneMoreFailure(c: Client)
    requires Retrying(c) && c.reconnectAttempt < MAX_RECONNECT_ATTEMPTS
    ensures var d := TimerFired(c, c.reconnectTimer.value);
      && c.nextRefresh in d.refreshes
      && Retrying(RefreshRefused(d, c.nextRefresh, 0.5))
      && RefreshRefused(d, c.nextRefresh, 0.5).reconnectAttempt == c.reconnectAttempt + 1
  {
    hide DelayMs;
  }

  lemma {:induction false} FailuresGoOn(c: Client) returns (run: seq<Step>)
    requires Retrying(c)
    ensures IsRun(c, run) && (forall i :: 0 <= i < |run| ==> !Resets(run[i]))
    ensures After(c, run).reconnectAttempt == MAX_RECONNECT_ATTEMPTS
    decreases MAX_RECONNECT_ATTEMPTS - c.reconnectAttempt
  {
    if c.reconnectAttempt == MAX_RECONNECT_ATTEMPTS {
      run := [];
    } else {
      hide Retrying, TimerFired, RefreshRefused;
      var t, r := c.reconnectTimer.value, c.nextRefresh;
      OneMoreFailure(c);
      var d := Next(c, TimerFires(t));
      var rest := FailuresGoOn(Next(d, RefreshFailed(r, 0.5)));
      run := [TimerFires(t), RefreshFailed(r, 0.5)] + rest;
      assert run[1..] == [RefreshFailed(r, 0.5)] + rest && run[1..][1..] == rest;
      assert IsRun(d, run[1..]);
    }
  }

  /** There are such runs: once an attempt is scheduled, failures alone use up all ten. */
  lemma TenAttemptsHappen(c: Client) returns (run: seq<Step>)
    requires Inv(c) && Retrying(c)
    ensures IsRun(c, run) && (forall i :: 0 <= i < |run| ==> !Resets(run[i]))
    ensures |After(c, run).delays| == |c.delays| + MAX_RECONNECT_ATTEMPTS - c.reconnectAttempt
  {
    run := FailuresGoOn(c);
    RunAttempts(c, run);
  }
}
