/**
 * The class of src/lib/daemon-ws.ts, method by method, proved against the transition system of
 * `DaemonWs`.  The fields after the blank line stand for the world: sockets, timers with their
 * delays, session refreshes in flight, and the callbacks that have been called.  `random` is what
 * `Math.random()` returns.
 */
module DaemonWsClient {
  import opened JsString
  import opened DaemonWs

  class WsClient {
    var ws: Option<nat>
    var wsUrl: Option<string>
    var callbacks: map<string, set<Callback>>
    var activeTopics: set<string>
    var onReconnectCallbacks: set<Callback>
    var hasConnectedOnce: bool
    var reconnectAttempt: nat
    var reconnectTimer: Option<nat>
    var isReconnecting: bool

    var sockets: map<nat, Socket>
    var nextSocket: nat
    var timers: set<nat>
    var delays: seq<int>
    var refreshes: map<nat, Origin>
    var nextRefresh: nat
    ghost var delivered: multiset<(Callback, Event)>
    ghost var resynced: multiset<Callback>

    constructor ()
      ensures Current() == INITIAL
    {
      ws, wsUrl, callbacks, activeTopics, onReconnectCallbacks := None, None, map[], {}, {};
      hasConnectedOnce, reconnectAttempt, reconnectTimer, isReconnecting := false, 0, None, false;
      sockets, nextSocket, timers, delays, refreshes, nextRefresh := map[], 0, {}, [], map[], 0;
      delivered, resynced := multiset{}, multiset{};
    }

    ghost function Current(): Client
      reads this
    {
      Client(ws, wsUrl, callbacks, activeTopics, onReconnectCallbacks, hasConnectedOnce, reconnectAttempt,
             reconnectTimer, isReconnecting, sockets, nextSocket, timers, delays, refreshes, nextRefresh,
             delivered, resynced)
    }

    method Connected() returns (open: bool)
      ensures open == IsOpen(Current())
    {
      open := ws.Some? && ws.value in sockets && sockets[ws.value].ready == Open;
    }

    // ---------- public API ----------

    method Connect(url: string)
      modifies this
      ensures Current() == Next(old(Current()), DaemonWs.Connect(url))
    {
      var open := Connected();
      if open {
        return;
      }
      wsUrl := Some(url);
      BeginOpenSocket(ByConnect);
    }

    method Disconnect()
      modifies this
      ensures Current() == Next(old(Current()), DaemonWs.Disconnect)
    {
      CancelReconnect();
      ForgetProgress();
      DiscardSocket();
      wsUrl := None;
    }

    method Subscribe(topics: seq<string>, callback: Callback)
      modifies this
      ensures Current() == Next(old(Current()), DaemonWs.Subscribe(topics, callback))
    {
      hide Registering, Sent;
      NoTopics(Current(), callback);
      assert TopicSet(topics[..0]) == {};
      var i := 0;
      while i < |topics|
        invariant 0 <= i <= |topics|
        invariant Current() == Registering(old(Current()), TopicSet(topics[..i]), callback)
      {
        assert TopicSet(topics[..i + 1]) == TopicSet(topics[..i]) + {topics[i]};
        OneTopicMore(old(Current()), TopicSet(topics[..i]), topics[i], callback);
        AddCallback(topics[i], callback);
        i := i + 1;
      }
      assert topics[..|topics|] == topics;
      SendSubscribe(TopicSet(topics));
    }

    method AddCallback(topic: string, callback: Callback)
      modifies `activeTopics, `callbacks
      ensures Current() == Registering(old(Current()), {topic}, callback)
    {
      hide WithCallback;
      OneCallbackMore(callbacks, topic, callback);
      activeTopics := activeTopics + {topic};
      var found := callbacks;
      if topic !in found {
        found := found[topic := {}];
      }
      callbacks := found[topic := found[topic] + {callback}];
    }

    method OnReconnect(callback: Callback)
      modifies this
      ensures Current() == Next(old(Current()), DaemonWs.OnReconnect(callback))
    {
      onReconnectCallbacks := onReconnectCallbacks + {callback};
    }

    method OffReconnect(callback: Callback)
      modifies this
      ensures Current() == Next(old(Current()), DaemonWs.OffReconnect(callback))
    {
      onReconnectCallbacks := onReconnectCallbacks - {callback};
    }

    method Reset()
      modifies this
      ensures Current() == Next(old(Current()), DaemonWs.Reset)
    {
      wsUrl := None;
      CancelReconnect();
      DiscardSocket();
      ClearRegistrations();
      ForgetProgress();
    }

    // ---------- private helpers ----------

    method ClearRegistrations()
      modifies this
      ensures Current() == old(Current()).(callbacks := map[], activeTopics := {}, onReconnectCallbacks := {})
    {
      callbacks := map[];
      activeTopics := {};
      onReconnectCallbacks := {};
    }

    method ForgetProgress()
      modifies this
      ensures Current() == ProgressForgotten(old(Current()))
    {
      reconnectAttempt := 0;
      isReconnecting := false;
      hasConnectedOnce := false;
    }

    method DiscardSocket()
      modifies this
      ensures Current() == SocketDiscarded(old(Current()))
    {
      if ws.Some? {
        if ws.value in sockets {
          sockets := sockets[ws.value := Socket(AfterClose(sockets[ws.value].ready), false, false, false,
                                                sockets[ws.value].sent)];
        }
        ws := None;
      }
    }

    /** `_openSocket` up to its `await`. */
    method BeginOpenSocket(origin: Origin)
      modifies this
      ensures Current() == StartRefresh(old(Current()), origin)
    {
      refreshes := refreshes[nextRefresh := origin];
      nextRefresh := nextRefresh + 1;
    }

    /** `_openSocket` from its `await` on. */
    method SessionRefreshed(refresh: nat)
      requires refresh in refreshes
      modifies this
      ensures Current() == Next(old(Current()), RefreshDone(refresh))
    {
      hide NewSocket, OldSocketClosed;
      refreshes := refreshes - {refresh};
      if wsUrl == None {
        return;
      }
      CloseOldSocket();
      CreateSocket();
    }

    /** The same when the constructor of the new socket throws; the caller of `_openSocket` catches. */
    method SocketThrows(refresh: nat, random: real)
      requires Enabled(Current(), SocketFails(refresh, random))
      modifies this
      ensures Current() == Next(old(Current()), SocketFails(refresh, random))
    {
      hide OldSocketClosed, DaemonWs.ScheduleReconnect;
      var origin := refreshes[refresh];
      refreshes := refreshes - {refresh};
      CloseOldSocket();
      if origin == ByTimer {
        ScheduleReconnect(random);
      }
    }

    method CloseOldSocket()
      modifies `sockets
      ensures Current() == OldSocketClosed(old(Current()))
    {
      if ws.Some? && ws.value in sockets {
        sockets := sockets[ws.value := sockets[ws.value].(onclose := false)];
        sockets := sockets[ws.value := sockets[ws.value].(ready := AfterClose(sockets[ws.value].ready))];
      }
    }

    method CreateSocket()
      modifies `sockets, `ws, `nextSocket
      ensures Current() == NewSocket(old(Current()))
    {
      sockets := sockets[nextSocket := Socket(Connecting, true, true, true, {})];
      ws := Some(nextSocket);
      nextSocket := nextSocket + 1;
    }

    method SessionRefused(refresh: nat, random: real)
      requires Enabled(Current(), RefreshFailed(refresh, random))
      modifies this
      ensures Current() == Next(old(Current()), RefreshFailed(refresh, random))
    {
      var origin := refreshes[refresh];
      refreshes := refreshes - {refresh};
      if origin == ByTimer {
        ScheduleReconnect(random);
      }
    }

    method OnOpen(socket: nat)
      requires Enabled(Current(), SocketOpens(socket))
      modifies this
      ensures Current() == Next(old(Current()), SocketOpens(socket))
    {
      sockets := sockets[socket := sockets[socket].(ready := Open)];
      if sockets[socket].onopen {
        var wasReconnect := hasConnectedOnce;
        MarkOpen();
        if activeTopics != {} {
          SendSubscribe(activeTopics);
        }
        if wasReconnect {
          FireReconnect();
        }
      }
    }

    method MarkOpen()
      modifies this
      ensures Current() == old(Current()).(hasConnectedOnce := true, reconnectAttempt := 0, isReconnecting := false)
    {
      hasConnectedOnce := true;
      reconnectAttempt := 0;
      isReconnecting := false;
    }

    method OnClose(socket: nat, random: real)
      requires Enabled(Current(), SocketCloses(socket, random))
      modifies this
      ensures Current() == Next(old(Current()), SocketCloses(socket, random))
    {
      sockets := sockets[socket := sockets[socket].(ready := Closed)];
      if sockets[socket].onclose && wsUrl.Some? {
        ScheduleReconnect(random);
      }
    }

    method OnMessage(socket: nat, event: Option<Event>)
      requires Enabled(Current(), DaemonWs.Message(socket, event))
      modifies this
      ensures Current() == Next(old(Current()), DaemonWs.Message(socket, event))
    {
      if sockets[socket].onmessage && event.Some? {
        HandleMessage(event.value);
      }
    }

    /** Goes through the whole callback map, as the source does, and calls every callback of the event's topic. */
    method HandleMessage(event: Event)
      modifies this
      ensures Current() == old(Current()).(delivered := old(delivered) + Deliveries(old(Current()), event))
    {
      hide Calls;
      ghost var before := Current();
      var todo := callbacks.Keys;
      while todo != {}
        invariant todo <= callbacks.Keys
        invariant Current() == before.(delivered := before.delivered + if event.topic in todo then multiset{}
                                                                       else Deliveries(before, event))
        decreases |todo|
      {
        var topic :| topic in todo;
        if topic == event.topic {
          CallAll(callbacks[topic], event);
        }
        todo := todo - {topic};
      }
    }

    method CallAll(cbs: set<Callback>, event: Event)
      modifies this
      ensures Current() == old(Current()).(delivered := old(delivered) + Calls(cbs, event))
    {
      hide Calls;
      ghost var before := Current();
      var todo := cbs;
      NoCall(cbs, event);
      while todo != {}
        invariant todo <= cbs
        invariant Current() == before.(delivered := before.delivered + Calls(cbs - todo, event))
        decreases |todo|
      {
        var cb :| cb in todo;
        OneMoreCall(cbs, todo, cb, event);
        delivered := delivered + multiset{(cb, event)};
        todo := todo - {cb};
      }
      assert cbs - {} == cbs;
    }

    method SendSubscribe(topics: set<string>)
      modifies this
      ensures Current() == Sent(old(Current()), topics)
    {
      var open := Connected();
      if open {
        sockets := sockets[ws.value := sockets[ws.value].(sent := sockets[ws.value].sent + topics)];
      }
    }

    method Unsubscribe(topics: seq<string>, callback: Callback)
      modifies this
      ensures Current() == Next(old(Current()), DaemonWs.Unsubscribe(topics, callback))
    {
      hide Unregistering;
      NoTopics(Current(), callback);
      assert TopicSet(topics[..0]) == {};
      var i := 0;
      while i < |topics|
        invariant 0 <= i <= |topics|
        invariant Current() == Unregistering(old(Current()), TopicSet(topics[..i]), callback)
      {
        assert TopicSet(topics[..i + 1]) == TopicSet(topics[..i]) + {topics[i]};
        OneTopicLess(old(Current()), TopicSet(topics[..i]), topics[i], callback);
        RemoveCallback(topics[i], callback);
        i := i + 1;
      }
      assert topics[..|topics|] == topics;
    }

    method RemoveCallback(topic: string, callback: Callback)
      modifies `activeTopics, `callbacks
      ensures Current() == Unregistering(old(Current()), {topic}, callback)
    {
      if topic in callbacks {
        callbacks := callbacks[topic := callbacks[topic] - {callback}];
        if callbacks[topic] == {} {
          callbacks := callbacks - {topic};
          activeTopics := activeTopics - {topic};
        }
      }
      assert callbacks == WithoutCallback(old(callbacks), {topic}, callback);
    }

    method ScheduleReconnect(random: real)
      modifies this
      ensures Current() == DaemonWs.ScheduleReconnect(old(Current()), random)
    {
      hide DelayMs;
      if isReconnecting || wsUrl == None {
        return;
      }
      if reconnectAttempt >= MAX_RECONNECT_ATTEMPTS {
        isReconnecting := false;
        return;
      }
      CountAttempt();
      var delayMs := Delay(reconnectAttempt, random);
      SetTimer(delayMs);
    }

    /** The computation of the delay, for the attempt with the given number. */
    static method Delay(attempt: nat, random: real) returns (delayMs: int)
      requires attempt >= 1
      ensures delayMs == DelayMs(attempt, random)
    {
      var baseDelay := RECONNECT_BASE_DELAY_MS * Power2(attempt - 1);
      if baseDelay > RECONNECT_MAX_DELAY_MS {
        baseDelay := RECONNECT_MAX_DELAY_MS;
      }
      var jitter := Jitter(baseDelay as real, random);
      delayMs := Round(baseDelay as real + jitter);
    }

    method CountAttempt()
      modifies `isReconnecting, `reconnectAttempt
      ensures isReconnecting && reconnectAttempt == old(reconnectAttempt) + 1
    {
      isReconnecting := true;
      reconnectAttempt := reconnectAttempt + 1;
    }

    /** `setTimeout`. */
    method SetTimer(delayMs: int)
      modifies `reconnectTimer, `timers, `delays
      ensures reconnectTimer == Some(|old(delays)|)
      ensures timers == old(timers) + {|old(delays)|} && delays == old(delays) + [delayMs]
    {
      reconnectTimer := Some(|delays|);
      timers := timers + {|delays|};
      delays := delays + [delayMs];
    }

    method TimerEnds(timer: nat)
      modifies `timers, `isReconnecting
      ensures Current() == old(Current()).(timers := old(timers) - {timer}, isReconnecting := false)
    {
      timers := timers - {timer};
      isReconnecting := false;
    }

    method OnTimer(timer: nat)
      requires timer in timers
      modifies this
      ensures Current() == Next(old(Current()), TimerFires(timer))
    {
      hide StartRefresh;
      TimerEnds(timer);
      if wsUrl.Some? {
        BeginOpenSocket(ByTimer);
      }
    }

    method CancelReconnect()
      modifies this
      ensures Current() == ReconnectCancelled(old(Current()))
    {
      if reconnectTimer != None {
        timers := timers - {reconnectTimer.value};
        reconnectTimer := None;
      }
    }

    method FireReconnect()
      modifies this
      ensures Current() == old(Current()).(resynced := old(resynced) + multiset(old(onReconnectCallbacks)))
    {
      ghost var before := Current();
      var todo := onReconnectCallbacks;
      while todo != {}
        invariant onReconnectCallbacks == before.onReconnectCallbacks && todo <= onReconnectCallbacks
        invariant Current() == before.(resynced := before.resynced + multiset(before.onReconnectCallbacks - todo))
        decreases |todo|
      {
        var cb :| cb in todo;
        OneMore(onReconnectCallbacks, todo, cb);
        resynced := resynced + multiset{cb};
        todo := todo - {cb};
      }
      assert onReconnectCallbacks - {} == onReconnectCallbacks;
    }
  }

  lemma NoTopics(c: Client, callback: Callback)
    ensures Registering(c, {}, callback) == c && Unregistering(c, {}, callback) == c
  {
    assert c.callbacks.Keys + {} == c.callbacks.Keys;
    assert WithCallback(c.callbacks, {}, callback) == c.callbacks;
    assert WithoutCallback(c.callbacks, {}, callback) == c.callbacks;
  }

  lemma OneCallbackMore(callbacks: map<string, set<Callback>>, topic: string, callback: Callback)
    ensures WithCallback(callbacks, {topic}, callback) == callbacks[topic := CallbacksOf(callbacks, topic) + {callback}]
  {
    hide CallbacksOf;
    assert callbacks.Keys + {topic} == callbacks[topic := {}].Keys;
  }

  lemma SetsMerged(callbacks: map<string, set<Callback>>, topics: set<string>, topic: string, callback: Callback)
    ensures WithCallback(WithCallback(callbacks, topics, callback), {topic}, callback)
            == WithCallback(callbacks, topics + {topic}, callback)
  {
    var m := WithCallback(callbacks, topics, callback);
    var k := WithCallback(m, {topic}, callback);
    var n := WithCallback(callbacks, topics + {topic}, callback);
    assert k.Keys == n.Keys;
    forall t | t in n
      ensures k[t] == n[t]
    {
      if t == topic {
        assert CallbacksOf(m, t) + {callback} == CallbacksOf(callbacks, t) + {callback};
      }
    }
  }

  lemma OneTopicMore(c: Client, topics: set<string>, topic: string, callback: Callback)
    ensures Registering(Registering(c, topics, callback), {topic}, callback) ==
            Registering(c, topics + {topic}, callback)
  {
    SetsMerged(c.callbacks, topics, topic, callback);
    hide WithCallback;
    assert c.activeTopics + topics + {topic} == c.activeTopics + (topics + {topic});
  }

  lemma RemovedTwice(cbs: set<Callback>, callback: Callback)
    ensures cbs - {callback} - {callback} == cbs - {callback}
  {
  }

  lemma EmptiedTwice(callbacks: map<string, set<Callback>>, topics: set<string>, topic: string, callback: Callback)
    ensures Emptied(callbacks, topics, callback)
            + Emptied(WithoutCallback(callbacks, topics, callback), {topic}, callback)
            == Emptied(callbacks, topics + {topic}, callback)
  {
    if topic in callbacks {
      RemovedTwice(callbacks[topic], callback);
    }
  }

  lemma SetsReduced(callbacks: map<string, set<Callback>>, topics: set<string>, topic: string, callback: Callback)
    ensures WithoutCallback(WithoutCallback(callbacks, topics, callback), {topic}, callback)
            == WithoutCallback(callbacks, topics + {topic}, callback)
  {
    if topic in callbacks {
      RemovedTwice(callbacks[topic], callback);
    }
    var k := WithoutCallback(WithoutCallback(callbacks, topics, callback), {topic}, callback);
    var n := WithoutCallback(callbacks, topics + {topic}, callback);
    assert k.Keys == n.Keys;
  }

  lemma OneTopicLess(c: Client, topics: set<string>, topic: string, callback: Callback)
    ensures Unregistering(Unregistering(c, topics, callback), {topic}, callback) ==
            Unregistering(c, topics + {topic}, callback)
  {
    SetsReduced(c.callbacks, topics, topic, callback);
    EmptiedTwice(c.callbacks, topics, topic, callback);
    hide WithoutCallback, Emptied;
    var gone := Emptied(c.callbacks, topics, callback);
    var more := Emptied(WithoutCallback(c.callbacks, topics, callback), {topic}, callback);
    assert c.activeTopics - gone - more == c.activeTopics - (gone + more);
  }

  lemma OneMore<T>(all: set<T>, todo: set<T>, x: T)
    requires todo <= all && x in todo
    ensures multiset(all - (todo - {x})) == multiset(all - todo) + multiset{x}
  {
    assert all - (todo - {x}) == (all - todo) + {x};
  }

  lemma NoCall(cbs: set<Callback>, event: Event)
    ensures Calls(cbs - cbs, event) == multiset{}
  {
    assert cbs - cbs == {};
  }

  lemma OneMoreCall(cbs: set<Callback>, todo: set<Callback>, cb: Callback, event: Event)
    requires todo <= cbs && cb in todo
    ensures Calls(cbs - (todo - {cb}), event) == Calls(cbs - todo, event) + multiset{(cb, event)}
  {
    var s := set x | x in cbs - todo :: (x, event);
    assert (cb, event) !in s;
    assert (set x | x in cbs - (todo - {cb}) :: (x, event)) == s + {(cb, event)};
  }
}
