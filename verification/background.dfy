/**
  The background service worker of the extension (extension/background.js) as
  a class over its module-level state. Each Chrome callback, port event and
  timer becomes a method taking the event's data; the Chrome calls the
  handlers make are recorded in the state (`sent` for `port.postMessage`,
  `closedTabs` for `chrome.tabs.remove`) or returned (the page a capture asks
  `chrome.tabs.create` to open).
*/
module Background {
  import opened Common
  import opened BackgroundState

  /** The connection bookkeeping fields, grouped for "nothing else changes" clauses. */
  datatype Link = Link(port: bool, connected: bool, attempt: nat, timer: Option<nat>)

  class Engine {
    /** Whether `port` holds a native-messaging port (`port !== null`). */
    var portOpen: bool
    var connected: bool
    var reconnectAttempt: nat
    /** The pending reconnect timer, as the delay it was set with; `None` while `reconnectTimer` is null. */
    var reconnectTimer: Option<nat>
    /** The tabs opened by the engine, in insertion order (a JavaScript `Set`). */
    var activeTabs: seq<TabId>
    /** The in-flight captures by file id, each with the progress of its promise executor. */
    var capturePromises: map<FileId, Phase>
    var capturedRequests: map<Key, Entry>
    /** Messages posted on the port, oldest first. */
    var sent: seq<Outbound>
    /** Tabs handed to `chrome.tabs.remove`, oldest first. */
    var closedTabs: seq<TabId>

    ghost function Tabs(): Registry
      reads this`activeTabs, this`capturedRequests, this`closedTabs
    {
      Registry(activeTabs, capturedRequests, closedTabs)
    }

    ghost function Conn(): Link
      reads this`portOpen, this`connected, this`reconnectAttempt, this`reconnectTimer
    {
      Link(portOpen, connected, reconnectAttempt, reconnectTimer)
    }

    ghost predicate Valid()
      reads this`activeTabs, this`capturedRequests, this`closedTabs, this`capturePromises
    {
      Consistent(Tabs(), capturePromises)
    }

    /** Whether the correlator handles events of `tab`: the `activeTabs.has` and `fileId` guards of the debugger event listener. */
    predicate Tracking(tab: TabId)
      reads this`activeTabs, this`capturedRequests, this`closedTabs
    {
      Tracks(Registry(activeTabs, capturedRequests, closedTabs), tab)
    }

    /** The state when the service worker script starts: the initial values of its module-level variables. */
    constructor ()
      ensures Valid()
      ensures Conn() == Link(false, false, 0, None)
      ensures activeTabs == [] && capturePromises == map[] && capturedRequests == map[]
      ensures sent == [] && closedTabs == []
    {
      portOpen, connected, reconnectAttempt, reconnectTimer := false, false, 0, None;
      activeTabs, capturePromises, capturedRequests := [], map[], map[];
      sent, closedTabs := [], [];
    }

    // ---------- Connection management ----------

    /** `sendMessage`: posts on the port when there is one; with no port it reports false and sends nothing. */
    method SendMessage(msg: Outbound) returns (ok: bool)
      modifies this`sent
      ensures ok == portOpen
      ensures sent == if ok then old(sent) + [msg] else old(sent)
    {
      if !portOpen {
        return false;
      }
      sent := sent + [msg];
      ok := true;
    }

    /** `scheduleReconnect`: arms one timer with the backoff delay, unless one is already pending. */
    method ScheduleReconnect()
      modifies this`reconnectTimer
      ensures old(reconnectTimer).Some? ==> reconnectTimer == old(reconnectTimer)
      ensures old(reconnectTimer).None? ==> reconnectTimer == Some(ReconnectDelay(reconnectAttempt))
    {
      if reconnectTimer.Some? {
        return;
      }
      reconnectTimer := Some(ReconnectDelay(reconnectAttempt));
    }

    /**
      `connect`: opens a new port and sends the `hello` handshake; when
      `connectNative` throws (`fails`) the port is left as it was and a
      reconnect is scheduled instead.
    */
    method Connect(fails: bool)
      modifies this`portOpen, this`sent, this`reconnectTimer
      ensures fails ==> portOpen == old(portOpen) && sent == old(sent)
      ensures fails && old(reconnectTimer).Some? ==> reconnectTimer == old(reconnectTimer)
      ensures fails && old(reconnectTimer).None? ==> reconnectTimer == Some(ReconnectDelay(reconnectAttempt))
      ensures !fails ==> portOpen && sent == old(sent) + [Hello(VERSION)] && reconnectTimer == old(reconnectTimer)
    {
      if fails {
        ScheduleReconnect();
      } else {
        portOpen := true;
        var _ := SendMessage(Hello(VERSION));
      }
    }

    /** The reconnect timer's callback: clears the timer, counts one more attempt, then connects. */
    method ReconnectTimerFires(fails: bool)
      requires reconnectTimer.Some?
      modifies this`portOpen, this`sent, this`reconnectTimer, this`reconnectAttempt
      ensures reconnectAttempt == old(reconnectAttempt) + 1
      ensures fails ==> portOpen == old(portOpen) && sent == old(sent)
                        && reconnectTimer == Some(ReconnectDelay(reconnectAttempt))
      ensures !fails ==> portOpen && sent == old(sent) + [Hello(VERSION)] && reconnectTimer.None?
    {
      reconnectTimer := None;
      reconnectAttempt := reconnectAttempt + 1;
      Connect(fails);
    }

    /** The keep-alive alarm: connects when not connected, and does nothing else. */
    method Alarm(fails: bool)
      modifies this`portOpen, this`sent, this`reconnectTimer
      ensures old(connected) ==> unchanged(this)
      ensures !old(connected) && fails ==> portOpen == old(portOpen) && sent == old(sent)
      ensures !old(connected) && fails ==> reconnectTimer == if old(reconnectTimer).Some? then old(reconnectTimer)
                                                             else Some(ReconnectDelay(reconnectAttempt))
      ensures !old(connected) && !fails ==> portOpen && sent == old(sent) + [Hello(VERSION)]
                                            && reconnectTimer == old(reconnectTimer)
    {
      if !connected {
        Connect(fails);
      }
    }

    /**
      `handleMessage`: `ready` marks the engine connected and resets the
      attempt counter, `ping` answers one `pong`, `capture` starts a capture
      (returning the page it opens), and every other type changes nothing.
    */
    method HandleMessage(msg: Inbound) returns (page: Option<string>)
      requires Valid()
      modifies this`connected, this`reconnectAttempt
      modifies this`sent, this`capturePromises, this`activeTabs, this`capturedRequests, this`closedTabs
      ensures Valid()
      ensures msg.Ready? ==> connected && reconnectAttempt == 0 && portOpen == old(portOpen)
                             && reconnectTimer == old(reconnectTimer) && Tabs() == old(Tabs())
                             && capturePromises == old(capturePromises) && sent == old(sent) && page.None?
      ensures msg.Ping? ==> sent == (if old(portOpen) then old(sent) + [Pong] else old(sent))
                            && Conn() == old(Conn()) && Tabs() == old(Tabs())
                            && capturePromises == old(capturePromises) && page.None?
      ensures msg.Capture? && msg.fileId in old(capturePromises) ==> unchanged(this) && page.None?
      ensures msg.Capture? && msg.fileId !in old(capturePromises) ==>
                page == Some(ViewUrl(msg.fileId))
                && capturePromises == old(capturePromises)[msg.fileId := Opening]
                && Tabs() == MakeRoom(old(Tabs())) && Conn() == old(Conn()) && sent == old(sent)
      ensures !(msg.Ready? || msg.Ping? || msg.Capture?) ==> unchanged(this) && page.None?
    {
      page := None;
      match msg
      case Ready =>
        connected := true;
        reconnectAttempt := 0;
      case Ping =>
        var _ := SendMessage(Pong);
      case Capture(f) =>
        page := StartLegacyCapture(f);
      case _ =>
    }

    /**
      The port's disconnect event: the engine is marked disconnected, every
      owned tab is cleaned up in insertion order, `activeTabs` is emptied and a
      reconnect is scheduled. Captures in flight are not rejected here; their
      tab-capture entries stay until they settle.
    */
    method HandleDisconnect()
      requires Valid()
      modifies this`connected, this`portOpen, this`reconnectTimer, this`activeTabs, this`capturedRequests, this`closedTabs
      ensures Valid()
      ensures !connected && !portOpen && activeTabs == []
      ensures old(reconnectTimer).Some? ==> reconnectTimer == old(reconnectTimer)
      ensures old(reconnectTimer).None? ==> reconnectTimer == Some(ReconnectDelay(reconnectAttempt))
      ensures closedTabs == old(closedTabs) + old(activeTabs)
      ensures capturedRequests == map k | k in old(capturedRequests) && old(capturedRequests)[k].TabCapture?
                                        :: old(capturedRequests)[k]
    {
      connected := false;
      portOpen := false;
      CleanupAllTabs();
      activeTabs := [];
      ScheduleReconnect();
    }

    /**
      The loop of the disconnect handler: `cleanupTabResources` for each owned
      tab, over a snapshot of `activeTabs` taken before the loop. Every tab is
      closed in order, and of the correlator's entries only the tab captures
      are left.
    */
    method CleanupAllTabs()
      requires Valid()
      modifies this`activeTabs, this`capturedRequests, this`closedTabs
      ensures Valid() && activeTabs == []
      ensures closedTabs == old(closedTabs) + old(activeTabs)
      ensures capturedRequests == map k | k in old(capturedRequests) && old(capturedRequests)[k].TabCapture?
                                        :: old(capturedRequests)[k]
    {
      var tabs := activeTabs;
      var i := 0;
      while i < |tabs|
        invariant 0 <= i <= |tabs|
        invariant Valid()
        invariant activeTabs == tabs[i..]
        invariant closedTabs == old(closedTabs) + tabs[..i]
        invariant forall k :: k in capturedRequests ==> k in old(capturedRequests) && capturedRequests[k] == old(capturedRequests)[k]
        invariant forall k :: k in old(capturedRequests) && old(capturedRequests)[k].TabCapture? ==> k in capturedRequests
      {
        WithoutAt(activeTabs, 0);
        assert tabs[..i + 1] == tabs[..i] + [tabs[i]];
        CleanupTabResources(tabs[i]);
        i := i + 1;
      }
    }

    // ---------- Capture ----------

    /**
      `cleanupTabResources(t)`, its detach callback taken as one step: deletes
      every `capturedRequests` entry whose `tabId` is `t`, removes `t` from
      `activeTabs` and closes the tab.
    */
    method CleanupTabResources(t: TabId)
      requires Valid()
      modifies this`activeTabs, this`capturedRequests, this`closedTabs
      ensures Valid()
      ensures Tabs() == Cleanup(old(Tabs()), t)
    {
      CleanupConsistent(Tabs(), capturePromises, t);
      var keys := capturedRequests.Keys;
      while keys != {}
        invariant keys <= old(capturedRequests).Keys
        invariant activeTabs == old(activeTabs) && closedTabs == old(closedTabs)
        invariant forall k :: k in capturedRequests ==> k in old(capturedRequests) && capturedRequests[k] == old(capturedRequests)[k]
        invariant forall k :: k in old(capturedRequests) && (k in keys || !old(capturedRequests)[k].BelongsTo(t)) ==> k in capturedRequests
        invariant forall k :: k in old(capturedRequests) && k !in keys && old(capturedRequests)[k].BelongsTo(t) ==> k !in capturedRequests
        decreases keys
      {
        var k :| k in keys;
        if capturedRequests[k].BelongsTo(t) {
          capturedRequests := capturedRequests - {k};
        }
        keys := keys - {k};
      }
      assert capturedRequests == Cleanup(old(Tabs()), t).requests;
      activeTabs := Without(activeTabs, t);
      closedTabs := closedTabs + [t];
    }

    /**
      `startLegacyCapture` up to its first `await`: a file already in flight is
      ignored; otherwise, with `MAX_TABS` or more tabs owned, the oldest one is
      cleaned up (its capture is not rejected), the promise is registered and
      the capture page is requested from `chrome.tabs.create`.
    */
    method StartLegacyCapture(f: FileId) returns (page: Option<string>)
      requires Valid()
      modifies this`sent, this`capturePromises, this`activeTabs, this`capturedRequests, this`closedTabs
      ensures Valid()
      ensures f in old(capturePromises) ==> unchanged(this) && page.None?
      ensures f !in old(capturePromises) ==>
                page == Some(ViewUrl(f)) && capturePromises == old(capturePromises)[f := Opening]
                && Tabs() == MakeRoom(old(Tabs()))
      ensures f !in old(capturePromises) && |old(activeTabs)| >= MAX_TABS ==> |activeTabs| == |old(activeTabs)| - 1
      ensures Conn() == old(Conn()) && sent == old(sent)
    {
      if f in capturePromises {
        return None;
      }
      if |activeTabs| >= MAX_TABS {
        MakeRoomEvictsOldest(Tabs());
        CleanupTabResources(activeTabs[0]);
      }
      OpenConsistent(Tabs(), capturePromises, f);
      capturePromises := capturePromises[f := Opening];
      page := Some(ViewUrl(f));
    }

    /** `chrome.tabs.create` resolved with the new tab `t`: it joins `activeTabs` and the debugger is attached next. */
    method TabCreated(f: FileId, t: TabId)
      requires Valid()
      requires f in capturePromises && capturePromises[f] == Opening
      requires Unused(t, Tabs(), capturePromises)
      modifies this`sent, this`capturePromises, this`activeTabs, this`capturedRequests, this`closedTabs
      ensures Valid()
      ensures activeTabs == old(activeTabs) + [t]
      ensures capturePromises == old(capturePromises)[f := Attaching(t)]
      ensures capturedRequests == old(capturedRequests) && closedTabs == old(closedTabs)
      ensures Conn() == old(Conn()) && sent == old(sent)
    {
      TabCreatedConsistent(Tabs(), capturePromises, f, t);
      activeTabs := activeTabs + [t];
      capturePromises := capturePromises[f := Attaching(t)];
    }

    /**
      `debugger.attach` and `Network.enable` succeeded: the capture timeout is
      armed and the capture is stored under its tab, where the correlator finds it.
    */
    method InspectorAttached(f: FileId)
      requires Valid()
      requires f in capturePromises && capturePromises[f].Attaching?
      modifies this`sent, this`capturePromises, this`activeTabs, this`capturedRequests, this`closedTabs
      ensures Valid()
      ensures capturePromises == old(capturePromises)[f := Waiting(old(capturePromises)[f].tab)]
      ensures capturedRequests == old(capturedRequests)[Tab(old(capturePromises)[f].tab) := TabCapture(f)]
      ensures activeTabs == old(activeTabs) && closedTabs == old(closedTabs)
      ensures Conn() == old(Conn()) && sent == old(sent)
    {
      var t := capturePromises[f].tab;
      AttachedConsistent(Tabs(), capturePromises, f);
      capturedRequests := capturedRequests[Tab(t) := TabCapture(f)];
      capturePromises := capturePromises[f := Waiting(t)];
    }

    /**
      The executor's `catch`: creating the tab, attaching or enabling the
      network domain failed with `error`. A tab that was already created (a
      truthy id) is cleaned up, then the capture is rejected.
    */
    method InitFailed(f: FileId, error: string)
      requires Valid()
      requires f in capturePromises && !capturePromises[f].Waiting?
      modifies this`sent, this`capturePromises, this`activeTabs, this`capturedRequests, this`closedTabs
      ensures Valid()
      ensures capturePromises == old(capturePromises) - {f}
      ensures sent == old(sent) + (if old(portOpen) then [ResultOf(f, Rejected(error))] else [])
      ensures var ph := old(capturePromises)[f];
        Tabs() == if ph.Attaching? && ph.tab != 0 then Cleanup(old(Tabs()), ph.tab) else old(Tabs())
      ensures Conn() == old(Conn())
    {
      var ph := capturePromises[f];
      if ph.Attaching? && ph.tab != 0 {
        CleanupTabResources(ph.tab);
      }
      Settle(f, Rejected(error));
    }

    /** The capture timeout fires: the tab is cleaned up and the capture rejected with "Capture timed out". */
    method CaptureTimeout(f: FileId)
      requires Valid()
      requires f in capturePromises && capturePromises[f].Waiting?
      modifies this`sent, this`capturePromises, this`activeTabs, this`capturedRequests, this`closedTabs
      ensures Valid()
      ensures capturePromises == old(capturePromises) - {f}
      ensures sent == old(sent) + (if old(portOpen) then [ResultOf(f, Rejected(TIMED_OUT))] else [])
      ensures var ph := old(capturePromises)[f];
        Tabs() == Release(Cleanup(old(Tabs()), ph.tab), ph)
      ensures Conn() == old(Conn())
    {
      var ph := capturePromises[f];
      CleanupTabResources(ph.tab);
      Settle(f, Rejected(TIMED_OUT));
    }

    /**
      A capture promise settles: its `then`/`catch` handler sends exactly one
      `result` (through `sendResult`), then its `finally` cleans up the tab
      whose entry names this file (and deletes that entry) and forgets the
      promise. The three handlers run as microtasks, before any other event.
    */
    method Settle(f: FileId, outcome: Outcome)
      requires Valid()
      requires f in capturePromises
      modifies this`sent, this`capturePromises, this`activeTabs, this`capturedRequests, this`closedTabs
      ensures Valid()
      ensures capturePromises == old(capturePromises) - {f}
      ensures sent == old(sent) + (if old(portOpen) then [ResultOf(f, outcome)] else [])
      ensures Tabs() == Release(old(Tabs()), old(capturePromises)[f])
      ensures Conn() == old(Conn())
    {
      var _ := SendMessage(ResultOf(f, outcome));
      var ph := capturePromises[f];
      ReleaseConsistent(Tabs(), capturePromises, f);
      if ph.Waiting? {
        CleanupTabResources(ph.tab);
        capturedRequests := capturedRequests - {Tab(ph.tab)};
      }
      capturePromises := capturePromises - {f};
    }

    // ---------- Chrome events ----------

    /**
      `chrome.tabs.onRemoved`: a tab the engine owns was closed. It is cleaned
      up, and when it holds a capture that capture is rejected with
      "Tab closed unexpectedly". Tabs the engine does not own are ignored.
    */
    method TabRemoved(t: TabId)
      requires Valid()
      modifies this`sent, this`capturePromises, this`activeTabs, this`capturedRequests, this`closedTabs
      ensures Valid()
      ensures t !in old(activeTabs) ==> unchanged(this)
      ensures t in old(activeTabs) && Tab(t) !in old(capturedRequests) ==>
                Tabs() == Cleanup(old(Tabs()), t) && capturePromises == old(capturePromises)
                && sent == old(sent) && Conn() == old(Conn())
      ensures t in old(activeTabs) && Tab(t) in old(capturedRequests) ==>
                var f := old(capturedRequests)[Tab(t)].fileId;
                && capturePromises == old(capturePromises) - {f}
                && sent == old(sent) + (if old(portOpen) then [ResultOf(f, Rejected(TAB_CLOSED))] else [])
                && Tabs() == Release(Cleanup(old(Tabs()), t), Waiting(t))
                && Conn() == old(Conn())
    {
      if t !in activeTabs {
        return;
      }
      CleanupTabResources(t);
      if Tab(t) in capturedRequests {
        var f := capturedRequests[Tab(t)].fileId;
        Settle(f, Rejected(TAB_CLOSED));
      }
    }

    /**
      `Network.requestWillBeSent` on a tracked tab: a request to the video API
      host is recorded under its request id; anything else changes nothing.
    */
    method RequestWillBeSent(tab: TabId, rid: RequestId, url: string, httpMethod: string)
      requires Valid()
      modifies this`capturedRequests
      ensures Valid()
      ensures old(Tracking(tab)) && StartsWith(url, VIDEO_API_PREFIX) ==>
                capturedRequests == old(capturedRequests)[Request(rid) := Exchange(url, httpMethod, tab)]
      ensures !(old(Tracking(tab)) && StartsWith(url, VIDEO_API_PREFIX)) ==> capturedRequests == old(capturedRequests)
    {
      if !Tracking(tab) || !StartsWith(url, VIDEO_API_PREFIX) {
        return;
      }
      ExchangeConsistent(Tabs(), capturePromises, tab, rid, url, httpMethod);
      capturedRequests := capturedRequests[Request(rid) := Exchange(url, httpMethod, tab)];
    }

    /**
      `Network.responseReceived` on a tracked tab: the response body is
      fetched exactly when the request was recorded as an exchange of that
      tab. A fetched exchange is a request to the video API host, and the tab
      holds the pending capture the body callback will resolve.
    */
    method ResponseReceived(tab: TabId, rid: RequestId) returns (fetch: bool)
      requires Valid()
      ensures fetch <==> Tracking(tab) && Request(rid) in capturedRequests
                         && capturedRequests[Request(rid)].BelongsTo(tab)
      ensures fetch ==> StartsWith(capturedRequests[Request(rid)].url, VIDEO_API_PREFIX)
      ensures fetch ==> var f := capturedRequests[Tab(tab)].fileId;
                        f in capturePromises && capturePromises[f] == Waiting(tab)
    {
      fetch := Tracking(tab) && Request(rid) in capturedRequests && capturedRequests[Request(rid)].BelongsTo(tab);
    }

    /**
      The `Network.getResponseBody` callback for exchange `rid` of `tab`, with
      the parsed transcode list. When the exchange is gone the callback throws
      and nothing happens; when the list yields a video URL and the tab still
      holds a capture, that capture is resolved with it.
    */
    method ResponseBodyArrived(tab: TabId, rid: RequestId, transcodes: Option<seq<Transcode>>)
      requires Valid()
      modifies this`sent, this`capturePromises, this`activeTabs, this`capturedRequests, this`closedTabs
      ensures Valid()
      ensures var u := PickVideoUrl(transcodes);
        !(Request(rid) in old(capturedRequests) && u.Some? && Tab(tab) in old(capturedRequests)) ==> unchanged(this)
      ensures var u := PickVideoUrl(transcodes);
        Request(rid) in old(capturedRequests) && u.Some? && Tab(tab) in old(capturedRequests) ==>
          var f := old(capturedRequests)[Tab(tab)].fileId;
          && capturePromises == old(capturePromises) - {f}
          && sent == old(sent) + (if old(portOpen) then [ResultOf(f, Resolved(u.value))] else [])
          && Tabs() == Release(old(Tabs()), Waiting(tab))
          && Conn() == old(Conn())
    {
      if Request(rid) !in capturedRequests {
        return;
      }
      var u := PickVideoUrl(transcodes);
      if u.Some? && Tab(tab) in capturedRequests {
        var f := capturedRequests[Tab(tab)].fileId;
        Settle(f, Resolved(u.value));
      }
    }

    /**
      The popup's `status` request: the connection flag and `activeTabs.size`,
      the number of distinct tabs the engine owns.
    */
    method Status() returns (isConnected: bool, tabCount: nat)
      requires Valid()
      ensures isConnected == connected
      ensures tabCount == |Members(activeTabs)|
    {
      isConnected := connected;
      DistinctCount(activeTabs);
      tabCount := |activeTabs|;
    }
  }
}
