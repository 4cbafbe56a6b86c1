/**
  Values of the extension's background engine (extension/background.js):
  its configuration, the messages it exchanges with the worker, the entries of
  its `capturedRequests` table, the progress of each capture promise, and the
  pure computations its handlers rely on (the backoff table lookup, the
  capture page address, the last-transcode pick and per-tab cleanup).
*/
module BackgroundState {
  import opened Common

  type FileId = string
  type TabId = nat
  type RequestId = string

  // ---------- Configuration ----------

  /** Reconnect delays in milliseconds, one per attempt; the last one repeats. */
  const RECONNECT_DELAYS: seq<nat> := [1000, 2000, 4000, 8000, 16000, 30000]
  /** Tabs the engine keeps open before it closes the oldest one. */
  const MAX_TABS: nat := 5
  /** Handshake version the engine announces. */
  const VERSION: string := "2.0"
  /** Only requests to this host are recorded as exchanges. */
  const VIDEO_API_PREFIX: string := "https://workspacevideo-pa.clients6.google.com"
  const PAGE_PREFIX: string := "https://drive.google.com/file/d/"
  const PAGE_SUFFIX: string := "/view"
  /** Rejection messages of the capture timeout and of an external tab closure. */
  const TIMED_OUT: string := "Capture timed out"
  const TAB_CLOSED: string := "Tab closed unexpectedly"

  // ---------- Reconnect backoff ----------

  function Pow2(k: nat): nat {
    if k == 0 then 1 else 2 * Pow2(k - 1)
  }

  /** The delay `scheduleReconnect` waits before attempt number `attempt + 1`. */
  function ReconnectDelay(attempt: nat): (d: nat)
    ensures d in RECONNECT_DELAYS
    ensures 1000 <= d <= 30000
    ensures attempt >= |RECONNECT_DELAYS| - 1 ==> d == 30000
  {
    RECONNECT_DELAYS[if attempt < |RECONNECT_DELAYS| - 1 then attempt else |RECONNECT_DELAYS| - 1]
  }

  /** More failed attempts never shorten the wait. */
  lemma DelayMonotone(a: nat, b: nat)
    requires a <= b
    ensures ReconnectDelay(a) <= ReconnectDelay(b)
  {
  }

  /** Below the cap each further attempt doubles the delay. */
  lemma DelayDoubles(a: nat)
    requires a + 2 < |RECONNECT_DELAYS|
    ensures ReconnectDelay(a + 1) == 2 * ReconnectDelay(a)
  {
    if a == 0 {
    } else if a == 1 {
    } else if a == 2 {
    } else {
      assert a == 3;
    }
  }

  lemma {:induction false} Pow2Grows(a: nat, b: nat)
    requires a <= b
    ensures Pow2(a) <= Pow2(b)
  {
    if a < b {
      Pow2Grows(a, b - 1);
    }
  }

  /**
    The table is a capped exponential: attempt `a` waits 1000 * 2^a ms, or
    30000 ms once that would be larger.
  */
  lemma {:induction false} DelayIsCappedExponential(a: nat)
    ensures ReconnectDelay(a) == if 1000 * Pow2(a) < 30000 then 1000 * Pow2(a) else 30000
  {
    if a >= |RECONNECT_DELAYS| - 1 {
      Pow2Grows(5, a);
      assert Pow2(5) == 32;
    } else if a > 0 {
      DelayIsCappedExponential(a - 1);
      DelayDoubles(a - 1);
    }
  }

  // ---------- Messages ----------

  /** The `type` strings `handleMessage` dispatches on. */
  const HANDLED_TYPES: set<string> := {"ready", "ping", "capture", "rclone_status", "rclone_progress", "rclone_error"}

  /** A `type` that reaches the `default` branch of `handleMessage`. */
  type UnknownType = k: string | k !in HANDLED_TYPES witness ""

  /** Messages the worker sends to the engine, by their `type`; each message has exactly one of these forms. */
  datatype Inbound =
    | Ready
    | Ping
    | Capture(fileId: FileId)
    | RcloneStatus(fileId: FileId, status: string, fileName: string, error: Option<string>)
    | RcloneProgress(fileId: FileId, progress: string)
    | RcloneError(fileId: FileId, message: string)
    | Unknown(kind: UnknownType)

  /** Messages the engine posts on its port. */
  datatype Outbound =
    | Hello(version: string)
    | Pong
    | Result(fileId: FileId, url: Option<string>, error: Option<string>)

  /** How a capture promise settled: resolved with a video URL or rejected with an error message. */
  datatype Outcome = Resolved(url: string) | Rejected(message: string)

  /** The `result` message `sendResult` posts for a settled capture. */
  function ResultOf(f: FileId, o: Outcome): (m: Outbound)
    ensures m.Result? && m.fileId == f
    ensures m.url.Some? <==> o.Resolved?
    ensures m.error.Some? <==> o.Rejected?
    ensures o.Resolved? ==> m.url.value == o.url
    ensures o.Rejected? ==> m.error.value == o.message
  {
    match o
    case Resolved(u) => Result(f, Some(u), None)
    case Rejected(e) => Result(f, None, Some(e))
  }

  // ---------- Capture bookkeeping ----------

  /**
    The page a capture opens for a file, the template
    `https://drive.google.com/file/d/${fileId}/view`: the file id between a
    fixed prefix and suffix.
  */
  function ViewUrl(f: FileId): (u: string)
    ensures StartsWith(u, PAGE_PREFIX)
    ensures |u| == |PAGE_PREFIX| + |f| + |PAGE_SUFFIX|
    ensures u[|PAGE_PREFIX|..|PAGE_PREFIX| + |f|] == f
    ensures u[|PAGE_PREFIX| + |f|..] == PAGE_SUFFIX
  {
    PAGE_PREFIX + f + PAGE_SUFFIX
  }

  /** Distinct files never share a capture page. */
  lemma ViewUrlInjective(f: FileId, g: FileId)
    requires ViewUrl(f) == ViewUrl(g)
    ensures f == g
  {
    assert |f| == |g|;
    assert f == ViewUrl(f)[|PAGE_PREFIX|..|PAGE_PREFIX| + |f|];
  }

  /**
    Keys of the `capturedRequests` object: a tab id (the pending capture of
    that tab) or a DevTools request id (an intercepted exchange).
  */
  datatype Key = Tab(tab: TabId) | Request(rid: RequestId)

  /**
    Values of `capturedRequests`: the record a capture stores under its tab
    (which has a `fileId` and no `tabId`) or an intercepted request (which has
    a `tabId` and no `fileId`).
  */
  datatype Entry = TabCapture(fileId: FileId) | Exchange(url: string, httpMethod: string, tabId: TabId)
  {
    /** `capturedRequests[id].tabId === t`. */
    predicate BelongsTo(t: TabId) {
      Exchange? && tabId == t
    }
  }

  /**
    How far the executor of a capture promise has got: waiting for the tab to
    open, attaching the debugger to tab `tab` (attach and `Network.enable`), or
    waiting, with its timeout armed, for the correlator to resolve it.
  */
  datatype Phase = Opening | Attaching(tab: TabId) | Waiting(tab: TabId)

  /** A single transcode descriptor of a parsed response body; `url` may be missing. */
  datatype Transcode = Transcode(url: Option<string>)

  /**
    The video URL a parsed response yields: the `url` of the LAST element of
    `progressiveTranscodes`, when the list is present and non-empty and that
    url is a non-empty string. `None` for the list stands for a body that was
    not fetched, did not parse, or lacks the nested path.
  */
  function PickVideoUrl(transcodes: Option<seq<Transcode>>): (u: Option<string>)
    ensures u.Some? <==> transcodes.Some? && |transcodes.value| > 0
                          && Truthy(transcodes.value[|transcodes.value| - 1].url)
    ensures u.Some? ==> u == transcodes.value[|transcodes.value| - 1].url
  {
    match transcodes
    case None => None
    case Some(ts) =>
      if |ts| == 0 then None
      else
        var last := ts[|ts| - 1].url;
        if Truthy(last) then last else None
  }

  /** Only the last descriptor matters: what precedes it never changes the pick. */
  lemma PickIgnoresEarlier(earlier: seq<Transcode>, last: Transcode)
    ensures PickVideoUrl(Some(earlier + [last])) == PickVideoUrl(Some([last]))
  {
  }

  // ---------- The tabs the engine owns ----------

  predicate NoDuplicates(s: seq<TabId>) {
    forall i, j :: 0 <= i < j < |s| ==> s[i] != s[j]
  }

  /** `s` with `x` deleted, the rest in order (`Set.prototype.delete` on an insertion-ordered set). */
  function Without(s: seq<TabId>, x: TabId): (r: seq<TabId>)
    ensures forall y :: y in r <==> y in s && y != x
    ensures x !in s ==> r == s
    ensures NoDuplicates(s) ==> NoDuplicates(r)
  {
    if s == [] then []
    else
      var tail := Without(s[1..], x);
      if s[0] == x then tail
      else
        assert NoDuplicates(s) ==> s[0] !in s[1..];
        [s[0]] + tail
  }

  /** Deleting an element of a duplicate-free sequence removes exactly its position and keeps the order. */
  lemma {:induction false} WithoutAt(s: seq<TabId>, i: nat)
    requires NoDuplicates(s) && i < |s|
    ensures Without(s, s[i]) == s[..i] + s[i + 1..]
  {
    if i == 0 {
      assert s[0] !in s[1..];
      assert s[1..] == s[..0] + s[1..];
    } else {
      assert NoDuplicates(s[1..]);
      assert s[1..][i - 1] == s[i];
      WithoutAt(s[1..], i - 1);
      assert s[0] != s[i];
      assert s[..i] == [s[0]] + s[1..][..i - 1];
      assert s[i + 1..] == s[1..][i..];
    }
  }

  /** Deleting two elements gives the same sequence in either order. */
  lemma {:induction false} WithoutCommutes(s: seq<TabId>, x: TabId, y: TabId)
    ensures Without(Without(s, x), y) == Without(Without(s, y), x)
  {
    if s != [] {
      WithoutCommutes(s[1..], x, y);
    }
  }

  /** The tabs a sequence holds, as a set. */
  function Members(s: seq<TabId>): set<TabId> {
    set t | t in s
  }

  /** A duplicate-free sequence has as many distinct elements as its length: `Set.prototype.size` is the length. */
  lemma {:induction false} DistinctCount(s: seq<TabId>)
    requires NoDuplicates(s)
    ensures |Members(s)| == |s|
  {
    if s != [] {
      assert NoDuplicates(s[1..]);
      DistinctCount(s[1..]);
      assert s[0] !in Members(s[1..]);
      assert Members(s) == Members(s[1..]) + {s[0]};
    }
  }

  /** Inserting a tab the set does not hold appends it and keeps it duplicate-free. */
  lemma AppendFresh(s: seq<TabId>, t: TabId)
    requires NoDuplicates(s) && t !in s
    ensures NoDuplicates(s + [t])
  {
  }

  /**
    The part of the engine's state that per-tab cleanup touches: the
    insertion-ordered `activeTabs`, the `capturedRequests` table, and the tabs
    handed to `chrome.tabs.remove` so far.
  */
  datatype Registry = Registry(active: seq<TabId>, requests: map<Key, Entry>, closed: seq<TabId>)

  /**
    `cleanupTabResources(t)`, taking its detach callback as one step: every
    exchange recorded for `t` is deleted, `t` leaves `activeTabs`, and the tab
    is closed. Entries without a `tabId` (the tab captures) stay.
  */
  function Cleanup(r: Registry, t: TabId): (c: Registry)
    ensures t !in c.active
    ensures forall u :: u != t ==> (u in c.active <==> u in r.active)
    ensures forall k :: k in c.requests <==> k in r.requests && !r.requests[k].BelongsTo(t)
    ensures forall k :: k in c.requests ==> c.requests[k] == r.requests[k]
    ensures c.closed == r.closed + [t]
  {
    Registry(Without(r.active, t),
             map k | k in r.requests && !r.requests[k].BelongsTo(t) :: r.requests[k],
             r.closed + [t])
  }

  /** Cleaning a tab twice leaves the same tabs and entries as cleaning it once (only the close is repeated). */
  lemma CleanupIdempotent(r: Registry, t: TabId)
    ensures Cleanup(Cleanup(r, t), t).active == Cleanup(r, t).active
    ensures Cleanup(Cleanup(r, t), t).requests == Cleanup(r, t).requests
  {
  }

  /** Cleanups of two tabs do not interfere: either order leaves the same tabs and entries. */
  lemma CleanupCommutes(r: Registry, t: TabId, u: TabId)
    ensures Cleanup(Cleanup(r, t), u).active == Cleanup(Cleanup(r, u), t).active
    ensures Cleanup(Cleanup(r, t), u).requests == Cleanup(Cleanup(r, u), t).requests
  {
    WithoutCommutes(r.active, t, u);
  }

  // ---------- Consistency of the engine's tables ----------

  /** Every recorded exchange belongs to a tab the engine still owns. */
  predicate ExchangesOnActiveTabs(requests: map<Key, Entry>, active: seq<TabId>) {
    forall k :: k in requests && requests[k].Exchange? ==> requests[k].tabId in active
  }

  /** Every recorded exchange is a request to the video API host. */
  predicate ExchangesOnVideoApi(requests: map<Key, Entry>) {
    forall k :: k in requests && requests[k].Exchange? ==> StartsWith(requests[k].url, VIDEO_API_PREFIX)
  }

  /** Tab keys hold tab captures and request keys hold exchanges. */
  predicate KeysMatchEntries(requests: map<Key, Entry>) {
    forall k :: k in requests ==> (k.Tab? <==> requests[k].TabCapture?)
  }

  /**
    The tab-capture entries are exactly the captures waiting on their tab:
    the entry under `Tab(t)` names a capture whose promise waits on `t`, each
    waiting capture has its entry, and a capture still attaching has none yet.
  */
  predicate CapturesMatch(promises: map<FileId, Phase>, requests: map<Key, Entry>) {
    && (forall k :: k in requests && requests[k].TabCapture? ==>
          k.Tab? && requests[k].fileId in promises && promises[requests[k].fileId] == Waiting(k.tab))
    && (forall f :: f in promises && promises[f].Waiting? ==>
          Tab(promises[f].tab) in requests && requests[Tab(promises[f].tab)] == TabCapture(f))
    && (forall f :: f in promises && promises[f].Attaching? ==> Tab(promises[f].tab) !in requests)
  }

  /** No two captures attach to the same tab. */
  predicate AttachingDistinct(promises: map<FileId, Phase>) {
    forall f, g :: f in promises && g in promises && f != g && promises[f].Attaching? && promises[g].Attaching?
      ==> promises[f].tab != promises[g].tab
  }

  /** The invariant the engine keeps between events. */
  predicate Consistent(r: Registry, promises: map<FileId, Phase>) {
    && NoDuplicates(r.active)
    && ExchangesOnActiveTabs(r.requests, r.active)
    && ExchangesOnVideoApi(r.requests)
    && KeysMatchEntries(r.requests)
    && CapturesMatch(promises, r.requests)
    && AttachingDistinct(promises)
  }

  /** Cleaning up any tab keeps the tables consistent. */
  lemma CleanupConsistent(r: Registry, promises: map<FileId, Phase>, t: TabId)
    requires Consistent(r, promises)
    ensures Consistent(Cleanup(r, t), promises)
  {
    var c := Cleanup(r, t);
    forall f | f in promises && promises[f].Waiting?
      ensures Tab(promises[f].tab) in c.requests
    {
      assert !r.requests[Tab(promises[f].tab)].BelongsTo(t);
    }
  }

  // ---------- Transitions of the tab bookkeeping ----------

  /**
    The eviction at the start of a capture: when `activeTabs.size >= MAX_TABS`
    the first-inserted tab is cleaned up, otherwise nothing happens.
  */
  function MakeRoom(r: Registry): (c: Registry)
    ensures |r.active| < MAX_TABS ==> c == r
    ensures |r.active| >= MAX_TABS ==> c == Cleanup(r, r.active[0])
  {
    if |r.active| >= MAX_TABS then Cleanup(r, r.active[0]) else r
  }

  /** Eviction closes exactly the oldest tab and keeps the others in their order. */
  lemma MakeRoomEvictsOldest(r: Registry)
    requires NoDuplicates(r.active) && |r.active| >= MAX_TABS
    ensures MakeRoom(r).active == r.active[1..]
    ensures MakeRoom(r).closed == r.closed + [r.active[0]]
    ensures |MakeRoom(r).active| == |r.active| - 1
  {
    WithoutAt(r.active, 0);
  }

  /**
    The `finally` of a settled capture in phase `ph`: `find` locates the tab
    capture entry only when the capture was waiting on its tab; then that tab
    is cleaned up and the entry deleted. Otherwise nothing changes.
  */
  function Release(r: Registry, ph: Phase): (c: Registry)
    ensures !ph.Waiting? ==> c == r
    ensures ph.Waiting? ==> c.active == Cleanup(r, ph.tab).active && c.closed == r.closed + [ph.tab]
    ensures ph.Waiting? ==> c.requests == Cleanup(r, ph.tab).requests - {Tab(ph.tab)}
  {
    if ph.Waiting? then
      var cleaned := Cleanup(r, ph.tab);
      cleaned.(requests := cleaned.requests - {Tab(ph.tab)})
    else r
  }

  /** A tab id Chrome has just handed out: not owned, and not held by any capture. */
  predicate Unused(t: TabId, r: Registry, promises: map<FileId, Phase>) {
    && t !in r.active
    && forall g :: g in promises ==> promises[g] != Attaching(t) && promises[g] != Waiting(t)
  }

  /** Whether events of tab `tab` reach the correlator: the tab is owned and holds a capture with a truthy file id. */
  predicate Tracks(r: Registry, tab: TabId) {
    && tab in r.active
    && Tab(tab) in r.requests
    && r.requests[Tab(tab)].TabCapture?
    && r.requests[Tab(tab)].fileId != ""
  }

  /** Registering a new capture (promise created, tab not yet open) keeps the tables consistent. */
  lemma OpenConsistent(r: Registry, promises: map<FileId, Phase>, f: FileId)
    requires Consistent(r, promises) && f !in promises
    ensures Consistent(r, promises[f := Opening])
  {
  }

  /** Adding a freshly created tab to `activeTabs` keeps the tables consistent. */
  lemma TabCreatedConsistent(r: Registry, promises: map<FileId, Phase>, f: FileId, t: TabId)
    requires Consistent(r, promises) && f in promises && promises[f] == Opening && Unused(t, r, promises)
    ensures Consistent(r.(active := r.active + [t]), promises[f := Attaching(t)])
  {
    AppendFresh(r.active, t);
    var p := promises[f := Attaching(t)];
    forall g, h | g in p && h in p && g != h && p[g].Attaching? && p[h].Attaching?
      ensures p[g].tab != p[h].tab
    {
      if g != f && h != f {
        assert promises[g] == p[g] && promises[h] == p[h];
      }
    }
  }

  /** Storing the capture under its tab once the debugger is attached keeps the tables consistent. */
  lemma AttachedConsistent(r: Registry, promises: map<FileId, Phase>, f: FileId)
    requires Consistent(r, promises) && f in promises && promises[f].Attaching?
    ensures var t := promises[f].tab;
      Consistent(r.(requests := r.requests[Tab(t) := TabCapture(f)]), promises[f := Waiting(t)])
  {
    var t := promises[f].tab;
    var q := r.requests[Tab(t) := TabCapture(f)];
    var p := promises[f := Waiting(t)];
    forall g | g in p && p[g].Attaching?
      ensures Tab(p[g].tab) !in q
    {
      assert g != f && promises[g] == p[g];
    }
    forall k | k in q && q[k].TabCapture?
      ensures k.Tab? && q[k].fileId in p && p[q[k].fileId] == Waiting(k.tab)
    {
      if k != Tab(t) {
        assert r.requests[k].TabCapture?;
        assert promises[q[k].fileId].Waiting?;
      }
    }
  }

  /** Recording an exchange with the video API for a tracked tab keeps the tables consistent. */
  lemma ExchangeConsistent(r: Registry, promises: map<FileId, Phase>, tab: TabId, rid: RequestId, url: string, httpMethod: string)
    requires Consistent(r, promises) && Tracks(r, tab) && StartsWith(url, VIDEO_API_PREFIX)
    ensures Consistent(r.(requests := r.requests[Request(rid) := Exchange(url, httpMethod, tab)]), promises)
  {
    var q := r.requests[Request(rid) := Exchange(url, httpMethod, tab)];
    forall f | f in promises && promises[f].Waiting?
      ensures Tab(promises[f].tab) in q && q[Tab(promises[f].tab)] == TabCapture(f)
    {
    }
  }

  /** Settling a capture and running its `finally` keeps the tables consistent without that capture. */
  lemma ReleaseConsistent(r: Registry, promises: map<FileId, Phase>, f: FileId)
    requires Consistent(r, promises) && f in promises
    ensures Consistent(Release(r, promises[f]), promises - {f})
  {
    var ph := promises[f];
    var p := promises - {f};
    if ph.Waiting? {
      CleanupConsistent(r, promises, ph.tab);
      var c := Release(r, ph);
      forall k | k in c.requests && c.requests[k].TabCapture?
        ensures c.requests[k].fileId in p
      {
        assert r.requests[k].TabCapture?;
        assert k != Tab(ph.tab);
      }
      forall g | g in p && p[g].Waiting?
        ensures Tab(p[g].tab) in c.requests && c.requests[Tab(p[g].tab)] == TabCapture(g)
      {
        assert r.requests[Tab(p[g].tab)] == TabCapture(g);
      }
    } else {
      forall k | k in r.requests && r.requests[k].TabCapture?
        ensures r.requests[k].fileId in p
      {
      }
    }
  }
}
