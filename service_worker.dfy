/** The background context: the policy gate, the settings record, the bounded per-tab
    snapshot history and the message router with its five request types. */
module ServiceWorker {
  import opened Wrappers
  import opened Json
  import opened Model
  import opened Settings
  import opened Storage

  /** `SNAPSHOT_MAX`: the capacity of one tab's history. */
  const SnapshotMax: nat := 3

  const NoTabContext := "No tab context"
  const BlockedBySettings := "Blocked by settings"
  const NoSnapshot := "No snapshot"
  const PrivacyModeEnabled := "Privacy mode enabled"

  function Min(a: int, b: int): int {
    if a <= b then a else b
  }

  // ---------------------------------------------------------------- policy gate

  /** `normalizeSite`: the origin of the URL, or `''` when it does not parse. */
  function NormalizeSite(url: string, parse: UrlParser): (site: string)
    ensures parse(url).None? ==> site == ""
    ensures site != "" ==> parse(url).Some? && site == parse(url).value.origin
  {
    match parse(url)
    case Some(u) => u.origin
    case None => ""
  }

  /** The three site lists are arrays (the shape the settings popup writes). */
  predicate ListsAreArrays(settings: map<string, Js>) {
    Field(settings, "siteDisabled").Arr? && Field(settings, "blocklist").Arr?
    && Field(settings, "allowlist").Arr?
  }

  /** `isAllowedBySettings`. `None` is the `TypeError` JavaScript throws when a list property is
      `null`, `undefined` or another value without `includes`/`length`. */
  function IsAllowedBySettings(url: string, settings: map<string, Js>, parse: UrlParser): (r: Option<bool>)
    ensures !Truthy(Field(settings, "enabled")) ==> r == Some(false)
    ensures NormalizeSite(url, parse) == "" ==> r == Some(false)
    ensures r == Some(true) ==> Truthy(Field(settings, "enabled")) && NormalizeSite(url, parse) != ""
    ensures ListsAreArrays(settings) ==> r.Some?
    ensures ListsAreArrays(settings) ==>
              var site := NormalizeSite(url, parse);
              (r == Some(true) <==>
                 && Truthy(Field(settings, "enabled"))
                 && site != ""
                 && Str(site) !in Field(settings, "siteDisabled").items
                 && Str(site) !in Field(settings, "blocklist").items
                 && (|Field(settings, "allowlist").items| == 0 || Str(site) in Field(settings, "allowlist").items))
  {
    if !Truthy(Field(settings, "enabled")) then Some(false)
    else
      var site := NormalizeSite(url, parse);
      if site == "" then Some(false)
      else
        match Includes(Field(settings, "siteDisabled"), site)
        case None => None
        case Some(true) => Some(false)
        case Some(false) =>
          match Includes(Field(settings, "blocklist"), site)
          case None => None
          case Some(true) => Some(false)
          case Some(false) =>
            match LengthPositive(Field(settings, "allowlist"))
            case None => None
            case Some(false) => Some(true)
            case Some(true) => Includes(Field(settings, "allowlist"), site)
  }

  // ---------------------------------------------------------------- snapshot history

  /** The history of a tab in an area: the stored list, or `[]` when the key is absent or its
      value is not an array. */
  function History(area: map<Key, Value>, tab: TabId): seq<Snapshot> {
    var key := SnapshotsKey(tab);
    if key in area && area[key].Snapshots? then area[key].list else []
  }

  /** The list `storeSnapshot` writes: the new snapshot, then the first `SnapshotMax - 1` old ones. */
  function Pushed(h: seq<Snapshot>, s: Snapshot): (r: seq<Snapshot>)
    ensures |r| == Min(|h| + 1, SnapshotMax) && |r| <= SnapshotMax
    ensures r[0] == s
    ensures r[1..] == h[..Min(|h|, SnapshotMax - 1)]
    ensures |h| >= SnapshotMax ==> r == [s] + h[..SnapshotMax - 1]
  {
    var list := [s] + h;
    list[..Min(|list|, SnapshotMax)]
  }

  /** Every tab's history is within capacity. */
  ghost predicate HistoriesBounded(area: map<Key, Value>) {
    forall t :: |History(area, t)| <= SnapshotMax
  }

  /** Writing one tab's history leaves every other tab's history as it was. */
  lemma OtherHistoriesUnchanged(area: map<Key, Value>, tab: TabId, v: Value, other: TabId)
    requires other != tab
    ensures History(area[SnapshotsKey(tab) := v], other) == History(area, other)
  {
  }

  /** The first position, from `k` on, whose snapshot the selection accepts: any, when the current
      URL is empty; otherwise one whose url differs from it. */
  function FirstDifferentFrom(list: seq<Snapshot>, currentUrl: string, k: nat): (r: Option<nat>)
    requires k <= |list|
    ensures r.Some? ==> k <= r.value < |list|
                        && (currentUrl == "" || list[r.value].url != currentUrl)
                        && forall j :: k <= j < r.value ==> currentUrl != "" && list[j].url == currentUrl
    ensures r.None? ==> forall j :: k <= j < |list| ==> currentUrl != "" && list[j].url == currentUrl
    decreases |list| - k
  {
    if k == |list| then None
    else if currentUrl == "" || list[k].url != currentUrl then Some(k)
    else FirstDifferentFrom(list, currentUrl, k + 1)
  }

  /** The selection rule: most recent different from the current URL, else most recent, else none. */
  function SelectSnapshot(list: seq<Snapshot>, currentUrl: string): (r: Option<Snapshot>)
    ensures r.None? <==> list == []
    ensures list != [] && currentUrl == "" ==> r == Some(list[0])
    ensures list != [] && (forall i :: 0 <= i < |list| ==> list[i].url == currentUrl) ==> r == Some(list[0])
    ensures currentUrl != "" && (exists i :: 0 <= i < |list| && list[i].url != currentUrl) ==>
              exists i :: 0 <= i < |list| && r == Some(list[i]) && list[i].url != currentUrl
                          && forall j :: 0 <= j < i ==> list[j].url == currentUrl
  {
    if list == [] then None
    else
      match FirstDifferentFrom(list, currentUrl, 0)
      case Some(i) => Some(list[i])
      case None => Some(list[0])
  }

  /** Two worked examples: `[A, B, A]` seen from `A` selects the `B` entry;
      `[A, A]` seen from `A` selects the newer `A` entry. */
  lemma SelectionExamples(a1: Snapshot, b: Snapshot, a2: Snapshot, a3: Snapshot)
    requires a1.url == a2.url == a3.url != "" && b.url != a1.url
    ensures SelectSnapshot([a1, b, a2], a1.url) == Some(b)
    ensures SelectSnapshot([a1, a3], a1.url) == Some(a1)
  {
    assert FirstDifferentFrom([a1, b, a2], a1.url, 1) == Some(1);
  }

  /** `storeSnapshot`: prepends to the tab's history and truncates to `SnapshotMax`; only the key
      `snapshots:<tabId>` of the session area is written. */
  method StoreSnapshot(st: Store, tabId: TabId, snapshot: Snapshot)
    modifies st
    ensures st.SessionArea() == old(st.SessionArea())[SnapshotsKey(tabId) :=
              Snapshots(Pushed(History(old(st.SessionArea()), tabId), snapshot))]
    ensures st.hasSession ==> st.local == old(st.local)
    ensures !st.hasSession ==> st.session == old(st.session)
    ensures forall t :: t != tabId ==> History(st.SessionArea(), t) == History(old(st.SessionArea()), t)
    ensures HistoriesBounded(old(st.SessionArea())) ==> HistoriesBounded(st.SessionArea())
  {
    var key := SnapshotsKey(tabId);
    var data := st.GetSession(key);
    var list := if key in data && data[key].Snapshots? then data[key].list else [];
    list := [snapshot] + list;
    var pruned := list[..Min(|list|, SnapshotMax)];
    st.SetSession(map[key := Snapshots(pruned)]);
  }

  /** `getSnapshotForTab`: the history scan, newest first. */
  method GetSnapshotForTab(st: Store, tabId: TabId, currentUrl: string) returns (r: Option<Snapshot>)
    ensures r == SelectSnapshot(History(st.SessionArea(), tabId), currentUrl)
  {
    var key := SnapshotsKey(tabId);
    var data := st.GetSession(key);
    var list := if key in data && data[key].Snapshots? then data[key].list else [];
    assert list == History(st.SessionArea(), tabId);
    if |list| == 0 {
      return None;
    }
    var i := 0;
    while i < |list|
      invariant 0 <= i <= |list|
      invariant FirstDifferentFrom(list, currentUrl, 0) == FirstDifferentFrom(list, currentUrl, i)
    {
      if currentUrl == "" || list[i].url != currentUrl {
        return Some(list[i]);
      }
      i := i + 1;
    }
    r := Some(list[0]);
  }

  // ---------------------------------------------------------------- settings

  /** `getSettings`: the defaults overlaid by the stored `settings` object. */
  method GetSettings(st: Store) returns (s: map<string, Js>)
    ensures s == WithDefaults(StoredSettings(st.local))
  {
    var data := st.Get(SettingsKey);
    s := WithDefaults(StoredSettings(data));
  }

  /** `setSettings`: the current settings overlaid by the payload, persisted and returned. */
  method SetSettings(st: Store, next: map<string, Js>) returns (merged: map<string, Js>)
    modifies st
    ensures merged == Assign(WithDefaults(StoredSettings(old(st.local))), next)
    ensures st.local == old(st.local)[SettingsKey := Json(Obj(merged))]
    ensures st.session == old(st.session)
  {
    var current := GetSettings(st);
    merged := Assign(current, next);
    st.Set(map[SettingsKey := Json(Obj(merged))]);
  }

  // ---------------------------------------------------------------- message router

  /** The sender's tab: `sender?.tab?.id` and `sender?.tab?.windowId`. */
  datatype Sender = Sender(tabId: Option<TabId>, windowId: Option<int>)

  /** `tabId` is present and truthy (`0` counts as missing). */
  predicate HasTab(sender: Sender) {
    sender.tabId.Some? && sender.tabId.value != 0
  }

  /** A request by its `type` tag; `url`, `title` and `currentUrl` already defaulted to `''`
      and `payload` to `{}`. */
  datatype Request =
    | GetSettingsRequest
    | UpdateSettingsRequest(payload: map<string, Js>)
    | CapturePreviousPageRequest(url: string, title: string)
    | RequestOverlayRequest(currentUrl: string)
    | ClearSnapshotsRequest
    | UnrecognisedRequest

  /** The outcome of `chrome.tabs.captureVisibleTab`: an image data URL, or the failure's message. */
  datatype CaptureResult = CaptureSucceeded(dataUrl: string) | CaptureFailed(message: string)

  /** The responses sent back. */
  datatype Response =
    | SettingsResponse(settings: map<string, Js>)   // the settings record itself
    | Failure(error: string)                        // { ok: false, error }
    | CaptureOk(privacyMode: bool)                  // { ok: true } or { ok: true, privacyMode: true }
    | OverlayOk(snapshot: Snapshot)                 // { ok: true, snapshot }
    | ClearOk                                       // { ok: true }

  /** `CAPTURE_PREVIOUS_PAGE`. `capture` is what the screenshot primitive would yield, `now` the clock;
      `called` says whether the primitive was invoked. `None` is no response (the gate threw). */
  method HandleCapture(st: Store, sender: Sender, url: string, title: string, now: int,
                       capture: CaptureResult, parse: UrlParser)
    returns (resp: Option<Response>, ghost called: bool)
    modifies st
    ensures !HasTab(sender) || sender.windowId.None? ==>
              resp == Some(Failure(NoTabContext)) && !called
              && st.local == old(st.local) && st.session == old(st.session)
    ensures var settings := WithDefaults(StoredSettings(old(st.local)));
            HasTab(sender) && sender.windowId.Some? && IsAllowedBySettings(url, settings, parse) != Some(true) ==>
              resp == (if IsAllowedBySettings(url, settings, parse).None? then None else Some(Failure(BlockedBySettings)))
              && !called && st.local == old(st.local) && st.session == old(st.session)
    ensures var settings := WithDefaults(StoredSettings(old(st.local)));
            var privacy := Truthy(Field(settings, "privacyMode"));
            HasTab(sender) && sender.windowId.Some? && IsAllowedBySettings(url, settings, parse) == Some(true) ==>
              var tab := sender.tabId.value;
              var h := History(st.SessionArea(), tab);
              && resp == Some(CaptureOk(privacy))
              && called == !privacy
              && |h| >= 1
              && st.SessionArea() == old(st.SessionArea())[SnapshotsKey(tab) := Snapshots(h)]
              && h == Pushed(History(old(st.SessionArea()), tab), h[0])
              && h[0].url == url && h[0].title == title && h[0].ts == now
              && (privacy ==> h[0].error == Some(PrivacyModeEnabled) && h[0].dataUrl.None?)
              && (!privacy && capture.CaptureFailed? ==> h[0].error == Some(capture.message) && h[0].dataUrl.None?)
              && (!privacy && capture.CaptureSucceeded? ==> h[0].dataUrl == Some(capture.dataUrl) && h[0].error.None?)
    ensures st.hasSession ==> st.local == old(st.local)
    ensures !st.hasSession ==> st.session == old(st.session)
    ensures HistoriesBounded(old(st.SessionArea())) ==> HistoriesBounded(st.SessionArea())
  {
    called := false;
    if !HasTab(sender) || sender.windowId.None? {
      return Some(Failure(NoTabContext)), called;
    }
    var tabId := sender.tabId.value;
    var settings := GetSettings(st);
    var allowed := IsAllowedBySettings(url, settings, parse);
    if allowed.None? {
      return None, called;
    }
    if !allowed.value {
      return Some(Failure(BlockedBySettings)), called;
    }
    var snapshot := Snapshot(url, title, now, None, None);
    if Truthy(Field(settings, "privacyMode")) {
      snapshot := snapshot.(error := Some(PrivacyModeEnabled));
      StoreSnapshot(st, tabId, snapshot);
      return Some(CaptureOk(true)), called;
    }
    called := true;
    match capture {
      case CaptureSucceeded(dataUrl) =>
        snapshot := snapshot.(dataUrl := Some(dataUrl));
      case CaptureFailed(message) =>
        snapshot := snapshot.(error := Some(message));
    }
    StoreSnapshot(st, tabId, snapshot);
    resp := Some(CaptureOk(false));
  }

  /** `REQUEST_OVERLAY`: the selected snapshot of the sender's tab, or an explicit failure. */
  method HandleRequestOverlay(st: Store, sender: Sender, currentUrl: string) returns (resp: Response)
    ensures !HasTab(sender) ==> resp == Failure(NoTabContext)
    ensures HasTab(sender) ==>
              var sel := SelectSnapshot(History(st.SessionArea(), sender.tabId.value), currentUrl);
              resp == if sel.None? then Failure(NoSnapshot) else OverlayOk(sel.value)
  {
    if !HasTab(sender) {
      return Failure(NoTabContext);
    }
    var snap := GetSnapshotForTab(st, sender.tabId.value, currentUrl);
    if snap.None? {
      return Failure(NoSnapshot);
    }
    resp := OverlayOk(snap.value);
  }

  /** `CLEAR_SNAPSHOTS`: sets the sender's tab history to `[]`, touching no other key. */
  method HandleClear(st: Store, sender: Sender) returns (resp: Response)
    modifies st
    ensures !HasTab(sender) ==> resp == Failure(NoTabContext) && st.local == old(st.local) && st.session == old(st.session)
    ensures HasTab(sender) ==>
              resp == ClearOk
              && st.SessionArea() == old(st.SessionArea())[SnapshotsKey(sender.tabId.value) := Snapshots([])]
              && History(st.SessionArea(), sender.tabId.value) == []
    ensures st.hasSession ==> st.local == old(st.local)
    ensures !st.hasSession ==> st.session == old(st.session)
    ensures forall t :: HasTab(sender) && t != sender.tabId.value ==>
              History(st.SessionArea(), t) == History(old(st.SessionArea()), t)
    ensures HistoriesBounded(old(st.SessionArea())) ==> HistoriesBounded(st.SessionArea())
  {
    if !HasTab(sender) {
      return Failure(NoTabContext);
    }
    st.SetSession(map[SnapshotsKey(sender.tabId.value) := Snapshots([])]);
    resp := ClearOk;
  }

  /** Clearing twice leaves the same area as clearing once. */
  lemma ClearIdempotent(area: map<Key, Value>, tab: TabId)
    ensures var once := area[SnapshotsKey(tab) := Snapshots([])];
            once[SnapshotsKey(tab) := Snapshots([])] == once
  {
  }

  /** The `onMessage` listener: dispatch on the request's tag, exactly one response per
      recognised request (none for an unrecognised one, or when the policy gate throws). */
  method HandleMessage(st: Store, msg: Request, sender: Sender, now: int,
                       capture: CaptureResult, parse: UrlParser)
    returns (resp: Option<Response>)
    modifies st
    ensures msg.UnrecognisedRequest? ==> resp.None? && st.local == old(st.local) && st.session == old(st.session)
    ensures msg.GetSettingsRequest? ==>
              resp == Some(SettingsResponse(WithDefaults(StoredSettings(old(st.local)))))
              && st.local == old(st.local) && st.session == old(st.session)
    ensures msg.UpdateSettingsRequest? ==>
              var merged := Assign(WithDefaults(StoredSettings(old(st.local))), msg.payload);
              resp == Some(SettingsResponse(merged))
              && st.local == old(st.local)[SettingsKey := Json(Obj(merged))] && st.session == old(st.session)
    ensures msg.RequestOverlayRequest? ==>
              var sel := SelectSnapshot(History(old(st.SessionArea()), sender.tabId.GetOr(0)), msg.currentUrl);
              resp == Some(if !HasTab(sender) then Failure(NoTabContext)
                           else if sel.None? then Failure(NoSnapshot) else OverlayOk(sel.value))
              && st.local == old(st.local) && st.session == old(st.session)
    ensures msg.ClearSnapshotsRequest? ==>
              resp == Some(if HasTab(sender) then ClearOk else Failure(NoTabContext))
              && (HasTab(sender) ==>
                    st.SessionArea() == old(st.SessionArea())[SnapshotsKey(sender.tabId.value) := Snapshots([])])
              && (!HasTab(sender) ==> st.local == old(st.local) && st.session == old(st.session))
    ensures (msg.CapturePreviousPageRequest? && HasTab(sender) && sender.windowId.Some?
             && ListsAreArrays(WithDefaults(StoredSettings(old(st.local))))) ==> resp.Some?
    ensures forall t :: !HasTab(sender) || t != sender.tabId.value ==>
              History(st.SessionArea(), t) == History(old(st.SessionArea()), t)
    ensures HistoriesBounded(old(st.SessionArea())) ==> HistoriesBounded(st.SessionArea())
  {
    match msg {
      case GetSettingsRequest =>
        var s := GetSettings(st);
        resp := Some(SettingsResponse(s));
      case UpdateSettingsRequest(payload) =>
        var merged := SetSettings(st, payload);
        resp := Some(SettingsResponse(merged));
        assert forall t :: History(st.SessionArea(), t) == History(old(st.SessionArea()), t);
      case CapturePreviousPageRequest(url, title) =>
        ghost var called;
        resp, called := HandleCapture(st, sender, url, title, now, capture, parse);
      case RequestOverlayRequest(currentUrl) =>
        var r := HandleRequestOverlay(st, sender, currentUrl);
        resp := Some(r);
      case ClearSnapshotsRequest =>
        var r := HandleClear(st, sender);
        resp := Some(r);
      case UnrecognisedRequest =>
        resp := None;
    }
  }
}
