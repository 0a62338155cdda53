/** The content-script overlay: its own site gate (privacy mode admits every site), the overlay's
    size and preview, the filter that decides which link clicks capture the page, and the pin
    button, with the overlay's host and `isPinned` as state. */
module OverlayUi {
  import opened Wrappers
  import opened Json
  import opened Model
  import opened Storage
  import opened FormTracker
  import ServiceWorker

  // ---------------------------------------------------------------- the overlay's site gate

  /** `isEnabledForSite` of the overlay: `enabled === false` disables, a truthy `privacyMode`
      admits the site before any list is consulted, and then the lists are checked in the order
      siteDisabled, blocklist, allowlist, each only when it is an array. */
  predicate OverlayGate(settings: map<string, Js>, site: string) {
    var disabled := Field(settings, "siteDisabled");
    var blocked := Field(settings, "blocklist");
    var allowed := Field(settings, "allowlist");
    if Field(settings, "enabled") == Bool(false) then false
    else if Truthy(Field(settings, "privacyMode")) then true
    else if ArrayIncludes(disabled, site) then false
    else if ArrayIncludes(blocked, site) then false
    else if allowed.Arr? && |allowed.items| > 0 then ArrayIncludes(allowed, site)
    else true
  }

  /** The overlay's gate is the form tracker's gate, widened by privacy mode: it also admits
      every site while privacy mode is on and the extension is not switched off. */
  lemma OverlayGateWidensFormGate(settings: map<string, Js>, site: string)
    ensures OverlayGate(settings, site) <==>
              FormGate(settings, site)
              || (Field(settings, "enabled") != Bool(false) && Truthy(Field(settings, "privacyMode")))
  {
  }

  /** Under privacy mode a site that is both site-disabled and blocklisted still gets the
      overlay, while the form tracker refuses it. */
  lemma PrivacyModeIgnoresLists(site: string)
    ensures var s := map["privacyMode" := Bool(true), "siteDisabled" := Arr([Str(site)]),
                         "blocklist" := Arr([Str(site)])];
            OverlayGate(s, site) && !FormGate(s, site)
  {
    var s := map["privacyMode" := Bool(true), "siteDisabled" := Arr([Str(site)]),
                 "blocklist" := Arr([Str(site)])];
    assert Field(s, "enabled") == Undefined;
    assert Field(s, "siteDisabled").items[0] == Str(site);
  }

  // ---------------------------------------------------------------- size and preview

  /** An overlay size in pixels. */
  datatype Size = Size(width: int, height: int)

  /** `DEFAULT_SIZES`. */
  const Small: Size := Size(220, 140)
  const Medium: Size := Size(320, 200)
  const Large: Size := Size(420, 280)

  /** The size name `requestOverlay` hands to `applySize`: `settings.overlaySize || 'medium'`. */
  function SizeName(settings: map<string, Js>): (r: Js)
    ensures Truthy(r)
  {
    if Truthy(Field(settings, "overlaySize")) then Field(settings, "overlaySize") else Str("medium")
  }

  /** `applySize`'s lookup: one of the three named sizes, and the medium one for any name that
      is not one of them. */
  function SizeFor(name: Js): (r: Size)
    ensures r == Small || r == Medium || r == Large
    ensures r == Small <==> name == Str("small")
    ensures r == Large <==> name == Str("large")
  {
    if name == Str("small") then Small
    else if name == Str("large") then Large
    else Medium
  }

  /** Settings without a usable `overlaySize` give the medium overlay. */
  lemma UnknownSizeIsMedium(settings: map<string, Js>)
    requires Field(settings, "overlaySize") !in {Str("small"), Str("large")}
    ensures SizeFor(SizeName(settings)) == Medium
  {
  }

  /** What the overlay's body shows. */
  datatype Preview = Image(src: string) | Message(text: string)

  /** The text of a fresh overlay's body. */
  const LoadingText: string := "Loading preview..."

  /** `snapshot.error` is set (a non-empty string). */
  predicate HasError(s: Snapshot) {
    s.error.Some? && s.error.value != ""
  }

  /** `snapshot.dataUrl` is set (a non-empty string). */
  predicate HasImage(s: Snapshot) {
    s.dataUrl.Some? && s.dataUrl.value != ""
  }

  /** `setPreview`'s choice between the image and a message. */
  function PreviewFor(snapshot: Option<Snapshot>): Preview {
    if snapshot.None? || HasError(snapshot.value) || !HasImage(snapshot.value) then
      Message(if snapshot.Some? && HasError(snapshot.value)
              then "Preview unavailable (" + snapshot.value.error.value + ")"
              else "Preview unavailable")
    else
      Image(snapshot.value.dataUrl.value)
  }

  /** The image is shown exactly for a snapshot with an image and no error, and it is that
      image; otherwise the message names the error when there is one, and only then. */
  lemma PreviewCases(snapshot: Option<Snapshot>)
    ensures PreviewFor(snapshot).Image? <==>
              snapshot.Some? && !HasError(snapshot.value) && HasImage(snapshot.value)
    ensures PreviewFor(snapshot).Image? ==> PreviewFor(snapshot).src == snapshot.value.dataUrl.value
    ensures PreviewFor(snapshot).Message? ==>
              (PreviewFor(snapshot).text == "Preview unavailable" <==>
               !(snapshot.Some? && HasError(snapshot.value)))
    ensures PreviewFor(snapshot).Message? && snapshot.Some? && HasError(snapshot.value) ==>
              PreviewFor(snapshot).text == "Preview unavailable (" + snapshot.value.error.value + ")"
  {
    if snapshot.Some? && HasError(snapshot.value) {
      var t := "Preview unavailable (" + snapshot.value.error.value + ")";
      assert |t| > |"Preview unavailable"|;
    }
  }

  /** A snapshot the worker stored for a failed capture shows its failure message. */
  lemma FailedCaptureShowsReason(url: string, title: string, ts: int, message: string)
    requires message != ""
    ensures PreviewFor(Some(Snapshot(url, title, ts, None, Some(message))))
            == Message("Preview unavailable (" + message + ")")
  {
  }

  // ---------------------------------------------------------------- the link-click filter

  /** The nearest `a[href]` around a click's target: its `href` attribute (`''` when empty) and
      its `target` property. */
  datatype Anchor = Anchor(href: string, target: string)

  /** A click: the enclosing anchor, if any, the modifier keys and the mouse button. */
  datatype Click = Click(anchor: Option<Anchor>, meta: bool, ctrl: bool, shift: bool, alt: bool, button: int)

  /** The document click listener of `setupCaptureHooks`, with its early returns in order: true
      when the listener goes on to capture the page. */
  predicate ShouldCapture(c: Click) {
    if c.anchor.None? then false
    else if c.anchor.value.href == "" || Text.StartsWith(c.anchor.value.href, "javascript:") then false
    else if c.anchor.value.target != "" && c.anchor.value.target != "_self" then false
    else if c.meta || c.ctrl || c.shift || c.alt || c.button != 0 then false
    else true
  }

  /** A click captures exactly when it lands in a link with a real `href` that opens in the same
      tab, made with the main button and no modifier key. */
  lemma ShouldCaptureConditions(c: Click)
    ensures ShouldCapture(c) <==>
              c.anchor.Some?
              && c.anchor.value.href != "" && !Text.StartsWith(c.anchor.value.href, "javascript:")
              && c.anchor.value.target in {"", "_self"}
              && !c.meta && !c.ctrl && !c.shift && !c.alt && c.button == 0
  {
  }

  // ---------------------------------------------------------------- the host and the pin button

  /** The part of the overlay's state the pin button depends on: whether the host is in the
      document, `isPinned`, the pin button's label, and how many click listeners the pin button
      of the current host carries. */
  datatype Ui = Ui(hostPresent: bool, isPinned: bool, pinLabel: string, pinHandlers: nat)

  /** The state at load: no host, not pinned. */
  const Initial: Ui := Ui(false, false, "Pin", 0)

  /** The label the pin listener writes. */
  function PinLabelFor(pinned: bool): string {
    if pinned then "Unpin" else "Pin"
  }

  /** One pin click listener: flip `isPinned`, then relabel the button. */
  function Flip(u: Ui): Ui {
    u.(isPinned := !u.isPinned, pinLabel := PinLabelFor(!u.isPinned))
  }

  /** `k` pin listeners run one after another. */
  function FlipTimes(u: Ui, k: nat): Ui {
    if k == 0 then u else Flip(FlipTimes(u, k - 1))
  }

  /** A click on the pin button: every listener it carries runs; with no host there is no
      button to click. */
  function ClickPinState(u: Ui): Ui {
    if u.hostPresent then FlipTimes(u, u.pinHandlers) else u
  }

  /** `k` listeners flip `isPinned` `k` times, so an even number leaves it as it was; the label
      always ends up describing the final state unless no listener ran. */
  lemma {:induction false} FlipTimesEffect(u: Ui, k: nat)
    ensures FlipTimes(u, k).isPinned == (u.isPinned != (k % 2 == 1))
    ensures k > 0 ==> FlipTimes(u, k).pinLabel == PinLabelFor(FlipTimes(u, k).isPinned)
    ensures k == 0 ==> FlipTimes(u, k) == u
    ensures FlipTimes(u, k).hostPresent == u.hostPresent && FlipTimes(u, k).pinHandlers == u.pinHandlers
  {
    if k > 0 {
      FlipTimesEffect(u, k - 1);
    }
  }

  /** `buildOverlay` as written: an existing host is reused as it is; a new one has a pin button
      labelled `Pin` and no listeners yet. */
  function BuiltAsWritten(u: Ui): Ui {
    if u.hostPresent then u else u.(hostPresent := true, pinLabel := "Pin", pinHandlers := 0)
  }

  /** `requestOverlay`'s callback as written: build (or reuse) the host, then attach a fresh set
      of listeners to it, whether or not it already had one. */
  function ShownAsWritten(u: Ui): Ui {
    var b := BuiltAsWritten(u);
    b.(pinHandlers := b.pinHandlers + 1)
  }

  /** The close button or Escape: the host leaves the document, and its listeners with it. */
  function Closed(u: Ui): Ui {
    u.(hostPresent := false, pinHandlers := 0)
  }

  /** The intended `buildOverlay`: a new host's pin button is labelled after the current
      `isPinned`. */
  function Built(u: Ui): Ui {
    if u.hostPresent then u else u.(hostPresent := true, pinLabel := PinLabelFor(u.isPinned), pinHandlers := 0)
  }

  /** The intended callback: listeners are attached to a host only when it is new. */
  function Shown(u: Ui): Ui {
    if u.hostPresent then u else Built(u).(pinHandlers := 1)
  }

  /** While a host is shown its pin button carries one listener and its label says whether the
      overlay is pinned; without a host there are no listeners. */
  predicate Coherent(u: Ui) {
    (u.hostPresent ==> u.pinHandlers == 1 && (u.pinLabel == "Unpin" <==> u.isPinned)
                       && u.pinLabel in {"Pin", "Unpin"})
    && (!u.hostPresent ==> u.pinHandlers == 0)
  }

  /** The intended operations keep the state coherent, showing never changes `isPinned`, and
      one click on the pin button of a shown overlay flips `isPinned` exactly once. */
  lemma CoherentPreserved(u: Ui)
    requires Coherent(u)
    ensures Coherent(Shown(u)) && Shown(u).hostPresent && Shown(u).isPinned == u.isPinned
    ensures Coherent(Closed(u)) && !Closed(u).hostPresent
    ensures Coherent(ClickPinState(u))
    ensures u.hostPresent ==> ClickPinState(u).isPinned == !u.isPinned
    ensures !u.hostPresent ==> ClickPinState(u) == u
  {
    if u.hostPresent {
      assert FlipTimes(u, 1) == Flip(FlipTimes(u, 0));
    }
  }

  /** The code as written and the intended callback agree exactly when the host is new and the
      overlay is not pinned: a reused host gains a second set of listeners, and a new host of a
      pinned overlay is mislabelled. */
  lemma AsWrittenMatchesIntended(u: Ui)
    ensures ShownAsWritten(u) == Shown(u) <==> !u.hostPresent && !u.isPinned
  {
    if !u.hostPresent && u.isPinned {
      assert ShownAsWritten(u).pinLabel == "Pin" && Shown(u).pinLabel == "Unpin";
    }
  }

  /** As written, an overlay requested twice without being closed (a page load and then a
      history navigation) carries two pin listeners, and one click leaves it unpinned. */
  lemma StackedPinListeners()
    ensures var u := ShownAsWritten(ShownAsWritten(Initial));
            u.pinHandlers == 2 && !ClickPinState(u).isPinned && !Coherent(u)
  {
    var u := ShownAsWritten(ShownAsWritten(Initial));
    FlipTimesEffect(u, 2);
  }

  /** As written, an overlay closed while pinned and shown again says `Pin` while it is pinned. */
  lemma ReopenedWhilePinned()
    ensures var u := ShownAsWritten(Closed(ClickPinState(ShownAsWritten(Initial))));
            u.isPinned && u.pinLabel == "Pin"
  {
    var v := ShownAsWritten(Initial);
    FlipTimesEffect(v, 1);
  }

  /** `!res || !res.ok` is false: a reply arrived and its `ok` is truthy. Every reply but a
      failure carries `ok: true`, except a settings record, whose `ok` is whatever that record
      holds under the key `ok`. */
  predicate ReplyOk(res: Option<ServiceWorker.Response>) {
    match res
    case None => false
    case Some(r) =>
      match r
      case Failure(_) => false
      case SettingsResponse(s) => Truthy(Field(s, "ok"))
      case _ => true
  }

  /** `res.snapshot`: only an overlay reply carries one. */
  function ReplySnapshot(res: Option<ServiceWorker.Response>): Option<Snapshot> {
    if res.Some? && res.value.OverlayOk? then Some(res.value.snapshot) else None
  }

  /** The overlay of one page: the settings cache, the host with its preview and size, the pin
      state and the drag in progress, over the store it reads and the page's origin. */
  class Overlay {
    var settingsCache: Option<map<string, Js>>
    var hostPresent: bool
    var isPinned: bool
    var pinLabel: string
    var pinHandlers: nat
    var preview: Preview
    var size: Size
    var dragging: bool
    const store: Store
    const origin: string

    /** The pin-related state. */
    function State(): Ui
      reads this
    {
      Ui(hostPresent, isPinned, pinLabel, pinHandlers)
    }

    constructor (store: Store, origin: string)
      ensures this.store == store && this.origin == origin
      ensures State() == Initial && settingsCache.None? && !dragging
    {
      this.store := store;
      this.origin := origin;
      settingsCache := None;
      hostPresent := false;
      isPinned := false;
      pinLabel := "Pin";
      pinHandlers := 0;
      preview := Message(LoadingText);
      size := Medium;
      dragging := false;
    }

    /** `getSettings`: the cache, filled from the stored `settings` on the first call. */
    method GetSettings() returns (s: map<string, Js>)
      modifies this`settingsCache
      ensures s == CachedSettings(old(settingsCache), store.local)
      ensures settingsCache == Some(s)
    {
      if settingsCache.Some? {
        return settingsCache.value;
      }
      var data := store.Get(SettingsKey);
      s := StoredSettings(data);
      settingsCache := Some(s);
    }

    /** `isEnabledForSite` at the page's origin. */
    method IsEnabledForSite() returns (b: bool)
      modifies this`settingsCache
      ensures b == OverlayGate(CachedSettings(old(settingsCache), store.local), origin)
      ensures settingsCache == Some(CachedSettings(old(settingsCache), store.local))
    {
      var s := GetSettings();
      b := OverlayGate(s, origin);
    }

    /** `buildOverlay`: an existing host is reused untouched; a new one has a pin button labelled
        `Pin`, whatever `isPinned` says, no listeners yet, and shows the loading text. */
    method BuildOverlay()
      modifies this`hostPresent, this`pinLabel, this`pinHandlers, this`preview
      ensures State() == BuiltAsWritten(old(State()))
      ensures preview == (if old(hostPresent) then old(preview) else Message(LoadingText))
    {
      if hostPresent {
        return;
      }
      hostPresent := true;
      pinLabel := "Pin";
      pinHandlers := 0;
      preview := Message(LoadingText);
    }

    /** `applySize`. */
    method ApplySize(name: Js)
      modifies this`size
      ensures size == SizeFor(name)
    {
      size := SizeFor(name);
    }

    /** `setPreview`: the body is replaced by the image or the message. */
    method SetPreview(snapshot: Option<Snapshot>)
      modifies this`preview
      ensures preview == PreviewFor(snapshot)
    {
      if snapshot.None? || HasError(snapshot.value) || !HasImage(snapshot.value) {
        preview := Message(if snapshot.Some? && HasError(snapshot.value)
                           then "Preview unavailable (" + snapshot.value.error.value + ")"
                           else "Preview unavailable");
        return;
      }
      preview := Image(snapshot.value.dataUrl.value);
    }

    /** `setupInteractions`, as far as the pin button goes: one more click listener on it. */
    method SetupInteractions()
      modifies this`pinHandlers
      ensures State() == old(State()).(pinHandlers := old(pinHandlers) + 1)
    {
      pinHandlers := pinHandlers + 1;
    }

    /** A click on the pin button: each of its listeners flips `isPinned` and relabels it. */
    method ClickPin()
      modifies this`isPinned, this`pinLabel
      ensures State() == ClickPinState(old(State()))
    {
      if !hostPresent {
        return;
      }
      var i := 0;
      while i < pinHandlers
        invariant 0 <= i <= pinHandlers
        invariant State() == FlipTimes(old(State()), i)
      {
        isPinned := !isPinned;
        pinLabel := PinLabelFor(isPinned);
        i := i + 1;
      }
    }

    /** `pointerdown` on the title bar starts a drag. */
    method PointerDown()
      modifies this`dragging
      ensures dragging == hostPresent
    {
      dragging := hostPresent;
    }

    /** `pointerup` on the title bar ends a drag; the overlay snaps to a corner exactly when a
        drag was in progress and it is not pinned. */
    method PointerUp() returns (snapped: bool)
      modifies this`dragging
      ensures snapped <==> old(dragging) && !isPinned
      ensures !dragging
    {
      if !dragging {
        return false;
      }
      dragging := false;
      snapped := !isPinned;
    }

    /** The close button, or Escape: the host is removed. */
    method Close()
      modifies this`hostPresent, this`pinHandlers, this`dragging
      ensures State() == Closed(old(State())) && !dragging
    {
      hostPresent := false;
      pinHandlers := 0;
      dragging := false;
    }

    /** `requestOverlay`'s callback for the worker's reply `res` (`None` when there is none):
        on an `ok` reply the host is built or reused, sized from the settings and given the
        reply's preview, and a further set of listeners is attached to it. */
    method ShowOverlay(res: Option<ServiceWorker.Response>)
      modifies this`settingsCache, this`hostPresent, this`pinLabel, this`pinHandlers, this`preview, this`size
      ensures !ReplyOk(res) ==>
                State() == old(State()) && preview == old(preview) && size == old(size)
                && settingsCache == old(settingsCache)
      ensures ReplyOk(res) ==>
                State() == ShownAsWritten(old(State()))
                && preview == PreviewFor(ReplySnapshot(res))
                && size == SizeFor(SizeName(CachedSettings(old(settingsCache), store.local)))
                && settingsCache == Some(CachedSettings(old(settingsCache), store.local))
    {
      if !ReplyOk(res) {
        return;
      }
      BuildOverlay();
      var settings := GetSettings();
      ApplySize(SizeName(settings));
      SetPreview(ReplySnapshot(res));
      SetupInteractions();
    }

    /** `requestOverlay`: nothing happens unless the overlay's gate admits the page; then the
        reply `res` is shown. */
    method RequestOverlay(res: Option<ServiceWorker.Response>)
      modifies this`settingsCache, this`hostPresent, this`pinLabel, this`pinHandlers, this`preview, this`size
      ensures var settings := CachedSettings(old(settingsCache), store.local);
              settingsCache == Some(settings)
              && (!OverlayGate(settings, origin) || !ReplyOk(res) ==>
                    State() == old(State()) && preview == old(preview) && size == old(size))
              && (OverlayGate(settings, origin) && ReplyOk(res) ==>
                    State() == ShownAsWritten(old(State()))
                    && preview == PreviewFor(ReplySnapshot(res))
                    && size == SizeFor(SizeName(settings)))
    {
      var enabled := IsEnabledForSite();
      if !enabled {
        return;
      }
      ShowOverlay(res);
    }
  }
}
