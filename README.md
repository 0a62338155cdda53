# Mini-player: a Dafny model

The mini-player is a browser extension. When the user follows a link, it shows a small
overlay with a screenshot of the page they just left.

Four contexts share one key-value store:

- **Background service worker.** A policy gate decides, from the settings, whether the extension
  is active on a site. The worker keeps a bounded history of snapshots per tab, newest first.
  It answers the content scripts' runtime messages: capture, request overlay, clear, get and
  update settings.
- **Content scripts.**
  - A form tracker saves the savable, non-sensitive fields of a page under a normalised page
    key, debounced, and restores them after a navigation. It also starts a save before each
    in-app navigation; as written, that save lands under the next page's key (see Findings).
  - The overlay filters clicks on links (asking the worker to capture the page first) and shows
    the selected snapshot in a pin-able, draggable overlay.
  - A page-world hook announces single-page-app navigations before and after each
    `pushState` / `replaceState`, and after each `popstate`.
- **Settings popup.** It loads the record into a form and writes it back. This includes
  the per-site "disable on this site" switch.

Two helpers support the rest:

- **`url_normalize`** derives the page key. It drops the `utm_*` and click-id parameters and
  sorts the remaining ones by key.
- **`dom_selectors`** identifies a field by id, by a name descriptor or by a CSS path.

Layout of the model:

- **The store** (`storage.dfy`). A class `Store` with the `local` and `session` areas as
  `map<Key, Value>` fields. Without a session area, the session operations fall back to `local`.
- **Shared data** (`json.dfy`, `model.dfy`, `settings.dfy`). JSON-like values, with JavaScript
  truthiness and the throwing property reads written out. The stored entities. The settings
  record and `Object.assign`.
- **Worker** (`service_worker.dfy`). Imperative methods against specification functions
  (`IsAllowedBySettings`, `Pushed`, `SelectSnapshot`).
- **Content scripts and popup.**
  - `form_tracker.dfy`, `overlay_ui.dfy` and `spa_router_hook.dfy` each declare a class for the
    script state the code updates in place: the tracker's cache, page key and debounce timer;
    the overlay's host, pin state and preview; the hook's location and dispatched events.
    Pure functions specify these classes.
  - The pure helpers are datatypes, functions and lemmas: `url_normalize.dfy`,
    `dom_selectors.dfy`, and the list and set logic of `popup.dfy`.

Platform facilities become parameters of the operations:

- the URL parser (`None` where `new URL` throws);
- `CSS.escape`;
- `querySelector`;
- the query-string encoder;
- the screenshot primitive's outcome;
- the clock;
- the active tab's URL;
- the worker's reply to the overlay.

## Model

| member | source | states |
|---|---|---|
| Storage.Pick | storage.js:7-11 | an area's `get` yields `{key: value}` when the key is present and `{}` (not an error) otherwise |
| Storage.ExpiresAt | storage.js:52-55 | a zero time-to-live stores `expiresAt` 0 (never expires); otherwise it is the write time plus the time-to-live |
| Storage.TtlLookup | storage.js:57-66 | a missing key reads as missing, and only a stored plain object can be expired |
| Storage.TtlRoundTrip | storage.js:52-66 | a value written with a TTL reads back unchanged when its time-to-live is 0 or has not run out, and as expired once it has |
| Storage.Store.constructor | storage.js:5 | the store starts with the given areas and the fixed `HAS_SESSION` flag |
| Storage.Store.Get | storage.js:25-27 | `get` on the local area: the singleton map for a present key, the empty map otherwise |
| Storage.Store.Set | storage.js:29-31 | `set` overwrites exactly the given keys of `local`; `session` is unchanged |
| Storage.Store.Remove | storage.js:33-35 | `remove` deletes exactly one key of `local`; `session` is unchanged |
| Storage.Store.GetSession | storage.js:37-40 | reads `session`, or `local` when there is no session area |
| Storage.Store.SetSession | storage.js:42-45 | writes to `session`, or to `local` when there is no session area; the other area is unchanged |
| Storage.Store.RemoveSession | storage.js:47-50 | deletes from `session`, or from `local` when there is no session area; the other area is unchanged |
| Storage.Store.SetWithTtl | storage.js:52-55 | `local` gains exactly the `{value, expiresAt}` record under the key |
| Storage.Store.GetWithTtl | storage.js:57-66 | a missing entry gives `null` and changes nothing; an expired one gives `null` and is removed; a live one gives its value and changes nothing |
| Json.Includes | service_worker.js:31-33 | `includes` on an array is membership; on a string it is substring search; on any other value it throws |
| Json.LengthPositive | service_worker.js:33 | `length > 0` on an array tests non-emptiness; it throws exactly on `null`/`undefined` |
| Model.StoredSettings | service_worker.js:39 | `data.settings \|\| {}`: no stored record contributes no keys |
| Settings.Assign | service_worker.js:44 | `Object.assign({}, a, b)` has the keys of both; `b`'s values win and `a`'s are kept elsewhere |
| Settings.WithDefaults | service_worker.js:7-14 | the merged record has every default key plus the stored ones; stored values win, defaults fill the rest |
| Settings.WithDefaultsOfComplete | service_worker.js:37-40 | a record that already holds every default key is unchanged by merging with the defaults |
| Settings.WithDefaultsIdempotent | service_worker.js:42-47 | merging the defaults twice equals merging once, so a record written by `setSettings` reads back as written |
| Text.Lower | content/form_tracker.js:22 | lower-casing keeps the length |
| Text.Split | popup/popup.js:14 | `split` always yields at least one piece |
| Text.SplitWithoutSeparator | popup/popup.js:14 | a string without the separator splits into itself |
| Text.SplitAround | popup/popup.js:14 | the pieces of `a + d + b` are the pieces of `a`, then those of `b` |
| Text.SplitAroundStep | popup/popup.js:14 | the distribution over a separator carries over from a string's tail to the whole string |
| Text.SplitCons | popup/popup.js:14 | a leading separator starts a new empty piece; any other character joins the first piece |
| Text.SplitJoin | popup/popup.js:14-20 | splitting undoes joining when no piece contains the separator |
| Text.Trim | popup/popup.js:15 | the trimmed string has no white space at either end; a trimmed string is its own trim |
| Text.TrimRemovesOnlyEnds | popup/popup.js:15 | trimming removes only white space: the result is a slice of the input with nothing but white space before and after it |
| Text.TrimStartDropsSpaces | popup/popup.js:15 | the characters dropped from the front are all white space |
| Text.TrimEndDropsSpaces | popup/popup.js:15 | the characters dropped from the back are all white space |
| ServiceWorker.NormalizeSite | service_worker.js:18-25 | an unparsable URL gives `''`; any non-empty result is the parsed origin |
| ServiceWorker.IsAllowedBySettings | service_worker.js:27-35 | a falsy `enabled` or an empty site denies. With array-valued lists it never throws, and admits exactly when the site is in neither `siteDisabled` nor `blocklist` and the allowlist is empty or contains it |
| ServiceWorker.Pushed | service_worker.js:49-56 | the new list holds `min(n+1, 3)` snapshots: the new one first, then the old ones in order, the oldest dropped beyond capacity |
| ServiceWorker.OtherHistoriesUnchanged | service_worker.js:50-55 | writing one tab's history key leaves every other tab's history as it was |
| ServiceWorker.FirstDifferentFrom | service_worker.js:64-68 | the scan finds the first snapshot whose URL differs from the current URL (any, when the current URL is empty), or reports that none does |
| ServiceWorker.SelectSnapshot | service_worker.js:58-70 | no snapshot exactly for an empty history. Otherwise the newest one with a URL different from the current URL, or the newest one when all match or the current URL is empty |
| ServiceWorker.SelectionExamples | service_worker.js:58-70 | history `[A, B, A]` seen from A selects B; `[A, A]` seen from A falls back to the newest entry |
| ServiceWorker.StoreSnapshot | service_worker.js:49-56 | only the tab's key is written, with the pushed list; other tabs' histories and the other area are unchanged; the capacity bound is preserved |
| ServiceWorker.GetSnapshotForTab | service_worker.js:58-70 | the loop returns exactly the selection rule applied to the tab's stored history |
| ServiceWorker.GetSettings | service_worker.js:37-40 | the defaults overlaid by the stored record |
| ServiceWorker.SetSettings | service_worker.js:42-47 | the current settings overlaid by the payload are stored under `settings` and returned; nothing else changes |
| ServiceWorker.HandleCapture | service_worker.js:86-128 | Without a tab or window: no-tab failure and nothing written. Site denied: blocked failure (no response when the gate throws), nothing written, no screenshot. Otherwise exactly one snapshot is pushed, stamped with url, title and time. Privacy mode stores the privacy error and skips the screenshot. Failing and successful screenshots store the error and the image respectively |
| ServiceWorker.HandleRequestOverlay | service_worker.js:130-144 | no tab gives a no-tab failure; otherwise the selected snapshot, or a no-snapshot failure when the history is empty |
| ServiceWorker.HandleClear | service_worker.js:146-156 | the sender's tab history becomes `[]`; other tabs and the settings are untouched; no tab gives a failure and no write |
| ServiceWorker.ClearIdempotent | service_worker.js:146-156 | clearing twice equals clearing once |
| ServiceWorker.HandleMessage | service_worker.js:72-157 | dispatch by type. Unknown types get no response; settings reads change nothing; updates store and answer the merged record; an overlay request answers no-tab, no-snapshot or the selected snapshot of the sender's history and writes nothing; a clear answers no-tab without writing, else sets the sender's history to `[]`. No request touches another tab's history, and all keep histories within capacity |
| UrlNormalize.WithKeyCons | url_normalize.js:29-31 | the per-key sublist of a list with one more pair at the front |
| UrlNormalize.WithKeyMembers | url_normalize.js:29-31 | the per-key sublist holds exactly the pairs of that key |
| UrlNormalize.RetainedMembers | url_normalize.js:19-27 | after both deletion passes, the query holds exactly its pairs whose key is neither `utm_*` (any case) nor one of the stripped parameters |
| UrlNormalize.RetainedWithKey | url_normalize.js:19-27 | key by key, deletion keeps every pair of a non-tracking key, in order, and none of a tracking key |
| UrlNormalize.KeyLeReflexive | url_normalize.js:30 | the key comparison is reflexive |
| UrlNormalize.KeyLeTotal | url_normalize.js:30 | the key comparison is total |
| UrlNormalize.KeyLeAntisymmetric | url_normalize.js:30 | the key comparison is antisymmetric |
| UrlNormalize.KeyLeTransitive | url_normalize.js:30 | the key comparison is transitive |
| UrlNormalize.Insert | url_normalize.js:29-31 | one insertion step adds exactly the pair to the multiset |
| UrlNormalize.InsertWithKey | url_normalize.js:29-31 | the inserted pair goes ahead of every pair with its key, and other keys' sublists are unchanged |
| UrlNormalize.InsertSorted | url_normalize.js:29-31 | insertion keeps a list sorted |
| UrlNormalize.SortedCons | url_normalize.js:29-31 | a pair whose key is at most every key of a sorted list can go in front of it |
| UrlNormalize.SortByKey | url_normalize.js:29-31 | the sort result is ordered by key and a permutation of its input |
| UrlNormalize.SortStable | url_normalize.js:29-31 | the sort is stable: pairs with equal keys keep their relative order |
| UrlNormalize.SortSortedIsIdentity | url_normalize.js:29-31 | sorting a sorted list changes nothing |
| UrlNormalize.SortedTail | url_normalize.js:29-31 | the tail of a sorted list is sorted |
| UrlNormalize.TailsWithKey | url_normalize.js:29-31 | equal heads and equal per-key sublists leave equal sublists in the tails |
| UrlNormalize.SortedSameHead | url_normalize.js:29-31 | two sorted lists with the same per-key sublists start with the same pair |
| UrlNormalize.HeadKeyLe | url_normalize.js:29-31 | when two lists agree on the pairs of the second one's first key, the first key of a sorted list is at most that key |
| UrlNormalize.WithKeyHead | url_normalize.js:29-31 | the pairs with the first key start with the first pair |
| UrlNormalize.SortedDeterminedByKeys | url_normalize.js:29-31 | a sorted list is determined by its per-key sublists, the uniqueness of the stable sort |
| UrlNormalize.CleanQuery | url_normalize.js:19-31 | the page key's parameters contain no tracking key, are sorted by key, and are a permutation of the retained pairs |
| UrlNormalize.RetainedNoTracking | url_normalize.js:19-27 | no retained pair has a tracking key |
| UrlNormalize.CleanQueryWithKey | url_normalize.js:19-31 | key by key, the page key holds exactly the query's pairs of that key, in query order, or none for a tracking key |
| UrlNormalize.Serialize | url_normalize.js:33-34 | the serialised query is empty exactly when no parameter remains |
| UrlNormalize.Assemble | url_normalize.js:33-37 | the key is origin, path, `?query` only when a parameter remains, and the hash |
| UrlNormalize.NormalizeUrl | url_normalize.js:14-41 | an unparsable input is returned unchanged; otherwise the URL reassembled from its cleaned query |
| UrlNormalize.CleanQueryIdempotent | url_normalize.js:14-41 | cleaning an already-clean query changes nothing |
| UrlNormalize.RetainedOfClean | url_normalize.js:19-27 | deletion leaves a query without tracking keys unchanged |
| UrlNormalize.CleanQueryDependsOnlyOnKeys | url_normalize.js:19-31 | queries that agree key by key on their non-tracking pairs clean to the same parameters, whatever the interleaving and tracking noise |
| UrlNormalize.WithKeyAbsent | url_normalize.js:29-31 | a key that does not occur has an empty sublist |
| UrlNormalize.DistinctWithKey | url_normalize.js:29-31 | with distinct keys, every key has at most one pair |
| UrlNormalize.SameWithKey | url_normalize.js:29-31 | two lists with distinct keys and the same pairs agree key by key |
| UrlNormalize.NormalizeIgnoresOrderAndTracking | url_normalize.js:14-41 | two URLs sharing origin, path, hash and (distinct-keyed) non-tracking pairs get the same page key, whatever their order and tracking parameters |
| DomSelectors.SameTagChildren | dom_selectors.js:21-24 | exactly the children of the parent with the same tag, in document order |
| DomSelectors.IndexOf | dom_selectors.js:25 | `indexOf` returns the first position of the element, or -1 exactly when it is absent |
| DomSelectors.NthIsPosition | dom_selectors.js:21-27 | `:nth-of-type(k)` names the element's 1-based position among its same-tag siblings |
| DomSelectors.PartOfShape | dom_selectors.js:15-27 | an element without an id gives its lower-case tag, with an index exactly when more than one same-tag sibling exists |
| DomSelectors.PathNodes | dom_selectors.js:11-31 | the walk visits elements of the document only |
| DomSelectors.PathNodesChain | dom_selectors.js:11-31 | the visited elements form an ancestor chain ending at the element, each the parent of the next, never reaching `body` |
| DomSelectors.RenderAll | dom_selectors.js:32 | one rendered part per visited element |
| DomSelectors.CssPath | dom_selectors.js:6-33 | the loop, prepending one part per step, yields exactly the rendered ancestor path (empty for a missing or parentless element) |
| DomSelectors.RenderStep | dom_selectors.js:8-31 | prepending an element to the visited ones prepends its rendered part |
| DomSelectors.WalkStep | dom_selectors.js:8-31 | each step of the walk stops at an element with an id or moves to its parent, which precedes it and from which the rest of the path is walked |
| DomSelectors.PathNodesUp | dom_selectors.js:11-29 | below `body`, the path of an element without an id is its parent's path followed by the element |
| DomSelectors.IdGivesSinglePart | dom_selectors.js:15-19 | an element with an id has the one-part path `#<escaped id>` |
| DomSelectors.OnlyLeftmostHasId | dom_selectors.js:15-19 | the walk stops at the nearest id, so only the leftmost part can be an id part |
| DomSelectors.BodyHasEmptyPath | dom_selectors.js:11 | `body` itself has the empty path |
| DomSelectors.PartsAtMostDepth | dom_selectors.js:11-31 | a path has at most as many parts as the element's depth below `body` |
| DomSelectors.FieldKey | dom_selectors.js:35-44 | the id when there is one. Otherwise, for a name, the descriptor of name, lower-case tag, lower-case type and form index. Otherwise the CSS path. The selector form is chosen exactly when both id and name are empty |
| DomSelectors.JoinFour | dom_selectors.js:41 | joining four parts puts the separator between each pair |
| DomSelectors.NatToStringDigits | dom_selectors.js:38-41 | a printed natural number contains only digits (a form index of -1 prints with a leading `-`) |
| DomSelectors.LowerKeepsPipe | dom_selectors.js:41 | lower-casing does not introduce `\|` |
| DomSelectors.NameKeyDecodes | dom_selectors.js:41 | a name key splits back into exactly its four parts when name, tag and type contain no `\|` |
| FormTracker.SensitiveCases | content/form_tracker.js:21-31 | sensitive iff a password or file type, an id or name matching a credential word, or a matching autocomplete hint |
| FormTracker.LowerIdempotent | content/form_tracker.js:21-31 | lower-casing twice equals once |
| FormTracker.SensitiveIgnoresCase | content/form_tracker.js:21-31 | the classification ignores case |
| FormTracker.IsSavable | content/form_tracker.js:33-41 | savable exactly when the element exists, its lower-cased tag is input, textarea or select, and it is not sensitive; so a password or file input never is, and nothing or a tagless element is not savable |
| FormTracker.SelectedValues | content/form_tracker.js:69-70 | the saved values are exactly those of the selected options, one per selected option, in option order |
| FormTracker.SerializeField | content/form_tracker.js:43-77 | the step-by-step build yields the field's record |
| FormTracker.SerializedFillsOneSlot | content/form_tracker.js:43-77 | a savable field fills exactly one payload slot: `checked` for checkbox/radio, `values` for a multiple select, otherwise `value` |
| FormTracker.FirstWithId | content/form_tracker.js:80-83 | `getElementById` finds the first element with that id, or reports none |
| FormTracker.Named | content/form_tracker.js:85-93 | `getElementsByName` lists exactly the elements of that name, in document order |
| FormTracker.FirstOfType | content/form_tracker.js:87-91 | the first listed element whose type matches, or a report that none matches |
| FormTracker.QueryHit | content/form_tracker.js:95-102 | a selector hit is an element of the document |
| FormTracker.FindField | content/form_tracker.js:79-105 | any element found belongs to the document |
| FormTracker.FindFieldById | content/form_tracker.js:80-83 | an id that occurs wins and gives its first element |
| FormTracker.FindFieldByName | content/form_tracker.js:85-93 | otherwise a name that occurs gives the first element of that name whose type matches, or the first of that name |
| FormTracker.FirstOfTypeAmongNamed | content/form_tracker.js:87-91 | the typed choice is the first same-typed element of that name in document order |
| FormTracker.NoMatchBefore | content/form_tracker.js:87-91 | in the document-ordered list of one name, no element of that name before the chosen one matches the type |
| FormTracker.FindFieldBySelector | content/form_tracker.js:95-102 | only when neither id nor name occurs is the selector consulted; a throwing selector finds nothing |
| FormTracker.RadioGroupResolvesToFirst | content/form_tracker.js:85-93 | id-less radios of one name all resolve to the group's first radio |
| FormTracker.Reselect | content/form_tracker.js:169-172 | the restored select has exactly the options whose value was saved selected |
| FormTracker.ReselectOptions | content/form_tracker.js:169-172 | the option loop computes that selection |
| FormTracker.AssignEntry | content/form_tracker.js:160-175 | the assignments of one iteration give the restored element |
| FormTracker.ApplyKeepsIdentity | content/form_tracker.js:160-175 | a restore assigns only values, check states and selections, never identity or type |
| FormTracker.RestoreOfSavedIsIdentity | content/form_tracker.js:43-77 | restoring a field from its own record gives the field back (for selects where selection matches value) |
| FormTracker.RestoreOne | content/form_tracker.js:153-177 | one iteration keeps the number of elements |
| FormTracker.RestoreAll | content/form_tracker.js:153-177 | the restore keeps the number of elements and every element's identity (tag, type, id, name, parent, form, option values); what it restores is stated by the round-trip lemmas below |
| FormTracker.RestoreSkips | content/form_tracker.js:155-156 | an entry that resolves to nothing, or to an unsavable field, changes nothing |
| FormTracker.RestoreAllFixed | content/form_tracker.js:153-177 | entries none of which changes the document leave it unchanged |
| FormTracker.RestoreOwnRecord | content/form_tracker.js:153-177 | a savable field whose own record resolves back to it is left exactly as it was by that record |
| FormTracker.RestoreSavedRoundTrip | content/form_tracker.js:126-177 | restoring the saved fields into the unchanged page reproduces every field (value, check state, selection) whenever each savable field's record resolves back to that field |
| FormTracker.SerializedId | content/form_tracker.js:52 | a saved record carries its field's id |
| FormTracker.OwnIdResolves | content/form_tracker.js:80-83 | a record whose id no earlier element carries resolves back to its own field |
| FormTracker.RestoreRoundTripWithIds | content/form_tracker.js:126-177 | on a page whose savable fields have distinct ids, the restore of its own save reproduces the page exactly |
| FormTracker.SameNameRadiosLoseCheck | content/form_tracker.js:85-93 | as written, `<body>` with two id-less radios named `c`, the first checked, saves two records that both resolve to the first radio; restoring them leaves neither checked |
| FormTracker.WorkerGateImpliesFormGate | content/form_tracker.js:114-124 | the form tracker's gate admits every site the worker's gate admits |
| FormTracker.GatesDiffer | content/form_tracker.js:116 | a `null` `enabled` disables the worker's gate but not the form tracker's, which switches off only on `false` |
| FormTracker.BurstKeepsRearming | content/form_tracker.js:186-189 | inside a burst no save runs and the deadline follows the last event |
| FormTracker.BurstSavesOnce | content/form_tracker.js:186-189 | a burst of events less than 400 ms apart saves once |
| FormTracker.SpacedSavesEachHelper | content/form_tracker.js:186-189 | spread-out events each run their own save |
| FormTracker.SpacedSavesEach | content/form_tracker.js:186-189 | events at least 400 ms apart save once each |
| FormTracker.SavableIndices | content/form_tracker.js:131 | exactly the savable fields, in document order; none of them is sensitive |
| FormTracker.SavedFields | content/form_tracker.js:129-132 | the saved fields are the serialised savable fields, in document order, and no record is made of a sensitive field; the save fails (`None`) exactly when a savable field has no CSS path, where `cssPath` throws |
| FormTracker.Page.constructor | content/form_tracker.js:191-224 | the page starts with the given document, location and scroll offsets |
| FormTracker.CacheAnswersLaterReads | content/form_tracker.js:107-112 | once filled, the settings cache answers every later read, whatever the store holds |
| FormTracker.Tracker.constructor | content/form_tracker.js:13-15 | the tracker starts with no page key, no pending save and an empty cache |
| FormTracker.Tracker.GetSettings | content/form_tracker.js:107-112 | the cache when filled, else the stored record, which fills the cache |
| FormTracker.Tracker.IsEnabledForSite | content/form_tracker.js:114-124 | the result is the form gate applied to the cached settings at the page origin |
| FormTracker.Tracker.SaveFormState | content/form_tracker.js:126-143 | a denied page, or one where serialising throws, writes nothing; otherwise exactly one record under `forms:<page key>`: URL, time, scroll and the savable fields; the session area is untouched |
| FormTracker.Tracker.RestoreFormState | content/form_tracker.js:145-184 | with the gate open and a record stored, the document becomes the restore of its entries and the numeric scroll is returned; otherwise nothing changes |
| FormTracker.Tracker.ScheduleSave | content/form_tracker.js:186-189 | the pending save is replaced by one due 400 ms later |
| FormTracker.Tracker.OnFieldEvent | content/form_tracker.js:194-208 | only a savable target re-arms the timer |
| FormTracker.Tracker.Tick | content/form_tracker.js:186-189 | a due save disarms the timer and performs `saveFormState` once: the same gate-dependent write of `forms:<page key>`; otherwise the store, the cache and the timer are unchanged |
| FormTracker.Tracker.OnNavigated | content/form_tracker.js:214-223 | the page key becomes the normalised location; then, with the gate open and a record stored under the new key, the document becomes the restore of its entries and the saved scroll is returned, otherwise nothing changes |
| FormTracker.BeforeNavigationSaveMisplaced | content/form_tracker.js:126-143 | as written, between pages with different keys the save lands under the next page's key with the next page's location and leaves the left page's entry as it was; the intended save writes the left page's own entry and leaves the next page's |
| FormTracker.Tracker.NavigateAsWritten | content/form_tracker.js:210-216 | the BEFORE listener's save resumes after the location has moved and the AFTER listener has recomputed the key, so the only write is the save under the new key at the new location |
| FormTracker.Tracker.Navigate | content/form_tracker.js:210-216 | the intended order: the page being left is saved under its own key and location, then the location and key move on |
| FormTracker.RestoreEntries | content/form_tracker.js:153-177 | the loop over the saved entries computes the restore fold |
| FormTracker.RestoreAllStep | content/form_tracker.js:153-177 | the restore of one more entry is one more iteration |
| OverlayUi.OverlayGateWidensFormGate | content/overlay_ui.js:27-38 | the overlay admits a site iff the form gate does, or privacy mode is on and `enabled` is not false |
| OverlayUi.PrivacyModeIgnoresLists | content/overlay_ui.js:30 | with privacy mode on, a site on every list is still admitted |
| OverlayUi.SizeName | content/overlay_ui.js:283 | `overlaySize \|\| 'medium'` is never falsy |
| OverlayUi.SizeFor | content/overlay_ui.js:11-15 | the size is one of the three defaults; small and large exactly for their names |
| OverlayUi.UnknownSizeIsMedium | content/overlay_ui.js:147-152 | any other size name falls back to medium |
| OverlayUi.PreviewCases | content/overlay_ui.js:154-173 | an image exactly for a snapshot with a non-empty image and no error. Otherwise a message: the plain text without an error, or the error appended in parentheses |
| OverlayUi.FailedCaptureShowsReason | content/overlay_ui.js:158-165 | a failed capture shows its reason |
| OverlayUi.ShouldCaptureConditions | content/overlay_ui.js:299-313 | a click is captured iff on a link whose `href` is non-empty and does not start with `javascript:`, whose target is `""` or `_self`, with the primary button and no modifier key |
| OverlayUi.FlipTimesEffect | content/overlay_ui.js:262-265 | k stacked pin handlers flip `isPinned` k times; the label matches the final state once one has run |
| OverlayUi.CoherentPreserved | content/overlay_ui.js:262-265 | with the corrected show, the label always matches the pin state, one click flips it exactly once, and a close keeps this |
| OverlayUi.StackedPinListeners | content/overlay_ui.js:281-285 | as written, showing twice without a close stacks two pin handlers; one click leaves the overlay unpinned |
| OverlayUi.ReopenedWhilePinned | content/overlay_ui.js:41-44 | as written, pin, close, show again: the overlay is pinned but labelled "Pin" |
| OverlayUi.AsWrittenMatchesIntended | content/overlay_ui.js:41-44 | the callback as written agrees with the intended one exactly for a new host of an unpinned overlay |
| OverlayUi.Overlay.constructor | content/overlay_ui.js:17-18 | no host, unpinned, an empty cache, not dragging |
| OverlayUi.Overlay.GetSettings | content/overlay_ui.js:20-25 | the cache when filled, else the stored record |
| OverlayUi.Overlay.IsEnabledForSite | content/overlay_ui.js:27-38 | the overlay gate on the cached settings at the page origin |
| OverlayUi.Overlay.BuildOverlay | content/overlay_ui.js:40-145 | an existing host is reused as is; a new one shows the loading text, carries no listeners and is labelled "Pin" whatever `isPinned` says |
| OverlayUi.Overlay.ApplySize | content/overlay_ui.js:147-152 | the size becomes the one the name selects |
| OverlayUi.Overlay.SetPreview | content/overlay_ui.js:154-173 | the preview becomes the one the snapshot selects |
| OverlayUi.Overlay.SetupInteractions | content/overlay_ui.js:175-271 | one more pin handler is attached and nothing else changes |
| OverlayUi.Overlay.ClickPin | content/overlay_ui.js:262-265 | running every attached pin handler gives the modelled click outcome |
| OverlayUi.Overlay.PointerDown | content/overlay_ui.js:207-214 | a drag starts exactly when the overlay is shown |
| OverlayUi.Overlay.PointerUp | content/overlay_ui.js:223-228 | the overlay snaps iff a drag was in progress and it is not pinned; the drag ends |
| OverlayUi.Overlay.Close | content/overlay_ui.js:254-256 | the host is removed, its handlers with it |
| OverlayUi.Overlay.ShowOverlay | content/overlay_ui.js:277-287 | no reply, a failure or a settings record without a truthy `ok` changes nothing. Otherwise the host is built or reused and one more set of listeners attached, as written; the preview is the snapshot's and the size comes from `overlaySize || 'medium'` |
| OverlayUi.Overlay.RequestOverlay | content/overlay_ui.js:273-288 | a denied site changes nothing but the cache; otherwise the reply is shown as `ShowOverlay` states |
| Popup.TrimAll | popup/popup.js:15 | every line is trimmed, one for one |
| Popup.NonEmpty | popup/popup.js:16 | what remains is non-empty lines of the input |
| Popup.ParseList | popup/popup.js:12-17 | every entry is non-empty and trimmed |
| Popup.NonEmptyAppend | popup/popup.js:16 | filtering distributes over concatenation |
| Popup.ParseListAppend | popup/popup.js:12-17 | parsing two texts joined by a newline concatenates their entries |
| Popup.TrimAllAppend | popup/popup.js:15 | trimming distributes over concatenation |
| Popup.NonEmptyKeeps | popup/popup.js:16 | a list without empty lines survives filtering |
| Popup.TrimAllKeeps | popup/popup.js:15 | trimmed lines survive trimming |
| Popup.ParseEmpty | popup/popup.js:12-17 | the empty text parses to no entries |
| Popup.ParseJoinRoundTrip | popup/popup.js:12-21 | entries that are non-empty, trimmed and single-line parse back from their newline join |
| Popup.ParseOfPieces | popup/popup.js:12-17 | a text whose lines are already non-empty and trimmed parses to exactly those lines |
| Popup.JoinedNothing | popup/popup.js:12-21 | no entries join to the empty text, which parses back to no entries |
| Popup.JoinedPieces | popup/popup.js:12-21 | a non-empty list of clean entries parses back from its newline join |
| Popup.ItemTexts | popup/popup.js:20 | one text per array item, when every item renders |
| Popup.StrArr | popup/popup.js:65-66 | the stored array holds the entries as strings, in order |
| Popup.ItemTextsOfStrings | popup/popup.js:20 | string items render as themselves |
| Popup.StringItemTexts | popup/popup.js:20 | any array of string items renders item by item as those strings |
| Popup.FormatStrings | popup/popup.js:19-21 | a string array formats as its newline join |
| Popup.FormatMissing | popup/popup.js:20 | a missing list or an empty array formats as the empty text |
| Popup.FormatParseRoundTrip | popup/popup.js:12-21 | formatting, then parsing, gives back clean entries |
| Popup.SplitPiecesFree | popup/popup.js:14 | no piece of a split holds the separator |
| Popup.TrimKeepsOut | popup/popup.js:15 | trimming adds no characters |
| Popup.ParsedSingleLine | popup/popup.js:12-17 | parsed entries never hold a newline |
| Popup.ParseFormatStable | popup/popup.js:12-21 | any text that is parsed, saved, loaded and parsed again gives the same entries |
| Popup.DistinctProperties | popup/popup.js:72 | `new Set(items)` has no duplicates and the same members; a duplicate-free list is unchanged |
| Popup.DistinctMembers | popup/popup.js:72 | the set has exactly the members of the list |
| Popup.DistinctNoDuplicates | popup/popup.js:72 | the set holds each member once |
| Popup.DistinctOfDistinct | popup/popup.js:72 | a duplicate-free list is its own set, in the same order |
| Popup.Without | popup/popup.js:74 | `delete` keeps exactly the other members |
| Popup.WithoutKeepsDistinct | popup/popup.js:74 | deletion keeps the set duplicate-free |
| Popup.WithoutAbsent | popup/popup.js:74 | deleting an absent member changes nothing |
| Popup.WithoutIdempotent | popup/popup.js:74 | deleting twice equals deleting once |
| Popup.WithoutAppend | popup/popup.js:74 | deletion distributes over concatenation |
| Popup.SiteDisabledAfterProperties | popup/popup.js:70-76 | the origin is listed iff the box is checked; other values are kept in order, with no duplicates; a new origin is appended last |
| Popup.NewSet | popup/popup.js:72 | the insertion loop builds exactly the first-occurrence list |
| Popup.TabOrigin | popup/popup.js:28-34 | the parsed origin of the tab's URL, `''` without a URL or when it does not parse; the same site key the service worker's gate computes |
| Popup.LoadSettings | popup/popup.js:36-53 | the form shows the merged record at the active tab's origin, or nothing where the code throws |
| Popup.AppliedFields | popup/popup.js:59-66 | the switches, size (default medium) and parsed lists are written; other keys kept |
| Popup.FiveUpdates | popup/popup.js:59-66 | writing the five form keys sets exactly those keys to the given values and keeps every other key and `siteDisabled` |
| Popup.FormKeysAreDefaults | popup/popup.js:59-75 | every key the form writes has a default |
| Popup.AppliedKeys | popup/popup.js:59-66 | over a record that already has the form's keys, applying the form adds no key and keeps every other value |
| Popup.SiteDisabledUpdate | popup/popup.js:70-76 | writing `siteDisabled` adds no key, sets that value and keeps the five form fields and every other key |
| Popup.SaveFails | popup/popup.js:55-78 | the save fails exactly when an origin exists and the stored `siteDisabled` cannot seed a set |
| Popup.SavedFields | popup/popup.js:55-78 | a successful save writes the two switches, the size (default medium) and the parsed lists; without an origin `siteDisabled` stays as merged |
| Popup.SavedKeys | popup/popup.js:55-78 | a successful save has the keys of the merged record and keeps every stored key the form does not write |
| Popup.LoadRecord | popup/popup.js:36-53 | a record holding given switches, size and string lists loads as a form showing them, with the site box checked iff the origin is listed |
| Popup.LoadedShows | popup/popup.js:36-53 | loading shows the two switches, the size, the formatted lists and whether the origin is disabled |
| Popup.DisabledSiteMeetsWorkerGate | popup/popup.js:55-82 | after a save at a tab's URL, the stored disabled-sites list holds the worker's key for that URL exactly when the box was ticked, and a ticked box makes the worker's gate refuse it |
| Popup.SaveThenLoad | popup/popup.js:36-82 | after a save, loading shows the same switches, size, lists (up to parsing) and site switch |
| Popup.SavedRecord | popup/popup.js:55-78 | a saved record has every default key |
| Popup.UnionSingleton | popup/popup.js:78 | writing one key equals updating it |
| Popup.SaveSettings | popup/popup.js:55-82 | the store holds the saved record iff the save succeeds; otherwise nothing changes; the session area is untouched |
| SpaRouterHook.AnnouncedUrl | content/spa_router_hook.js:15 | the BEFORE event announces the URL argument when non-empty, else the current location |
| SpaRouterHook.AfterCountAppend | content/spa_router_hook.js:7-9 | the AFTER count adds up over concatenation |
| SpaRouterHook.ReplayAfters | content/spa_router_hook.js:11-29 | each navigation dispatches exactly one AFTER except a call whose original method throws, which dispatches none; the last event goes out at the final location and is an AFTER unless the last call threw |
| SpaRouterHook.EmittedAfter | content/spa_router_hook.js:11-29 | one navigation dispatches one AFTER, last, announcing where it leaves the page; a throwing call dispatches only its BEFORE |
| SpaRouterHook.ReplayPairs | content/spa_router_hook.js:11-21 | when no original call throws, each BEFORE is followed at once by the AFTER of the same call, with the same old URL and type |
| SpaRouterHook.ReplayUnanswered | content/spa_router_hook.js:15-16 | when some original call throws, its BEFORE is left without the matching AFTER |
| SpaRouterHook.ReplayContinues | content/spa_router_hook.js:14 | each BEFORE starts where the previous navigation left the page |
| SpaRouterHook.ReplayPopStates | content/spa_router_hook.js:26-29 | `popstate` events are AFTER events with an empty old URL |
| SpaRouterHook.ReplayWellFormed | content/spa_router_hook.js:11-29 | for any sequence of navigations: BEFOREs are all answered by their AFTERs iff no call threw; each BEFORE starts where the previous navigation left the page; the AFTER count is the number of calls that did not throw; the trace ends at the final location; `popstate` events are AFTERs with an empty old URL |
| SpaRouterHook.WrappedCallEvents | content/spa_router_hook.js:14-18 | a wrapped call dispatches one BEFORE and one AFTER, both from the old location and with the method name as type |
| SpaRouterHook.ThrownCallEvents | content/spa_router_hook.js:14-16 | a call whose original method throws dispatches its BEFORE alone, from the old location, and the location stays |
| SpaRouterHook.HistoryHook.constructor | content/spa_router_hook.js:4-5 | the hook starts at the given location with no events |
| SpaRouterHook.HistoryHook.CallWrapped | content/spa_router_hook.js:11-21 | the wrapper returns the original method's result or rethrows its exception; on return the location is the new one and BEFORE then AFTER are appended; on a throw the location stays and only the BEFORE is appended |
| SpaRouterHook.HistoryHook.OnPopState | content/spa_router_hook.js:26-29 | the location moves and one AFTER event is appended |

## Left out

- ServiceWorker.IsAllowedBySettings: its contract gives the full decision only when all three
  lists are arrays. For string-valued lists the body follows `String.prototype.includes`, but
  the contract does not describe that case.
- LengthPositive: an object's `length` is compared as a number only when it is a number or a
  boolean. A string such as `"5"` or an array such as `[5]` would be converted to a positive
  number by JavaScript's `>`, so `IsAllowedBySettings` would go on to call `includes` on the
  object and throw; the model treats such a list as empty and admits the site.
- LoadSettings: the size radio is chosen only for a string `overlaySize` naming one of the three
  sizes. JavaScript interpolates any value into the selector, so `["small"]` would also choose
  the small radio, and a value containing `"` or `\` can make `querySelector` throw; neither
  case is modelled.
- History: a stored `snapshots:<tabId>` value counts as a history only when it holds snapshot
  records. `storeSnapshot` would also keep the items of any other array stored there.
- ServiceWorker.HandleMessage: for a capture request it states only that a response is sent;
  `ServiceWorker.HandleCapture` holds the details.
- FormTracker.FindField: its own contract says only that a found element belongs to the
  document. The resolution order is stated by the `FindFieldBy…` lemmas.
- Asynchrony and concurrency are not modelled, with one exception. Every `await` on storage or a
  message is a sequential step, so two interleaved `storeSnapshot` calls cannot lose an update
  here. The exception is the save the form tracker's BEFORE listener starts: it resumes only after
  the navigation and the AFTER listener have run, and `FormTracker.Tracker.NavigateAsWritten`
  models that order.
- Browser facilities are parameters, never modelled:
  - `new URL` parsing, query encoding, `CSS.escape` and `querySelector`;
  - `captureVisibleTab`, `Date.now` and `chrome.tabs.query`;
  - the message channel.
- `String.prototype.toLowerCase` covers ASCII letters only. The two sensitive-name regular
  expressions become case-insensitive substring tests of their alternatives.
- `localeCompare` in the parameter sort becomes code-unit lexicographic order.
- JSON values are integers, strings, booleans, `null`/`undefined`, arrays and objects. There
  are no floating-point numbers. `undefined` and a missing property are the same thing.
  A non-numeric `expiresAt` never counts as expired.
- A stored `settings` value that is not a plain object contributes no keys.
- Look-ups by name ignore `Object.prototype` properties. Examples are the `DEFAULT_SIZES`
  lookup and an array `overlaySize` converted to a property key.
- Message fields (`url`, `title`, `currentUrl`) arrive already defaulted to `''`, and a settings
  update's `payload` arrives as an object (`{}` when missing). A truthy non-object payload, such
  as a string, whose indices `Object.assign` would copy, is not represented.
- The form tracker's restore loop works on a sequence of element records, and each entry is
  resolved against the document as it stands.
- A select's `value` is not coupled to its selected option.
- Radio-group exclusivity (checking one radio unchecks the others) is not enforced.
- `cssPath` is modelled for elements whose ancestor walk reaches `body` or an id (the `Walkable`
  precondition). For any other element the walk reaches an element without a parent, and reading
  `parentElement.children` there throws. A save that meets such a savable field is modelled as
  throwing: `SavedFields` is `None` and nothing is written.
- A saved record's scroll is restored only when both coordinates are numbers. Other values are
  not represented.
- `formatList` does not render arrays or objects nested inside a list. Such an item makes the
  model report the load as failed.
- The partial form updates that `loadSettings` makes before a throw are not kept. A throw is
  modelled as no form at all.
- `Set` membership compares values structurally. JavaScript compares objects and arrays by
  identity, so the two differ only for non-string items.
- The popup's size radio group is assumed to offer exactly small, medium and large. A stored size
  matching no radio leaves the selection unchanged.
- The popup's "Saved." status text and its clearing timer are not modelled.
- Overlay rendering is not modelled: the shadow DOM, the styles, and the drag and resize
  geometry. The pointer logic is kept only as the drag flag and the snap decision.
- The overlay's Back button, Escape key and Enter key are not modelled. Their handlers stack like
  the pin handler's, but they add nothing to the state modelled here.
- The 50 ms delays before the restored scroll (content/form_tracker.js:180-182) and before the
  after-navigation restore (:216) are not modelled. `Tracker.RestoreFormState` returns the
  saved scroll offsets for the caller, `Tracker.OnNavigated` restores at once, and
  `Tracker.NavigateAsWritten` keeps only their order.
- The page-world hook's `dispatchEvent` is an append to an event log. The event listeners it reaches
  are not modelled.

## Findings

| source | as written | input that shows it | evidently intended | confidence | as-written member | corrected member |
|---|---|---|---|---|---|---|
| content/overlay_ui.js:281-285 | every successful overlay request calls `setupInteractions` on the host, even a reused one, so pin (and back) listeners stack | load a page, then navigate in-app without closing the overlay, then click Pin once: two handlers flip `isPinned` twice and the overlay stays unpinned | attach the listeners once, when the host is created, so one click pins | not executed | OverlayUi.StackedPinListeners | OverlayUi.CoherentPreserved |
| content/overlay_ui.js:41-44 | `isPinned` lives in the script (:18) and survives `host.remove()`, but a rebuilt host (:41-44) always shows the label "Pin", hard-coded at :133 | click Pin, close the overlay, navigate: the overlay is pinned but its button says "Pin" | a new host's label reflects the current pin state | not executed | OverlayUi.ReopenedWhilePinned | OverlayUi.CoherentPreserved |
| content/form_tracker.js:85-93 | `findField` resolves an id-less record by name (preferring the saved type) before its selector, so every id-less field of one name and type resolves to the first of them | `<body>` with two id-less radios named `c`, the first checked: save, then restore into the same page; both records set the first radio, the second record's `checked: false` last, so neither radio ends up checked | restoring a page's own save reproduces it; this holds when each savable field's record resolves back to that field, for instance when fields carry distinct ids | not executed | FormTracker.SameNameRadiosLoseCheck | FormTracker.RestoreSavedRoundTrip |
| content/form_tracker.js:210-216 | the BEFORE listener calls `saveFormState`, which suspends at `await isEnabledForSite()` (:127) before reading `currentKey` and `location.href` (:134, :141); the history call and the AFTER listener's `currentKey = normalizeKey(location.href)` (:215) run first | navigate in-app from `/p` to `/q` after typing into a field of `/p`: the page left is saved as `forms:<key of /q>` with url `/q`, its own entry is not refreshed, and the restore 50 ms later (:216) writes `/p`'s values into `/q` | save the page being left under its own key and location before the navigation proceeds | not executed | FormTracker.BeforeNavigationSaveMisplaced | FormTracker.Tracker.Navigate |
