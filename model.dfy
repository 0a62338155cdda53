/** The entities the extension stores and passes around: page snapshots, form fields and
    their saved state, parsed URLs, and the keys and values of the storage areas. */
module Model {
  import opened Wrappers
  import opened Json

  /** A browser tab identifier as the platform supplies it. */
  type TabId = int

  /** One captured page: `{url, title, ts, dataUrl, error}`. */
  datatype Snapshot = Snapshot(
    url: string,
    title: string,
    ts: int,
    dataUrl: Option<string>,
    error: Option<string>)

  /** One `<option>` of a `<select>`. */
  datatype SelectOption = SelectOption(value: string, selected: bool)

  /** One element of the page, as the properties the code reads from it.
      `tagName` is the platform's upper-case tag name, `inputType` is `el.type || ''`,
      `parent` is the position of `parentElement` in the document (none for the root),
      `form` is the position of the owning form in `document.forms`. */
  datatype Element = Element(
    tagName: string,
    inputType: string,
    id: string,
    name: string,
    autocomplete: string,
    value: string,
    checked: bool,
    multiple: bool,
    options: seq<SelectOption>,
    parent: Option<nat>,
    form: Option<nat>)

  /** The identity of a field, in order of preference: id, then name, then selector. */
  datatype FieldDescriptor =
    | ById(value: string)
    | ByName(value: string)
    | BySelector(value: string)

  /** One field's saved state. Exactly one of the three payload slots is filled. */
  datatype FieldSnapshot = FieldSnapshot(
    tag: string,
    inputType: string,
    key: FieldDescriptor,
    id: string,
    name: string,
    selector: string,
    value: Option<string>,
    checked: Option<bool>,
    selectedOptions: Option<seq<string>>)

  /** The saved state of one page, stored under `forms:<page key>`. */
  datatype PageFormState = PageFormState(
    url: string,
    ts: int,
    scrollX: int,
    scrollY: int,
    fields: seq<FieldSnapshot>)

  /** One query parameter `(key, value)`, already decoded. */
  type Param = (string, string)

  /** What `new URL(s)` yields: origin, path, the decoded query pairs in order, and the hash. */
  datatype ParsedUrl = ParsedUrl(origin: string, pathname: string, query: seq<Param>, hash: string)

  /** The platform URL parser; `None` where `new URL(s)` throws. */
  type UrlParser = string -> Option<ParsedUrl>

  /** The storage keys the extension writes, by their shape: `settings`, `snapshots:<tabId>`,
      `forms:<page key>`, and any other key a caller of the storage module uses. */
  datatype Key =
    | SettingsKey
    | SnapshotsKey(tab: TabId)
    | FormsKey(page: string)
    | OtherKey(name: string)

  /** A stored value: an arbitrary JSON value, a snapshot list or a page's form state. */
  datatype Value =
    | Json(v: Js)
    | Snapshots(list: seq<Snapshot>)
    | FormState(state: PageFormState)

  /** JavaScript truthiness of a stored value (arrays and objects are truthy). */
  predicate ValueTruthy(v: Value) {
    !v.Json? || Truthy(v.v)
  }

  /** The stored `settings` object, as `data.settings || {}` reads it: only an object contributes keys. */
  function StoredSettings(area: map<Key, Value>): (s: map<string, Js>)
    ensures SettingsKey !in area ==> s == map[]
  {
    if SettingsKey in area && area[SettingsKey].Json? && area[SettingsKey].v.Obj?
    then area[SettingsKey].v.fields
    else map[]
  }
}
