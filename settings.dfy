/** The settings record and its defaults. A settings object is a map from property names to
    values; `Object.assign({}, a, b)` is the map union `a + b`, in which `b` wins. */
module Settings {
  import opened Json

  /** `DEFAULT_SETTINGS`. */
  const Defaults: map<string, Js> := map[
    "enabled" := Bool(true),
    "privacyMode" := Bool(false),
    "overlaySize" := Str("medium"),
    "allowlist" := Arr([]),
    "blocklist" := Arr([]),
    "siteDisabled" := Arr([])
  ]

  /** `Object.assign({}, base, overlay)`: every key of either, the overlay's value winning. */
  function Assign(base: map<string, Js>, overlay: map<string, Js>): (r: map<string, Js>)
    ensures r.Keys == base.Keys + overlay.Keys
    ensures forall k :: k in overlay ==> r[k] == overlay[k]
    ensures forall k :: k in base && k !in overlay ==> r[k] == base[k]
  {
    base + overlay
  }

  /** The defaults overlaid by the stored keys. */
  function WithDefaults(stored: map<string, Js>): (r: map<string, Js>)
    ensures r.Keys == Defaults.Keys + stored.Keys
    ensures forall k :: k in stored ==> r[k] == stored[k]
    ensures forall k :: k in Defaults && k !in stored ==> r[k] == Defaults[k]
  {
    Assign(Defaults, stored)
  }

  /** A record that already has every default key is its own merge with the defaults. */
  lemma WithDefaultsOfComplete(m: map<string, Js>)
    requires Defaults.Keys <= m.Keys
    ensures WithDefaults(m) == m
  {
    var r := WithDefaults(m);
    assert r.Keys == m.Keys;
    forall k | k in m ensures r[k] == m[k] { }
  }

  /** Merging the defaults again changes nothing: a record written back by an update reads
      back as exactly that record. */
  lemma WithDefaultsIdempotent(stored: map<string, Js>, payload: map<string, Js>)
    ensures WithDefaults(WithDefaults(stored)) == WithDefaults(stored)
    ensures WithDefaults(Assign(WithDefaults(stored), payload)) == Assign(WithDefaults(stored), payload)
  {
    var m := WithDefaults(stored);
    assert WithDefaults(m) == m;
    var u := Assign(m, payload);
    assert WithDefaults(u) == u;
  }
}
