/** The content-script form tracker: which fields may be saved, how a field is saved and found
    again, the content-script site gate, saving and restoring a page's fields under its page key,
    and the trailing-edge debounce of saves. */
module FormTracker {
  import opened Wrappers
  import opened Text
  import opened Json
  import opened Model
  import opened Storage
  import opened DomSelectors
  import UrlNormalize
  import ServiceWorker

  /** The alternatives of `SENSITIVE_NAME_RE`. */
  const SensitiveNameParts: seq<string> := ["password", "pass", "card", "cvc", "cvv", "otp"]
  /** The alternatives of `SENSITIVE_AUTOCOMPLETE_RE`. */
  const SensitiveAutocompleteParts: seq<string> := ["cc-", "cc_"]
  /** The debounce delay of `scheduleSave`, in milliseconds. */
  const DebounceMs: int := 400

  // ---------------------------------------------------------------- classification

  /** `/(a|b|...)/i.test(s)`: one alternative occurs in `s`, ignoring case. */
  predicate MatchesAny(s: string, alternatives: seq<string>) {
    exists i :: 0 <= i < |alternatives| && ContainsIgnoringCase(s, alternatives[i])
  }

  /** `isSensitive(el)`, check by check. */
  predicate IsSensitive(el: Element) {
    var t := Lower(el.inputType);
    if t == "password" || t == "file" then true
    else if MatchesAny(el.id, SensitiveNameParts) || MatchesAny(el.name, SensitiveNameParts) then true
    else if MatchesAny(el.autocomplete, SensitiveAutocompleteParts) then true
    else ContainsIgnoringCase(el.autocomplete, "cc-")
  }

  /** A field is sensitive exactly when its type is a password or file type, its id or name
      mentions a credential word, or its autocomplete hint names a payment card; the separate
      `cc-` test of the autocomplete hint adds nothing. */
  lemma SensitiveCases(el: Element)
    ensures IsSensitive(el) <==>
              Lower(el.inputType) == "password" || Lower(el.inputType) == "file"
              || MatchesAny(el.id, SensitiveNameParts) || MatchesAny(el.name, SensitiveNameParts)
              || MatchesAny(el.autocomplete, SensitiveAutocompleteParts)
  {
    if ContainsIgnoringCase(el.autocomplete, "cc-") {
      assert ContainsIgnoringCase(el.autocomplete, SensitiveAutocompleteParts[0]);
    }
  }

  lemma LowerIdempotent(s: string)
    ensures Lower(Lower(s)) == Lower(s)
  {
  }

  /** The classification ignores case: lower-casing the type, id, name and autocomplete hint
      does not change it. */
  lemma SensitiveIgnoresCase(el: Element)
    ensures IsSensitive(el.(inputType := Lower(el.inputType), id := Lower(el.id),
                            name := Lower(el.name), autocomplete := Lower(el.autocomplete)))
            == IsSensitive(el)
  {
    LowerIdempotent(el.inputType);
    LowerIdempotent(el.id);
    LowerIdempotent(el.name);
    LowerIdempotent(el.autocomplete);
  }

  /** `isSavableField(el)`: an element that exists, has a tag name, is an input, a text area or a
      select, and is not sensitive. */
  predicate IsSavable(el: Option<Element>): (r: bool)
    ensures r <==> el.Some? && Lower(el.value.tagName) in {"input", "textarea", "select"} && !IsSensitive(el.value)
    ensures r ==> Lower(el.value.inputType) != "password" && Lower(el.value.inputType) != "file"
  {
    if el.None? then false
    else
      SensitiveCases(el.value);
      el.value.tagName != "" &&
      var tag := Lower(el.value.tagName);
      (tag == "input" || tag == "textarea" || tag == "select") && !IsSensitive(el.value)
  }

  // ---------------------------------------------------------------- serialisation

  /** The positions of the selected options among the first `upto`, in option order. */
  function SelectedPositions(opts: seq<SelectOption>, upto: nat): (r: seq<nat>)
    requires upto <= |opts|
    ensures forall i :: 0 <= i < |r| ==> r[i] < upto && opts[r[i]].selected
    ensures forall i, j :: 0 <= i < j < |r| ==> r[i] < r[j]
    ensures forall m :: 0 <= m < upto && opts[m].selected ==> m in r
    decreases upto
  {
    if upto == 0 then []
    else SelectedPositions(opts, upto - 1) + (if opts[upto - 1].selected then [upto - 1] else [])
  }

  /** `Array.from(el.selectedOptions).map(o => o.value)`: the values of the selected options, in
      option order. */
  function SelectedValues(opts: seq<SelectOption>): (r: seq<string>)
    ensures var p := SelectedPositions(opts, |opts|);
            |r| == |p| && forall k :: 0 <= k < |r| ==> r[k] == opts[p[k]].value
    ensures forall v :: v in r <==> exists i :: 0 <= i < |opts| && opts[i].selected && opts[i].value == v
  {
    var p := SelectedPositions(opts, |opts|);
    var r := seq(|p|, k requires 0 <= k < |p| => opts[p[k]].value);
    ValuesAtSelected(opts, p, r);
    r
  }

  /** Reading the values at the selected positions yields exactly the selected options' values. */
  lemma ValuesAtSelected(opts: seq<SelectOption>, p: seq<nat>, r: seq<string>)
    requires p == SelectedPositions(opts, |opts|)
    requires |r| == |p| && forall k :: 0 <= k < |r| ==> r[k] == opts[p[k]].value
    ensures forall v :: v in r <==> exists i :: 0 <= i < |opts| && opts[i].selected && opts[i].value == v
  {
    forall v | v in r ensures exists i :: 0 <= i < |opts| && opts[i].selected && opts[i].value == v {
      var k :| 0 <= k < |r| && r[k] == v;
      assert opts[p[k]].selected && opts[p[k]].value == v;
    }
    forall i | 0 <= i < |opts| && opts[i].selected ensures opts[i].value in r {
      var k :| 0 <= k < |p| && p[k] == i;
      assert r[k] == opts[i].value;
    }
  }

  /** The record `serializeField` builds for element `n`. */
  function Serialized(elems: seq<Element>, body: nat, n: nat, escape: string -> string): FieldSnapshot
    requires PathDefined(elems, body, n)
  {
    var el := elems[n];
    var tag := Lower(el.tagName);
    var t := Lower(el.inputType);
    var base := FieldSnapshot(tag, t, FieldKey(elems, body, n, escape), el.id, el.name,
                              CssPathString(elems, body, Some(n), escape), None, None, None);
    if tag == "input" then
      if t == "checkbox" || t == "radio" then base.(checked := Some(el.checked))
      else base.(value := Some(el.value))
    else if tag == "textarea" then base.(value := Some(el.value))
    else if tag == "select" then
      if el.multiple then base.(selectedOptions := Some(SelectedValues(el.options)))
      else base.(value := Some(el.value))
    else base
  }

  /** `serializeField(el)`: start from a record with every payload slot empty and fill the one
      slot the element's kind calls for. */
  method SerializeField(elems: seq<Element>, body: nat, n: nat, escape: string -> string) returns (data: FieldSnapshot)
    requires PathDefined(elems, body, n)
    ensures data == Serialized(elems, body, n, escape)
  {
    var el := elems[n];
    var tag := Lower(el.tagName);
    var t := Lower(el.inputType);
    var key := FieldKey(elems, body, n, escape);
    var selector := CssPath(elems, body, Some(n), escape);
    data := FieldSnapshot(tag, t, key, el.id, el.name, selector, None, None, None);
    if tag == "input" {
      if t == "checkbox" || t == "radio" {
        data := data.(checked := Some(el.checked));
      } else {
        data := data.(value := Some(el.value));
      }
    } else if tag == "textarea" {
      data := data.(value := Some(el.value));
    } else if tag == "select" {
      if el.multiple {
        data := data.(selectedOptions := Some(SelectedValues(el.options)));
      } else {
        data := data.(value := Some(el.value));
      }
    }
  }

  /** How many payload slots a record fills. */
  function SlotCount(d: FieldSnapshot): nat {
    (if d.value.Some? then 1 else 0) + (if d.checked.Some? then 1 else 0)
      + (if d.selectedOptions.Some? then 1 else 0)
  }

  /** A savable field fills exactly one slot: `checked` for a checkbox or radio input,
      `selectedOptions` for a multiple select, `value` otherwise; the record also carries the
      field's identity. */
  lemma SerializedFillsOneSlot(elems: seq<Element>, body: nat, n: nat, escape: string -> string)
    requires PathDefined(elems, body, n) && IsSavable(Some(elems[n]))
    ensures var d := Serialized(elems, body, n, escape);
            var tag := Lower(elems[n].tagName);
            var t := Lower(elems[n].inputType);
            && SlotCount(d) == 1
            && (d.checked.Some? <==> tag == "input" && (t == "checkbox" || t == "radio"))
            && (d.selectedOptions.Some? <==> tag == "select" && elems[n].multiple)
            && d.key == FieldKey(elems, body, n, escape)
            && d.selector == CssPathString(elems, body, Some(n), escape)
  {
  }

  // ---------------------------------------------------------------- finding a field again

  /** What `document.querySelector(selector)` does: the first match, no match, or a thrown
      syntax error. */
  datatype QueryResult = Match(index: nat) | NoMatch | SyntaxError

  /** `document.getElementById(id)`: the first element, in document order, with that id. */
  function FirstWithId(elems: seq<Element>, id: string, from: nat): (r: Option<nat>)
    requires from <= |elems|
    ensures r.Some? ==> from <= r.value < |elems| && elems[r.value].id == id
    ensures r.Some? ==> forall j :: from <= j < r.value ==> elems[j].id != id
    ensures r.None? ==> forall j :: from <= j < |elems| ==> elems[j].id != id
    decreases |elems| - from
  {
    if from == |elems| then None
    else if elems[from].id == id then Some(from)
    else FirstWithId(elems, id, from + 1)
  }

  /** `document.getElementsByName(name)`: the elements with that name among the first `upto`,
      in document order. */
  function Named(elems: seq<Element>, name: string, upto: nat): (r: seq<nat>)
    requires upto <= |elems|
    ensures forall i :: 0 <= i < |r| ==> r[i] < upto && elems[r[i]].name == name
    ensures forall i, j :: 0 <= i < j < |r| ==> r[i] < r[j]
    ensures forall m :: 0 <= m < upto && elems[m].name == name ==> m in r
    decreases upto
  {
    if upto == 0 then []
    else Named(elems, name, upto - 1) + (if elems[upto - 1].name == name then [upto - 1] else [])
  }

  /** `el.type && el.type.toLowerCase() === entryType`, with `entryType` non-empty. */
  predicate TypeMatches(el: Element, entryType: string) {
    entryType != "" && el.inputType != "" && Lower(el.inputType) == entryType
  }

  /** The first element of `list` whose type matches. */
  function FirstOfType(elems: seq<Element>, list: seq<nat>, entryType: string): (r: Option<nat>)
    requires forall i :: 0 <= i < |list| ==> list[i] < |elems|
    ensures r.Some? ==> exists i :: 0 <= i < |list| && list[i] == r.value && TypeMatches(elems[r.value], entryType)
                          && forall j :: 0 <= j < i ==> !TypeMatches(elems[list[j]], entryType)
    ensures r.None? ==> forall i :: 0 <= i < |list| ==> !TypeMatches(elems[list[i]], entryType)
    decreases |list|
  {
    if list == [] then None
    else if TypeMatches(elems[list[0]], entryType) then Some(list[0])
    else
      var r := FirstOfType(elems, list[1..], entryType);
      if r.Some? then
        var i :| 0 <= i < |list[1..]| && list[1..][i] == r.value && TypeMatches(elems[r.value], entryType)
                 && forall j :: 0 <= j < i ==> !TypeMatches(elems[list[1..][j]], entryType);
        assert list[i + 1] == r.value;
        assert forall j :: 0 <= j < i + 1 ==> !TypeMatches(elems[list[j]], entryType) by {
          forall j | 0 <= j < i + 1 ensures !TypeMatches(elems[list[j]], entryType) {
            if j > 0 {
              assert list[j] == list[1..][j - 1];
            }
          }
        }
        r
      else
        assert forall i :: 1 <= i < |list| ==> list[i] == list[1..][i - 1];
        r
  }

  /** The element a selector query yields, if any; an index outside the document is no element. */
  function QueryHit(elems: seq<Element>, q: QueryResult): (r: Option<nat>)
    ensures r.Some? ==> r.value < |elems|
  {
    if q.Match? && q.index < |elems| then Some(q.index) else None
  }

  /** `findField(entry)`: by id, then by name (preferring a same-typed element), then by selector,
      with a failing selector swallowed; otherwise nothing. */
  function FindField(elems: seq<Element>, entry: FieldSnapshot, query: string -> QueryResult): (r: Option<nat>)
    ensures r.Some? ==> r.value < |elems|
  {
    var byId := if entry.id != "" then FirstWithId(elems, entry.id, 0) else None;
    if byId.Some? then byId
    else
      var list := if entry.name != "" then Named(elems, entry.name, |elems|) else [];
      if |list| > 0 then
        match FirstOfType(elems, list, entry.inputType)
        case Some(i) => Some(i)
        case None => Some(list[0])
      else if entry.selector != "" then QueryHit(elems, query(entry.selector))
      else None
  }

  /** An id that occurs wins and yields its first element. */
  lemma FindFieldById(elems: seq<Element>, entry: FieldSnapshot, query: string -> QueryResult, j: nat)
    requires entry.id != "" && j < |elems| && elems[j].id == entry.id
    ensures var r := FindField(elems, entry, query);
            r.Some? && elems[r.value].id == entry.id && forall k :: 0 <= k < r.value ==> elems[k].id != entry.id
  {
  }

  /** Otherwise a name that occurs yields an element of that name: the first one whose type
      matches the saved type if there is one, else the first of the name. The selector is not
      consulted. */
  lemma FindFieldByName(elems: seq<Element>, entry: FieldSnapshot, query: string -> QueryResult, j: nat)
    requires entry.id == "" || forall k :: 0 <= k < |elems| ==> elems[k].id != entry.id
    requires entry.name != "" && j < |elems| && elems[j].name == entry.name
    ensures var r := FindField(elems, entry, query);
            && r.Some? && elems[r.value].name == entry.name
            && (TypeMatches(elems[r.value], entry.inputType) ==>
                  forall k :: 0 <= k < r.value && elems[k].name == entry.name ==> !TypeMatches(elems[k], entry.inputType))
            && (!TypeMatches(elems[r.value], entry.inputType) ==>
                  (forall k :: 0 <= k < |elems| && elems[k].name == entry.name ==> !TypeMatches(elems[k], entry.inputType))
                  && forall k :: 0 <= k < r.value ==> elems[k].name != entry.name)
  {
    var r := FindField(elems, entry, query);
    var list := Named(elems, entry.name, |elems|);
    assert j in list;
    var ft := FirstOfType(elems, list, entry.inputType);
    var byId := if entry.id != "" then FirstWithId(elems, entry.id, 0) else None;
    assert byId.None?;
    assert r == if ft.Some? then ft else Some(list[0]);
    FirstOfTypeAmongNamed(elems, list, entry.name, entry.inputType);
  }

  /** The same-typed choice among the elements of one name, in document order. */
  lemma FirstOfTypeAmongNamed(elems: seq<Element>, list: seq<nat>, name: string, entryType: string)
    requires list != []
    requires forall i :: 0 <= i < |list| ==> list[i] < |elems| && elems[list[i]].name == name
    requires forall i, j :: 0 <= i < j < |list| ==> list[i] < list[j]
    requires forall m :: 0 <= m < |elems| && elems[m].name == name ==> m in list
    ensures var ft := FirstOfType(elems, list, entryType);
            && (ft.Some? ==> forall k :: 0 <= k < ft.value && elems[k].name == name ==> !TypeMatches(elems[k], entryType))
            && (ft.None? ==> forall k :: 0 <= k < |elems| && elems[k].name == name ==> !TypeMatches(elems[k], entryType))
            && (ft.None? ==> forall k :: 0 <= k < list[0] ==> elems[k].name != name)
  {
    var ft := FirstOfType(elems, list, entryType);
    if ft.Some? {
      var i :| 0 <= i < |list| && list[i] == ft.value && TypeMatches(elems[ft.value], entryType)
               && forall k :: 0 <= k < i ==> !TypeMatches(elems[list[k]], entryType);
      NoMatchBefore(elems, list, name, entryType, i);
    } else {
      forall k | 0 <= k < |elems| && elems[k].name == name
        ensures !TypeMatches(elems[k], entryType)
      {
        assert k in list;
      }
      forall k | 0 <= k < list[0] ensures elems[k].name != name {
        assert elems[k].name == name ==> k in list;
      }
    }
  }

  /** In a sorted list of all elements of one name, no element of that name before the `i`-th
      entry matches when none of the first `i` entries does. */
  lemma NoMatchBefore(elems: seq<Element>, list: seq<nat>, name: string, entryType: string, i: nat)
    requires forall i :: 0 <= i < |list| ==> list[i] < |elems|
    requires forall i, j :: 0 <= i < j < |list| ==> list[i] < list[j]
    requires forall m :: 0 <= m < |elems| && elems[m].name == name ==> m in list
    requires i < |list| && forall k :: 0 <= k < i ==> !TypeMatches(elems[list[k]], entryType)
    ensures forall k :: 0 <= k < list[i] && elems[k].name == name ==> !TypeMatches(elems[k], entryType)
  {
    forall k | 0 <= k < list[i] && elems[k].name == name
      ensures !TypeMatches(elems[k], entryType)
    {
      assert k in list;
      var m :| 0 <= m < |list| && list[m] == k;
      assert m < i;
    }
  }

  /** Only when neither the id nor the name occurs is the selector consulted, and a selector that
      fails or matches nothing yields nothing. */
  lemma FindFieldBySelector(elems: seq<Element>, entry: FieldSnapshot, query: string -> QueryResult)
    requires entry.id == "" || forall k :: 0 <= k < |elems| ==> elems[k].id != entry.id
    requires entry.name == "" || forall k :: 0 <= k < |elems| ==> elems[k].name != entry.name
    ensures FindField(elems, entry, query)
              == if entry.selector != "" then QueryHit(elems, query(entry.selector)) else None
  {
  }

  /** Id-less radio buttons sharing a name all resolve to the first radio of that name, whatever
      selector was saved with them. */
  lemma RadioGroupResolvesToFirst(elems: seq<Element>, entry: FieldSnapshot, query: string -> QueryResult, first: nat)
    requires entry.id == "" && entry.name != "" && entry.inputType == "radio"
    requires first < |elems| && elems[first].name == entry.name && Lower(elems[first].inputType) == "radio"
    requires forall j :: 0 <= j < first ==> elems[j].name != entry.name
    ensures FindField(elems, entry, query) == Some(first)
  {
    FindFieldByName(elems, entry, query, first);
    assert elems[first].inputType != "";
    assert TypeMatches(elems[first], entry.inputType);
  }

  // ---------------------------------------------------------------- restoring a field

  /** Select exactly the options whose value is in the saved list. */
  function Reselect(opts: seq<SelectOption>, values: seq<string>): (r: seq<SelectOption>)
    ensures |r| == |opts|
    ensures forall i :: 0 <= i < |opts| ==> r[i].value == opts[i].value && (r[i].selected <==> opts[i].value in values)
  {
    seq(|opts|, i requires 0 <= i < |opts| => opts[i].(selected := opts[i].value in values))
  }

  /** The inner loop of `restoreFormState` over `el.options`. */
  method ReselectOptions(opts: seq<SelectOption>, values: seq<string>) returns (r: seq<SelectOption>)
    ensures r == Reselect(opts, values)
  {
    r := opts;
    var i := 0;
    while i < |r|
      invariant 0 <= i <= |r| == |opts|
      invariant forall j :: 0 <= j < i ==> r[j] == opts[j].(selected := opts[j].value in values)
      invariant forall j :: i <= j < |r| ==> r[j] == opts[j]
    {
      r := r[i := r[i].(selected := r[i].value in values)];
      i := i + 1;
    }
  }

  /** The assignment `restoreFormState` makes to a resolved, savable element: `checked` for a
      checkbox or radio, the option selection for a multiple select with a saved list, otherwise
      the value when a string value was saved. */
  function ApplyEntry(el: Element, entry: FieldSnapshot): Element {
    var tag := Lower(el.tagName);
    var t := Lower(el.inputType);
    if tag == "input" then
      if t == "checkbox" || t == "radio" then el.(checked := entry.checked == Some(true))
      else if entry.value.Some? then el.(value := entry.value.value)
      else el
    else if tag == "textarea" then
      if entry.value.Some? then el.(value := entry.value.value) else el
    else if tag == "select" then
      if el.multiple && entry.selectedOptions.Some? then el.(options := Reselect(el.options, entry.selectedOptions.value))
      else if entry.value.Some? then el.(value := entry.value.value)
      else el
    else el
  }

  /** The assignments of one loop iteration, made to the resolved element. */
  method AssignEntry(el: Element, entry: FieldSnapshot) returns (r: Element)
    ensures r == ApplyEntry(el, entry)
  {
    r := el;
    var tag := Lower(el.tagName);
    var t := Lower(el.inputType);
    if tag == "input" {
      if t == "checkbox" || t == "radio" {
        r := r.(checked := entry.checked == Some(true));
      } else if entry.value.Some? {
        r := r.(value := entry.value.value);
      }
    } else if tag == "textarea" {
      if entry.value.Some? {
        r := r.(value := entry.value.value);
      }
    } else if tag == "select" {
      if el.multiple && entry.selectedOptions.Some? {
        var opts := ReselectOptions(el.options, entry.selectedOptions.value);
        r := r.(options := opts);
      } else if entry.value.Some? {
        r := r.(value := entry.value.value);
      }
    }
  }

  /** The properties a restore never assigns. */
  predicate SameIdentity(a: Element, b: Element) {
    a.tagName == b.tagName && a.inputType == b.inputType && a.id == b.id && a.name == b.name
    && a.autocomplete == b.autocomplete && a.multiple == b.multiple && a.parent == b.parent
    && a.form == b.form && |a.options| == |b.options|
    && forall i :: 0 <= i < |a.options| ==> a.options[i].value == b.options[i].value
  }

  /** Restoring only assigns values, check states and option selections. */
  lemma ApplyKeepsIdentity(el: Element, entry: FieldSnapshot)
    ensures SameIdentity(ApplyEntry(el, entry), el)
  {
  }

  /** No selected option shares its value with an unselected one. */
  predicate SelectionByValue(opts: seq<SelectOption>) {
    forall i, j :: 0 <= i < |opts| && 0 <= j < |opts| && opts[i].selected && !opts[j].selected ==>
      opts[i].value != opts[j].value
  }

  /** Restoring a field from its own saved record gives the field back. */
  lemma RestoreOfSavedIsIdentity(elems: seq<Element>, body: nat, n: nat, escape: string -> string)
    requires PathDefined(elems, body, n) && IsSavable(Some(elems[n]))
    requires elems[n].multiple && Lower(elems[n].tagName) == "select" ==> SelectionByValue(elems[n].options)
    ensures ApplyEntry(elems[n], Serialized(elems, body, n, escape)) == elems[n]
  {
    var el := elems[n];
    if Lower(el.tagName) == "select" && el.multiple {
      var sel := SelectedValues(el.options);
      var r := Reselect(el.options, sel);
      forall i | 0 <= i < |el.options| ensures r[i] == el.options[i] {
        if el.options[i].selected {
          assert el.options[i].value in sel;
        } else {
          assert el.options[i].value !in sel;
        }
      }
      assert r == el.options;
    }
  }

  /** One iteration of the restore loop: skip an entry that resolves to nothing or to a field that
      may not be saved, otherwise assign to the resolved field. */
  function RestoreOne(elems: seq<Element>, entry: FieldSnapshot, query: string -> QueryResult): (r: seq<Element>)
    ensures |r| == |elems|
  {
    match FindField(elems, entry, query)
    case None => elems
    case Some(i) => if IsSavable(Some(elems[i])) then elems[i := ApplyEntry(elems[i], entry)] else elems
  }

  /** The whole restore loop, entry by entry, each resolved against the document as it stands. */
  function RestoreAll(elems: seq<Element>, entries: seq<FieldSnapshot>, query: string -> QueryResult): (r: seq<Element>)
    ensures |r| == |elems|
    ensures forall i :: 0 <= i < |elems| ==> SameIdentity(r[i], elems[i])
    decreases |entries|
  {
    if entries == [] then elems
    else
      var next := RestoreOne(elems, entries[0], query);
      assert forall i :: 0 <= i < |elems| ==> SameIdentity(next[i], elems[i]) by {
        forall i | 0 <= i < |elems| ensures SameIdentity(next[i], elems[i]) {
          ApplyKeepsIdentity(elems[i], entries[0]);
        }
      }
      RestoreAll(next, entries[1..], query)
  }

  /** An entry that resolves to nothing, or to a field that may not be saved, changes nothing. */
  lemma RestoreSkips(elems: seq<Element>, entry: FieldSnapshot, query: string -> QueryResult)
    requires var f := FindField(elems, entry, query);
             f.None? || !IsSavable(Some(elems[f.value]))
    ensures RestoreOne(elems, entry, query) == elems
  {
  }

  /** An id-less `<body>` at the root of a document. */
  const BodyElement: Element := Element("BODY", "", "", "", "", "", false, false, [], None, None)

  /** An id-less radio button named `c`, a child of the element at position 0. */
  function Radio(checked: bool): Element {
    Element("INPUT", "radio", "", "c", "", "on", checked, false, [], Some(0), None)
  }

  /** `<body>` and two such radio buttons in it, the first checked. */
  function TwoRadios(): seq<Element> {
    [BodyElement, Radio(true), Radio(false)]
  }

  lemma LowerExamples()
    ensures Lower("BODY") == "body" && Lower("INPUT") == "input" && Lower("radio") == "radio"
    ensures Lower("c") == "c" && Lower("") == ""
  {
    assert forall i :: 0 <= i < 4 ==> Lower("BODY")[i] == "body"[i];
    assert forall i :: 0 <= i < 5 ==> Lower("INPUT")[i] == "input"[i];
    assert forall i :: 0 <= i < 5 ==> Lower("radio")[i] == "radio"[i];
  }

  /** `<body>` is not a field, and neither radio is sensitive. */
  lemma RadioSavable(checked: bool)
    ensures !IsSavable(Some(BodyElement)) && IsSavable(Some(Radio(checked)))
  {
    LowerExamples();
    assert !MatchesAny("", SensitiveNameParts) && !MatchesAny("", SensitiveAutocompleteParts) by {
      assert !Contains("", "password") && !Contains("", "pass") && !Contains("", "card");
      assert !Contains("", "cvc") && !Contains("", "cvv") && !Contains("", "otp");
      assert !Contains("", "cc-") && !Contains("", "cc_");
    }
    assert !MatchesAny("c", SensitiveNameParts) by {
      assert !Contains("c", "password") && !Contains("c", "pass") && !Contains("c", "card");
      assert !Contains("c", "cvc") && !Contains("c", "cvv") && !Contains("c", "otp");
    }
    assert !ContainsIgnoringCase("", "cc-");
  }

  /** The example's savable fields are its two radios. */
  lemma TwoRadiosIndices()
    ensures SavableIndices(TwoRadios(), 3) == [1, 2]
  {
    TwoRadiosRange();
    IncreasingOneTwo(SavableIndices(TwoRadios(), 3));
  }

  /** The example's savable positions are drawn from 1 and 2, and hold both. */
  lemma TwoRadiosRange()
    ensures var r := SavableIndices(TwoRadios(), 3);
            (forall i :: 0 <= i < |r| ==> r[i] == 1 || r[i] == 2) && 1 in r && 2 in r
  {
    RadioSavable(true);
    RadioSavable(false);
  }

  /** A strictly increasing list drawn from 1 and 2 that holds both is `[1, 2]`. */
  lemma IncreasingOneTwo(r: seq<nat>)
    requires forall i :: 0 <= i < |r| ==> r[i] == 1 || r[i] == 2
    requires forall i, j :: 0 <= i < j < |r| ==> r[i] < r[j]
    requires 1 in r && 2 in r
    ensures r == [1, 2]
  {
    var a :| 0 <= a < |r| && r[a] == 1;
    var b :| 0 <= b < |r| && r[b] == 2;
    IncreasingBound(r, |r| - 1);
    assert r[0] < r[1];
  }

  /** In a strictly increasing list of positive numbers, the element at `i` is at least `i + 1`. */
  lemma {:induction false} IncreasingBound(r: seq<nat>, i: nat)
    requires forall k :: 0 <= k < |r| ==> r[k] >= 1
    requires forall k, j :: 0 <= k < j < |r| ==> r[k] < r[j]
    requires i < |r|
    ensures r[i] >= i + 1
  {
    if i > 0 {
      IncreasingBound(r, i - 1);
      assert r[i - 1] < r[i];
    }
  }

  /** Both radios have a CSS path. */
  lemma TwoRadiosWalkable()
    ensures FieldsWalkable(TwoRadios(), 0)
  {
    var d := TwoRadios();
    assert Walkable(d, 0, 0);
    assert Walkable(d, 0, 1) && Walkable(d, 0, 2);
  }

  /** A document with two savable fields, at positions 1 and 2, saves their two records. */
  lemma SavedFieldsOfTwo(elems: seq<Element>, body: nat, escape: string -> string)
    requires FieldsWalkable(elems, body) && SavableIndices(elems, |elems|) == [1, 2]
    ensures PathDefined(elems, body, 1) && PathDefined(elems, body, 2)
    ensures SavedFields(elems, body, escape)
              == Some([Serialized(elems, body, 1, escape), Serialized(elems, body, 2, escape)])
  {
    var idx := SavableIndices(elems, |elems|);
    assert idx[0] == 1 && idx[1] == 2;
    var r := SavedFields(elems, body, escape).value;
    PairOf(r, Serialized(elems, body, 1, escape), Serialized(elems, body, 2, escape));
  }

  /** A two-element sequence is the display of its two elements. */
  lemma PairOf<T>(r: seq<T>, a: T, b: T)
    requires |r| == 2 && r[0] == a && r[1] == b
    ensures r == [a, b]
  {
  }

  /** The two saved records: no id, the name `c`, the type `radio`, and their check states. */
  lemma TwoRadiosRecords(escape: string -> string, n: nat)
    requires n == 1 || n == 2
    ensures PathDefined(TwoRadios(), 0, n)
    ensures var e := Serialized(TwoRadios(), 0, n, escape);
            e.id == "" && e.name == "c" && e.inputType == "radio" && e.checked == Some(n == 1)
  {
    assert Walkable(TwoRadios(), 0, 0);
    LowerExamples();
  }

  /** Restoring one such record sets the first radio's check state to the record's. */
  lemma TwoRadiosRestoreOne(c: bool, e: FieldSnapshot, query: string -> QueryResult)
    requires e.id == "" && e.name == "c" && e.inputType == "radio" && e.checked.Some?
    ensures RestoreOne([BodyElement, Radio(c), Radio(false)], e, query)
              == [BodyElement, Radio(e.checked.value), Radio(false)]
  {
    var doc := [BodyElement, Radio(c), Radio(false)];
    LowerExamples();
    RadioGroupResolvesToFirst(doc, e, query, 1);
    RadioSavable(c);
    assert ApplyEntry(doc[1], e) == Radio(e.checked.value);
    assert doc[1 := Radio(e.checked.value)] == [BodyElement, Radio(e.checked.value), Radio(false)];
  }

  /** As written, restoring the example's own saved record unchecks both radios: the two records
      carry the same name and type and no id, so both resolve to the first radio, and the second
      record's `checked: false` overwrites the first's `true`. */
  lemma SameNameRadiosLoseCheck(escape: string -> string, query: string -> QueryResult)
    ensures SavedFields(TwoRadios(), 0, escape).Some?
    ensures var after := RestoreAll(TwoRadios(), SavedFields(TwoRadios(), 0, escape).value, query);
            TwoRadios()[1].checked && !after[1].checked && !after[2].checked && after != TwoRadios()
  {
    var d := TwoRadios();
    TwoRadiosIndices();
    TwoRadiosWalkable();
    SavedFieldsOfTwo(d, 0, escape);
    var e1 := Serialized(d, 0, 1, escape);
    var e2 := Serialized(d, 0, 2, escape);
    TwoRadiosRecords(escape, 1);
    TwoRadiosRecords(escape, 2);
    TwoRadiosRestoreOne(true, e1, query);
    TwoRadiosRestoreOne(true, e2, query);
    var d2 := [BodyElement, Radio(false), Radio(false)];
    assert RestoreAll(d, [e1, e2], query) == RestoreAll(d, [e2], query);
    assert [e2][1..] == [];
    assert RestoreAll(d, [e2], query) == d2;
  }

  // ---------------------------------------------------------------- the content-script gate

  /** `isEnabledForSite` of the form tracker: only `enabled === false` disables, and a list takes
      part only when it is an array. */
  predicate FormGate(settings: map<string, Js>, site: string) {
    var disabled := Field(settings, "siteDisabled");
    var blocked := Field(settings, "blocklist");
    var allowed := Field(settings, "allowlist");
    if Field(settings, "enabled") == Bool(false) then false
    else if ArrayIncludes(disabled, site) then false
    else if ArrayIncludes(blocked, site) then false
    else if allowed.Arr? && |allowed.items| > 0 then ArrayIncludes(allowed, site)
    else true
  }

  /** The content-script gate admits every site the worker's gate admits, for the same settings
      and the origin of the same URL. */
  lemma WorkerGateImpliesFormGate(url: string, settings: map<string, Js>, parse: UrlParser)
    requires ServiceWorker.IsAllowedBySettings(url, settings, parse) == Some(true)
    ensures FormGate(settings, ServiceWorker.NormalizeSite(url, parse))
  {
  }

  /** The gates differ: a `null` `enabled` switches the worker's gate off but not the form
      tracker's. */
  lemma GatesDiffer(parse: UrlParser)
    requires parse("https://a.example/") == Some(ParsedUrl("https://a.example", "/", [], ""))
    ensures ServiceWorker.IsAllowedBySettings("https://a.example/", map["enabled" := Null], parse) == Some(false)
    ensures FormGate(map["enabled" := Null], "https://a.example")
  {
    assert Field(map["enabled" := Null], "enabled") == Null;
  }

  // ---------------------------------------------------------------- the debounce, as a trace

  /** The debounce timer and the number of saves it has run. */
  datatype Debounce = Debounce(deadline: Option<int>, saves: nat)

  /** At time `now`, an armed timer whose deadline has passed runs its save and disarms. */
  function Fire(d: Debounce, now: int): Debounce {
    if d.deadline.Some? && d.deadline.value <= now then Debounce(None, d.saves + 1) else d
  }

  /** A qualifying `input` or `change` event at time `t`: `scheduleSave` cancels the pending
      timer and arms a new one `DebounceMs` later. */
  function OnEvent(d: Debounce, t: int): Debounce {
    Fire(d, t).(deadline := Some(t + DebounceMs))
  }

  /** Events at the given times, in order. */
  function Run(d: Debounce, ts: seq<int>): Debounce
    decreases |ts|
  {
    if ts == [] then d else Run(OnEvent(d, ts[0]), ts[1..])
  }

  /** Enough time passes for a pending save to run. */
  function Settle(d: Debounce): Debounce {
    if d.deadline.Some? then Debounce(None, d.saves + 1) else d
  }

  /** Each event follows the previous one by less than the debounce delay. */
  predicate Burst(ts: seq<int>) {
    forall i :: 0 < i < |ts| ==> ts[i - 1] <= ts[i] < ts[i - 1] + DebounceMs
  }

  /** Each event follows the previous one by at least the debounce delay. At a gap of exactly
      the delay the timer and the event are due at the same instant; a browser may run either
      first, and the abstract clock settles the tie in favour of the timer (`Fire` runs a save
      whose deadline is not after `now` before the event re-arms). */
  predicate Spaced(ts: seq<int>) {
    forall i :: 0 < i < |ts| ==> ts[i] >= ts[i - 1] + DebounceMs
  }

  lemma {:induction false} BurstKeepsRearming(d: Debounce, t0: int, ts: seq<int>)
    requires d.deadline == Some(t0 + DebounceMs)
    requires ts != [] ==> t0 <= ts[0] < t0 + DebounceMs
    requires Burst(ts)
    ensures Run(d, ts).saves == d.saves
    ensures Run(d, ts).deadline == Some((if ts == [] then t0 else ts[|ts| - 1]) + DebounceMs)
    decreases |ts|
  {
    if ts != [] {
      var tail := ts[1..];
      assert Burst(tail) by {
        forall i | 0 < i < |tail| ensures tail[i - 1] <= tail[i] < tail[i - 1] + DebounceMs {
          assert tail[i - 1] == ts[i] && tail[i] == ts[i + 1];
        }
      }
      if tail != [] {
        assert tail[0] == ts[1];
      }
      BurstKeepsRearming(OnEvent(d, ts[0]), ts[0], tail);
      if tail != [] {
        assert tail[|tail| - 1] == ts[|ts| - 1];
      }
    }
  }

  /** A burst of qualifying events, each less than the delay after the previous one, saves once. */
  lemma BurstSavesOnce(ts: seq<int>)
    requires |ts| >= 1 && Burst(ts)
    ensures Settle(Run(Debounce(None, 0), ts)).saves == 1
  {
    var d := OnEvent(Debounce(None, 0), ts[0]);
    var tail := ts[1..];
    assert Burst(tail) by {
      forall i | 0 < i < |tail| ensures tail[i - 1] <= tail[i] < tail[i - 1] + DebounceMs {
        assert tail[i - 1] == ts[i] && tail[i] == ts[i + 1];
      }
    }
    if tail != [] {
      assert tail[0] == ts[1];
    }
    BurstKeepsRearming(d, ts[0], tail);
  }

  lemma {:induction false} SpacedSavesEachHelper(d: Debounce, t0: int, ts: seq<int>)
    requires d.deadline == Some(t0 + DebounceMs)
    requires ts != [] ==> ts[0] >= t0 + DebounceMs
    requires Spaced(ts)
    ensures Run(d, ts).saves == d.saves + |ts|
    ensures Run(d, ts).deadline.Some?
    decreases |ts|
  {
    if ts != [] {
      var tail := ts[1..];
      assert Spaced(tail) by {
        forall i | 0 < i < |tail| ensures tail[i] >= tail[i - 1] + DebounceMs {
          assert tail[i - 1] == ts[i] && tail[i] == ts[i + 1];
        }
      }
      if tail != [] {
        assert tail[0] == ts[1];
      }
      SpacedSavesEachHelper(OnEvent(d, ts[0]), ts[0], tail);
    }
  }

  /** Events at least the delay apart save once each. */
  lemma SpacedSavesEach(ts: seq<int>)
    requires |ts| >= 1 && Spaced(ts)
    ensures Settle(Run(Debounce(None, 0), ts)).saves == |ts|
  {
    var d := OnEvent(Debounce(None, 0), ts[0]);
    var tail := ts[1..];
    assert Spaced(tail) by {
      forall i | 0 < i < |tail| ensures tail[i] >= tail[i - 1] + DebounceMs {
        assert tail[i - 1] == ts[i] && tail[i] == ts[i + 1];
      }
    }
    if tail != [] {
      assert tail[0] == ts[1];
    }
    SpacedSavesEachHelper(d, ts[0], tail);
  }

  // ---------------------------------------------------------------- the page and the tracker

  /** The positions of the savable fields among the first `upto` elements, in document order:
      `querySelectorAll('input, textarea, select')` filtered by `isSavableField`. */
  function SavableIndices(elems: seq<Element>, upto: nat): (r: seq<nat>)
    requires upto <= |elems|
    ensures forall i :: 0 <= i < |r| ==> r[i] < upto && IsSavable(Some(elems[r[i]]))
    ensures forall i :: 0 <= i < |r| ==> !IsSensitive(elems[r[i]])
    ensures forall i, j :: 0 <= i < j < |r| ==> r[i] < r[j]
    ensures forall m :: 0 <= m < upto && IsSavable(Some(elems[m])) ==> m in r
    decreases upto
  {
    if upto == 0 then []
    else SavableIndices(elems, upto - 1) + (if IsSavable(Some(elems[upto - 1])) then [upto - 1] else [])
  }

  /** Every savable field of the document has a well-defined CSS path, so serialising the
      fields does not throw. */
  predicate FieldsWalkable(elems: seq<Element>, body: nat) {
    forall n :: 0 <= n < |elems| && IsSavable(Some(elems[n])) ==> PathDefined(elems, body, n)
  }

  /** The `fields` of a saved page: every savable field, serialised, in document order; `None`
      where `cssPath` throws for one of them. */
  function SavedFields(elems: seq<Element>, body: nat, escape: string -> string): (r: Option<seq<FieldSnapshot>>)
    ensures r.Some? <==> FieldsWalkable(elems, body)
    ensures r.Some? ==>
              var idx := SavableIndices(elems, |elems|);
              |r.value| == |idx| && forall i :: 0 <= i < |idx| ==> r.value[i] == Serialized(elems, body, idx[i], escape)
    ensures r.Some? ==>
              var idx := SavableIndices(elems, |elems|);
              forall i :: 0 <= i < |idx| ==> !IsSensitive(elems[idx[i]])
  {
    if !FieldsWalkable(elems, body) then None
    else
      var idx := SavableIndices(elems, |elems|);
      Some(seq(|idx|, i requires 0 <= i < |idx| => Serialized(elems, body, idx[i], escape)))
  }

  /** Every entry of the list leaves the document as it is. */
  predicate EachRestoresNothing(elems: seq<Element>, entries: seq<FieldSnapshot>, query: string -> QueryResult) {
    forall i :: 0 <= i < |entries| ==> RestoreOne(elems, entries[i], query) == elems
  }

  /** A run of entries none of which changes the document leaves it unchanged. */
  lemma {:induction false} RestoreAllFixed(elems: seq<Element>, entries: seq<FieldSnapshot>, query: string -> QueryResult)
    requires EachRestoresNothing(elems, entries, query)
    ensures RestoreAll(elems, entries, query) == elems
    decreases |entries|
  {
    if entries != [] {
      assert RestoreOne(elems, entries[0], query) == elems;
      assert EachRestoresNothing(elems, entries[1..], query) by {
        forall i | 0 <= i < |entries[1..]| ensures RestoreOne(elems, entries[1..][i], query) == elems {
          assert entries[1..][i] == entries[i + 1];
        }
      }
      RestoreAllFixed(elems, entries[1..], query);
    }
  }

  /** What a savable field needs for its own record to restore it: the record resolves back to
      the field, and for a multiple select no selected option shares its value with an unselected
      one. */
  predicate RestoresToItself(elems: seq<Element>, body: nat, n: nat, escape: string -> string, query: string -> QueryResult)
    requires PathDefined(elems, body, n)
  {
    FindField(elems, Serialized(elems, body, n, escape), query) == Some(n)
    && (elems[n].multiple && Lower(elems[n].tagName) == "select" ==> SelectionByValue(elems[n].options))
  }

  /** One field's own record, restored into the unchanged document, changes nothing. */
  lemma RestoreOwnRecord(elems: seq<Element>, body: nat, n: nat, escape: string -> string, query: string -> QueryResult)
    requires PathDefined(elems, body, n) && IsSavable(Some(elems[n]))
    requires RestoresToItself(elems, body, n, escape, query)
    ensures RestoreOne(elems, Serialized(elems, body, n, escape), query) == elems
  {
    RestoreOfSavedIsIdentity(elems, body, n, escape);
    assert elems[n := elems[n]] == elems;
  }

  /** Restoring the record a page saves into the same, unchanged page reproduces every field's
      value, check state and option selection, provided each savable field's record resolves
      back to that field. */
  lemma RestoreSavedRoundTrip(elems: seq<Element>, body: nat, escape: string -> string, query: string -> QueryResult)
    requires FieldsWalkable(elems, body)
    requires forall n :: 0 <= n < |elems| && IsSavable(Some(elems[n])) ==>
               RestoresToItself(elems, body, n, escape, query)
    ensures SavedFields(elems, body, escape).Some?
    ensures RestoreAll(elems, SavedFields(elems, body, escape).value, query) == elems
  {
    var fields := SavedFields(elems, body, escape).value;
    var idx := SavableIndices(elems, |elems|);
    forall i | 0 <= i < |fields| ensures RestoreOne(elems, fields[i], query) == elems {
      RestoreOwnRecord(elems, body, idx[i], escape, query);
    }
    RestoreAllFixed(elems, fields, query);
  }

  /** A record carries its field's id. */
  lemma SerializedId(elems: seq<Element>, body: nat, n: nat, escape: string -> string)
    requires PathDefined(elems, body, n)
    ensures Serialized(elems, body, n, escape).id == elems[n].id
  {
  }

  /** A record whose id no earlier element carries resolves back to its field by that id. */
  lemma OwnIdResolves(elems: seq<Element>, body: nat, n: nat, escape: string -> string, query: string -> QueryResult)
    requires PathDefined(elems, body, n)
    requires elems[n].id != "" && forall k :: 0 <= k < n ==> elems[k].id != elems[n].id
    ensures FindField(elems, Serialized(elems, body, n, escape), query) == Some(n)
  {
    SerializedId(elems, body, n, escape);
  }

  /** Fields identified by ids of their own resolve back to themselves, so with them the
      round trip holds. */
  lemma RestoreRoundTripWithIds(elems: seq<Element>, body: nat, escape: string -> string, query: string -> QueryResult)
    requires forall n :: 0 <= n < |elems| && IsSavable(Some(elems[n])) ==>
               && PathDefined(elems, body, n)
               && elems[n].id != "" && (forall k :: 0 <= k < n ==> elems[k].id != elems[n].id)
               && (elems[n].multiple && Lower(elems[n].tagName) == "select" ==> SelectionByValue(elems[n].options))
    ensures SavedFields(elems, body, escape).Some?
    ensures RestoreAll(elems, SavedFields(elems, body, escape).value, query) == elems
  {
    forall n | 0 <= n < |elems| && IsSavable(Some(elems[n]))
      ensures RestoresToItself(elems, body, n, escape, query)
    {
      OwnIdResolves(elems, body, n, escape, query);
    }
    RestoreSavedRoundTrip(elems, body, escape, query);
  }

  /** The document a content script sees: its elements in document order, the position of
      `body`, the location and the scroll offsets. */
  class Page {
    var elements: seq<Element>
    const body: nat
    var href: string
    const origin: string
    var scrollX: int
    var scrollY: int

    constructor (elements: seq<Element>, body: nat, href: string, origin: string, scrollX: int, scrollY: int)
      ensures this.elements == elements && this.body == body && this.href == href
      ensures this.origin == origin && this.scrollX == scrollX && this.scrollY == scrollY
    {
      this.elements := elements;
      this.body := body;
      this.href := href;
      this.origin := origin;
      this.scrollX := scrollX;
      this.scrollY := scrollY;
    }
  }

  /** The settings `getSettings` yields: the cached record, else the stored one. */
  function CachedSettings(cache: Option<map<string, Js>>, area: map<Key, Value>): map<string, Js> {
    if cache.Some? then cache.value else StoredSettings(area)
  }

  /** Once filled, the cache answers every later read, whatever the store then holds. */
  lemma CacheAnswersLaterReads(cache: Option<map<string, Js>>, a1: map<Key, Value>, a2: map<Key, Value>)
    ensures CachedSettings(Some(CachedSettings(cache, a1)), a2) == CachedSettings(cache, a1)
    ensures cache.None? ==> CachedSettings(cache, a1) == StoredSettings(a1)
  {
  }

  /** The page a saved record describes. */
  function PageRecord(page_href: string, now: int, sx: int, sy: int, fields: seq<FieldSnapshot>): Value {
    FormState(PageFormState(page_href, now, sx, sy, fields))
  }

  /** The local area after a `saveFormState` that writes under page key `key` at location
      `href`: the one record when the gate admits the page and serialising succeeds, otherwise
      the area as it was. */
  function SaveArea(local: map<Key, Value>, settings: map<string, Js>, origin: string, key: string, href: string,
                    now: int, sx: int, sy: int, fields: Option<seq<FieldSnapshot>>): map<Key, Value>
  {
    if FormGate(settings, origin) && fields.Some? then local[FormsKey(key) := PageRecord(href, now, sx, sy, fields.value)]
    else local
  }

  /** As written, a navigation between pages with different keys saves the page being left under
      the key of the page navigated to, with that page's location, and leaves the left page's own
      entry as it was; the intended save writes the left page's entry under its own key and
      location, and leaves the next page's entry alone. */
  lemma BeforeNavigationSaveMisplaced(local: map<Key, Value>, settings: map<string, Js>, origin: string,
                                      leftKey: string, leftHref: string, nextKey: string, nextHref: string,
                                      now: int, sx: int, sy: int, fields: seq<FieldSnapshot>)
    requires FormGate(settings, origin) && leftKey != nextKey
    ensures var asWritten := SaveArea(local, settings, origin, nextKey, nextHref, now, sx, sy, Some(fields));
            && asWritten[FormsKey(nextKey)] == PageRecord(nextHref, now, sx, sy, fields)
            && (FormsKey(leftKey) in asWritten <==> FormsKey(leftKey) in local)
            && (FormsKey(leftKey) in local ==> asWritten[FormsKey(leftKey)] == local[FormsKey(leftKey)])
    ensures var intended := SaveArea(local, settings, origin, leftKey, leftHref, now, sx, sy, Some(fields));
            && intended[FormsKey(leftKey)] == PageRecord(leftHref, now, sx, sy, fields)
            && (FormsKey(nextKey) in intended <==> FormsKey(nextKey) in local)
            && (FormsKey(nextKey) in local ==> intended[FormsKey(nextKey)] == local[FormsKey(nextKey)])
  {
  }

  /** The tracker's module state: the page key, the armed debounce deadline and the settings
      cache, over the page it runs in and the store it saves to. */
  class Tracker {
    var currentKey: string
    var pendingSave: Option<int>
    var settingsCache: Option<map<string, Js>>
    const store: Store
    const page: Page

    constructor (store: Store, page: Page)
      ensures this.store == store && this.page == page
      ensures currentKey == "" && pendingSave.None? && settingsCache.None?
    {
      this.store := store;
      this.page := page;
      currentKey := "";
      pendingSave := None;
      settingsCache := None;
    }

    /** `getSettings`: the cache, filled from the stored `settings` on the first call. */
    method GetSettings() returns (s: map<string, Js>)
      modifies this`settingsCache
      ensures s == CachedSettings(old(settingsCache), store.local)
      ensures settingsCache == Some(s)
    {
      if settingsCache.Some? {
        return settingsCache.value;
      }
      var data := store.Get(SettingsKey);
      s := StoredSettings(data);
      settingsCache := Some(s);
    }

    /** `isEnabledForSite` at the page's origin. */
    method IsEnabledForSite() returns (b: bool)
      modifies this`settingsCache
      ensures b == FormGate(CachedSettings(old(settingsCache), store.local), page.origin)
      ensures settingsCache == Some(CachedSettings(old(settingsCache), store.local))
    {
      var s := GetSettings();
      b := FormGate(s, page.origin);
    }

    /** `saveFormState` at time `now`: when the gate admits the page, the record of every savable
        field replaces whatever `forms:<page key>` held; nothing else is written, and nothing at
        all when serialising a field throws. */
    method SaveFormState(now: int, escape: string -> string)
      modifies this`settingsCache, store
      ensures settingsCache == Some(CachedSettings(old(settingsCache), store.local))
      ensures store.session == old(store.session)
      ensures var fields := SavedFields(page.elements, page.body, escape);
              !FormGate(CachedSettings(old(settingsCache), old(store.local)), page.origin) || fields.None? ==>
                store.local == old(store.local)
      ensures var fields := SavedFields(page.elements, page.body, escape);
              FormGate(CachedSettings(old(settingsCache), old(store.local)), page.origin) && fields.Some? ==>
                store.local == old(store.local)[FormsKey(currentKey) :=
                  PageRecord(page.href, now, page.scrollX, page.scrollY, fields.value)]
    {
      var enabled := IsEnabledForSite();
      if !enabled {
        return;
      }
      var fields := SavedFields(page.elements, page.body, escape);
      if fields.None? {
        return;
      }
      store.Set(map[FormsKey(currentKey) := PageRecord(page.href, now, page.scrollX, page.scrollY, fields.value)]);
    }

    /** `restoreFormState`: when the gate admits the page and a record is saved under its key,
        every entry is resolved and restored in turn; the saved scroll offsets are returned for
        the deferred `scrollTo`. */
    method RestoreFormState(query: string -> QueryResult) returns (scroll: Option<(int, int)>)
      modifies this`settingsCache, page`elements
      ensures settingsCache == Some(CachedSettings(old(settingsCache), store.local))
      ensures var key := FormsKey(currentKey);
              var restoring := FormGate(CachedSettings(old(settingsCache), store.local), page.origin)
                               && key in store.local && store.local[key].FormState?;
              && (!restoring ==> scroll.None? && page.elements == old(page.elements))
              && (restoring ==>
                    var saved := store.local[key].state;
                    scroll == Some((saved.scrollX, saved.scrollY))
                    && page.elements == RestoreAll(old(page.elements), saved.fields, query))
    {
      scroll := None;
      var enabled := IsEnabledForSite();
      if !enabled {
        return;
      }
      var key := FormsKey(currentKey);
      var data := store.Get(key);
      if key !in data || !data[key].FormState? {
        return;
      }
      var saved := data[key].state;
      page.elements := RestoreEntries(page.elements, saved.fields, query);
      scroll := Some((saved.scrollX, saved.scrollY));
    }

    /** `scheduleSave` at time `now`: the pending save, if any, is cancelled and a new one armed. */
    method ScheduleSave(now: int)
      modifies this`pendingSave
      ensures pendingSave == Some(now + DebounceMs)
    {
      pendingSave := Some(now + DebounceMs);
    }

    /** The `input` and `change` listeners: only a savable target schedules a save. */
    method OnFieldEvent(target: Option<Element>, now: int)
      modifies this`pendingSave
      ensures IsSavable(target) ==> pendingSave == Some(now + DebounceMs)
      ensures !IsSavable(target) ==> pendingSave == old(pendingSave)
    {
      if IsSavable(target) {
        ScheduleSave(now);
      }
    }

    /** The clock reaches `now`: an armed save whose deadline has passed runs once and disarms. */
    method Tick(now: int, escape: string -> string)
      modifies this`pendingSave, this`settingsCache, store
      ensures Debounce(pendingSave, 0) == Fire(Debounce(old(pendingSave), 0), now).(saves := 0)
      ensures store.session == old(store.session)
      ensures !(old(pendingSave).Some? && old(pendingSave).value <= now) ==>
                pendingSave == old(pendingSave) && store.local == old(store.local)
                && settingsCache == old(settingsCache)
      ensures old(pendingSave).Some? && old(pendingSave).value <= now ==>
                var settings := CachedSettings(old(settingsCache), old(store.local));
                var fields := SavedFields(page.elements, page.body, escape);
                && pendingSave.None?
                && settingsCache == Some(settings)
                && (!FormGate(settings, page.origin) || fields.None? ==> store.local == old(store.local))
                && (FormGate(settings, page.origin) && fields.Some? ==>
                      store.local == old(store.local)[FormsKey(currentKey) :=
                        PageRecord(page.href, now, page.scrollX, page.scrollY, fields.value)])
    {
      if pendingSave.Some? && pendingSave.value <= now {
        pendingSave := None;
        SaveFormState(now, escape);
      }
    }

    /** Start-up and the after-navigation listener: the page key is recomputed from the location
        and the fields saved under it are restored, as `restoreFormState` does. */
    method OnNavigated(parse: UrlParser, encode: string -> string, query: string -> QueryResult)
      returns (scroll: Option<(int, int)>)
      modifies this`currentKey, this`settingsCache, page`elements
      ensures currentKey == UrlNormalize.NormalizeUrl(page.href, parse, encode)
      ensures settingsCache == Some(CachedSettings(old(settingsCache), store.local))
      ensures var key := FormsKey(currentKey);
              var restoring := FormGate(CachedSettings(old(settingsCache), store.local), page.origin)
                               && key in store.local && store.local[key].FormState?;
              && (!restoring ==> scroll.None? && page.elements == old(page.elements))
              && (restoring ==>
                    var saved := store.local[key].state;
                    scroll == Some((saved.scrollX, saved.scrollY))
                    && page.elements == RestoreAll(old(page.elements), saved.fields, query))
    {
      currentKey := UrlNormalize.NormalizeUrl(page.href, parse, encode);
      scroll := RestoreFormState(query);
    }
    /** A history navigation to `hrefAfter` as the listeners run it. The BEFORE listener starts
        `saveFormState`, which suspends at its first `await`; the wrapped call then moves the
        location and the AFTER listener recomputes the page key, all in the same task; only then
        does the save go on, reading the key and the location of the page navigated to. The
        restore the AFTER listener schedules is a later `RestoreFormState`, which then finds the
        left page's fields under the new key. */
    method NavigateAsWritten(hrefAfter: string, now: int, escape: string -> string,
                             parse: UrlParser, encode: string -> string)
      modifies this`currentKey, this`settingsCache, store, page`href
      ensures page.href == hrefAfter
      ensures currentKey == UrlNormalize.NormalizeUrl(hrefAfter, parse, encode)
      ensures settingsCache == Some(CachedSettings(old(settingsCache), old(store.local)))
      ensures store.session == old(store.session)
      ensures store.local == SaveArea(old(store.local), CachedSettings(old(settingsCache), old(store.local)),
                                      page.origin, currentKey, hrefAfter, now, page.scrollX, page.scrollY,
                                      SavedFields(page.elements, page.body, escape))
    {
      page.href := hrefAfter;
      currentKey := UrlNormalize.NormalizeUrl(page.href, parse, encode);
      SaveFormState(now, escape);
    }

    /** The navigation with the save the BEFORE listener evidently intends: the page being left
        is saved under its own key and location before the call moves on, and the key is then
        recomputed for the page navigated to. */
    method Navigate(hrefAfter: string, now: int, escape: string -> string,
                    parse: UrlParser, encode: string -> string)
      modifies this`currentKey, this`settingsCache, store, page`href
      ensures page.href == hrefAfter
      ensures currentKey == UrlNormalize.NormalizeUrl(hrefAfter, parse, encode)
      ensures settingsCache == Some(CachedSettings(old(settingsCache), old(store.local)))
      ensures store.session == old(store.session)
      ensures store.local == SaveArea(old(store.local), CachedSettings(old(settingsCache), old(store.local)),
                                      page.origin, old(currentKey), old(page.href), now, page.scrollX, page.scrollY,
                                      SavedFields(page.elements, page.body, escape))
    {
      SaveFormState(now, escape);
      page.href := hrefAfter;
      currentKey := UrlNormalize.NormalizeUrl(page.href, parse, encode);
    }
  }

  /** The loop of `restoreFormState` over the saved entries: each is resolved against the
      document as it stands and assigned to the field it resolves to. */
  method RestoreEntries(elems: seq<Element>, fields: seq<FieldSnapshot>, query: string -> QueryResult)
    returns (r: seq<Element>)
    ensures r == RestoreAll(elems, fields, query)
  {
    r := elems;
    var i := 0;
    while i < |fields|
      invariant 0 <= i <= |fields|
      invariant r == RestoreAll(elems, fields[..i], query)
    {
      var entry := fields[i];
      RestoreAllStep(elems, fields, i, query);
      ghost var prev := r;
      var found := FindField(r, entry, query);
      if found.Some? && IsSavable(Some(r[found.value])) {
        var idx := found.value;
        var el := AssignEntry(r[idx], entry);
        r := r[idx := el];
      }
      assert r == RestoreOne(prev, entry, query);
      i := i + 1;
    }
    assert fields[..|fields|] == fields;
  }

  /** Dropping the head of a prefix is taking a prefix of the tail. */
  lemma SliceShift<T>(s: seq<T>, i: nat)
    requires 0 < i < |s|
    ensures s[..i + 1][1..] == s[1..][..i] && s[..i][1..] == s[1..][..i - 1]
  {
  }

  /** Unrolling the restore fold by one entry. */
  lemma RestoreAllStep(elems: seq<Element>, entries: seq<FieldSnapshot>, i: nat, query: string -> QueryResult)
    requires i < |entries|
    ensures RestoreAll(elems, entries[..i + 1], query)
              == RestoreOne(RestoreAll(elems, entries[..i], query), entries[i], query)
    decreases i
  {
    var next := RestoreOne(elems, entries[0], query);
    assert RestoreAll(elems, entries[..i + 1], query) == RestoreAll(next, entries[..i + 1][1..], query);
    if i > 0 {
      SliceShift(entries, i);
      assert RestoreAll(elems, entries[..i], query) == RestoreAll(next, entries[1..][..i - 1], query);
      RestoreAllStep(next, entries[1..], i - 1, query);
      assert entries[1..][i - 1] == entries[i];
    } else {
      assert entries[..1][1..] == [];
      assert RestoreAll(next, [], query) == next;
      assert entries[..0] == [];
    }
  }
}
