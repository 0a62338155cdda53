/** The settings popup: the text areas' one-entry-per-line lists, the origin of the active tab,
    loading the settings into the form and saving the form back, including the per-site
    "disable on this site" set. */
module Popup {
  import opened Wrappers
  import opened Text
  import opened Json
  import opened Model
  import opened Settings
  import opened Storage
  import ServiceWorker

  // ---------------------------------------------------------------- parseList

  /** Every line trimmed. */
  function TrimAll(lines: seq<string>): (r: seq<string>)
    ensures |r| == |lines|
    ensures forall i :: 0 <= i < |r| ==> r[i] == Trim(lines[i])
    decreases |lines|
  {
    if |lines| == 0 then []
    else
      var rest := TrimAll(lines[1..]);
      assert forall i :: 1 <= i < |lines| ==> lines[1..][i - 1] == lines[i];
      [Trim(lines[0])] + rest
  }

  /** `filter(Boolean)` on strings: the non-empty ones, in order. */
  function NonEmpty(lines: seq<string>): (r: seq<string>)
    ensures forall i :: 0 <= i < |r| ==> r[i] != "" && r[i] in lines
    decreases |lines|
  {
    if |lines| == 0 then []
    else if lines[0] == "" then NonEmpty(lines[1..])
    else [lines[0]] + NonEmpty(lines[1..])
  }

  /** `parseList`: the lines of a text area, trimmed, without the blank ones. */
  function ParseList(text: string): (r: seq<string>)
    ensures forall i :: 0 <= i < |r| ==> r[i] != "" && Trimmed(r[i])
  {
    NonEmpty(TrimAll(Split(text, '\n')))
  }

  lemma {:induction false} NonEmptyAppend(a: seq<string>, b: seq<string>)
    ensures NonEmpty(a + b) == NonEmpty(a) + NonEmpty(b)
    decreases |a|
  {
    if |a| > 0 {
      assert (a + b)[1..] == a[1..] + b;
      NonEmptyAppend(a[1..], b);
    } else {
      assert a + b == b;
    }
  }

  /** Entries keep the order of their lines: the list of two blocks of lines is the list of the
      first followed by the list of the second. */
  lemma ParseListAppend(a: string, b: string)
    ensures ParseList(a + "\n" + b) == ParseList(a) + ParseList(b)
  {
    SplitAround(a, '\n', b);
    assert a + "\n" + b == a + ['\n'] + b;
    var la, lb := Split(a, '\n'), Split(b, '\n');
    assert Split(a + "\n" + b, '\n') == la + lb;
    TrimAllAppend(la, lb);
    NonEmptyAppend(TrimAll(la), TrimAll(lb));
  }

  lemma {:induction false} TrimAllAppend(a: seq<string>, b: seq<string>)
    ensures TrimAll(a + b) == TrimAll(a) + TrimAll(b)
    decreases |a|
  {
    if |a| > 0 {
      assert (a + b)[0] == a[0];
      assert (a + b)[1..] == a[1..] + b;
      TrimAllAppend(a[1..], b);
    } else {
      assert a + b == b;
    }
  }


  /** `NonEmpty` keeps a list with no empty entry as it is. */
  lemma {:induction false} NonEmptyKeeps(l: seq<string>)
    requires forall i :: 0 <= i < |l| ==> l[i] != ""
    ensures NonEmpty(l) == l
    decreases |l|
  {
    if |l| > 0 {
      assert l[0] != "";
      NonEmptyKeeps(l[1..]);
    }
  }

  /** Trimming keeps a list of trimmed entries as it is. */
  lemma TrimAllKeeps(l: seq<string>)
    requires forall i :: 0 <= i < |l| ==> Trimmed(l[i])
    ensures TrimAll(l) == l
  {
    forall i | 0 <= i < |l| ensures TrimAll(l)[i] == l[i] {
      assert Trimmed(l[i]);
    }
  }

  /** An empty text area holds no entries. */
  lemma ParseEmpty()
    ensures ParseList("") == []
  {
    var pieces: seq<string> := [""];
    assert Split("", '\n') == pieces;
    assert Trim("") == "";
    assert TrimAll(pieces) == pieces;
    assert pieces[1..] == [];
    assert NonEmpty(pieces) == NonEmpty(pieces[1..]);
  }

  /** An entry the text area gives back as it is: non-empty, trimmed and free of line breaks. */
  predicate CleanEntry(s: string) {
    s != "" && Trimmed(s) && '\n' !in s
  }

  /** Entries that are non-empty, trimmed and free of line breaks come back unchanged from the
      text area: `parseList(formatList(l)) == l`. */
  lemma ParseJoinRoundTrip(l: seq<string>)
    requires forall i :: 0 <= i < |l| ==> CleanEntry(l[i])
    ensures ParseList(Join(l, "\n")) == l
  {
    if |l| == 0 {
      JoinedNothing(l);
    } else {
      JoinedPieces(l);
    }
  }

  /** No entries join to the empty text, which parses to no entries. */
  lemma JoinedNothing(l: seq<string>)
    requires |l| == 0
    ensures ParseList(Join(l, "\n")) == l
  {
    assert l == [];
    ParseEmpty();
  }

  /** A non-empty list of clean entries parses back from its newline join. */
  lemma JoinedPieces(l: seq<string>)
    requires |l| > 0
    requires forall i :: 0 <= i < |l| ==> CleanEntry(l[i])
    ensures ParseList(Join(l, "\n")) == l
  {
    SplitJoin(l, '\n');
    ParseOfPieces(Join(l, "\n"), l);
  }

  /** A text whose lines are already non-empty and trimmed parses to those lines. */
  lemma ParseOfPieces(text: string, pieces: seq<string>)
    requires Split(text, '\n') == pieces
    requires forall i :: 0 <= i < |pieces| ==> pieces[i] != "" && Trimmed(pieces[i])
    ensures ParseList(text) == pieces
  {
    TrimAllKeeps(pieces);
    NonEmptyKeeps(pieces);
  }

  // ---------------------------------------------------------------- formatList

  /** The text `join` prints for a list item; `None` for arrays and objects, which are not
      rendered here. */
  function ItemText(v: Js): Option<string> {
    match v
    case Undefined => Some("")
    case Null => Some("")
    case Bool(b) => Some(if b then "true" else "false")
    case Num(n) => Some(IntToString(n))
    case Str(s) => Some(s)
    case _ => None
  }

  /** The texts of all items, when each has one. */
  function ItemTexts(items: seq<Js>): (r: Option<seq<string>>)
    ensures r.Some? ==> |r.value| == |items|
    decreases |items|
  {
    if |items| == 0 then Some([])
    else match (ItemText(items[0]), ItemTexts(items[1..]))
      case (Some(t), Some(ts)) => Some([t] + ts)
      case _ => None
  }

  /** `formatList`: a missing or falsy list shows as an empty text area, an array as one item per
      line; `None` where `join` is not a method of the value (a non-array, truthy value) or an
      item is not rendered. */
  function FormatList(list: Js): Option<string> {
    if !Truthy(list) then Some("")
    else if list.Arr? then
      match ItemTexts(list.items)
      case Some(ts) => Some(Join(ts, "\n"))
      case None => None
    else None
  }

  /** The array of the given strings. */
  function StrArr(l: seq<string>): (r: Js)
    ensures r.Arr? && |r.items| == |l|
    ensures forall i :: 0 <= i < |l| ==> r.items[i] == Str(l[i])
  {
    Arr(seq(|l|, i requires 0 <= i < |l| => Str(l[i])))
  }

  /** A list of strings has their own texts. */
  lemma ItemTextsOfStrings(l: seq<string>)
    ensures ItemTexts(StrArr(l).items) == Some(l)
  {
    StringItemTexts(StrArr(l).items, l);
  }

  lemma {:induction false} StringItemTexts(items: seq<Js>, l: seq<string>)
    requires |items| == |l| && forall i :: 0 <= i < |l| ==> items[i] == Str(l[i])
    ensures ItemTexts(items) == Some(l)
    decreases |l|
  {
    if |l| > 0 {
      assert ItemText(items[0]) == Some(l[0]);
      StringItemTexts(items[1..], l[1..]);
      assert [l[0]] + l[1..] == l;
    }
  }

  /** A list of strings shows as its entries joined by line breaks. */
  lemma FormatStrings(l: seq<string>)
    ensures FormatList(StrArr(l)) == Some(Join(l, "\n"))
  {
    ItemTextsOfStrings(l);
  }

  /** An empty list and a missing one both show as an empty text area. */
  lemma FormatMissing()
    ensures FormatList(Undefined) == Some("") && FormatList(Null) == Some("")
    ensures FormatList(Arr([])) == Some("")
  {
  }

  /** `parseList(formatList(l)) == l` for a stored list of non-empty, trimmed, single-line
      strings. */
  lemma FormatParseRoundTrip(l: seq<string>)
    requires forall i :: 0 <= i < |l| ==> CleanEntry(l[i])
    ensures FormatList(StrArr(l)).Some? && ParseList(FormatList(StrArr(l)).value) == l
  {
    FormatStrings(l);
    ParseJoinRoundTrip(l);
  }

  /** No piece of a split holds the separator. */
  lemma {:induction false} SplitPiecesFree(s: string, d: char)
    ensures forall i :: 0 <= i < |Split(s, d)| ==> d !in Split(s, d)[i]
    decreases |s|
  {
    if |s| > 0 {
      SplitPiecesFree(s[1..], d);
    }
  }

  /** Trimming removes characters and adds none. */
  lemma TrimKeepsOut(s: string, c: char)
    requires c !in s
    ensures c !in Trim(s)
  {
    var t := TrimStart(s);
    assert t == s[|s| - |t|..];
    assert c !in t;
    assert TrimEnd(t) == t[..|TrimEnd(t)|];
  }

  /** The entries `parseList` yields have no line break. */
  lemma ParsedSingleLine(text: string)
    ensures forall i :: 0 <= i < |ParseList(text)| ==> '\n' !in ParseList(text)[i]
  {
    var pieces := Split(text, '\n');
    SplitPiecesFree(text, '\n');
    forall i | 0 <= i < |pieces|
      ensures '\n' !in TrimAll(pieces)[i]
    {
      TrimKeepsOut(pieces[i], '\n');
    }
  }

  /** A list saved from a text area shows, and saves again, as the same list. */
  lemma ParseFormatStable(text: string)
    ensures FormatList(StrArr(ParseList(text))).Some?
    ensures ParseList(FormatList(StrArr(ParseList(text))).value) == ParseList(text)
  {
    ParsedSingleLine(text);
    FormatParseRoundTrip(ParseList(text));
  }

  // ---------------------------------------------------------------- getOrigin

  /** `getOrigin(tab?.url || '')`: the origin of the active tab's URL, `''` when there is no
      tab, no URL, or the URL does not parse. Without a URL the parser is applied to `''`, where
      `new URL('')` always throws; the parser passed in is expected to give `None` there. */
  function TabOrigin(tabUrl: Option<string>, parse: UrlParser): (origin: string)
    ensures origin == ServiceWorker.NormalizeSite(tabUrl.GetOr(""), parse)
    ensures parse(tabUrl.GetOr("")).None? ==> origin == ""
    ensures origin != "" ==> parse(tabUrl.GetOr("")).Some? && origin == parse(tabUrl.GetOr("")).value.origin
  {
    var url := tabUrl.GetOr("");
    match parse(url)
    case Some(p) => p.origin
    case None => ""
  }

  // ---------------------------------------------------------------- the "disabled sites" set

  /** No value occurs twice. */
  predicate NoDuplicates(s: seq<Js>) {
    forall i, j :: 0 <= i < j < |s| ==> s[i] != s[j]
  }

  /** The items of `new Set(items)` in insertion order: first occurrences only. */
  function Distinct(items: seq<Js>): (r: seq<Js>)
    decreases |items|
  {
    if |items| == 0 then []
    else
      var d := Distinct(items[..|items| - 1]);
      if items[|items| - 1] in d then d else d + [items[|items| - 1]]
  }

  /** The set holds every item once, and nothing else; a list without duplicates is its own set. */
  lemma DistinctProperties(items: seq<Js>)
    ensures NoDuplicates(Distinct(items))
    ensures forall x :: x in Distinct(items) <==> x in items
    ensures NoDuplicates(items) ==> Distinct(items) == items
  {
    DistinctMembers(items);
    DistinctNoDuplicates(items);
    if NoDuplicates(items) {
      DistinctOfDistinct(items);
    }
  }

  /** The set has exactly the members of the list. */
  lemma {:induction false} DistinctMembers(items: seq<Js>)
    ensures forall x :: x in Distinct(items) <==> x in items
    decreases |items|
  {
    if |items| > 0 {
      var init := items[..|items| - 1];
      DistinctMembers(init);
      assert items == init + [items[|items| - 1]];
    }
  }

  /** The set holds each member once. */
  lemma {:induction false} DistinctNoDuplicates(items: seq<Js>)
    ensures NoDuplicates(Distinct(items))
    decreases |items|
  {
    if |items| > 0 {
      var init := items[..|items| - 1];
      DistinctNoDuplicates(init);
      var d := Distinct(init);
      var x := items[|items| - 1];
      if x !in d {
        var r := d + [x];
        forall i, j | 0 <= i < j < |r| ensures r[i] != r[j] {
          assert r[i] == d[i];
          if j < |d| {
            assert r[j] == d[j];
          }
        }
      }
    }
  }

  /** A list without duplicates is its own set. */
  lemma {:induction false} DistinctOfDistinct(items: seq<Js>)
    requires NoDuplicates(items)
    ensures Distinct(items) == items
    decreases |items|
  {
    if |items| > 0 {
      var init := items[..|items| - 1];
      assert NoDuplicates(init) by {
        forall i, j | 0 <= i < j < |init| ensures init[i] != init[j] {
          assert init[i] == items[i] && init[j] == items[j];
        }
      }
      DistinctOfDistinct(init);
      assert items[|items| - 1] !in init by {
        forall i | 0 <= i < |init| ensures init[i] != items[|items| - 1] {
          assert init[i] == items[i];
        }
      }
      assert items == init + [items[|items| - 1]];
    }
  }

  /** `s` without `x`. */
  function Without(s: seq<Js>, x: Js): (r: seq<Js>)
    ensures forall y :: y in r <==> y in s && y != x
    decreases |s|
  {
    if |s| == 0 then []
    else if s[0] == x then Without(s[1..], x)
    else [s[0]] + Without(s[1..], x)
  }

  lemma {:induction false} WithoutKeepsDistinct(s: seq<Js>, x: Js)
    requires NoDuplicates(s)
    ensures NoDuplicates(Without(s, x))
    decreases |s|
  {
    if |s| > 0 {
      assert NoDuplicates(s[1..]) by {
        forall i, j | 0 <= i < j < |s[1..]| ensures s[1..][i] != s[1..][j] {
          assert s[1..][i] == s[i + 1] && s[1..][j] == s[j + 1];
        }
      }
      WithoutKeepsDistinct(s[1..], x);
      assert s[0] !in s[1..] by {
        forall i | 0 <= i < |s[1..]| ensures s[1..][i] != s[0] {
          assert s[1..][i] == s[i + 1];
        }
      }
    }
  }

  lemma {:induction false} WithoutAbsent(s: seq<Js>, x: Js)
    requires x !in s
    ensures Without(s, x) == s
    decreases |s|
  {
    if |s| > 0 {
      WithoutAbsent(s[1..], x);
    }
  }

  lemma WithoutIdempotent(s: seq<Js>, x: Js)
    ensures Without(Without(s, x), x) == Without(s, x)
  {
    WithoutAbsent(Without(s, x), x);
  }

  lemma {:induction false} WithoutAppend(s: seq<Js>, y: Js, x: Js)
    ensures Without(s + [y], x) == Without(s, x) + Without([y], x)
    decreases |s|
  {
    if |s| > 0 {
      assert (s + [y])[1..] == s[1..] + [y];
      WithoutAppend(s[1..], y, x);
    } else {
      assert s + [y] == [y];
    }
  }

  /** `Set.prototype.add`: a value not yet in the set goes at the end. */
  function SetAdd(s: seq<Js>, x: Js): seq<Js> {
    if x in s then s else s + [x]
  }

  /** The new `siteDisabled`: the old list as a set, with `origin` added when the box is ticked
      and deleted when it is not. */
  function SiteDisabledAfter(items: seq<Js>, origin: string, disabled: bool): seq<Js> {
    var s := Distinct(items);
    if disabled then SetAdd(s, Str(origin)) else Without(s, Str(origin))
  }

  /** The new list holds the origin exactly when the box is ticked, holds every other value
      exactly when the old list did, keeps them in their old order, has no duplicates, and a
      newly added origin goes at the end. */
  lemma SiteDisabledAfterProperties(items: seq<Js>, origin: string, disabled: bool)
    ensures var r := SiteDisabledAfter(items, origin, disabled);
            && (Str(origin) in r <==> disabled)
            && (forall x :: x != Str(origin) ==> (x in r <==> x in items))
            && NoDuplicates(r)
            && Without(r, Str(origin)) == Without(Distinct(items), Str(origin))
            && (disabled && Str(origin) !in items ==> r == Distinct(items) + [Str(origin)])
  {
    var o := Str(origin);
    var s := Distinct(items);
    DistinctProperties(items);
    if disabled {
      if o !in s {
        WithoutAppend(s, o, o);
        assert Without([o], o) == [];
        assert NoDuplicates(s + [o]) by {
          forall i, j | 0 <= i < j < |s + [o]| ensures (s + [o])[i] != (s + [o])[j] {
            if j == |s| {
              assert (s + [o])[i] == s[i];
            } else {
              assert (s + [o])[i] == s[i] && (s + [o])[j] == s[j];
            }
          }
        }
      }
    } else {
      WithoutKeepsDistinct(s, o);
      WithoutIdempotent(s, o);
    }
  }

  /** `new Set(v || [])`: the items to iterate, `None` where the value is not iterable. A
      string iterates as its characters. */
  function SetSource(v: Js): Option<seq<Js>> {
    if !Truthy(v) then Some([])
    else match v
      case Arr(items) => Some(items)
      case Str(s) => Some(seq(|s|, i requires 0 <= i < |s| => Str([s[i]])))
      case _ => None
  }

  /** `new Set(items)`, inserting the items one at a time. */
  method NewSet(items: seq<Js>) returns (s: seq<Js>)
    ensures s == Distinct(items)
  {
    s := [];
    var i := 0;
    while i < |items|
      invariant 0 <= i <= |items|
      invariant s == Distinct(items[..i])
    {
      assert items[..i + 1][..i] == items[..i];
      if items[i] !in s {
        s := s + [items[i]];
      }
      i := i + 1;
    }
    assert items[..i] == items;
  }

  // ---------------------------------------------------------------- loading and saving

  /** The size names the popup offers as radio buttons. */
  const SizeNames: set<string> := {"small", "medium", "large"}

  /** The state of the popup's form. `size` is the checked size radio, if any. For a save,
      `None` means no radio is checked; for a load, it means the radios are left as they were. */
  datatype Form = Form(enabled: bool, privacyMode: bool, size: Option<string>,
                       allowlist: string, blocklist: string, disableSite: bool)

  /** What `loadSettings` puts in the form for `settings` and the tab's `origin`; `None` where it
      throws. A size that names no radio leaves the radios alone (`size == None`). */
  function Loaded(settings: map<string, Js>, origin: string): Option<Form> {
    var size := Field(settings, "overlaySize");
    var allow := FormatList(Field(settings, "allowlist"));
    var block := FormatList(Field(settings, "blocklist"));
    var disable := if origin == "" then Some(false) else Includes(Field(settings, "siteDisabled"), origin);
    if allow.None? || block.None? || disable.None? then None
    else Some(Form(Truthy(Field(settings, "enabled")), Truthy(Field(settings, "privacyMode")),
                   if size.Str? && size.s in SizeNames then Some(size.s) else None,
                   allow.value, block.value, disable.value))
  }

  /** `loadSettings`: the stored settings over the defaults, shown in the form. */
  method LoadSettings(st: Store, tabUrl: Option<string>, parse: UrlParser) returns (form: Option<Form>)
    ensures form == Loaded(WithDefaults(StoredSettings(st.local)), TabOrigin(tabUrl, parse))
  {
    var data := st.Get(SettingsKey);
    var settings := WithDefaults(StoredSettings(data));
    var origin := TabOrigin(tabUrl, parse);
    form := Loaded(settings, origin);
  }

  /** The form's switches, size and lists written over `base`, `'medium'` when no size is
      checked. */
  function Applied(base: map<string, Js>, form: Form): map<string, Js> {
    base["enabled" := Bool(form.enabled)]
        ["privacyMode" := Bool(form.privacyMode)]
        ["overlaySize" := Str(form.size.GetOr("medium"))]
        ["allowlist" := StrArr(ParseList(form.allowlist))]
        ["blocklist" := StrArr(ParseList(form.blocklist))]
  }

  /** The payload `saveSettings` writes for the stored settings, the form and the tab's origin;
      `None` where it throws (a `siteDisabled` that is not iterable). */
  function Saved(stored: map<string, Js>, form: Form, origin: string): Option<map<string, Js>> {
    var s := Applied(WithDefaults(stored), form);
    if origin == "" then Some(s)
    else match SetSource(Field(s, "siteDisabled"))
      case None => None
      case Some(items) => Some(s["siteDisabled" := Arr(SiteDisabledAfter(items, origin, form.disableSite))])
  }

  /** The keys the form writes. */
  const FormKeys: set<string> := {"enabled", "privacyMode", "overlaySize", "allowlist", "blocklist", "siteDisabled"}

  /** The names the form writes are distinct; the two pairs of equal length differ in their
      first letter. */
  lemma FormKeysDistinct()
    ensures "privacyMode" != "overlaySize" && "allowlist" != "blocklist"
  {
    assert "privacyMode"[0] != "overlaySize"[0];
    assert "allowlist"[0] != "blocklist"[0];
  }

  /** Writing the five form fields over `base`, whatever their values. */
  lemma FiveUpdates(base: map<string, Js>, e: Js, p: Js, z: Js, a: Js, b: Js)
    ensures var s := base["enabled" := e]["privacyMode" := p]["overlaySize" := z]["allowlist" := a]["blocklist" := b];
            && s.Keys == base.Keys + {"enabled", "privacyMode", "overlaySize", "allowlist", "blocklist"}
            && s["enabled"] == e && s["privacyMode"] == p && s["overlaySize"] == z
            && s["allowlist"] == a && s["blocklist"] == b
            && (forall k :: k in base && k !in FormKeys ==> s[k] == base[k])
            && Field(s, "siteDisabled") == Field(base, "siteDisabled")
  {
    FormKeysDistinct();
  }

  /** The five fields the form sets are set, and every other key of `base` is kept. */
  lemma AppliedFields(base: map<string, Js>, form: Form)
    ensures var s := Applied(base, form);
            && s.Keys == base.Keys + {"enabled", "privacyMode", "overlaySize", "allowlist", "blocklist"}
            && s["enabled"] == Bool(form.enabled)
            && s["privacyMode"] == Bool(form.privacyMode)
            && s["overlaySize"] == Str(form.size.GetOr("medium"))
            && s["allowlist"] == StrArr(ParseList(form.allowlist))
            && s["blocklist"] == StrArr(ParseList(form.blocklist))
            && (forall k :: k in base && k !in FormKeys ==> s[k] == base[k])
            && Field(s, "siteDisabled") == Field(base, "siteDisabled")
  {
    FiveUpdates(base, Bool(form.enabled), Bool(form.privacyMode), Str(form.size.GetOr("medium")),
                StrArr(ParseList(form.allowlist)), StrArr(ParseList(form.blocklist)));
  }

  /** Saving fails only on a non-iterable `siteDisabled`, and only for a tab with an origin. */
  lemma SaveFails(stored: map<string, Js>, form: Form, origin: string)
    ensures Saved(stored, form, origin).None? <==>
              origin != "" && SetSource(Field(WithDefaults(stored), "siteDisabled")).None?
  {
    var base := WithDefaults(stored);
    FiveUpdates(base, Bool(form.enabled), Bool(form.privacyMode), Str(form.size.GetOr("medium")),
                StrArr(ParseList(form.allowlist)), StrArr(ParseList(form.blocklist)));
  }

  /** What is saved: the form's switches and lists, `'medium'` when no size is checked, and
      `siteDisabled` untouched when the tab has no origin. */
  lemma SavedFields(stored: map<string, Js>, form: Form, origin: string)
    ensures var r := Saved(stored, form, origin);
            r.Some? ==>
              && Field(r.value, "enabled") == Bool(form.enabled)
              && Field(r.value, "privacyMode") == Bool(form.privacyMode)
              && Field(r.value, "overlaySize") == Str(form.size.GetOr("medium"))
              && Field(r.value, "allowlist") == StrArr(ParseList(form.allowlist))
              && Field(r.value, "blocklist") == StrArr(ParseList(form.blocklist))
              && (origin == "" ==> Field(r.value, "siteDisabled") == Field(WithDefaults(stored), "siteDisabled"))
  {
    var base := WithDefaults(stored);
    var s := Applied(base, form);
    AppliedFields(base, form);
    assert "siteDisabled" in base;
    if origin != "" {
      var src := SetSource(Field(s, "siteDisabled"));
      if src.Some? {
        var v := Arr(SiteDisabledAfter(src.value, origin, form.disableSite));
        assert Saved(stored, form, origin) == Some(s["siteDisabled" := v]);
        SiteDisabledUpdate(s, v);
      }
    }
  }

  /** Every key the form writes has a default. */
  lemma FormKeysAreDefaults()
    ensures FormKeys <= Defaults.Keys
  {
  }

  /** Over a record that already has the form's keys, applying the form adds no key and keeps
      every other value. */
  lemma AppliedKeys(base: map<string, Js>, form: Form)
    requires FormKeys <= base.Keys
    ensures Applied(base, form).Keys == base.Keys
    ensures forall k :: k in base && k !in FormKeys ==> Applied(base, form)[k] == base[k]
    ensures "siteDisabled" in Applied(base, form)
  {
    FiveUpdates(base, Bool(form.enabled), Bool(form.privacyMode), Str(form.size.GetOr("medium")),
                StrArr(ParseList(form.allowlist)), StrArr(ParseList(form.blocklist)));
  }

  /** A saved record has the keys of the stored settings over the defaults, and every stored
      key the form does not write keeps its value. */
  lemma SavedKeys(stored: map<string, Js>, form: Form, origin: string)
    ensures var r := Saved(stored, form, origin);
            r.Some? ==>
              && r.value.Keys == WithDefaults(stored).Keys
              && (forall k :: k in stored && k !in FormKeys ==> r.value[k] == stored[k])
  {
    var base := WithDefaults(stored);
    var s := Applied(base, form);
    FormKeysAreDefaults();
    AppliedKeys(base, form);
    if origin != "" {
      var src := SetSource(Field(s, "siteDisabled"));
      if src.Some? {
        var v := Arr(SiteDisabledAfter(src.value, origin, form.disableSite));
        assert Saved(stored, form, origin) == Some(s["siteDisabled" := v]);
        SiteDisabledUpdate(s, v);
      }
    }
  }

  /** Writing `siteDisabled` keeps the keys and the five other form fields. */
  lemma SiteDisabledUpdate(s: map<string, Js>, v: Js)
    requires "siteDisabled" in s
    ensures var t := s["siteDisabled" := v];
            && t.Keys == s.Keys && Field(t, "siteDisabled") == v
            && (forall k :: k in s && k != "siteDisabled" ==> t[k] == s[k])
            && Field(t, "enabled") == Field(s, "enabled")
            && Field(t, "privacyMode") == Field(s, "privacyMode")
            && Field(t, "overlaySize") == Field(s, "overlaySize")
            && Field(t, "allowlist") == Field(s, "allowlist")
            && Field(t, "blocklist") == Field(s, "blocklist")
  {
    assert |"siteDisabled"| == 12;
    assert |"enabled"| == 7 && |"privacyMode"| == 11 && |"overlaySize"| == 11;
    assert |"allowlist"| == 9 && |"blocklist"| == 9;
  }

  /** What the form shows once the lists render and, for a tab with an origin, the
      `siteDisabled` test does not throw. */
  lemma LoadedShows(settings: map<string, Js>, origin: string)
    requires FormatList(Field(settings, "allowlist")).Some?
    requires FormatList(Field(settings, "blocklist")).Some?
    requires origin != "" ==> Includes(Field(settings, "siteDisabled"), origin).Some?
    ensures var l := Loaded(settings, origin);
            && l.Some?
            && l.value.enabled == Truthy(Field(settings, "enabled"))
            && l.value.privacyMode == Truthy(Field(settings, "privacyMode"))
            && (Field(settings, "overlaySize").Str? && Field(settings, "overlaySize").s in SizeNames ==>
                  l.value.size == Some(Field(settings, "overlaySize").s))
            && l.value.allowlist == FormatList(Field(settings, "allowlist")).value
            && l.value.blocklist == FormatList(Field(settings, "blocklist")).value
            && (origin != "" ==> l.value.disableSite == Includes(Field(settings, "siteDisabled"), origin).value)
  {
  }

  /** Saving and loading again shows the form as it was saved: the same switches, the checked
      size (`medium` when none was), the same lists up to blank lines and spaces, and the
      "disable on this site" box as ticked. */
  lemma SaveThenLoad(stored: map<string, Js>, form: Form, origin: string)
    requires Saved(stored, form, origin).Some?
    requires form.size.Some? ==> form.size.value in SizeNames
    ensures var l := Loaded(WithDefaults(Saved(stored, form, origin).value), origin);
            && l.Some?
            && l.value.enabled == form.enabled && l.value.privacyMode == form.privacyMode
            && l.value.size == Some(form.size.GetOr("medium"))
            && ParseList(l.value.allowlist) == ParseList(form.allowlist)
            && ParseList(l.value.blocklist) == ParseList(form.blocklist)
            && (origin != "" ==> l.value.disableSite == form.disableSite)
  {
    var r := Saved(stored, form, origin).value;
    SavedRecord(stored, form, origin);
    assert WithDefaults(r) == r;
    var al := ParseList(form.allowlist);
    var bl := ParseList(form.blocklist);
    LoadRecord(r, form.enabled, form.privacyMode, form.size.GetOr("medium"), al, bl,
               origin, form.disableSite);
    ParseFormatStable(form.allowlist);
    ParseFormatStable(form.blocklist);
    FormatStrings(al);
    FormatStrings(bl);
  }

  /** The popup and the service worker agree on a site: once the popup has saved with the tab
      at `url`, the stored "disabled sites" list holds the worker's site key for `url` exactly
      when the box was ticked, so a ticked box makes the worker refuse that URL. */
  lemma DisabledSiteMeetsWorkerGate(stored: map<string, Js>, form: Form, url: string, parse: UrlParser)
    requires Saved(stored, form, TabOrigin(Some(url), parse)).Some?
    ensures var r := Saved(stored, form, TabOrigin(Some(url), parse)).value;
            var site := ServiceWorker.NormalizeSite(url, parse);
            site != "" ==> Includes(Field(r, "siteDisabled"), site) == Some(form.disableSite)
    ensures form.disableSite ==>
              ServiceWorker.IsAllowedBySettings(url, Saved(stored, form, TabOrigin(Some(url), parse)).value, parse)
              == Some(false)
  {
    var origin := TabOrigin(Some(url), parse);
    var r := Saved(stored, form, origin).value;
    if origin != "" {
      var items := SetSource(Field(Applied(WithDefaults(stored), form), "siteDisabled")).value;
      SiteDisabledAfterProperties(items, origin, form.disableSite);
      assert Field(r, "siteDisabled") == Arr(SiteDisabledAfter(items, origin, form.disableSite));
    }
  }

  /** Loading a record that holds the given switches, size, lists and site list shows them. */
  lemma LoadRecord(r: map<string, Js>, enabled: bool, privacyMode: bool, size: string,
                   al: seq<string>, bl: seq<string>, origin: string, disableSite: bool)
    requires size in SizeNames
    requires Field(r, "enabled") == Bool(enabled)
    requires Field(r, "privacyMode") == Bool(privacyMode)
    requires Field(r, "overlaySize") == Str(size)
    requires Field(r, "allowlist") == StrArr(al)
    requires Field(r, "blocklist") == StrArr(bl)
    requires origin != "" ==> Field(r, "siteDisabled").Arr?
                              && (Str(origin) in Field(r, "siteDisabled").items <==> disableSite)
    ensures Loaded(r, origin) ==
              Some(Form(enabled, privacyMode, Some(size), Join(al, "\n"), Join(bl, "\n"),
                        origin != "" && disableSite))
  {
    FormatStrings(al);
    FormatStrings(bl);
  }

  /** The fields of a saved record as `loadSettings` reads them back. */
  lemma SavedRecord(stored: map<string, Js>, form: Form, origin: string)
    requires Saved(stored, form, origin).Some?
    ensures var r := Saved(stored, form, origin).value;
            && WithDefaults(r) == r
            && Field(r, "enabled") == Bool(form.enabled)
            && Field(r, "privacyMode") == Bool(form.privacyMode)
            && Field(r, "overlaySize") == Str(form.size.GetOr("medium"))
            && Field(r, "allowlist") == StrArr(ParseList(form.allowlist))
            && Field(r, "blocklist") == StrArr(ParseList(form.blocklist))
            && (origin != "" ==> Field(r, "siteDisabled").Arr?
                                 && (Str(origin) in Field(r, "siteDisabled").items <==> form.disableSite))
  {
    var base := WithDefaults(stored);
    var s := Applied(base, form);
    AppliedFields(base, form);
    assert Field(s, "enabled") == Bool(form.enabled);
    assert Field(s, "privacyMode") == Bool(form.privacyMode);
    assert Field(s, "overlaySize") == Str(form.size.GetOr("medium"));
    assert Field(s, "allowlist") == StrArr(ParseList(form.allowlist));
    assert Field(s, "blocklist") == StrArr(ParseList(form.blocklist));
    assert Defaults.Keys <= s.Keys;
    var r := Saved(stored, form, origin).value;
    if origin == "" {
      assert r == s;
    } else {
      var items := SetSource(Field(s, "siteDisabled")).value;
      assert r == s["siteDisabled" := Arr(SiteDisabledAfter(items, origin, form.disableSite))];
      SiteDisabledRecord(s, items, origin, form.disableSite);
    }
    WithDefaultsOfComplete(r);
  }

  /** Writing the new "disabled sites" list keeps the keys and the five form fields, and the
      list holds the origin exactly when the box is ticked. */
  lemma SiteDisabledRecord(s: map<string, Js>, items: seq<Js>, origin: string, disabled: bool)
    requires "siteDisabled" in s
    ensures var t := s["siteDisabled" := Arr(SiteDisabledAfter(items, origin, disabled))];
            && t.Keys == s.Keys
            && Field(t, "enabled") == Field(s, "enabled")
            && Field(t, "privacyMode") == Field(s, "privacyMode")
            && Field(t, "overlaySize") == Field(s, "overlaySize")
            && Field(t, "allowlist") == Field(s, "allowlist")
            && Field(t, "blocklist") == Field(s, "blocklist")
            && Field(t, "siteDisabled").Arr?
            && (Str(origin) in Field(t, "siteDisabled").items <==> disabled)
  {
    var list := SiteDisabledAfter(items, origin, disabled);
    SiteDisabledUpdate(s, Arr(list));
    SiteDisabledAfterProperties(items, origin, disabled);
  }

  /** Writing one key is updating the area at that key. */
  lemma UnionSingleton(area: map<Key, Value>, k: Key, v: Value)
    ensures area + map[k := v] == area[k := v]
  {
  }

  /** `saveSettings`: the stored settings over the defaults, updated field by field from the
      form and written back; `false` where it throws before writing. */
  method SaveSettings(st: Store, form: Form, tabUrl: Option<string>, parse: UrlParser) returns (saved: bool)
    modifies st
    ensures var r := Saved(StoredSettings(old(st.local)), form, TabOrigin(tabUrl, parse));
            && (saved <==> r.Some?)
            && (saved ==> st.local == old(st.local)[SettingsKey := Json(Obj(r.value))])
            && (!saved ==> st.local == old(st.local))
    ensures st.session == old(st.session)
  {
    var data := st.Get(SettingsKey);
    assert StoredSettings(data) == StoredSettings(st.local);
    ghost var stored := StoredSettings(data);
    var settings := WithDefaults(StoredSettings(data));
    settings := settings["enabled" := Bool(form.enabled)];
    settings := settings["privacyMode" := Bool(form.privacyMode)];
    settings := settings["overlaySize" := Str(form.size.GetOr("medium"))];
    settings := settings["allowlist" := StrArr(ParseList(form.allowlist))];
    settings := settings["blocklist" := StrArr(ParseList(form.blocklist))];
    assert settings == Applied(WithDefaults(stored), form);
    var origin := TabOrigin(tabUrl, parse);
    if origin != "" {
      var source := SetSource(Field(settings, "siteDisabled"));
      if source.None? {
        assert Saved(stored, form, origin).None?;
        return false;
      }
      var list := NewSet(source.value);
      if form.disableSite {
        if Str(origin) !in list {
          list := list + [Str(origin)];
        }
      } else {
        list := Without(list, Str(origin));
      }
      assert list == SiteDisabledAfter(source.value, origin, form.disableSite);
      settings := settings["siteDisabled" := Arr(list)];
    }
    assert Saved(stored, form, origin) == Some(settings);
    UnionSingleton(st.local, SettingsKey, Json(Obj(settings)));
    st.Set(map[SettingsKey := Json(Obj(settings))]);
    saved := true;
  }
}
