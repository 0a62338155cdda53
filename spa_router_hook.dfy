/** The page-world hook that reports single-page-app navigations: `history.pushState` and
    `history.replaceState` are wrapped to announce a navigation before and after the call, and
    `popstate` is announced after the fact. */
module SpaRouterHook {
  import opened Wrappers

  /** `EVENT_BEFORE` and `EVENT_AFTER`. */
  datatype Phase = Before | After

  /** One dispatched event with its `detail`: `{ oldUrl, newUrl, type }`. */
  datatype NavEvent = NavEvent(phase: Phase, oldUrl: string, newUrl: string, kind: string)

  /** The two history methods the hook wraps. */
  const WrappedNames: set<string> := {"pushState", "replaceState"}

  /** One navigation the page goes through: a call of a wrapped history method with its URL
      argument (`args[2]`) and the location it leaves behind; a call whose original method
      throws (a cross-origin URL, a state that cannot be cloned), which leaves the location as
      it was; or a `popstate` that lands on `hrefAfter`. */
  datatype Navigation =
    | Wrapped(fnName: string, urlArg: Option<string>, hrefAfter: string)
    | Threw(fnName: string, urlArg: Option<string>)
    | PopState(hrefAfter: string)

  /** The `newUrl` the BEFORE event announces: `args[2] || oldUrl`. */
  function AnnouncedUrl(urlArg: Option<string>, oldUrl: string): (r: string)
    ensures urlArg.Some? && urlArg.value != "" ==> r == urlArg.value
    ensures urlArg.None? || urlArg.value == "" ==> r == oldUrl
  {
    if urlArg.Some? && urlArg.value != "" then urlArg.value else oldUrl
  }

  /** The events one navigation dispatches, starting from location `href`. A throwing call
      dispatches its BEFORE and then propagates the exception, so no AFTER follows. */
  function Emitted(href: string, n: Navigation): seq<NavEvent> {
    match n
    case Wrapped(f, arg, after) =>
      [NavEvent(Before, href, AnnouncedUrl(arg, href), f), NavEvent(After, href, after, f)]
    case Threw(f, arg) =>
      [NavEvent(Before, href, AnnouncedUrl(arg, href), f)]
    case PopState(after) =>
      [NavEvent(After, "", after, "popstate")]
  }

  /** The location after `ns`, starting from `href`: where the last navigation that did not
      throw left the page. */
  function FinalHref(href: string, ns: seq<Navigation>): string
    decreases |ns|
  {
    if |ns| == 0 then href
    else if ns[|ns| - 1].Threw? then FinalHref(href, ns[..|ns| - 1])
    else ns[|ns| - 1].hrefAfter
  }

  /** The number of calls in `ns` whose original method threw. */
  function ThrowCount(ns: seq<Navigation>): nat
    decreases |ns|
  {
    if |ns| == 0 then 0
    else ThrowCount(ns[..|ns| - 1]) + (if ns[|ns| - 1].Threw? then 1 else 0)
  }

  /** All events a sequence of navigations dispatches, in order. */
  function Replay(href: string, ns: seq<Navigation>): seq<NavEvent>
    decreases |ns|
  {
    if |ns| == 0 then []
    else
      var init := ns[..|ns| - 1];
      Replay(href, init) + Emitted(FinalHref(href, init), ns[|ns| - 1])
  }

  /** The location at the moment an event is dispatched: an AFTER's `newUrl`, and a BEFORE's
      `oldUrl`, since it goes out before the original method runs. */
  function Reached(e: NavEvent): string {
    if e.phase == After then e.newUrl else e.oldUrl
  }

  /** Every BEFORE event is followed at once by the AFTER event of the same call, with the same
      `oldUrl` and `type`. */
  predicate BeforePairedWithAfter(es: seq<NavEvent>) {
    forall i :: 0 <= i < |es| && es[i].phase == Before ==>
      i + 1 < |es| && es[i + 1].phase == After
      && es[i + 1].oldUrl == es[i].oldUrl && es[i + 1].kind == es[i].kind
  }

  /** Every BEFORE event's `oldUrl` is the location when the previous event went out, or the
      starting location. */
  predicate OldUrlIsCurrent(es: seq<NavEvent>, href: string) {
    && (|es| > 0 && es[0].phase == Before ==> es[0].oldUrl == href)
    && (forall i :: 1 <= i < |es| && es[i].phase == Before ==> es[i].oldUrl == Reached(es[i - 1]))
  }

  /** The last event goes out at the final location. */
  predicate EndsAtFinal(es: seq<NavEvent>, final: string) {
    |es| > 0 ==> Reached(es[|es| - 1]) == final
  }

  /** Every call is of one of the two wrapped methods. */
  predicate WrappedOnly(ns: seq<Navigation>) {
    forall j :: 0 <= j < |ns| && !ns[j].PopState? ==> ns[j].fnName in WrappedNames
  }

  /** The number of AFTER events. */
  function AfterCount(es: seq<NavEvent>): nat
    decreases |es|
  {
    if |es| == 0 then 0
    else AfterCount(es[..|es| - 1]) + (if es[|es| - 1].phase == After then 1 else 0)
  }

  lemma {:induction false} AfterCountAppend(a: seq<NavEvent>, b: seq<NavEvent>)
    ensures AfterCount(a + b) == AfterCount(a) + AfterCount(b)
    decreases |b|
  {
    if |b| > 0 {
      assert (a + b)[..|a + b| - 1] == a + b[..|b| - 1];
      AfterCountAppend(a, b[..|b| - 1]);
    } else {
      assert a + b == a;
    }
  }

  /** Each navigation that does not throw reports exactly one AFTER, a thrown call none; the
      last event goes out at the final location, and it is an AFTER unless the last call threw. */
  lemma {:induction false} ReplayAfters(href: string, ns: seq<Navigation>)
    ensures AfterCount(Replay(href, ns)) == |ns| - ThrowCount(ns)
    ensures EndsAtFinal(Replay(href, ns), FinalHref(href, ns))
    ensures |Replay(href, ns)| > 0 <==> |ns| > 0
    ensures |ns| > 0 && !ns[|ns| - 1].Threw? ==> Replay(href, ns)[|Replay(href, ns)| - 1].phase == After
    decreases |ns|
  {
    if |ns| > 0 {
      var init := ns[..|ns| - 1];
      ReplayAfters(href, init);
      var pre := Replay(href, init);
      var tail := Emitted(FinalHref(href, init), ns[|ns| - 1]);
      assert Replay(href, ns) == pre + tail;
      AfterCountAppend(pre, tail);
      EmittedAfter(FinalHref(href, init), ns[|ns| - 1]);
    }
  }

  /** One navigation reports one AFTER, last, announcing where it leaves the page; a thrown
      call reports none, and its BEFORE goes out where the page stays. */
  lemma EmittedAfter(href: string, n: Navigation)
    ensures AfterCount(Emitted(href, n)) == if n.Threw? then 0 else 1
    ensures EndsAtFinal(Emitted(href, n), if n.Threw? then href else n.hrefAfter)
    ensures |Emitted(href, n)| > 0
    ensures !n.Threw? ==> Emitted(href, n)[|Emitted(href, n)| - 1].phase == After
  {
    var es := Emitted(href, n);
    if n.Wrapped? {
      assert es[..1][..0] == [];
      assert AfterCount(es[..1]) == 0;
      assert es[..|es| - 1] == es[..1];
    } else {
      assert es[..0] == [];
    }
  }

  /** When no call throws, a BEFORE is always answered by the AFTER of the same call. */
  lemma {:induction false} ReplayPairs(href: string, ns: seq<Navigation>)
    ensures ThrowCount(ns) == 0 ==> BeforePairedWithAfter(Replay(href, ns))
    decreases |ns|
  {
    if |ns| > 0 && ThrowCount(ns) == 0 {
      var init := ns[..|ns| - 1];
      assert ThrowCount(init) == 0 && !ns[|ns| - 1].Threw?;
      ReplayPairs(href, init);
      var pre := Replay(href, init);
      var tail := Emitted(FinalHref(href, init), ns[|ns| - 1]);
      var es := pre + tail;
      forall i | 0 <= i < |es| && es[i].phase == Before
        ensures i + 1 < |es| && es[i + 1].phase == After
                && es[i + 1].oldUrl == es[i].oldUrl && es[i + 1].kind == es[i].kind
      {
        if i < |pre| {
          assert pre[i] == es[i];
        } else {
          assert tail[i - |pre|] == es[i];
        }
      }
    }
  }

  /** A call that throws leaves its BEFORE unanswered: the next event, if any, is another call's
      BEFORE or a `popstate` AFTER, whose `type` differs. */
  lemma {:induction false} ReplayUnanswered(href: string, ns: seq<Navigation>)
    requires WrappedOnly(ns)
    ensures ThrowCount(ns) > 0 ==> !BeforePairedWithAfter(Replay(href, ns))
    decreases |ns|
  {
    if |ns| > 0 && ThrowCount(ns) > 0 {
      var init := ns[..|ns| - 1];
      var last := ns[|ns| - 1];
      var pre := Replay(href, init);
      var tail := Emitted(FinalHref(href, init), last);
      var es := pre + tail;
      assert Replay(href, ns) == es;
      if last.Threw? {
        var k := |es| - 1;
        assert es[k] == tail[0];
        assert es[k].phase == Before && !(k + 1 < |es|);
      } else {
        assert ThrowCount(init) > 0;
        assert WrappedOnly(init) by {
          forall j | 0 <= j < |init| && !init[j].PopState? ensures init[j].fnName in WrappedNames {
            assert init[j] == ns[j];
          }
        }
        ReplayUnanswered(href, init);
        ReplayPopStates(href, init);
        var i :| 0 <= i < |pre| && pre[i].phase == Before
                 && !(i + 1 < |pre| && pre[i + 1].phase == After
                      && pre[i + 1].oldUrl == pre[i].oldUrl && pre[i + 1].kind == pre[i].kind);
        assert es[i] == pre[i];
        if i + 1 < |pre| {
          assert es[i + 1] == pre[i + 1];
        } else {
          assert es[i + 1] == tail[0];
          assert pre[i].kind != "popstate";
        }
      }
    }
  }

  /** Each BEFORE starts where the page was when the previous event went out. */
  lemma {:induction false} ReplayContinues(href: string, ns: seq<Navigation>)
    ensures OldUrlIsCurrent(Replay(href, ns), href)
    decreases |ns|
  {
    if |ns| > 0 {
      var init := ns[..|ns| - 1];
      var h := FinalHref(href, init);
      ReplayContinues(href, init);
      ReplayAfters(href, init);
      var pre := Replay(href, init);
      assert OldUrlIsCurrent(pre, href);
      var tail := Emitted(h, ns[|ns| - 1]);
      var es := pre + tail;
      assert Replay(href, ns) == es;
      if |es| > 0 && es[0].phase == Before {
        if |pre| > 0 {
          assert es[0] == pre[0];
        } else {
          assert |init| == 0;
        }
      }
      forall i | 1 <= i < |es| && es[i].phase == Before
        ensures es[i].oldUrl == Reached(es[i - 1])
      {
        if i < |pre| {
          assert pre[i] == es[i];
          assert pre[i - 1] == es[i - 1];
        } else {
          assert tail[i - |pre|] == es[i];
          assert i == |pre|;
          assert es[i].oldUrl == h;
          assert es[i - 1] == pre[|pre| - 1];
          assert Reached(pre[|pre| - 1]) == h;
        }
      }
    }
  }

  /** With only the two wrapped methods called, `popstate` events are AFTER events with an
      empty `oldUrl`. */
  lemma {:induction false} ReplayPopStates(href: string, ns: seq<Navigation>)
    requires WrappedOnly(ns)
    ensures forall i :: 0 <= i < |Replay(href, ns)| && Replay(href, ns)[i].kind == "popstate" ==>
              Replay(href, ns)[i].phase == After && Replay(href, ns)[i].oldUrl == ""
    decreases |ns|
  {
    if |ns| > 0 {
      var init := ns[..|ns| - 1];
      assert WrappedOnly(init) by {
        forall j | 0 <= j < |init| && !init[j].PopState? ensures init[j].fnName in WrappedNames {
          assert init[j] == ns[j];
        }
      }
      ReplayPopStates(href, init);
      var pre := Replay(href, init);
      var tail := Emitted(FinalHref(href, init), ns[|ns| - 1]);
      var es := pre + tail;
      forall i | 0 <= i < |es| && es[i].kind == "popstate"
        ensures es[i].phase == After && es[i].oldUrl == ""
      {
        if i < |pre| {
          assert es[i] == pre[i];
        } else {
          assert es[i] == tail[i - |pre|];
        }
      }
    }
  }

  /** Any sequence of navigations yields a trace in which every call's BEFORE is immediately
      answered by its AFTER with the same `oldUrl` and `type` exactly when no call threw; each
      BEFORE starts from the location at the previous event; every navigation but a thrown call
      reports exactly one AFTER; and the last event goes out at the final location. `popstate`
      events are AFTER events with an empty `oldUrl`. */
  lemma ReplayWellFormed(href: string, ns: seq<Navigation>)
    requires WrappedOnly(ns)
    ensures var es := Replay(href, ns);
            && (BeforePairedWithAfter(es) <==> ThrowCount(ns) == 0)
            && OldUrlIsCurrent(es, href)
            && EndsAtFinal(es, FinalHref(href, ns))
            && AfterCount(es) == |ns| - ThrowCount(ns)
            && (forall i :: 0 <= i < |es| && es[i].kind == "popstate" ==> es[i].phase == After && es[i].oldUrl == "")
  {
    ReplayAfters(href, ns);
    ReplayPairs(href, ns);
    ReplayUnanswered(href, ns);
    ReplayContinues(href, ns);
    ReplayPopStates(href, ns);
  }

  /** Each wrapped call dispatches exactly one BEFORE and then exactly one AFTER, both with the
      location from before the call as `oldUrl` and the method's name as `type`. */
  lemma WrappedCallEvents(href: string, fnName: string, urlArg: Option<string>, hrefAfter: string)
    ensures var es := Emitted(href, Wrapped(fnName, urlArg, hrefAfter));
            && |es| == 2 && es[0].phase == Before && es[1].phase == After
            && es[0].oldUrl == href && es[1].oldUrl == href
            && es[0].kind == fnName && es[1].kind == fnName
            && es[1].newUrl == hrefAfter
            && (urlArg.Some? && urlArg.value != "" ==> es[0].newUrl == urlArg.value)
            && (urlArg.None? || urlArg.value == "" ==> es[0].newUrl == href)
  {
  }

  /** A wrapped call whose original method throws dispatches its BEFORE alone, and the page
      stays where it was. */
  lemma ThrownCallEvents(href: string, fnName: string, urlArg: Option<string>)
    ensures var es := Emitted(href, Threw(fnName, urlArg));
            && |es| == 1 && es[0].phase == Before
            && es[0].oldUrl == href && es[0].kind == fnName
            && es[0].newUrl == AnnouncedUrl(urlArg, href)
    ensures FinalHref(href, [Threw(fnName, urlArg)]) == href
  {
    assert [Threw(fnName, urlArg)][..0] == [];
  }

  /** What the original history method does: it moves the location to `hrefAfter` and returns
      `ret`, or it throws `error`. */
  datatype CallOutcome = Returned(hrefAfter: string, ret: Option<string>) | Raised(error: string)

  /** The navigation a wrapped call with that outcome is. */
  function CallNavigation(fnName: string, urlArg: Option<string>, outcome: CallOutcome): Navigation {
    match outcome
    case Returned(after, _) => Wrapped(fnName, urlArg, after)
    case Raised(_) => Threw(fnName, urlArg)
  }

  /** The page's location and the events dispatched so far. */
  class HistoryHook {
    var href: string
    var events: seq<NavEvent>

    constructor (href: string)
      ensures this.href == href && events == []
    {
      this.href := href;
      events := [];
    }

    /** A call of the wrapped `fnName` with URL argument `urlArg`, where the original method has
        the given `outcome`: the wrapper returns what it returns, or rethrows what it throws. */
    method CallWrapped(fnName: string, urlArg: Option<string>, outcome: CallOutcome)
      returns (r: CallOutcome)
      requires fnName in WrappedNames
      modifies this
      ensures r == outcome
      ensures href == FinalHref(old(href), [CallNavigation(fnName, urlArg, outcome)])
      ensures outcome.Returned? ==> href == outcome.hrefAfter
      ensures outcome.Raised? ==> href == old(href)
      ensures events == old(events) + Emitted(old(href), CallNavigation(fnName, urlArg, outcome))
    {
      var oldUrl := href;
      events := events + [NavEvent(Before, oldUrl, if urlArg.Some? && urlArg.value != "" then urlArg.value else oldUrl, fnName)];
      if outcome.Raised? {
        assert [CallNavigation(fnName, urlArg, outcome)][..0] == [];
        return outcome;
      }
      href := outcome.hrefAfter;
      var newUrl := href;
      events := events + [NavEvent(After, oldUrl, newUrl, fnName)];
      r := outcome;
    }

    /** The browser's `popstate` after it has moved the location to `hrefAfter`. */
    method OnPopState(hrefAfter: string)
      modifies this
      ensures href == hrefAfter
      ensures events == old(events) + Emitted(old(href), PopState(hrefAfter))
    {
      href := hrefAfter;
      events := events + [NavEvent(After, "", href, "popstate")];
    }
  }
}
