/** The page key: a URL with its tracking parameters removed and the remaining query
    parameters stably sorted by key, reassembled as `origin + path + ?query + hash`. */
module UrlNormalize {
  import opened Wrappers
  import opened Text
  import opened Model

  /** `STRIP_PARAMS`: keys removed by exact, case-sensitive comparison. */
  const StripParams: seq<string> := ["gclid", "fbclid", "mc_cid", "mc_eid", "ref", "ref_src"]

  /** A key the first deletion pass removes: it starts with `utm_` ignoring case. */
  predicate IsUtm(key: string) {
    StartsWith(Lower(key), "utm_")
  }

  /** A key one of the two deletion passes removes. */
  predicate IsTracking(key: string) {
    IsUtm(key) || key in StripParams
  }

  /** The parameters whose key is exactly `k`, in their order. */
  function WithKey(ps: seq<Param>, k: string): seq<Param>
    decreases |ps|
  {
    if ps == [] then []
    else (if ps[0].0 == k then [ps[0]] else []) + WithKey(ps[1..], k)
  }

  lemma WithKeyCons(x: Param, ps: seq<Param>, k: string)
    ensures WithKey([x] + ps, k) == (if x.0 == k then [x] else []) + WithKey(ps, k)
  {
    assert ([x] + ps)[1..] == ps;
  }

  lemma {:induction false} WithKeyMembers(ps: seq<Param>, k: string, x: Param)
    ensures x in WithKey(ps, k) <==> x in ps && x.0 == k
    decreases |ps|
  {
    if ps != [] {
      WithKeyMembers(ps[1..], k, x);
      assert ps == [ps[0]] + ps[1..];
    }
  }

  /** The query after both deletion passes: `params.delete(key)` removes every pair with that key,
      so the passes together keep exactly the pairs with a non-tracking key, in order. */
  function Retained(ps: seq<Param>): seq<Param>
    decreases |ps|
  {
    if ps == [] then []
    else
      var rest := Retained(ps[1..]);
      if IsTracking(ps[0].0) then rest else [ps[0]] + rest
  }

  /** The retained pairs are the non-tracking pairs of the query. */
  lemma {:induction false} RetainedMembers(ps: seq<Param>, x: Param)
    ensures x in Retained(ps) <==> x in ps && !IsTracking(x.0)
    decreases |ps|
  {
    if ps != [] {
      RetainedMembers(ps[1..], x);
      assert ps == [ps[0]] + ps[1..];
    }
  }

  /** Key by key, the deletion passes keep every pair of a non-tracking key, in order, and no pair
      of a tracking key. */
  lemma {:induction false} RetainedWithKey(ps: seq<Param>, k: string)
    ensures WithKey(Retained(ps), k) == if IsTracking(k) then [] else WithKey(ps, k)
    decreases |ps|
  {
    if ps != [] {
      RetainedWithKey(ps[1..], k);
      if !IsTracking(ps[0].0) {
        WithKeyCons(ps[0], Retained(ps[1..]), k);
      }
    }
  }

  // ---------------------------------------------------------------- the key order

  /** The comparison the sort uses, modelled as code-unit lexicographic order (see README). */
  predicate KeyLe(a: string, b: string)
    decreases |a|
  {
    |a| == 0 || (|b| > 0 && (a[0] < b[0] || (a[0] == b[0] && KeyLe(a[1..], b[1..]))))
  }

  lemma {:induction false} KeyLeReflexive(a: string)
    ensures KeyLe(a, a)
    decreases |a|
  {
    if |a| > 0 {
      KeyLeReflexive(a[1..]);
    }
  }

  lemma {:induction false} KeyLeTotal(a: string, b: string)
    ensures KeyLe(a, b) || KeyLe(b, a)
    decreases |a|
  {
    if |a| > 0 && |b| > 0 && a[0] == b[0] {
      KeyLeTotal(a[1..], b[1..]);
    }
  }

  lemma {:induction false} KeyLeAntisymmetric(a: string, b: string)
    requires KeyLe(a, b) && KeyLe(b, a)
    ensures a == b
    decreases |a|
  {
    if |a| > 0 {
      KeyLeAntisymmetric(a[1..], b[1..]);
      assert a == [a[0]] + a[1..] && b == [b[0]] + b[1..];
    }
  }

  lemma {:induction false} KeyLeTransitive(a: string, b: string, c: string)
    requires KeyLe(a, b) && KeyLe(b, c)
    ensures KeyLe(a, c)
    decreases |a|
  {
    if |a| > 0 && a[0] == b[0] && b[0] == c[0] {
      KeyLeTransitive(a[1..], b[1..], c[1..]);
    }
  }

  /** Ordered by key. */
  ghost predicate Sorted(ps: seq<Param>) {
    forall i, j :: 0 <= i < j < |ps| ==> KeyLe(ps[i].0, ps[j].0)
  }

  // ---------------------------------------------------------------- the stable sort

  /** Place `p` before the first element whose key is not below its own. */
  function Insert(p: Param, ps: seq<Param>): (r: seq<Param>)
    ensures multiset(r) == multiset(ps) + multiset{p}
    decreases |ps|
  {
    if ps == [] then [p]
    else if KeyLe(p.0, ps[0].0) then [p] + ps
    else
      assert ps == [ps[0]] + ps[1..];
      [ps[0]] + Insert(p, ps[1..])
  }

  /** `p` lands ahead of every pair with the same key, and the other keys keep their sublists. */
  lemma {:induction false} InsertWithKey(p: Param, ps: seq<Param>, k: string)
    ensures WithKey(Insert(p, ps), k) == (if p.0 == k then [p] else []) + WithKey(ps, k)
    decreases |ps|
  {
    if ps == [] {
    } else if KeyLe(p.0, ps[0].0) {
      WithKeyCons(p, ps, k);
    } else {
      KeyLeReflexive(p.0);
      InsertWithKey(p, ps[1..], k);
      WithKeyCons(ps[0], Insert(p, ps[1..]), k);
      WithKeyCons(ps[0], ps[1..], k);
      assert ps == [ps[0]] + ps[1..];
    }
  }

  lemma {:induction false} InsertSorted(p: Param, ps: seq<Param>)
    requires Sorted(ps)
    ensures Sorted(Insert(p, ps))
    decreases |ps|
  {
    if ps == [] {
    } else if KeyLe(p.0, ps[0].0) {
      forall i | 0 <= i < |ps| ensures KeyLe(p.0, ps[i].0) {
        if i > 0 {
          KeyLeTransitive(p.0, ps[0].0, ps[i].0);
        }
      }
      SortedCons(p, ps);
    } else {
      var tail := ps[1..];
      SortedTail(ps);
      InsertSorted(p, tail);
      KeyLeTotal(p.0, ps[0].0);
      var ins := Insert(p, tail);
      forall i | 0 <= i < |ins| ensures KeyLe(ps[0].0, ins[i].0) {
        var x := ins[i];
        assert x in multiset(ins);
        if x != p {
          assert x in multiset(tail);
          var m :| 0 <= m < |tail| && tail[m] == x;
          assert ps[m + 1] == x;
        }
      }
      SortedCons(ps[0], ins);
    }
  }

  /** A pair whose key is at most every key of a sorted list can go in front of it. */
  lemma SortedCons(q: Param, r: seq<Param>)
    requires Sorted(r)
    requires forall i :: 0 <= i < |r| ==> KeyLe(q.0, r[i].0)
    ensures Sorted([q] + r)
  {
    var s := [q] + r;
    forall i, j | 0 <= i < j < |s| ensures KeyLe(s[i].0, s[j].0) {
      assert s[j] == r[j - 1];
      if i > 0 {
        assert s[i] == r[i - 1];
      }
    }
  }

  /** The stable sort by key: `entries.sort((a, b) => a[0].localeCompare(b[0]))`. */
  function SortByKey(ps: seq<Param>): (r: seq<Param>)
    ensures Sorted(r)
    ensures multiset(r) == multiset(ps)
    decreases |ps|
  {
    if ps == [] then []
    else
      var rest := SortByKey(ps[1..]);
      InsertSorted(ps[0], rest);
      assert ps == [ps[0]] + ps[1..];
      Insert(ps[0], rest)
  }

  /** The sort is stable: pairs with equal keys keep their relative order. */
  lemma {:induction false} SortStable(ps: seq<Param>, k: string)
    ensures WithKey(SortByKey(ps), k) == WithKey(ps, k)
    decreases |ps|
  {
    if ps != [] {
      SortStable(ps[1..], k);
      InsertWithKey(ps[0], SortByKey(ps[1..]), k);
      WithKeyCons(ps[0], ps[1..], k);
      assert ps == [ps[0]] + ps[1..];
    }
  }

  /** Sorting a sorted list changes nothing. */
  lemma {:induction false} SortSortedIsIdentity(ps: seq<Param>)
    requires Sorted(ps)
    ensures SortByKey(ps) == ps
    decreases |ps|
  {
    if ps != [] {
      var tail := ps[1..];
      SortedTail(ps);
      SortSortedIsIdentity(tail);
      assert SortByKey(ps) == Insert(ps[0], tail);
      if tail != [] {
        assert KeyLe(ps[0].0, ps[1].0);
      }
      assert ps == [ps[0]] + tail;
    }
  }

  lemma SortedTail(ps: seq<Param>)
    requires Sorted(ps) && ps != []
    ensures Sorted(ps[1..])
  {
    var tail := ps[1..];
    forall i, j | 0 <= i < j < |tail| ensures KeyLe(tail[i].0, tail[j].0) {
      assert tail[i] == ps[i + 1] && tail[j] == ps[j + 1];
    }
  }

  /** Equal heads and equal sublists for `k` leave equal sublists for `k` in the tails. */
  lemma TailsWithKey(a: seq<Param>, b: seq<Param>, k: string)
    requires a != [] && b != [] && a[0] == b[0]
    requires WithKey(a, k) == WithKey(b, k)
    ensures WithKey(a[1..], k) == WithKey(b[1..], k)
  {
    var c := if a[0].0 == k then [a[0]] else [];
    assert WithKey(a[1..], k) == WithKey(a, k)[|c|..];
    assert WithKey(b[1..], k) == WithKey(b, k)[|c|..];
  }

  /** Two sorted lists with the same per-key sublists start with the same pair. */
  lemma SortedSameHead(a: seq<Param>, b: seq<Param>)
    requires Sorted(a) && Sorted(b) && a != [] && b != []
    requires forall k :: WithKey(a, k) == WithKey(b, k)
    ensures a[0] == b[0]
  {
    assert WithKey(a, b[0].0) == WithKey(b, b[0].0);
    assert WithKey(b, a[0].0) == WithKey(a, a[0].0);
    HeadKeyLe(a, b);
    HeadKeyLe(b, a);
    KeyLeAntisymmetric(a[0].0, b[0].0);
    var k0 := a[0].0;
    assert b[0].0 == k0;
    WithKeyHead(a);
    WithKeyHead(b);
    assert WithKey(a, k0) == WithKey(b, k0);
  }

  /** The pairs with the first key start with the first pair. */
  lemma WithKeyHead(a: seq<Param>)
    requires a != []
    ensures WithKey(a, a[0].0) != [] && WithKey(a, a[0].0)[0] == a[0]
  {
    assert WithKey(a, a[0].0) == [a[0]] + WithKey(a[1..], a[0].0);
  }

  /** When two lists agree on the pairs with `b`'s first key, the first key of a sorted `a` is at
      most that key. */
  lemma HeadKeyLe(a: seq<Param>, b: seq<Param>)
    requires Sorted(a) && a != [] && b != []
    requires WithKey(a, b[0].0) == WithKey(b, b[0].0)
    ensures KeyLe(a[0].0, b[0].0)
  {
    WithKeyMembers(b, b[0].0, b[0]);
    WithKeyMembers(a, b[0].0, b[0]);
    var i :| 0 <= i < |a| && a[i] == b[0];
    if i == 0 {
      KeyLeReflexive(a[0].0);
    } else {
      assert KeyLe(a[0].0, a[i].0);
    }
  }

  /** A sorted list is determined by its per-key sublists. */
  lemma {:induction false} SortedDeterminedByKeys(a: seq<Param>, b: seq<Param>)
    requires Sorted(a) && Sorted(b)
    requires forall k :: WithKey(a, k) == WithKey(b, k)
    ensures a == b
    decreases |a|
  {
    if a == [] {
      if b != [] {
        WithKeyMembers(b, b[0].0, b[0]);
        WithKeyMembers(a, b[0].0, b[0]);
      }
    } else if b == [] {
      WithKeyMembers(a, a[0].0, a[0]);
      WithKeyMembers(b, a[0].0, a[0]);
    } else {
      SortedSameHead(a, b);
      forall k ensures WithKey(a[1..], k) == WithKey(b[1..], k) {
        TailsWithKey(a, b, k);
      }
      SortedTail(a);
      SortedTail(b);
      SortedDeterminedByKeys(a[1..], b[1..]);
      assert a == [a[0]] + a[1..] && b == [b[0]] + b[1..];
    }
  }

  // ---------------------------------------------------------------- the page key

  /** The parameters of the page key: tracking pairs removed, the rest stably sorted by key. */
  function CleanQuery(ps: seq<Param>): (r: seq<Param>)
    ensures forall i :: 0 <= i < |r| ==> !IsUtm(r[i].0) && r[i].0 !in StripParams
    ensures Sorted(r)
    ensures multiset(r) == multiset(Retained(ps))
  {
    var kept := Retained(ps);
    var r := SortByKey(kept);
    assert forall i :: 0 <= i < |r| ==> r[i] in multiset(kept);
    RetainedNoTracking(ps);
    r
  }

  lemma {:induction false} RetainedNoTracking(ps: seq<Param>)
    ensures forall x :: x in Retained(ps) ==> !IsTracking(x.0)
    decreases |ps|
  {
    if ps != [] {
      RetainedNoTracking(ps[1..]);
    }
  }

  /** Key by key, the page key's parameters are exactly the query's pairs of that key, in their
      original order, for a non-tracking key, and none for a tracking key. */
  lemma CleanQueryWithKey(ps: seq<Param>, k: string)
    ensures WithKey(CleanQuery(ps), k) == if IsTracking(k) then [] else WithKey(ps, k)
  {
    SortStable(Retained(ps), k);
    RetainedWithKey(ps, k);
  }

  /** `URLSearchParams#toString`: `key=value` pairs joined by `&`; `encode` is the
      form-urlencoding of one key or value. */
  function Serialize(ps: seq<Param>, encode: string -> string): (s: string)
    ensures s == "" <==> ps == []
    decreases |ps|
  {
    if ps == [] then ""
    else
      var head := encode(ps[0].0) + "=" + encode(ps[0].1);
      assert head[|encode(ps[0].0)|] == '=';
      if |ps| == 1 then head else head + "&" + Serialize(ps[1..], encode)
  }

  /** `${origin}${pathname}${search ? '?' + search : ''}${hash}`. */
  function Assemble(u: ParsedUrl, ps: seq<Param>, encode: string -> string): (s: string)
    ensures ps == [] ==> s == u.origin + u.pathname + u.hash
    ensures ps != [] ==> s == u.origin + u.pathname + "?" + Serialize(ps, encode) + u.hash
  {
    var search := Serialize(ps, encode);
    u.origin + u.pathname + (if search != "" then "?" + search else "") + u.hash
  }

  /** `normalizeUrl`: the parsed URL reassembled from its cleaned query; the input itself when
      it does not parse (`input || ''` is the input for a string). */
  function NormalizeUrl(input: string, parse: UrlParser, encode: string -> string): (r: string)
    ensures parse(input).None? ==> r == input
    ensures parse(input).Some? ==>
              var u := parse(input).value;
              r == Assemble(u, CleanQuery(u.query), encode)
  {
    match parse(input)
    case None => input
    case Some(u) => Assemble(u, CleanQuery(u.query), encode)
  }

  /** Cleaning is idempotent on the parameter model. */
  lemma CleanQueryIdempotent(ps: seq<Param>)
    ensures CleanQuery(CleanQuery(ps)) == CleanQuery(ps)
  {
    var c := CleanQuery(ps);
    RetainedOfClean(c);
    SortSortedIsIdentity(c);
  }

  lemma {:induction false} RetainedOfClean(ps: seq<Param>)
    requires forall i :: 0 <= i < |ps| ==> !IsTracking(ps[i].0)
    ensures Retained(ps) == ps
    decreases |ps|
  {
    if ps != [] {
      RetainedOfClean(ps[1..]);
      assert ps == [ps[0]] + ps[1..];
    }
  }

  /** Two queries that agree, key by key, on their non-tracking pairs clean to the same parameters:
      the order between different keys and the presence of tracking pairs do not matter. */
  lemma CleanQueryDependsOnlyOnKeys(ps: seq<Param>, qs: seq<Param>)
    requires forall k :: !IsTracking(k) ==> WithKey(ps, k) == WithKey(qs, k)
    ensures CleanQuery(ps) == CleanQuery(qs)
  {
    forall k ensures WithKey(CleanQuery(ps), k) == WithKey(CleanQuery(qs), k) {
      CleanQueryWithKey(ps, k);
      CleanQueryWithKey(qs, k);
    }
    SortedDeterminedByKeys(CleanQuery(ps), CleanQuery(qs));
  }

  /** No key occurs twice. */
  predicate DistinctKeys(ps: seq<Param>) {
    forall i, j :: 0 <= i < j < |ps| ==> ps[i].0 != ps[j].0
  }

  lemma {:induction false} WithKeyAbsent(ps: seq<Param>, k: string)
    requires forall i :: 0 <= i < |ps| ==> ps[i].0 != k
    ensures WithKey(ps, k) == []
    decreases |ps|
  {
    if ps != [] {
      WithKeyAbsent(ps[1..], k);
    }
  }

  /** With distinct keys, each key has at most one pair. */
  lemma {:induction false} DistinctWithKey(ps: seq<Param>, k: string)
    requires DistinctKeys(ps)
    ensures |WithKey(ps, k)| <= 1
    decreases |ps|
  {
    if ps != [] {
      var tail := ps[1..];
      if ps[0].0 == k {
        WithKeyAbsent(tail, k);
      } else {
        DistinctWithKey(tail, k);
      }
    }
  }

  /** Two lists with distinct keys and the same pairs have the same, at most one, pair per key. */
  lemma SameWithKey(a: seq<Param>, b: seq<Param>, k: string)
    requires DistinctKeys(a) && DistinctKeys(b)
    requires multiset(a) == multiset(b)
    ensures WithKey(a, k) == WithKey(b, k)
  {
    DistinctWithKey(a, k);
    DistinctWithKey(b, k);
    if WithKey(a, k) != [] {
      var x := WithKey(a, k)[0];
      WithKeyMembers(a, k, x);
      assert x in multiset(b);
      WithKeyMembers(b, k, x);
    }
    if WithKey(b, k) != [] {
      var y := WithKey(b, k)[0];
      WithKeyMembers(b, k, y);
      assert y in multiset(a);
      WithKeyMembers(a, k, y);
    }
  }

  /** Two URLs with the same origin, path and hash whose non-tracking pairs are the same, with
      distinct keys, in any order and with any tracking pairs among them, give the same page key. */
  lemma NormalizeIgnoresOrderAndTracking(u: ParsedUrl, v: ParsedUrl, encode: string -> string)
    requires u.origin == v.origin && u.pathname == v.pathname && u.hash == v.hash
    requires DistinctKeys(Retained(u.query)) && DistinctKeys(Retained(v.query))
    requires multiset(Retained(u.query)) == multiset(Retained(v.query))
    ensures Assemble(u, CleanQuery(u.query), encode) == Assemble(v, CleanQuery(v.query), encode)
  {
    forall k | !IsTracking(k) ensures WithKey(u.query, k) == WithKey(v.query, k) {
      SameWithKey(Retained(u.query), Retained(v.query), k);
      RetainedWithKey(u.query, k);
      RetainedWithKey(v.query, k);
    }
    CleanQueryDependsOnlyOnKeys(u.query, v.query);
  }
}
