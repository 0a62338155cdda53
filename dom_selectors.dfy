/** Field identity: a CSS path from `body` down to an element, and the descriptor a form field
    is saved and found again under.

    The document is the sequence of its elements in document order; an element is named by
    its position, and its `parent` is the position of its parent element, which comes first. */
module DomSelectors {
  import opened Wrappers
  import opened Text
  import opened Model

  /** From `n`, the ancestor walk reaches `body` or an element with an id before it would need
      the parent of a parentless element; each parent precedes its child. */
  predicate Walkable(elems: seq<Element>, body: nat, n: nat)
    decreases n
  {
    n < |elems| &&
    (n == body || elems[n].id != "" ||
     (elems[n].parent.Some? && elems[n].parent.value < n && Walkable(elems, body, elems[n].parent.value)))
  }

  /** What `cssPath` needs of its argument: the element exists, and when it has a parent the walk
      from it is well defined. */
  predicate PathDefined(elems: seq<Element>, body: nat, n: nat) {
    n < |elems| && (elems[n].parent.None? || Walkable(elems, body, n))
  }

  // ---------------------------------------------------------------- siblings

  /** The children of `p` among the first `upto` elements whose tag name is exactly `tag`, in
      document order: `Array.from(parent.children).filter(n => n.tagName === tag)`. */
  function SameTagChildren(elems: seq<Element>, p: nat, tag: string, upto: nat): (r: seq<nat>)
    requires upto <= |elems|
    ensures forall i :: 0 <= i < |r| ==> r[i] < upto
    ensures forall i :: 0 <= i < |r| ==> elems[r[i]].parent == Some(p) && elems[r[i]].tagName == tag
    ensures forall i, j :: 0 <= i < j < |r| ==> r[i] < r[j]
    ensures forall m :: 0 <= m < upto && elems[m].parent == Some(p) && elems[m].tagName == tag ==> m in r
    decreases upto
  {
    if upto == 0 then []
    else
      var m := upto - 1;
      SameTagChildren(elems, p, tag, m) +
        (if elems[m].parent == Some(p) && elems[m].tagName == tag then [m] else [])
  }

  /** `Array#indexOf`: the first position of `x`, or -1. */
  function IndexOf(s: seq<nat>, x: nat): (i: int)
    ensures -1 <= i < |s|
    ensures i == -1 <==> x !in s
    ensures i >= 0 ==> s[i] == x && x !in s[..i]
    decreases |s|
  {
    if |s| == 0 then -1
    else if s[0] == x then 0
    else
      var j := IndexOf(s[1..], x);
      if j < 0 then -1 else j + 1
  }

  /** The same-tag siblings of `n`, itself included. */
  function Siblings(elems: seq<Element>, n: nat): seq<nat>
    requires n < |elems| && elems[n].parent.Some?
  {
    SameTagChildren(elems, elems[n].parent.value, elems[n].tagName, |elems|)
  }

  /** `:nth-of-type(k)` names the element's 1-based position among its same-tag siblings:
      it is one of them, exactly `k - 1` of them precede it in document order and the others
      follow it. */
  lemma NthIsPosition(elems: seq<Element>, n: nat)
    requires n < |elems| && elems[n].parent.Some?
    ensures var sibs := Siblings(elems, n);
            var k := IndexOf(sibs, n) + 1;
            1 <= k <= |sibs| && sibs[k - 1] == n &&
            (forall i :: 0 <= i < k - 1 ==> sibs[i] < n) &&
            (forall i :: k - 1 < i < |sibs| ==> n < sibs[i])
  {
  }

  // ---------------------------------------------------------------- path parts

  /** One step of the path: an id stops the walk, otherwise the lower-case tag name with an
      optional position among same-tag siblings. */
  datatype Part = IdPart(id: string) | TagPart(tag: string, nth: Option<int>)

  /** The part the loop builds for element `n`. */
  function PartOf(elems: seq<Element>, n: nat): Part
    requires n < |elems|
  {
    var el := elems[n];
    if el.id != "" then IdPart(el.id)
    else if el.parent.None? then TagPart(Lower(el.tagName), None)
    else
      var sibs := Siblings(elems, n);
      TagPart(Lower(el.tagName), if |sibs| > 1 then Some(IndexOf(sibs, n) + 1) else None)
  }

  /** A part without an id carries an index exactly when its parent has more than one child with
      the same tag name, and the index is the position `NthIsPosition` describes. */
  lemma PartOfShape(elems: seq<Element>, n: nat)
    requires n < |elems| && elems[n].id == "" && elems[n].parent.Some?
    ensures PartOf(elems, n).TagPart?
    ensures PartOf(elems, n).tag == Lower(elems[n].tagName)
    ensures PartOf(elems, n).nth.Some? <==> |Siblings(elems, n)| > 1
    ensures PartOf(elems, n).nth.Some? ==> PartOf(elems, n).nth.value == IndexOf(Siblings(elems, n), n) + 1
  {
  }

  /** The text of a part; `escape` is `CSS.escape`. */
  function Render(part: Part, escape: string -> string): string {
    match part
    case IdPart(id) => "#" + escape(id)
    case TagPart(tag, None) => tag
    case TagPart(tag, Some(k)) => tag + ":nth-of-type(" + IntToString(k) + ")"
  }

  /** The elements the walk from `n` visits, root first: the ancestors-or-self of `n` below
      `body`, cut at the nearest one with an id. */
  function PathNodes(elems: seq<Element>, body: nat, n: nat): (r: seq<nat>)
    requires Walkable(elems, body, n)
    ensures forall i :: 0 <= i < |r| ==> r[i] < |elems|
    decreases n
  {
    if n == body then []
    else if elems[n].id != "" then [n]
    else PathNodes(elems, body, elems[n].parent.value) + [n]
  }

  /** The visited elements form a chain of ancestors: the last is `n`, each is the parent of the
      next, none is `body`, only the first may have an id, and the first is a child of `body`
      unless it has an id. */
  lemma {:induction false} PathNodesChain(elems: seq<Element>, body: nat, n: nat)
    requires Walkable(elems, body, n)
    ensures var r := PathNodes(elems, body, n);
            (r == [] <==> n == body) &&
            (r != [] ==> r[|r| - 1] == n) &&
            (forall i :: 0 <= i < |r| ==> r[i] != body) &&
            (forall i :: 1 <= i < |r| ==> elems[r[i]].parent == Some(r[i - 1]) && elems[r[i]].id == "") &&
            (r != [] ==> elems[r[0]].id != "" || elems[r[0]].parent == Some(body))
    decreases n
  {
    if n != body && elems[n].id == "" {
      var p := elems[n].parent.value;
      PathNodesChain(elems, body, p);
    }
  }

  /** The rendered parts of a list of elements. */
  function RenderAll(elems: seq<Element>, ns: seq<nat>, escape: string -> string): (r: seq<string>)
    requires forall i :: 0 <= i < |ns| ==> ns[i] < |elems|
    ensures |r| == |ns|
    decreases |ns|
  {
    if ns == [] then [] else [Render(PartOf(elems, ns[0]), escape)] + RenderAll(elems, ns[1..], escape)
  }

  /** `cssPath(el)`: empty for a missing element or one without a parent, otherwise the rendered
      parts joined with `' > '`. */
  function CssPathString(elems: seq<Element>, body: nat, el: Option<nat>, escape: string -> string): string
    requires el.Some? ==> PathDefined(elems, body, el.value)
  {
    if el.None? || elems[el.value].parent.None? then ""
    else Join(RenderAll(elems, PathNodes(elems, body, el.value), escape), " > ")
  }

  /** The ancestor walk of `cssPath`: the loop prepends one part per element until it reaches
      `body` or has prepended the part of an element with an id. */
  method CssPath(elems: seq<Element>, body: nat, el: Option<nat>, escape: string -> string) returns (path: string)
    requires el.Some? ==> PathDefined(elems, body, el.value)
    ensures path == CssPathString(elems, body, el, escape)
  {
    if el.None? || elems[el.value].parent.None? {
      return "";
    }
    var target := el.value;
    var parts: seq<string> := [];
    var node := target;
    ghost var visited: seq<nat> := [];
    while node != body
      invariant Walkable(elems, body, node)
      invariant PathNodes(elems, body, target) == PathNodes(elems, body, node) + visited
      invariant forall i :: 0 <= i < |visited| ==> visited[i] < |elems|
      invariant parts == RenderAll(elems, visited, escape)
      decreases node
    {
      var part := Render(PartOf(elems, node), escape);
      RenderStep(elems, node, visited, escape);
      WalkStep(elems, body, target, node, visited);
      if elems[node].id != "" {
        parts := [part] + parts;
        visited := [node] + visited;
        break;
      }
      var up := elems[node].parent.value;
      parts := [part] + parts;
      visited := [node] + visited;
      node := up;
    }
    assert PathNodes(elems, body, target) == visited;
    path := Join(parts, " > ");
  }

  /** Prepending an element to the visited ones prepends its part to the rendered parts. */
  lemma RenderStep(elems: seq<Element>, node: nat, visited: seq<nat>, escape: string -> string)
    requires node < |elems|
    requires forall i :: 0 <= i < |visited| ==> visited[i] < |elems|
    ensures forall i :: 0 <= i < |[node] + visited| ==> ([node] + visited)[i] < |elems|
    ensures RenderAll(elems, [node] + visited, escape)
              == [Render(PartOf(elems, node), escape)] + RenderAll(elems, visited, escape)
  {
    assert ([node] + visited)[1..] == visited;
    forall i | 0 <= i < |[node] + visited| ensures ([node] + visited)[i] < |elems| {
      if i > 0 {
        assert ([node] + visited)[i] == visited[i - 1];
      }
    }
  }

  /** One step of the walk in `CssPath`: it either stops at `node`, an element with an id, or
      goes on from its parent. */
  lemma WalkStep(elems: seq<Element>, body: nat, target: nat, node: nat, visited: seq<nat>)
    requires Walkable(elems, body, target) && Walkable(elems, body, node) && node != body
    requires PathNodes(elems, body, target) == PathNodes(elems, body, node) + visited
    ensures elems[node].id != "" ==> PathNodes(elems, body, target) == [node] + visited
    ensures elems[node].id == "" ==>
              && elems[node].parent.Some? && elems[node].parent.value < node
              && Walkable(elems, body, elems[node].parent.value)
              && PathNodes(elems, body, target)
                   == PathNodes(elems, body, elems[node].parent.value) + ([node] + visited)
  {
    if elems[node].id == "" {
      var up := elems[node].parent.value;
      PathNodesUp(elems, body, node);
      AppendAssoc(PathNodes(elems, body, up), [node], visited);
    }
  }

  /** Below `body`, an element without an id extends the path of its parent. */
  lemma PathNodesUp(elems: seq<Element>, body: nat, node: nat)
    requires Walkable(elems, body, node) && node != body && elems[node].id == ""
    ensures elems[node].parent.Some? && elems[node].parent.value < node
    ensures Walkable(elems, body, elems[node].parent.value)
    ensures PathNodes(elems, body, node) == PathNodes(elems, body, elems[node].parent.value) + [node]
  {
  }

  lemma AppendAssoc(x: seq<nat>, y: seq<nat>, z: seq<nat>)
    ensures x + y + z == x + (y + z)
  {
  }

  /** An element with an id (other than `body`) has the one-part path `#<escaped id>`. */
  lemma IdGivesSinglePart(elems: seq<Element>, body: nat, n: nat, escape: string -> string)
    requires n < |elems| && n != body && elems[n].id != "" && elems[n].parent.Some?
    ensures CssPathString(elems, body, Some(n), escape) == "#" + escape(elems[n].id)
  {
  }

  /** The walk stops at the nearest id: only the leftmost part can be an id part, and when the
      leftmost element has no id its parent is `body`. */
  lemma OnlyLeftmostHasId(elems: seq<Element>, body: nat, n: nat)
    requires Walkable(elems, body, n)
    ensures var ns := PathNodes(elems, body, n);
            (forall i :: 0 < i < |ns| ==> PartOf(elems, ns[i]).TagPart?) &&
            (ns != [] && PartOf(elems, ns[0]).TagPart? ==> elems[ns[0]].parent == Some(body))
  {
    var ns := PathNodes(elems, body, n);
    PathNodesChain(elems, body, n);
    forall i | 0 < i < |ns| ensures PartOf(elems, ns[i]).TagPart? {
      assert elems[ns[i]].id == "";
    }
  }

  /** `body` itself has the empty path. */
  lemma BodyHasEmptyPath(elems: seq<Element>, body: nat, escape: string -> string)
    requires body < |elems| && elems[body].parent.Some?
    ensures CssPathString(elems, body, Some(body), escape) == ""
  {
  }

  /** How far below `body` an element lies, when `body` is among its ancestors-or-self. */
  function DepthBelow(elems: seq<Element>, body: nat, n: nat): Option<nat>
    decreases n
  {
    if n == body then Some(0)
    else if n >= |elems| || elems[n].parent.None? || elems[n].parent.value >= n then None
    else match DepthBelow(elems, body, elems[n].parent.value)
      case None => None
      case Some(d) => Some(d + 1)
  }

  /** The path has at most as many parts as the element lies levels below `body`. */
  lemma {:induction false} PartsAtMostDepth(elems: seq<Element>, body: nat, n: nat)
    requires Walkable(elems, body, n) && DepthBelow(elems, body, n).Some?
    ensures |PathNodes(elems, body, n)| <= DepthBelow(elems, body, n).value
    decreases n
  {
    if n != body && elems[n].id == "" {
      PartsAtMostDepth(elems, body, elems[n].parent.value);
    }
  }

  // ---------------------------------------------------------------- fieldKey

  /** `el.form ? Array.from(document.forms).indexOf(el.form) : -1`. */
  function FormIndex(el: Element): int {
    if el.form.Some? then el.form.value else -1
  }

  /** `fieldKey(el)`: the id when there is one, else the name qualified by tag, type and form,
      else the CSS path. `fieldKey` computes the path only in its last case, but `PathDefined` is
      required throughout: its one caller, `serializeField`, computes the path of every field it
      saves anyway. */
  function FieldKey(elems: seq<Element>, body: nat, n: nat, escape: string -> string): (r: FieldDescriptor)
    requires PathDefined(elems, body, n)
    ensures elems[n].id != "" ==> r == ById(elems[n].id)
    ensures elems[n].id == "" && elems[n].name != "" ==>
              r.ByName? && r.value == Join([elems[n].name, Lower(elems[n].tagName),
                                            Lower(elems[n].inputType), IntToString(FormIndex(elems[n]))], "|")
    ensures r.BySelector? <==> elems[n].id == "" && elems[n].name == ""
    ensures r.BySelector? ==> r.value == CssPathString(elems, body, Some(n), escape)
  {
    var el := elems[n];
    var tag := Lower(el.tagName);
    var inputType := Lower(el.inputType);
    if el.id != "" then ById(el.id)
    else if el.name != "" then
      JoinFour(el.name, tag, inputType, IntToString(FormIndex(el)), "|");
      ByName(el.name + "|" + tag + "|" + inputType + "|" + IntToString(FormIndex(el)))
    else BySelector(CssPathString(elems, body, Some(n), escape))
  }

  lemma JoinFour(a: string, b: string, c: string, d: string, sep: string)
    ensures Join([a, b, c, d], sep) == a + sep + b + sep + c + sep + d
  {
    assert [a, b, c, d][1..] == [b, c, d];
    assert [b, c, d][1..] == [c, d];
    assert [c, d][1..] == [d];
    assert Join([c, d], sep) == c + sep + d;
    assert Join([b, c, d], sep) == b + sep + (c + sep + d);
  }

  lemma NatToStringDigits(n: nat)
    ensures forall c :: c in NatToString(n) ==> '0' <= c <= '9'
  {
  }

  lemma LowerKeepsPipe(s: string)
    requires '|' !in s
    ensures '|' !in Lower(s)
  {
  }

  /** A name key determines its parts: for a name, tag and type without `|`, splitting the key at
      `|` gives back the name, the lower-case tag, the lower-case type and the form index. */
  lemma NameKeyDecodes(elems: seq<Element>, body: nat, n: nat, escape: string -> string)
    requires PathDefined(elems, body, n)
    requires elems[n].id == "" && elems[n].name != ""
    requires '|' !in elems[n].name && '|' !in elems[n].tagName && '|' !in elems[n].inputType
    ensures Split(FieldKey(elems, body, n, escape).value, '|')
              == [elems[n].name, Lower(elems[n].tagName), Lower(elems[n].inputType), IntToString(FormIndex(elems[n]))]
  {
    var el := elems[n];
    var parts := [el.name, Lower(el.tagName), Lower(el.inputType), IntToString(FormIndex(el))];
    LowerKeepsPipe(el.tagName);
    LowerKeepsPipe(el.inputType);
    var i := FormIndex(el);
    if i < 0 {
      NatToStringDigits(-i);
    } else {
      NatToStringDigits(i);
    }
    assert '|' !in IntToString(i);
    SplitJoin(parts, '|');
  }
}
