/** String helpers that stand in for the JavaScript string methods the extension uses. */
module Text {

  /** Lower-casing of one character, ASCII letters only (see README, "Left out"). */
  function LowerChar(c: char): char {
    if 'A' <= c <= 'Z' then (c as int + 32) as char else c
  }

  /** `String.prototype.toLowerCase`, restricted to ASCII letters. */
  function Lower(s: string): (r: string)
    ensures |r| == |s|
  {
    seq(|s|, i requires 0 <= i < |s| => LowerChar(s[i]))
  }

  /** `s.startsWith(p)`. */
  predicate StartsWith(s: string, p: string) {
    p <= s
  }

  /** `s.includes(sub)`: `sub` occurs as a contiguous piece of `s`. */
  predicate Contains(s: string, sub: string)
    decreases |s|
  {
    sub <= s || (|s| > 0 && Contains(s[1..], sub))
  }

  /** Case-insensitive containment of a lower-case pattern (a regular expression with the `i` flag). */
  predicate ContainsIgnoringCase(s: string, lowerPattern: string) {
    Contains(Lower(s), lowerPattern)
  }

  /** `parts.join(sep)`. */
  function Join(parts: seq<string>, sep: string): string
    decreases |parts|
  {
    if |parts| == 0 then ""
    else if |parts| == 1 then parts[0]
    else parts[0] + sep + Join(parts[1..], sep)
  }

  /** `s.split(d)` for a one-character separator: always at least one piece. */
  function Split(s: string, d: char): (r: seq<string>)
    ensures |r| >= 1
    decreases |s|
  {
    if |s| == 0 then [""]
    else
      var rest := Split(s[1..], d);
      if s[0] == d then [""] + rest else [[s[0]] + rest[0]] + rest[1..]
  }

  /** A string without the separator splits into itself. */
  lemma {:induction false} SplitWithoutSeparator(s: string, d: char)
    requires d !in s
    ensures Split(s, d) == [s]
    decreases |s|
  {
    if |s| > 0 {
      assert d !in s[1..];
      SplitWithoutSeparator(s[1..], d);
      assert s[0] != d;
      assert [s[0]] + s[1..] == s;
    }
  }

  /** Splitting distributes over a separator: the pieces of `a + d + b` are those of `a`, then those of `b`. */
  lemma {:induction false} SplitAround(a: string, d: char, b: string)
    ensures Split(a + [d] + b, d) == Split(a, d) + Split(b, d)
    decreases |a|
  {
    if |a| == 0 {
      SplitAroundEmpty(a, d, b);
    } else {
      SplitAround(a[1..], d, b);
      SplitAroundStep(a, d, b);
    }
  }

  lemma SplitAroundEmpty(a: string, d: char, b: string)
    requires |a| == 0
    ensures Split(a + [d] + b, d) == Split(a, d) + Split(b, d)
  {
    assert a + [d] + b == [d] + b;
    assert ([d] + b)[1..] == b;
  }

  /** The inductive step of `SplitAround`, from the string without its first character. */
  lemma SplitAroundStep(a: string, d: char, b: string)
    requires |a| > 0
    requires Split(a[1..] + [d] + b, d) == Split(a[1..], d) + Split(b, d)
    ensures Split(a + [d] + b, d) == Split(a, d) + Split(b, d)
  {
    ConsAround(a, d, b);
    if a[0] == d {
      StepAtSeparator(a[0], a[1..] + [d] + b, a[1..], d, Split(b, d));
    } else {
      StepInPiece(a[0], a[1..] + [d] + b, a[1..], d, Split(b, d));
    }
  }

  /** A leading separator starts a new, empty, piece. */
  lemma StepAtSeparator(c: char, t: string, r: string, d: char, y: seq<string>)
    requires c == d && Split(t, d) == Split(r, d) + y
    ensures Split([c] + t, d) == Split([c] + r, d) + y
  {
    SplitCons(c, t, d);
    SplitCons(c, r, d);
  }

  /** Any other leading character joins the first piece. */
  lemma StepInPiece(c: char, t: string, r: string, d: char, y: seq<string>)
    requires c != d && Split(t, d) == Split(r, d) + y
    ensures Split([c] + t, d) == Split([c] + r, d) + y
  {
    SplitCons(c, t, d);
    SplitCons(c, r, d);
    GlueAppend([c], Split(r, d), y);
  }

  lemma ConsAround(a: string, d: char, b: string)
    requires |a| > 0
    ensures a + [d] + b == [a[0]] + (a[1..] + [d] + b)
    ensures a == [a[0]] + a[1..]
  {
  }

  /** `Split` of a string by its first character. */
  lemma SplitCons(c: char, t: string, d: char)
    ensures Split([c] + t, d)
              == if c == d then [""] + Split(t, d) else [[c] + Split(t, d)[0]] + Split(t, d)[1..]
  {
    assert ([c] + t)[1..] == t;
  }

  /** Gluing a prefix onto the first piece commutes with appending more pieces. */
  lemma GlueAppend(h: string, x: seq<string>, y: seq<string>)
    requires |x| >= 1
    ensures [h + (x + y)[0]] + (x + y)[1..] == ([h + x[0]] + x[1..]) + y
  {
    assert (x + y)[0] == x[0];
    assert (x + y)[1..] == x[1..] + y;
  }

  /** `Split` undoes `Join` when no piece contains the separator. */
  lemma {:induction false} SplitJoin(parts: seq<string>, d: char)
    requires |parts| >= 1
    requires forall i :: 0 <= i < |parts| ==> d !in parts[i]
    ensures Split(Join(parts, [d]), d) == parts
    decreases |parts|
  {
    if |parts| == 1 {
      SplitWithoutSeparator(parts[0], d);
    } else {
      SplitAround(parts[0], d, Join(parts[1..], [d]));
      SplitWithoutSeparator(parts[0], d);
      SplitJoin(parts[1..], d);
    }
  }

  /** The characters `String.prototype.trim` removes: white space and line terminators. */
  predicate IsSpace(c: char) {
    c == '\t' || c == '\n' || c == '\U{000B}' || c == '\U{000C}' || c == '\r' || c == ' '
    || c == '\U{00A0}' || c == '\U{1680}' || ('\U{2000}' <= c <= '\U{200A}')
    || c == '\U{2028}' || c == '\U{2029}' || c == '\U{202F}' || c == '\U{205F}'
    || c == '\U{3000}' || c == '\U{FEFF}'
  }

  /** Neither end of `s` is white space. */
  predicate Trimmed(s: string) {
    |s| == 0 || (!IsSpace(s[0]) && !IsSpace(s[|s| - 1]))
  }

  function TrimStart(s: string): (r: string)
    ensures |r| <= |s| && r == s[|s| - |r|..]
    ensures |r| == 0 || !IsSpace(r[0])
    decreases |s|
  {
    if |s| > 0 && IsSpace(s[0]) then TrimStart(s[1..]) else s
  }

  function TrimEnd(s: string): (r: string)
    ensures |r| <= |s| && r == s[..|r|]
    ensures |r| == 0 || !IsSpace(r[|r| - 1])
    decreases |s|
  {
    if |s| > 0 && IsSpace(s[|s| - 1]) then TrimEnd(s[..|s| - 1]) else s
  }

  /** `s.trim()`. */
  function Trim(s: string): (r: string)
    ensures Trimmed(r)
    ensures Trimmed(s) ==> r == s
  {
    var t := TrimStart(s);
    var r := TrimEnd(t);
    assert |r| > 0 ==> r[0] == t[0];
    r
  }

  /** Trimming removes white space at both ends and nothing else: the result is a slice of the
      string with only white space before and after it. */
  lemma TrimRemovesOnlyEnds(s: string)
    ensures var r := Trim(s);
            exists i, j :: 0 <= i <= j <= |s| && r == s[i..j]
                           && (forall k :: 0 <= k < i ==> IsSpace(s[k]))
                           && (forall k :: j <= k < |s| ==> IsSpace(s[k]))
  {
    var t := TrimStart(s);
    var r := TrimEnd(t);
    TrimStartDropsSpaces(s);
    TrimEndDropsSpaces(t);
    var i := |s| - |t|;
    var j := i + |r|;
    assert r == s[i..j];
    forall k | j <= k < |s| ensures IsSpace(s[k]) {
      assert s[k] == t[k - i];
    }
  }

  /** `TrimStart` drops only white space. */
  lemma {:induction false} TrimStartDropsSpaces(s: string)
    ensures forall k :: 0 <= k < |s| - |TrimStart(s)| ==> IsSpace(s[k])
    decreases |s|
  {
    if |s| > 0 && IsSpace(s[0]) {
      TrimStartDropsSpaces(s[1..]);
      forall k | 1 <= k < |s| - |TrimStart(s)| ensures IsSpace(s[k]) {
        assert s[k] == s[1..][k - 1];
      }
    }
  }

  /** `TrimEnd` drops only white space. */
  lemma {:induction false} TrimEndDropsSpaces(s: string)
    ensures forall k :: |TrimEnd(s)| <= k < |s| ==> IsSpace(s[k])
    decreases |s|
  {
    if |s| > 0 && IsSpace(s[|s| - 1]) {
      TrimEndDropsSpaces(s[..|s| - 1]);
      forall k | |TrimEnd(s)| <= k < |s| - 1 ensures IsSpace(s[k]) {
        assert s[k] == s[..|s| - 1][k];
      }
    }
  }

  function DigitChar(d: nat): char
    requires d < 10
  {
    "0123456789"[d]
  }

  /** The decimal notation JavaScript prints for a non-negative integer. */
  function NatToString(n: nat): string
    decreases n
  {
    if n < 10 then [DigitChar(n)] else NatToString(n / 10) + [DigitChar(n % 10)]
  }

  /** The decimal notation JavaScript prints for an integer, with a leading `-` when negative. */
  function IntToString(i: int): string {
    if i < 0 then "-" + NatToString(-i) else NatToString(i)
  }
}
