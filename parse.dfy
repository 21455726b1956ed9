/** The two patterns of jdextract/parse.go, as matchers with Go's RE2
    semantics: the leftmost match wins, and among the matches at that
    position the one the pattern's greedy and lazy operators prefer.

    `headingRe` is `(?m)^#{1,2}\s+(.+)` and `separatorRe` is
    `(?i)^(.+?)\s+(?:at|[-–—|])\s+(.+)$`. In both, `\s` is RE2's
    `[\t\n\f\r ]` and `.` is any character except a line feed. */
module Patterns {
  import opened Wrappers

  /** RE2's `\s`: tab, line feed, form feed, carriage return, space. */
  predicate ReSpace(c: char) {
    c == '\t' || c == '\n' || c == '\U{000C}' || c == '\r' || c == ' '
  }

  predicate Spaces(s: string, i: nat, j: nat)
    requires i <= j <= |s|
  {
    forall k :: i <= k < j ==> ReSpace(s[k])
  }

  predicate NoNewline(s: string, i: nat, j: nat)
    requires i <= j <= |s|
  {
    forall k :: i <= k < j ==> s[k] != '\n'
  }

  /** The end of the run of `\s` characters that starts at `i`. */
  function SpaceRunEnd(s: string, i: nat): (e: nat)
    requires i <= |s|
    ensures i <= e <= |s| && Spaces(s, i, e) && (e == |s| || !ReSpace(s[e]))
    decreases |s| - i
  {
    if i < |s| && ReSpace(s[i]) then SpaceRunEnd(s, i + 1) else i
  }

  /** A run of `\s` from `i` to `j` ends no later than the maximal one. */
  lemma SpaceRunBound(s: string, i: nat, j: nat)
    requires i <= j <= |s| && Spaces(s, i, j)
    ensures j <= SpaceRunEnd(s, i)
  {
  }

  /** The end of the line that holds index `i`: the next line feed, or the end. */
  function LineEnd(s: string, i: nat): (e: nat)
    requires i <= |s|
    ensures i <= e <= |s| && NoNewline(s, i, e) && (e == |s| || s[e] == '\n')
    decreases |s| - i
  {
    if i < |s| && s[i] != '\n' then LineEnd(s, i + 1) else i
  }

  // ---------------------------------------------------------------------------
  // headingRe
  // ---------------------------------------------------------------------------

  /** `^` under `(?m)`: the start of the text or just after a line feed. */
  predicate LineStart(s: string, p: nat) {
    p == 0 || (0 < p <= |s| && s[p - 1] == '\n')
  }

  /** A match of `(?m)^#{1,2}\s+(.+)` at line start `p`: `h` hashes, spaces up
      to `q`, and the captured text `s[q..e]`. */
  ghost predicate HeadingSpan(s: string, p: nat, h: nat, q: nat, e: nat) {
    LineStart(s, p) && 1 <= h <= 2 && p + h < q < e <= |s| &&
    (forall k :: p <= k < p + h ==> s[k] == '#') &&
    Spaces(s, p + h, q) && NoNewline(s, q, e)
  }

  /** The match the greedy operators prefer at `p`: most hashes, then the
      longest run of spaces, then the longest capture. */
  ghost predicate PreferredHeading(s: string, p: nat, h: nat, q: nat, e: nat) {
    HeadingSpan(s, p, h, q, e) &&
    forall h': nat, q': nat, e': nat :: HeadingSpan(s, p, h', q', e') ==>
      h' < h || (h' == h && (q' < q || (q' == q && e' <= e)))
  }

  /** The match `FindStringSubmatch` reports: the leftmost, then preferred. */
  ghost predicate FirstHeading(s: string, p: nat, h: nat, q: nat, e: nat) {
    PreferredHeading(s, p, h, q, e) &&
    forall p': nat, h': nat, q': nat, e': nat :: p' < p ==> !HeadingSpan(s, p', h', q', e')
  }

  /** The last index in `[lo, hi]` that is not a line feed. */
  function LastNonNewline(s: string, lo: nat, hi: nat): (r: Option<nat>)
    requires lo <= hi < |s|
    ensures r.Some? ==> lo <= r.value <= hi && s[r.value] != '\n'
    ensures forall k :: lo <= k <= hi && (r.None? || r.value < k) ==> s[k] == '\n'
    decreases hi - lo
  {
    if s[hi] != '\n' then Some(hi)
    else if hi == lo then None
    else LastNonNewline(s, lo, hi - 1)
  }

  /** The preferred heading match at `p`, as (hashes, capture start, capture end). */
  function HeadingAt(s: string, p: nat): (r: Option<(nat, nat, nat)>)
    ensures r.Some? ==> PreferredHeading(s, p, r.value.0, r.value.1, r.value.2)
    ensures r.None? ==> forall h: nat, q: nat, e: nat :: !HeadingSpan(s, p, h, q, e)
  {
    if !(LineStart(s, p) && p < |s| && s[p] == '#') then None
    else
      var h: nat := if p + 1 < |s| && s[p + 1] == '#' then 2 else 1;
      var w := SpaceRunEnd(s, p + h);
      var lo := p + h + 1;
      var hi := if w < |s| then w else |s| - 1;
      if hi < lo then
        HeadingNone(s, p, h, lo, hi, None);
        None
      else
        var last := LastNonNewline(s, lo, hi);
        if last.None? then
          HeadingNone(s, p, h, lo, hi, last);
          None
        else
          var q := last.value;
          var e := LineEnd(s, q);
          HeadingBest(s, p, h, lo, hi, q, e);
          Some((h, q, e))
  }

  /** Every heading match at `p` has the hash count the text forces, spaces
      ending within the maximal run, and a capture starting at a non-line feed. */
  lemma HeadingShape(s: string, p: nat, h': nat, q': nat, e': nat)
    requires HeadingSpan(s, p, h', q', e')
    ensures h' == (if p + 1 < |s| && s[p + 1] == '#' then 2 else 1)
    ensures q' <= SpaceRunEnd(s, p + h') && q' < |s| && s[q'] != '\n'
  {
    if h' == 1 {
      assert ReSpace(s[p + 1]);
    }
    SpaceRunBound(s, p + h', q');
  }

  lemma HeadingNone(s: string, p: nat, h: nat, lo: nat, hi: nat, last: Option<nat>)
    requires LineStart(s, p) && p < |s| && s[p] == '#'
    requires h == (if p + 1 < |s| && s[p + 1] == '#' then 2 else 1)
    requires lo == p + h + 1
    requires hi == (var w := SpaceRunEnd(s, p + h); if w < |s| then w else |s| - 1)
    requires hi < lo || (last.None? && last == LastNonNewline(s, lo, hi))
    ensures forall h': nat, q': nat, e': nat :: !HeadingSpan(s, p, h', q', e')
  {
    forall h': nat, q': nat, e': nat | HeadingSpan(s, p, h', q', e') ensures false {
      HeadingShape(s, p, h', q', e');
    }
  }

  lemma HeadingBest(s: string, p: nat, h: nat, lo: nat, hi: nat, q: nat, e: nat)
    requires LineStart(s, p) && p < |s| && s[p] == '#'
    requires h == (if p + 1 < |s| && s[p + 1] == '#' then 2 else 1)
    requires lo == p + h + 1
    requires hi == (var w := SpaceRunEnd(s, p + h); if w < |s| then w else |s| - 1)
    requires lo <= hi && LastNonNewline(s, lo, hi) == Some(q)
    requires e == LineEnd(s, q)
    ensures PreferredHeading(s, p, h, q, e)
  {
    assert Spaces(s, p + h, q);
    forall h': nat, q': nat, e': nat | HeadingSpan(s, p, h', q', e')
      ensures h' < h || (h' == h && (q' < q || (q' == q && e' <= e)))
    {
      HeadingShape(s, p, h', q', e');
    }
  }

  /** The leftmost heading match at or after `from`, as (start, hashes,
      capture start, capture end). */
  function HeadingFrom(s: string, from: nat): (r: Option<(nat, nat, nat, nat)>)
    ensures r.Some? ==>
      from <= r.value.0 && PreferredHeading(s, r.value.0, r.value.1, r.value.2, r.value.3)
    ensures r.Some? ==>
      forall p: nat, h: nat, q: nat, e: nat :: from <= p < r.value.0 ==> !HeadingSpan(s, p, h, q, e)
    ensures r.None? ==> forall p: nat, h: nat, q: nat, e: nat :: from <= p ==> !HeadingSpan(s, p, h, q, e)
    decreases |s| - from
  {
    if from >= |s| then None
    else
      match HeadingAt(s, from)
      case Some((h, q, e)) => Some((from, h, q, e))
      case None => HeadingFrom(s, from + 1)
  }

  /** `headingRe.FindStringSubmatch(s)[1]`: the text of the first `#` or `##`
      heading, or None when nothing matches. */
  function FindHeading(s: string): (r: Option<string>)
    ensures r.None? <==> forall p: nat, h: nat, q: nat, e: nat :: !HeadingSpan(s, p, h, q, e)
    ensures forall p: nat, h: nat, q: nat, e: nat :: FirstHeading(s, p, h, q, e) ==> r == Some(s[q..e])
    ensures r.Some? ==> r.value != [] && forall k :: 0 <= k < |r.value| ==> r.value[k] != '\n'
  {
    match HeadingFrom(s, 0)
    case None => None
    case Some((p, h, q, e)) =>
      FirstHeadingUnique(s, p, h, q, e);
      assert forall k :: 0 <= k < e - q ==> s[q..e][k] == s[q + k];
      Some(s[q..e])
  }

  /** There is one first heading match. */
  lemma FirstHeadingUnique(s: string, p: nat, h: nat, q: nat, e: nat)
    requires FirstHeading(s, p, h, q, e)
    ensures forall p': nat, h': nat, q': nat, e': nat :: FirstHeading(s, p', h', q', e') ==> p' == p && h' == h && q' == q && e' == e
  {
  }

  /** A line that starts with three hashes never matches at its start. */
  lemma NoTripleHash(s: string, p: nat)
    requires p + 3 <= |s| && s[p] == '#' && s[p + 1] == '#' && s[p + 2] == '#'
    ensures forall h: nat, q: nat, e: nat :: !HeadingSpan(s, p, h, q, e)
  {
  }

  // ---------------------------------------------------------------------------
  // separatorRe
  // ---------------------------------------------------------------------------

  /** The single-character separators `[-–—|]`. */
  predicate DashOrBar(c: char) {
    c == '-' || c == '\U{2013}' || c == '\U{2014}' || c == '|'
  }

  /** A separator token of length `t` at `b`: `at` in any case, or one
      character of `[-–—|]`. */
  predicate Token(s: string, b: nat, t: nat) {
    (t == 2 && b + 2 <= |s| && (s[b] == 'a' || s[b] == 'A') && (s[b + 1] == 't' || s[b + 1] == 'T')) ||
    (t == 1 && b < |s| && DashOrBar(s[b]))
  }

  /** The token at `b`, by length: `at` is tried first, and 0 means none. */
  function TokenLength(s: string, b: nat): (t: nat)
    ensures t == 0 || Token(s, b, t)
    ensures forall t': nat :: Token(s, b, t') ==> t' == t
  {
    if Token(s, b, 2) then 2 else if Token(s, b, 1) then 1 else 0
  }

  /** A match of `separatorRe`: the role `s[..a]`, spaces to `b`, the token of
      length `t`, spaces to `c`, and the company `s[c..]` up to the end. */
  ghost predicate SeparatorSpan(s: string, a: nat, b: nat, t: nat, c: nat) {
    0 < a < b && b + t < c < |s| &&
    NoNewline(s, 0, a) && Spaces(s, a, b) && Token(s, b, t) &&
    Spaces(s, b + t, c) && NoNewline(s, c, |s|)
  }

  /** The match the pattern prefers: the shortest role (lazy `.+?`), then the
      longest spaces before the token, then `at` before the one-character
      tokens, then the longest spaces after it. */
  ghost predicate FirstSeparator(s: string, a: nat, b: nat, t: nat, c: nat) {
    SeparatorSpan(s, a, b, t, c) &&
    forall a': nat, b': nat, t': nat, c': nat :: SeparatorSpan(s, a', b', t', c') ==>
      a < a' || (a == a' && (b' < b || (b' == b && (t' < t || (t' == t && c' <= c)))))
  }

  /** The preferred separator match whose role ends at `a`, as (b, t, c). */
  function SeparatorAt(s: string, a: nat): (r: Option<(nat, nat, nat)>)
    requires 0 < a <= |s|
    ensures r.Some? ==> SeparatorSpan(s, a, r.value.0, r.value.1, r.value.2)
    ensures r.Some? ==> forall b': nat, t': nat, c': nat :: SeparatorSpan(s, a, b', t', c') ==>
      b' == r.value.0 && t' == r.value.1 && c' <= r.value.2
    ensures r.None? ==> forall b: nat, t: nat, c: nat :: !SeparatorSpan(s, a, b, t, c)
  {
    var b := SpaceRunEnd(s, a);
    var t := TokenLength(s, b);
    if !NoNewline(s, 0, a) || b == a || t == 0 then
      SeparatorNoToken(s, a);
      None
    else
      var w := SpaceRunEnd(s, b + t);
      var c := if w < |s| then w else |s| - 1;
      if c <= b + t || !NoNewline(s, c, |s|) then
        SeparatorNoTail(s, a, b, t, w, c);
        None
      else
        SeparatorBest(s, a, b, t, w, c);
        Some((b, t, c))
  }

  /** Every match with role end `a` puts its token at the end of the spaces
      after `a`, and has the token the text holds there. */
  lemma SeparatorShape(s: string, a: nat, b': nat, t': nat, c': nat)
    requires SeparatorSpan(s, a, b', t', c')
    ensures b' == SpaceRunEnd(s, a) && t' == TokenLength(s, b')
    ensures c' <= SpaceRunEnd(s, b' + t') && c' < |s|
  {
    SpaceRunBound(s, a, b');
    SpaceRunBound(s, b' + t', c');
  }

  lemma SeparatorNoToken(s: string, a: nat)
    requires 0 < a <= |s|
    requires !NoNewline(s, 0, a) || SpaceRunEnd(s, a) == a || TokenLength(s, SpaceRunEnd(s, a)) == 0
    ensures forall b: nat, t: nat, c: nat :: !SeparatorSpan(s, a, b, t, c)
  {
    forall b: nat, t: nat, c: nat | SeparatorSpan(s, a, b, t, c) ensures false {
      SeparatorShape(s, a, b, t, c);
    }
  }

  lemma SeparatorNoTail(s: string, a: nat, b: nat, t: nat, w: nat, c: nat)
    requires 0 < a <= |s| && b == SpaceRunEnd(s, a) && t == TokenLength(s, b) && t > 0
    requires b + t <= |s| && w == SpaceRunEnd(s, b + t) && c == (if w < |s| then w else |s| - 1)
    requires c <= b + t || !NoNewline(s, c, |s|)
    ensures forall b': nat, t': nat, c': nat :: !SeparatorSpan(s, a, b', t', c')
  {
    forall b': nat, t': nat, c': nat | SeparatorSpan(s, a, b', t', c') ensures false {
      SeparatorShape(s, a, b', t', c');
    }
  }

  lemma SeparatorBest(s: string, a: nat, b: nat, t: nat, w: nat, c: nat)
    requires 0 < a <= |s| && NoNewline(s, 0, a) && b == SpaceRunEnd(s, a) && b > a
    requires t == TokenLength(s, b) && t > 0
    requires b + t <= |s| && w == SpaceRunEnd(s, b + t) && c == (if w < |s| then w else |s| - 1)
    requires b + t < c && NoNewline(s, c, |s|)
    ensures SeparatorSpan(s, a, b, t, c)
    ensures forall b': nat, t': nat, c': nat :: SeparatorSpan(s, a, b', t', c') ==> b' == b && t' == t && c' <= c
  {
    assert Spaces(s, b + t, c);
    forall b': nat, t': nat, c': nat | SeparatorSpan(s, a, b', t', c') ensures b' == b && t' == t && c' <= c {
      SeparatorShape(s, a, b', t', c');
    }
  }

  /** The match with the shortest role ending at or after `a`, as (a, b, t, c). */
  function SeparatorFrom(s: string, a: nat): (r: Option<(nat, nat, nat, nat)>)
    requires 0 < a
    ensures r.Some? ==> a <= r.value.0 && FirstSeparatorFrom(s, a, r.value)
    ensures r.None? ==> forall a': nat, b: nat, t: nat, c: nat :: a <= a' ==> !SeparatorSpan(s, a', b, t, c)
    decreases |s| - a
  {
    if a > |s| then None
    else
      match SeparatorAt(s, a)
      case Some((b, t, c)) => Some((a, b, t, c))
      case None => SeparatorFrom(s, a + 1)
  }

  ghost predicate FirstSeparatorFrom(s: string, from: nat, m: (nat, nat, nat, nat)) {
    SeparatorSpan(s, m.0, m.1, m.2, m.3) &&
    (forall a': nat, b': nat, t': nat, c': nat :: from <= a' < m.0 ==> !SeparatorSpan(s, a', b', t', c')) &&
    (forall b': nat, t': nat, c': nat :: SeparatorSpan(s, m.0, b', t', c') ==> b' == m.1 && t' == m.2 && c' <= m.3)
  }

  /** `separatorRe.FindStringSubmatch(s)`: the role and the company, or None
      when the text has no separator with whitespace on both sides. */
  function Separate(s: string): (r: Option<(string, string)>)
    ensures r.None? <==> forall a: nat, b: nat, t: nat, c: nat :: !SeparatorSpan(s, a, b, t, c)
    ensures forall a: nat, b: nat, t: nat, c: nat :: FirstSeparator(s, a, b, t, c) ==> r == Some((s[..a], s[c..]))
    ensures r.Some? ==> r.value.0 != [] && r.value.1 != []
  {
    match SeparatorFrom(s, 1)
    case None => None
    case Some((a, b, t, c)) =>
      FirstSeparatorIs(s, a, b, t, c);
      Some((s[..a], s[c..]))
  }

  lemma FirstSeparatorIs(s: string, a: nat, b: nat, t: nat, c: nat)
    requires FirstSeparatorFrom(s, 1, (a, b, t, c))
    ensures FirstSeparator(s, a, b, t, c)
    ensures forall a': nat, b': nat, t': nat, c': nat :: FirstSeparator(s, a', b', t', c') ==> a' == a && c' == c
  {
    forall a': nat, b': nat, t': nat, c': nat | SeparatorSpan(s, a', b', t', c')
      ensures a < a' || (a == a' && (b' < b || (b' == b && (t' < t || (t' == t && c' <= c)))))
    {
    }
  }

  /** The separator needs whitespace on both sides: a token glued to the text
      before or after it (the hyphen of "Front-End", the "at" of "Data") is
      never the one a match splits at. */
  lemma UnspacedNeverSplits(x: string, y: string, t: nat)
    requires (x != [] && !ReSpace(x[|x| - 1])) || (t < |y| && !ReSpace(y[t]))
    ensures forall a: nat, c: nat :: !SeparatorSpan(x + y, a, |x|, t, c)
  {
    forall a: nat, c: nat ensures !SeparatorSpan(x + y, a, |x|, t, c) {
      if x != [] {
        assert (x + y)[|x| - 1] == x[|x| - 1];
      }
      if t < |y| {
        assert (x + y)[|x| + t] == y[t];
      }
    }
  }

  /** Text without whitespace is never split. */
  lemma NoSpaceNoSplit(s: string)
    requires forall k :: 0 <= k < |s| ==> !ReSpace(s[k])
    ensures Separate(s) == None
  {
    forall a: nat, b: nat, t: nat, c: nat ensures !SeparatorSpan(s, a, b, t, c) {
      if a < b && b <= |s| {
        assert !ReSpace(s[a]);
      }
    }
  }

  /** "Engineer at Acme" splits into the role "Engineer" and the company "Acme". */
  lemma SeparatorExample()
    ensures Separate("Engineer at Acme") == Some(("Engineer", "Acme"))
  {
    var s := "Engineer at Acme";
    assert SeparatorSpan(s, 8, 9, 2, 12);
    forall a': nat, b': nat, t': nat, c': nat | SeparatorSpan(s, a', b', t', c')
      ensures 8 < a' || (8 == a' && (b' < 9 || (b' == 9 && (t' < 2 || (t' == 2 && c' <= 12)))))
    {
      assert ReSpace(s[a']);
      SeparatorShape(s, a', b', t', c');
      assert SpaceRunEnd(s, 8) == 9;
      assert SpaceRunEnd(s, 11) == 12;
    }
    assert FirstSeparator(s, 8, 9, 2, 12);
    assert s[..8] == "Engineer" && s[12..] == "Acme";
  }

  /** Because `\s` also matches a line feed, a lone "#" line makes the next
      line the heading text. */
  lemma HeadingAcrossLines()
    ensures FindHeading("#\nfoo") == Some("foo")
  {
    var s := "#\nfoo";
    assert HeadingSpan(s, 0, 1, 2, 5);
    forall h': nat, q': nat, e': nat | HeadingSpan(s, 0, h', q', e')
      ensures h' < 1 || (h' == 1 && (q' < 2 || (q' == 2 && e' <= 5)))
    {
      HeadingShape(s, 0, h', q', e');
      assert SpaceRunEnd(s, 1) == 2;
    }
    assert FirstHeading(s, 0, 1, 2, 5);
    assert s[2..5] == "foo";
  }

  /** A `##` heading on a later line is found, and its text stops at the end of the line. */
  lemma HeadingExample()
    ensures FindHeading("x\n## Role\nmore") == Some("Role")
  {
    var s := "x\n## Role\nmore";
    assert HeadingSpan(s, 2, 2, 5, 9);
    forall p': nat, h': nat, q': nat, e': nat | p' < 2 ensures !HeadingSpan(s, p', h', q', e') {
      if p' == 0 {
        assert s[0] != '#';
      } else {
        assert s[0] != '\n';
      }
    }
    forall h': nat, q': nat, e': nat | HeadingSpan(s, 2, h', q', e')
      ensures h' < 2 || (h' == 2 && (q' < 5 || (q' == 5 && e' <= 9)))
    {
      HeadingShape(s, 2, h', q', e');
      assert SpaceRunEnd(s, 4) == 5;
      assert s[9] == '\n';
    }
    assert FirstHeading(s, 2, 2, 5, 9);
    assert s[5..9] == "Role";
  }
}
