/** `slugify` (jdextract/storage.go): the name of a job's application
    directory, built from a random prefix and the first usable title among the
    parsed job-description nodes. */
module Slug {
  import opened GoStrings

  /** The node kinds `slugify` distinguishes; every other kind is `Other`. */
  datatype NodeKind = JinaTitle | JobTitle | Other

  datatype Node = Node(content: string, kind: NodeKind)

  const TitleLabel := "Title:"
  /** The cutset `"#* \t"` of `strings.TrimLeft` for job-title headings. */
  predicate IsHeadingMark(c: char) {
    c == '#' || c == '*' || c == ' ' || c == '\t'
  }

  predicate IsDash(c: char) {
    c == '-'
  }
  /** The length of the random prefix taken from `rand.Text()`. */
  const PrefixLength := 8

  /** The value `title` takes when the loop visits `n` and `title` is still
      empty: kinds other than the two title kinds leave it empty. */
  function Candidate(n: Node): (t: string)
    ensures HasSuffix(n.content, t)
    ensures n.kind == Other ==> t == ""
  {
    match n.kind
    case JinaTitle => TrimPrefix(n.content, TitleLabel)
    case JobTitle => TrimLeft(n.content, IsHeadingMark)
    case Other => ""
  }

  /** The candidate of every node, in order. */
  function Candidates(nodes: seq<Node>): seq<string> {
    if nodes == [] then [] else [Candidate(nodes[0])] + Candidates(nodes[1..])
  }

  /** The title the loop settles on: the first non-empty candidate, in order. */
  function PickTitle(nodes: seq<Node>): (t: string)
    ensures t == "" || t in Candidates(nodes)
    ensures t == "" <==> forall c :: c in Candidates(nodes) ==> c == ""
  {
    if nodes == [] then ""
    else if Candidate(nodes[0]) != "" then Candidate(nodes[0])
    else PickTitle(nodes[1..])
  }

  /** The characters `[^a-z0-9]` leaves alone. */
  predicate IsSlugChar(c: char) {
    'a' <= c <= 'z' || '0' <= c <= '9'
  }

  predicate SlugAlphabet(s: string) {
    forall i :: 0 <= i < |s| ==> IsSlugChar(s[i]) || s[i] == '-'
  }

  predicate NoDoubleDash(s: string) {
    forall i :: 0 <= i < |s| - 1 ==> !(s[i] == '-' && s[i + 1] == '-')
  }

  /** `s` holds a character of `[a-z0-9]`. */
  predicate HasKept(s: string) {
    exists i :: 0 <= i < |s| && IsSlugChar(s[i])
  }

  predicate HasNonDash(s: string) {
    exists i :: 0 <= i < |s| && s[i] != '-'
  }

  /** `slugRe.ReplaceAllString(s, "-")` with `slugRe` = `[^a-z0-9]+`: the
      greedy pattern takes each maximal run of other characters and the run
      becomes one dash, written here where the run ends (the next character
      is kept, or there is none). */
  function Collapse(s: string): (r: string)
    ensures |r| <= |s|
    ensures SlugAlphabet(r)
  {
    if s == [] then []
    else if IsSlugChar(s[0]) then [s[0]] + Collapse(s[1..])
    else if |s| > 1 && !IsSlugChar(s[1]) then Collapse(s[1..])
    else "-" + Collapse(s[1..])
  }

  /** The replacement leaves only `[a-z0-9]` and single dashes; it starts
      (ends) with a dash exactly when the input starts (ends) with a replaced
      character. */
  lemma {:induction false} CollapseShape(s: string)
    ensures var r := Collapse(s);
      SlugAlphabet(r) && NoDoubleDash(r) && |r| <= |s| && (r == [] <==> s == []) &&
      (r != [] ==> (r[0] == '-' <==> !IsSlugChar(s[0]))) &&
      (r != [] ==> (r[|r| - 1] == '-' <==> !IsSlugChar(s[|s| - 1])))
    decreases |s|
  {
    if s != [] {
      var t := Collapse(s[1..]);
      CollapseShape(s[1..]);
      assert |s| > 1 ==> s[1..][0] == s[1] && s[1..][|s| - 2] == s[|s| - 1];
      if IsSlugChar(s[0]) {
        PrependKept(s[0], t);
      } else if |s| > 1 && !IsSlugChar(s[1]) {
      } else {
        PrependDash(t);
      }
    }
  }

  lemma PrependKept(c: char, t: string)
    requires IsSlugChar(c) && SlugAlphabet(t) && NoDoubleDash(t)
    ensures SlugAlphabet([c] + t) && NoDoubleDash([c] + t)
    ensures ([c] + t)[0] == c
    ensures t != [] ==> ([c] + t)[|t|] == t[|t| - 1]
  {
    var r := [c] + t;
    forall i | 0 <= i < |r| - 1 ensures !(r[i] == '-' && r[i + 1] == '-') {
      if i > 0 {
        assert r[i] == t[i - 1] && r[i + 1] == t[i];
      }
    }
  }

  lemma PrependDash(t: string)
    requires SlugAlphabet(t) && NoDoubleDash(t) && (t == [] || t[0] != '-')
    ensures SlugAlphabet("-" + t) && NoDoubleDash("-" + t)
    ensures ("-" + t)[0] == '-'
    ensures t != [] ==> ("-" + t)[|t|] == t[|t| - 1]
  {
    var r := "-" + t;
    forall i | 0 <= i < |r| - 1 ensures !(r[i] == '-' && r[i + 1] == '-') {
      if i > 0 {
        assert r[i] == t[i - 1] && r[i + 1] == t[i];
      }
    }
  }

  /** A run of characters outside `[a-z0-9]` is replaced by a single dash. */
  lemma {:induction false} CollapseRun(w: string)
    requires w != [] && forall i :: 0 <= i < |w| ==> !IsSlugChar(w[i])
    ensures Collapse(w) == "-"
    decreases |w|
  {
    if |w| > 1 {
      assert !IsSlugChar(w[1]);
      CollapseRun(w[1..]);
    }
  }

  /** Text made only of `[a-z0-9]` is left unchanged. */
  lemma {:induction false} CollapseKeeps(w: string)
    requires forall i :: 0 <= i < |w| ==> IsSlugChar(w[i])
    ensures Collapse(w) == w
    decreases |w|
  {
    if w != [] {
      CollapseKeeps(w[1..]);
    }
  }

  /** Replacement works run by run: two pieces that do not split a run of
      other characters (one of them ends or starts with a kept character)
      are replaced separately. */
  lemma {:induction false} CollapseSplit(a: string, b: string)
    requires a == [] || b == [] || IsSlugChar(a[|a| - 1]) || IsSlugChar(b[0])
    ensures Collapse(a + b) == Collapse(a) + Collapse(b)
    decreases |a|
  {
    if a == [] {
      assert a + b == b;
    } else if b == [] {
      assert a + b == a;
    } else {
      var ab := a + b;
      assert ab[0] == a[0] && ab[1..] == a[1..] + b;
      if |a| == 1 {
        assert a[1..] + b == b;
        if !IsSlugChar(a[0]) {
          assert ab[1] == b[0];
        }
      } else {
        assert ab[1] == a[1];
        assert a[1..][|a| - 2] == a[|a| - 1];
        CollapseSplit(a[1..], b);
      }
    }
  }

  /** Replacement keeps a character of `[a-z0-9]` exactly when there is one. */
  lemma {:induction false} CollapseKept(s: string)
    ensures HasNonDash(Collapse(s)) <==> HasKept(s)
    decreases |s|
  {
    if s != [] {
      var t := Collapse(s[1..]);
      CollapseKept(s[1..]);
      if IsSlugChar(s[0]) {
        assert Collapse(s)[0] == s[0];
      } else {
        KeptTail(s);
        if |s| == 1 || IsSlugChar(s[1]) {
          NonDashTail(t);
        }
      }
    }
  }

  lemma KeptTail(s: string)
    requires s != [] && !IsSlugChar(s[0])
    ensures HasKept(s) <==> HasKept(s[1..])
  {
    if HasKept(s) {
      var i :| 0 <= i < |s| && IsSlugChar(s[i]);
      assert s[1..][i - 1] == s[i];
    }
    if HasKept(s[1..]) {
      var i :| 0 <= i < |s| - 1 && IsSlugChar(s[1..][i]);
      assert s[i + 1] == s[1..][i];
    }
  }

  lemma NonDashTail(t: string)
    ensures HasNonDash("-" + t) <==> HasNonDash(t)
  {
    var r := "-" + t;
    if HasNonDash(r) {
      var i :| 0 <= i < |r| && r[i] != '-';
      assert t[i - 1] == r[i];
    }
    if HasNonDash(t) {
      var i :| 0 <= i < |t| && t[i] != '-';
      assert r[i + 1] == t[i];
    }
  }

  /** Every part of a replaced text keeps its shape. */
  lemma SliceShape(c: string, k: nat, n: nat)
    requires SlugAlphabet(c) && NoDoubleDash(c) && k + n <= |c|
    ensures SlugAlphabet(c[k..k + n]) && NoDoubleDash(c[k..k + n])
  {
    var s := c[k..k + n];
    assert forall i :: 0 <= i < n ==> s[i] == c[k + i];
  }

  /** What `slugify` builds from a title: lower-cased, trimmed of spaces,
      every run of characters outside `[a-z0-9]` turned into one dash, and
      dashes trimmed from both ends. */
  function SlugOf(title: string): (slug: string)
    ensures SlugAlphabet(slug) && NoDoubleDash(slug)
    ensures slug == [] || (slug[0] != '-' && slug[|slug| - 1] != '-')
  {
    var t := TrimSpace(ToLower(title));
    TrimDashes(t);
    Trim(Collapse(t), IsDash)
  }

  lemma TrimDashes(t: string)
    ensures var slug := Trim(Collapse(t), IsDash);
      SlugAlphabet(slug) && NoDoubleDash(slug) &&
      (slug == [] || (slug[0] != '-' && slug[|slug| - 1] != '-'))
  {
    CollapseShape(t);
    TrimmedShape(Collapse(t));
  }

  /** Trimming dashes from a well-formed collapsed text keeps it well formed. */
  lemma TrimmedShape(c: string)
    requires SlugAlphabet(c) && NoDoubleDash(c)
    ensures var slug := Trim(c, IsDash);
      SlugAlphabet(slug) && NoDoubleDash(slug) &&
      (slug == [] || (slug[0] != '-' && slug[|slug| - 1] != '-'))
  {
    var slug := Trim(c, IsDash);
    var k := LeadingCut(c, IsDash);
    SliceShape(c, k, |slug|);
  }

  /** The slug is empty exactly when the lower-cased title holds no
      character of `[a-z0-9]`. */
  lemma SlugEmpty(title: string)
    ensures SlugOf(title) == [] <==> !HasKept(ToLower(title))
  {
    var l := ToLower(title);
    var t := TrimSpace(l);
    var c := Collapse(t);
    assert t == Trim(l, IsSpace);
    TrimKeepsKept(l);
    CollapseKept(t);
    assert HasNonDash(c) <==> exists i :: 0 <= i < |c| && !IsDash(c[i]);
  }

  /** Trimming Go's spaces never removes a character of `[a-z0-9]`. */
  lemma TrimKeepsKept(l: string)
    ensures HasKept(Trim(l, IsSpace)) <==> HasKept(l)
  {
    var t := Trim(l, IsSpace);
    var k := LeadingCut(l, IsSpace);
    assert t == l[k..k + |t|];
    if HasKept(l) {
      var i :| 0 <= i < |l| && IsSlugChar(l[i]);
      KeptInTrim(l, i);
    }
    if HasKept(t) {
      var i :| 0 <= i < |t| && IsSlugChar(t[i]);
      assert l[k + i] == t[i];
    }
  }

  lemma KeptInTrim(l: string, i: nat)
    requires i < |l| && IsSlugChar(l[i])
    ensures HasKept(Trim(l, IsSpace))
  {
    var k := LeadingCut(l, IsSpace);
    assert !IsSpace(l[i]);
    TrimKeeps(l, IsSpace, i);
    assert Trim(l, IsSpace)[i - k] == l[i];
  }

  /** `slugify`: picks the title with an early exit from the loop over the
      nodes, then builds the slug. `text` is the value of `rand.Text()`, of
      which the first eight characters are the prefix. */
  method Slugify(nodes: seq<Node>, text: string) returns (dir: string)
    requires |text| >= PrefixLength
    ensures var slug := SlugOf(PickTitle(nodes));
      if slug == "" then dir == text[..PrefixLength]
      else dir == text[..PrefixLength] + "-" + slug
  {
    var title := "";
    var i := 0;
    while i < |nodes|
      invariant 0 <= i <= |nodes|
      invariant title == "" && PickTitle(nodes) == PickTitle(nodes[i..])
    {
      var node := nodes[i];
      match node.kind {
        case JinaTitle => title := TrimPrefix(node.content, TitleLabel);
        case JobTitle => title := TrimLeft(node.content, IsHeadingMark);
        case Other =>
      }
      if title != "" {
        break;
      }
      assert nodes[i..][1..] == nodes[i + 1..];
      i := i + 1;
    }
    assert title == PickTitle(nodes);
    var prefix := text[..PrefixLength];
    title := TrimSpace(ToLower(title));
    var slug := Collapse(title);
    slug := Trim(slug, IsDash);
    if slug == "" {
      return prefix;
    }
    return prefix + "-" + slug;
  }

  /** The title is the candidate of the first node, in order, whose candidate
      is non-empty, and empty when there is none. */
  lemma {:induction false} PickTitleFirst(nodes: seq<Node>, i: nat)
    requires i < |nodes| && Candidate(nodes[i]) != ""
    requires forall j :: 0 <= j < i ==> Candidate(nodes[j]) == ""
    ensures PickTitle(nodes) == Candidate(nodes[i])
    decreases i
  {
    if i > 0 {
      PickTitleFirst(nodes[1..], i - 1);
    }
  }

  lemma {:induction false} PickTitleNone(nodes: seq<Node>)
    requires forall j :: 0 <= j < |nodes| ==> Candidate(nodes[j]) == ""
    ensures PickTitle(nodes) == ""
    decreases |nodes|
  {
    if nodes != [] {
      PickTitleNone(nodes[1..]);
    }
  }

  /** Nodes after the one that supplied the title are never looked at. */
  lemma {:induction false} PickTitleIgnoresLater(nodes: seq<Node>, later: seq<Node>)
    requires PickTitle(nodes) != ""
    ensures PickTitle(nodes + later) == PickTitle(nodes)
    decreases |nodes|
  {
    var all := nodes + later;
    assert all[0] == nodes[0];
    if Candidate(nodes[0]) == "" {
      assert all[1..] == nodes[1..] + later;
      PickTitleIgnoresLater(nodes[1..], later);
    }
  }

  /** A node of another kind never affects the title, wherever it stands. */
  lemma {:induction false} OtherKindIgnored(before: seq<Node>, content: string, after: seq<Node>)
    ensures PickTitle(before + [Node(content, Other)] + after) == PickTitle(before + after)
    decreases |before|
  {
    if before == [] {
      assert [Node(content, Other)] + after == [Node(content, Other)] + after;
      assert (before + [Node(content, Other)] + after)[1..] == after;
      assert before + after == after;
    } else {
      assert (before + [Node(content, Other)] + after)[1..] == before[1..] + [Node(content, Other)] + after;
      assert (before + after)[1..] == before[1..] + after;
      if Candidate(before[0]) == "" {
        OtherKindIgnored(before[1..], content, after);
      }
    }
  }

  /** A Jina title loses one leading "Title:", a job title all leading `#`,
      `*`, space and tab characters. */
  lemma CandidateStrips(n: Node)
    ensures n.kind == JinaTitle && HasPrefix(n.content, TitleLabel) ==>
      TitleLabel + Candidate(n) == n.content
    ensures n.kind == JinaTitle && !HasPrefix(n.content, TitleLabel) ==> Candidate(n) == n.content
    ensures n.kind == JobTitle ==>
      var t := Candidate(n);
      t == n.content[|n.content| - |t|..] &&
      (forall i :: 0 <= i < |n.content| - |t| ==> IsHeadingMark(n.content[i])) &&
      (t == [] || !IsHeadingMark(t[0]))
  {
  }
}
