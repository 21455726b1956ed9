/** The parts of Go's `strings` and `strconv` packages that the core relies on,
    stated over strings of Unicode scalar values (Go runes). */
module GoStrings {
  import opened Wrappers

  /** Go's `unicode.IsSpace`, the characters `strings.TrimSpace` strips: tab,
      line feed, vertical tab, form feed, carriage return, space, U+0085,
      U+00A0 and the other White_Space characters of Unicode. */
  predicate IsSpace(c: char) {
    c == ' ' || '\t' <= c <= '\r' || c == '\U{0085}' || c == '\U{00A0}' || c == '\U{1680}' ||
    '\U{2000}' <= c <= '\U{200A}' || c == '\U{2028}' || c == '\U{2029}' || c == '\U{202F}' ||
    c == '\U{205F}' || c == '\U{3000}'
  }

  /** `pat` occurs in `s` starting at index `k`. */
  predicate StartsAt(s: string, pat: string, k: nat) {
    k + |pat| <= |s| && s[k..k + |pat|] == pat
  }

  predicate HasPrefix(s: string, p: string) {
    |p| <= |s| && s[..|p|] == p
  }

  predicate HasSuffix(s: string, p: string) {
    |p| <= |s| && s[|s| - |p|..] == p
  }

  predicate Contains(s: string, pat: string) {
    exists k: nat | k <= |s| :: StartsAt(s, pat, k)
  }

  /** The first occurrence of `pat` in `s` at or after `from` (`strings.Index` on a suffix). */
  function IndexFrom(s: string, pat: string, from: nat): (r: Option<nat>)
    ensures r.Some? ==> from <= r.value && StartsAt(s, pat, r.value)
    ensures forall k: nat :: from <= k && (r.None? || k < r.value) ==> !StartsAt(s, pat, k)
    decreases |s| - from
  {
    if from + |pat| > |s| then None
    else if StartsAt(s, pat, from) then Some(from)
    else IndexFrom(s, pat, from + 1)
  }

  /** `strings.TrimPrefix`: one leading copy of `p` is removed, if present. */
  function TrimPrefix(s: string, p: string): (r: string)
    ensures HasPrefix(s, p) ==> p + r == s
    ensures !HasPrefix(s, p) ==> r == s
  {
    if HasPrefix(s, p) then
      assert s == s[..|p|] + s[|p|..];
      s[|p|..]
    else s
  }

  /** The number of leading characters of `s`, from index `i` on, that are in `cut`. */
  function LeadingCut(s: string, cut: char -> bool, i: nat := 0): (k: nat)
    requires i <= |s|
    ensures i <= k <= |s| && (k == |s| || !cut(s[k]))
    ensures forall j :: i <= j < k ==> cut(s[j])
    decreases |s| - i
  {
    if i < |s| && cut(s[i]) then LeadingCut(s, cut, i + 1) else i
  }

  /** Where the trailing run of characters in `cut` starts, looking no
      further left than `lo` and starting at `e`. */
  function TrailingCut(s: string, cut: char -> bool, lo: nat, e: nat): (k: nat)
    requires lo <= e <= |s|
    ensures lo <= k <= e && (k == lo || !cut(s[k - 1]))
    ensures forall j :: k <= j < e ==> cut(s[j])
    decreases e
  {
    if lo < e && cut(s[e - 1]) then TrailingCut(s, cut, lo, e - 1) else e
  }

  /** `strings.TrimLeft`: every leading character in `cut` is removed. */
  function TrimLeft(s: string, cut: char -> bool): (r: string)
    ensures |r| <= |s| && r == s[|s| - |r|..]
    ensures forall i :: 0 <= i < |s| - |r| ==> cut(s[i])
    ensures r == [] || !cut(r[0])
  {
    s[LeadingCut(s, cut)..]
  }

  /** `strings.TrimRight`: every trailing character in `cut` is removed. */
  function TrimRight(s: string, cut: char -> bool): (r: string)
    ensures |r| <= |s| && r == s[..|r|]
    ensures forall i :: |r| <= i < |s| ==> cut(s[i])
    ensures r == [] || !cut(r[|r| - 1])
  {
    s[..TrailingCut(s, cut, 0, |s|)]
  }

  /** `strings.Trim`: `TrimLeft` followed by `TrimRight`, the slice of `s`
      left after stripping `cut` from both ends. */
  function Trim(s: string, cut: char -> bool): (r: string)
    ensures var k := LeadingCut(s, cut); k + |r| <= |s| && r == s[k..k + |r|]
    ensures forall i :: LeadingCut(s, cut) + |r| <= i < |s| ==> cut(s[i])
    ensures r == [] || (!cut(r[0]) && !cut(r[|r| - 1]))
    ensures r == [] <==> forall i :: 0 <= i < |s| ==> cut(s[i])
  {
    var k := LeadingCut(s, cut);
    s[k..TrailingCut(s, cut, k, |s|)]
  }

  /** `Trim` is `TrimLeft` followed by `TrimRight`. */
  lemma TrimIsLeftThenRight(s: string, cut: char -> bool)
    ensures Trim(s, cut) == TrimRight(TrimLeft(s, cut), cut)
  {
    TrailingShift(s, cut, LeadingCut(s, cut), |s|);
  }

  /** Looking for the trailing run in a suffix finds it at the same place. */
  lemma {:induction false} TrailingShift(s: string, cut: char -> bool, k: nat, e: nat)
    requires k <= e <= |s|
    ensures TrailingCut(s[k..], cut, 0, e - k) == TrailingCut(s, cut, k, e) - k
    decreases e
  {
    if k < e {
      assert s[k..][e - k - 1] == s[e - 1];
      if cut(s[e - 1]) {
        TrailingShift(s, cut, k, e - 1);
      }
    }
  }

  /** What `Trim` removes lies in the cutset: a character outside it is kept,
      at its offset from the first character kept. */
  lemma TrimKeeps(s: string, cut: char -> bool, i: nat)
    requires i < |s| && !cut(s[i])
    ensures var k := LeadingCut(s, cut); var r := Trim(s, cut);
      k <= i < k + |r| && r[i - k] == s[i]
  {
  }

  /** `strings.TrimSpace`. */
  function TrimSpace(s: string): (r: string)
    ensures var k := LeadingCut(s, IsSpace); k + |r| <= |s| && r == s[k..k + |r|]
    ensures forall i :: 0 <= i < LeadingCut(s, IsSpace) ==> IsSpace(s[i])
    ensures forall i :: LeadingCut(s, IsSpace) + |r| <= i < |s| ==> IsSpace(s[i])
    ensures r == [] || (!IsSpace(r[0]) && !IsSpace(r[|r| - 1]))
    ensures r == [] <==> forall i :: 0 <= i < |s| ==> IsSpace(s[i])
  {
    Trim(s, IsSpace)
  }

  /** A string with no space at either end is its own TrimSpace. */
  lemma TrimSpaceOfTrimmed(s: string)
    requires s == [] || (!IsSpace(s[0]) && !IsSpace(s[|s| - 1]))
    ensures TrimSpace(s) == s
  {
  }

  /** The number of bytes of the UTF-8 encoding of `c`. */
  function Utf8Width(c: char): nat {
    if c as int < 0x80 then 1
    else if c as int < 0x800 then 2
    else if c as int < 0x1_0000 then 3
    else 4
  }

  /** `len` of a Go string: the length of its UTF-8 encoding in bytes. */
  function Utf8Length(s: string): (n: nat)
    ensures |s| <= n <= 4 * |s|
  {
    if s == [] then 0 else Utf8Width(s[0]) + Utf8Length(s[1..])
  }

  /** The byte length equals the character count exactly when the text is ASCII. */
  lemma {:induction false} Utf8LengthAscii(s: string)
    ensures Utf8Length(s) == |s| <==> forall i :: 0 <= i < |s| ==> s[i] as int < 0x80
  {
    if s != [] {
      Utf8LengthAscii(s[1..]);
      assert forall i :: 1 <= i < |s| ==> s[i] == s[1..][i - 1];
    }
  }

  function LowerChar(c: char): char {
    if 'A' <= c <= 'Z' then (c as int + 32) as char else c
  }

  /** `strings.ToLower` on ASCII letters; every other character is kept. */
  function ToLower(s: string): (r: string)
    ensures |r| == |s|
    ensures forall i :: 0 <= i < |s| ==> r[i] == LowerChar(s[i])
  {
    seq(|s|, i requires 0 <= i < |s| => LowerChar(s[i]))
  }

  predicate IsDigit(c: char) {
    '0' <= c <= '9'
  }

  predicate AllDigits(s: string) {
    forall i :: 0 <= i < |s| ==> IsDigit(s[i])
  }

  /** The number a string of decimal digits denotes. */
  function DecimalValue(s: string): nat
    requires AllDigits(s)
  {
    if s == [] then 0 else DecimalValue(s[..|s| - 1]) * 10 + (s[|s| - 1] as int - '0' as int)
  }

  const MaxInt64: int := 0x7fff_ffff_ffff_ffff

  /** `strconv.Atoi` on an unsigned digit string, on a 64-bit platform: a value
      that does not fit is reported as a range error together with the largest
      int, and the value is what the caller keeps when it ignores the error. */
  function Atoi(s: string): (v: int)
    requires s != [] && AllDigits(s)
    ensures 0 <= v <= MaxInt64
    ensures v == DecimalValue(s) || (DecimalValue(s) > MaxInt64 && v == MaxInt64)
  {
    if DecimalValue(s) <= MaxInt64 then DecimalValue(s) else MaxInt64
  }
}
