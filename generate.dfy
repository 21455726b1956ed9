/** Building the model request and reading the model's tagged reply
    (`GenerateAll` and `extractTag` in jdextract/generate.go). */
module Reply {
  import opened Wrappers
  import opened GoStrings
  import Retry

  /** The fixed instruction that opens every request. */
  const SystemPrompt: string := @"You are a professional resume writer and career coach.
You will receive a job description as a JSON array of classified lines, a base resume, and optionally a base cover letter.

Your tasks:
1. Extract the company name and role title from the job description.
2. Rewrite the resume to align with the job — keep experience truthful, sharpen bullets to mirror the job's language and priorities.
3. If a base cover letter is provided, draft a tailored cover letter for this role.
4. Rate how well the base resume matches the job requirements on a scale of 1–10 (1 = poor fit, 10 = perfect fit).

Respond using exactly these XML tags, in this order:
<company>company name</company>
<role>role title</role>
<score>integer 1-10</score>
<resume>
full tailored resume text
</resume>
<cover>
tailored cover letter (include ONLY if a base cover letter was provided)
</cover>"

  const JobSection := "JOB DESCRIPTION:\n"
  const ResumeSection := "\n\nBASE RESUME:\n"
  const CoverSection := "\n\nBASE COVER LETTER:\n"

  datatype Message = Message(role: string, content: string)

  /** The chat request; its JSON encoding is outside the model. */
  datatype Request = Request(model: string, messages: seq<Message>, stream: bool)

  /** The decoded reply envelope: the content of each choice and `usage.total_tokens`. */
  datatype ApiResponse = ApiResponse(choices: seq<string>, totalTokens: int)

  datatype GenerateError =
    | ApiFailed(failure: Retry.Failure)
    | DecodeFailed
    | NoChoices
    | MissingFields(company: string, role: string, resumeLen: nat)

  /** The results `GenerateAll` returns: company, role, resume, cover, score,
      tokens used and the error (None for nil). */
  datatype Generated = Generated(
    company: string, role: string, resume: string, cover: Option<string>,
    score: int, tokensUsed: int, err: Option<GenerateError>)

  /** What `GenerateAll` returns on every error path: all results zeroed. */
  function Failed(e: GenerateError): Generated {
    Generated("", "", "", None, 0, 0, Some(e))
  }

  /** Non-empty, with no white space at either end. */
  predicate Filled(x: string) {
    x != [] && !IsSpace(x[0]) && !IsSpace(x[|x| - 1])
  }

  // ---------------------------------------------------------------------------
  // Tag extraction
  // ---------------------------------------------------------------------------

  function OpenTag(name: string): string { "<" + name + ">" }
  function CloseTag(name: string): string { "</" + name + ">" }

  /** A match of `(?s)<name>(.*?)</name>`: the opening tag at `i` and a closing
      tag at `j`, anywhere after it (the dot crosses line breaks). */
  ghost predicate TagSpan(name: string, s: string, i: nat, j: nat) {
    StartsAt(s, OpenTag(name), i) && i + |OpenTag(name)| <= j && StartsAt(s, CloseTag(name), j)
  }

  /** The match the leftmost-first search reports: the earliest start and,
      the group being lazy, the nearest closing tag. */
  ghost predicate FirstTagSpan(name: string, s: string, i: nat, j: nat) {
    TagSpan(name, s, i, j) &&
    forall i': nat, j': nat :: TagSpan(name, s, i', j') ==> i < i' || (i == i' && j <= j')
  }

  /** `extractTag`: the trimmed text of the first tagged span, or "" when none. */
  function ExtractTag(name: string, s: string): (r: string)
    ensures r == [] || (!IsSpace(r[0]) && !IsSpace(r[|r| - 1]))
    ensures (forall i: nat, j: nat :: !TagSpan(name, s, i, j)) ==> r == ""
  {
    match TagGroup(name, s)
    case None => ""
    case Some(g) => TrimSpace(g)
  }

  /** `FindStringSubmatch`'s capture group: None when there is no match,
      otherwise the text between the two tags of the leftmost-first match. */
  function TagGroup(name: string, s: string): (r: Option<string>)
    ensures r.None? <==> forall i: nat, j: nat :: !TagSpan(name, s, i, j)
    ensures forall i: nat, j: nat :: FirstTagSpan(name, s, i, j) ==>
      r == Some(s[i + |OpenTag(name)|..j])
  {
    var m := TagFrom(name, s);
    if m.None? then None
    else
      FirstTagUnique(name, s, m.value.0, m.value.1);
      Some(s[m.value.0 + |OpenTag(name)|..m.value.1])
  }

  /** When there is a match, `extractTag` returns the trimmed group of the
      leftmost-first one. */
  lemma ExtractFirst(name: string, s: string, i: nat, j: nat)
    requires FirstTagSpan(name, s, i, j)
    ensures ExtractTag(name, s) == TrimSpace(s[i + |OpenTag(name)|..j])
  {
    assert TagGroup(name, s) == Some(s[i + |OpenTag(name)|..j]);
  }

  /** Two leftmost-first matches are the same match. */
  lemma FirstTagUnique(name: string, s: string, i: nat, j: nat)
    requires FirstTagSpan(name, s, i, j)
    ensures forall i': nat, j': nat :: FirstTagSpan(name, s, i', j') ==> i' == i && j' == j
  {
  }

  /** The leftmost-first match, as the positions of its two tags. */
  function TagFrom(name: string, s: string): (r: Option<(nat, nat)>)
    ensures r.None? ==> forall i: nat, j: nat :: !TagSpan(name, s, i, j)
    ensures r.Some? ==> FirstTagSpan(name, s, r.value.0, r.value.1)
  {
    var open, close := OpenTag(name), CloseTag(name);
    match IndexFrom(s, open, 0)
    case None => None
    case Some(i) =>
      match IndexFrom(s, close, i + |open|)
      case None =>
        NoCloseNoTag(name, s, i);
        None
      case Some(j) =>
        FirstTagIs(name, s, i, j);
        Some((i, j))
  }

  /** Every later opening tag would need a closing tag after the first one. */
  lemma NoCloseNoTag(name: string, s: string, i: nat)
    requires IndexFrom(s, OpenTag(name), 0) == Some(i)
    requires IndexFrom(s, CloseTag(name), i + |OpenTag(name)|).None?
    ensures forall i': nat, j': nat :: !TagSpan(name, s, i', j')
  {
  }

  lemma FirstTagIs(name: string, s: string, i: nat, j: nat)
    requires IndexFrom(s, OpenTag(name), 0) == Some(i)
    requires IndexFrom(s, CloseTag(name), i + |OpenTag(name)|) == Some(j)
    ensures FirstTagSpan(name, s, i, j)
  {
  }

  const ScoreOpen := "<score>"
  const ScoreClose := "</score>"

  /** A match of `(?s)<score>(\d+)</score>` with the opening tag at `i` and the
      closing tag at `d`. */
  ghost predicate ScoreSpan(s: string, i: nat, d: nat) {
    StartsAt(s, ScoreOpen, i) && i + |ScoreOpen| < d && StartsAt(s, ScoreClose, d) &&
    AllDigits(s[i + |ScoreOpen|..d])
  }

  ghost predicate FirstScoreSpan(s: string, i: nat, d: nat) {
    ScoreSpan(s, i, d) && forall i': nat, d': nat :: i' < i ==> !ScoreSpan(s, i', d')
  }

  /** The end of the run of digits that starts at `p`. */
  function DigitRunEnd(s: string, p: nat): (e: nat)
    requires p <= |s|
    ensures p <= e <= |s| && AllDigits(s[p..e]) && (e == |s| || !IsDigit(s[e]))
    decreases |s| - p
  {
    if p < |s| && IsDigit(s[p]) then
      var e := DigitRunEnd(s, p + 1);
      assert s[p..e] == [s[p]] + s[p + 1..e];
      e
    else p
  }

  /** Given its start, a score match can only close where the digits stop. */
  lemma ScoreSpanEnd(s: string, i: nat, d: nat)
    requires ScoreSpan(s, i, d)
    ensures d == DigitRunEnd(s, i + |ScoreOpen|)
  {
    var p := i + |ScoreOpen|;
    var e := DigitRunEnd(s, p);
    assert !IsDigit(s[d]) by { assert s[d] == s[d..d + |ScoreClose|][0] == '<'; }
    assert forall k :: p <= k < e ==> IsDigit(s[k]) by {
      forall k | p <= k < e ensures IsDigit(s[k]) { assert s[p..e][k - p] == s[k]; }
    }
    assert forall k :: p <= k < d ==> IsDigit(s[k]) by {
      forall k | p <= k < d ensures IsDigit(s[k]) { assert s[p..d][k - p] == s[k]; }
    }
  }

  /** The leftmost score match whose opening tag is at or after `from`, as the
      positions of its opening and closing tags. */
  function ScoreFrom(s: string, from: nat): (r: Option<(nat, nat)>)
    ensures r.None? ==> forall i: nat, d: nat :: from <= i ==> !ScoreSpan(s, i, d)
    ensures r.Some? ==> from <= r.value.0 && ScoreSpan(s, r.value.0, r.value.1)
    ensures r.Some? ==> forall i: nat, d: nat :: from <= i < r.value.0 ==> !ScoreSpan(s, i, d)
    decreases |s| - from
  {
    match IndexFrom(s, ScoreOpen, from)
    case None => None
    case Some(i) =>
      var d := DigitRunEnd(s, i + |ScoreOpen|);
      if d > i + |ScoreOpen| && StartsAt(s, ScoreClose, d) then Some((i, d))
      else
        NoScoreSpanAt(s, i);
        ScoreFrom(s, i + 1)
  }

  /** When the digits after an opening tag are empty or not followed by the
      closing tag, no score match opens there. */
  lemma NoScoreSpanAt(s: string, i: nat)
    requires i + |ScoreOpen| <= |s|
    requires var d := DigitRunEnd(s, i + |ScoreOpen|); !(d > i + |ScoreOpen| && StartsAt(s, ScoreClose, d))
    ensures forall d: nat :: !ScoreSpan(s, i, d)
  {
    forall d: nat | ScoreSpan(s, i, d) ensures false {
      ScoreSpanEnd(s, i, d);
    }
  }

  /** The score `GenerateAll` reports: the leftmost all-digit score tag read
      as a number, and 0 when there is none. */
  function ScoreOf(content: string): (score: int)
    ensures 0 <= score <= MaxInt64
    ensures (forall i: nat, d: nat :: !ScoreSpan(content, i, d)) ==> score == 0
    ensures forall i: nat, d: nat :: FirstScoreSpan(content, i, d) ==>
      score == Atoi(content[i + |ScoreOpen|..d])
  {
    var m := ScoreFrom(content, 0);
    if m.None? then 0
    else
      FirstScoreSpanUnique(content, m.value.0, m.value.1);
      ScoreAt(content, m.value.0, m.value.1)
  }

  /** The captured digits of a score match, trimmed and converted. */
  function ScoreAt(content: string, i: nat, d: nat): (score: int)
    requires ScoreSpan(content, i, d)
    ensures score == Atoi(content[i + |ScoreOpen|..d])
  {
    var digits := content[i + |ScoreOpen|..d];
    DigitsTrimmed(digits);
    var scoreStr := TrimSpace(digits);
    if scoreStr != "" then Atoi(scoreStr) else 0
  }

  lemma DigitsTrimmed(x: string)
    requires x != [] && AllDigits(x)
    ensures TrimSpace(x) == x
  {
    assert IsDigit(x[0]) && IsDigit(x[|x| - 1]);
    TrimSpaceOfTrimmed(x);
  }

  /** There is one leftmost score match. */
  lemma FirstScoreSpanUnique(s: string, i: nat, d: nat)
    requires ScoreSpan(s, i, d)
    requires forall i': nat, d': nat :: i' < i ==> !ScoreSpan(s, i', d')
    ensures forall i': nat, d': nat :: FirstScoreSpan(s, i', d') ==> i' == i && d' == d
  {
    forall i': nat, d': nat | FirstScoreSpan(s, i', d') ensures i' == i && d' == d {
      ScoreSpanEnd(s, i, d);
      ScoreSpanEnd(s, i', d');
    }
  }

  // ---------------------------------------------------------------------------
  // Request and reply
  // ---------------------------------------------------------------------------

  /** The user message: the encoded nodes, the base resume and, only when one
      was supplied, the base cover letter, each under its label. */
  function UserPayload(nodesJson: string, baseResume: string, baseCover: Option<string>): (p: string)
    ensures HasPrefix(p, JobSection + nodesJson + ResumeSection + baseResume)
    ensures baseCover.None? ==> |p| == |JobSection + nodesJson + ResumeSection + baseResume|
    ensures baseCover.Some? ==>
      |p| == |JobSection + nodesJson + ResumeSection + baseResume| + |CoverSection + baseCover.value| &&
      HasSuffix(p, CoverSection + baseCover.value)
  {
    JobSection + nodesJson + ResumeSection + baseResume +
    match baseCover
    case None => ""
    case Some(c) => CoverSection + c
  }

  /** Reads the three sections back out of a payload: the text up to the first
      resume label, then up to the first cover label, then the rest. */
  function SplitPayload(p: string): Option<(string, string, Option<string>)> {
    if !HasPrefix(p, JobSection) then None
    else
      match IndexFrom(p, ResumeSection, |JobSection|)
      case None => None
      case Some(i) =>
        var rest := p[i + |ResumeSection|..];
        match IndexFrom(rest, CoverSection, 0)
        case None => Some((p[|JobSection|..i], rest, None))
        case Some(j) => Some((p[|JobSection|..i], rest[..j], Some(rest[j + |CoverSection|..])))
  }

  lemma StartsAtExtend(s: string, t: string, pat: string, k: nat)
    requires StartsAt(s, pat, k)
    ensures StartsAt(s + t, pat, k)
  {
    assert (s + t)[k..k + |pat|] == s[k..k + |pat|];
  }

  /** The cover label cannot begin inside the resume when the resume, followed
      by a line break, does not contain it. */
  lemma CoverLabelFirst(r: string, c: string)
    requires !Contains(r + "\n", CoverSection)
    ensures IndexFrom(r + CoverSection + c, CoverSection, 0) == Some(|r|)
  {
    var rest := r + CoverSection + c;
    assert StartsAt(rest, CoverSection, |r|) by {
      assert rest[|r|..|r| + |CoverSection|] == CoverSection;
    }
    forall k: nat | k < |r| ensures !StartsAt(rest, CoverSection, k) {
      CoverLabelNotAt(r, c, k);
    }
  }

  lemma CoverLabelNotAt(r: string, c: string, k: nat)
    requires !Contains(r + "\n", CoverSection)
    requires k < |r|
    ensures !StartsAt(r + CoverSection + c, CoverSection, k)
  {
    var rest := r + CoverSection + c;
    var n := |CoverSection|;
    if k + n <= |r| + 1 {
      assert rest[..|r| + 1] == r + "\n" by { assert rest[|r|] == CoverSection[0] == '\n'; }
      assert rest[k..k + n] == rest[..|r| + 1][k..k + n];
      assert !StartsAt(r + "\n", CoverSection, k);
    } else if k + n <= |rest| {
      var t := |r| - k;
      assert CoverSection[2..20] == "BASE COVER LETTER:";
      if t >= 2 {
        assert rest[k..k + n][t] == rest[|r|] == '\n';
        assert CoverSection[t] == CoverSection[2..20][t - 2] != '\n';
      } else {
        assert rest[k..k + n][t + 1] == rest[|r| + 1] == '\n';
        assert CoverSection[t + 1] == 'B';
      }
    }
  }

  /** The resume label cannot begin inside encoded nodes free of line breaks. */
  lemma ResumeLabelFirst(nodesJson: string, after: string)
    requires '\n' !in nodesJson
    ensures IndexFrom(JobSection + nodesJson + ResumeSection + after, ResumeSection, |JobSection|)
      == Some(|JobSection| + |nodesJson|)
  {
    var p := JobSection + nodesJson + ResumeSection + after;
    var i := |JobSection| + |nodesJson|;
    assert StartsAt(p, ResumeSection, i) by {
      assert p[i..i + |ResumeSection|] == ResumeSection;
    }
    forall k: nat | |JobSection| <= k < i ensures !StartsAt(p, ResumeSection, k) {
      assert p[k] == nodesJson[k - |JobSection|];
      assert k + |ResumeSection| <= |p| ==> p[k..k + |ResumeSection|][0] == p[k];
    }
  }

  /** A resume that does not contain the cover label, even followed by a line
      feed, holds no cover label. */
  lemma NoCoverLabel(baseResume: string)
    requires !Contains(baseResume + "\n", CoverSection)
    ensures IndexFrom(baseResume, CoverSection, 0) == None
  {
    forall k: nat | StartsAt(baseResume, CoverSection, k) ensures false {
      StartsAtExtend(baseResume, "\n", CoverSection, k);
    }
  }

  /** The payload is unambiguous: its three inputs can be read back, provided
      the encoded nodes hold no raw line break (JSON encoding escapes them) and
      the resume does not itself contain the cover label. */
  lemma PayloadRoundTrip(nodesJson: string, baseResume: string, baseCover: Option<string>)
    requires '\n' !in nodesJson
    requires !Contains(baseResume + "\n", CoverSection)
    ensures SplitPayload(UserPayload(nodesJson, baseResume, baseCover)) == Some((nodesJson, baseResume, baseCover))
  {
    var tail := match baseCover case None => "" case Some(c) => CoverSection + c;
    assert UserPayload(nodesJson, baseResume, baseCover) ==
      JobSection + nodesJson + ResumeSection + (baseResume + tail);
    SplitHead(nodesJson, baseResume + tail);
    match baseCover {
      case None =>
        NoCoverLabel(baseResume);
        assert baseResume + tail == baseResume;
      case Some(c) =>
        var rest := baseResume + CoverSection + c;
        assert baseResume + tail == rest;
        CoverLabelFirst(baseResume, c);
        assert rest[..|baseResume|] == baseResume;
        assert rest[|baseResume| + |CoverSection|..] == c;
    }
  }

  /** Behind the job label and line-break-free nodes, the split happens at the
      resume label that follows the nodes, and the rest is split at its first
      cover label. */
  lemma SplitHead(nodesJson: string, after: string)
    requires '\n' !in nodesJson
    ensures SplitPayload(JobSection + nodesJson + ResumeSection + after) ==
      match IndexFrom(after, CoverSection, 0)
      case None => Some((nodesJson, after, None))
      case Some(j) => Some((nodesJson, after[..j], Some(after[j + |CoverSection|..])))
  {
    var p := JobSection + nodesJson + ResumeSection + after;
    var i := |JobSection| + |nodesJson|;
    assert HasPrefix(p, JobSection) by { assert p[..|JobSection|] == JobSection; }
    ResumeLabelFirst(nodesJson, after);
    assert p[|JobSection|..i] == nodesJson;
    assert p[i + |ResumeSection|..] == after;
  }

  /** The fields `GenerateAll` reads from the content of the first choice. */
  function ReadReply(content: string, baseCover: Option<string>, totalTokens: int): (g: Generated)
    ensures g.err.Some? <==>
      ExtractTag("company", content) == "" || ExtractTag("role", content) == "" || ExtractTag("resume", content) == ""
    ensures g.err.Some? ==>
      g == Failed(g.err.value) &&
      g.err.value == MissingFields(ExtractTag("company", content), ExtractTag("role", content),
                                   Utf8Length(ExtractTag("resume", content)))
    ensures g.err.None? ==>
      Filled(g.company) && Filled(g.role) && Filled(g.resume) &&
      g.company == ExtractTag("company", content) && g.role == ExtractTag("role", content) &&
      g.resume == ExtractTag("resume", content) &&
      g.score == ScoreOf(content) && g.tokensUsed == totalTokens
    ensures baseCover.None? ==> g.cover == None
    ensures baseCover.Some? && g.err.None? ==>
      (g.cover.Some? <==> ExtractTag("cover", content) != "") &&
      (g.cover.Some? ==> g.cover.value == ExtractTag("cover", content))
  {
    var company := ExtractTag("company", content);
    var role := ExtractTag("role", content);
    var resume := ExtractTag("resume", content);
    var score := ScoreOf(content);
    var cover :=
      if baseCover.Some? then
        var c := ExtractTag("cover", content);
        if c != "" then Some(c) else None
      else None;
    if company == "" || role == "" || resume == "" then
      Failed(MissingFields(company, role, Utf8Length(resume)))
    else
      Generated(company, role, resume, cover, score, totalTokens, None)
  }

  /** The request sent and the results returned by one `GenerateAll`. */
  datatype Generation = Generation(result: Generated, call: Retry.Call<Request>)

  /** `GenerateAll`, given the JSON encoding of the nodes, the server, and the
      JSON decoder of the reply envelope (None when decoding fails). */
  function GenerateAll(
    model: string, nodesJson: string, baseResume: string, baseCover: Option<string>,
    server: Retry.Server, decode: Retry.Bytes -> Option<ApiResponse>): (run: Generation)
    ensures run.call == Retry.InvokeDeepseekApi(
      Request(model, [Message("system", SystemPrompt),
                      Message("user", UserPayload(nodesJson, baseResume, baseCover))], false), 0, server)
    ensures forall q :: q in run.call.sent ==>
      q.model == model && !q.stream && |q.messages| == 2 &&
      q.messages[0] == Message("system", SystemPrompt) &&
      q.messages[1] == Message("user", UserPayload(nodesJson, baseResume, baseCover))
    ensures |run.call.sent| <= 2 && (run.call.sleeps == [] || run.call.sleeps == [2500])
    ensures run.result.err.Some? ==> run.result == Failed(run.result.err.value)
    ensures run.call.outcome.Failure? ==> run.result == Failed(ApiFailed(run.call.outcome.error))
    ensures run.call.outcome.Success? && decode(run.call.outcome.value).None? ==>
      run.result == Failed(DecodeFailed)
    ensures run.call.outcome.Success? && decode(run.call.outcome.value).Some? &&
            |decode(run.call.outcome.value).value.choices| == 0 ==>
      run.result == Failed(NoChoices)
    ensures run.call.outcome.Success? && decode(run.call.outcome.value).Some? &&
            |decode(run.call.outcome.value).value.choices| > 0 ==>
      run.result == ReadReply(decode(run.call.outcome.value).value.choices[0], baseCover,
                              decode(run.call.outcome.value).value.totalTokens)
    ensures baseCover.None? ==> run.result.cover == None
    ensures run.result.err.None? ==>
      Filled(run.result.company) && Filled(run.result.role) && Filled(run.result.resume) &&
      run.call.outcome.Success? && decode(run.call.outcome.value).Some? &&
      |decode(run.call.outcome.value).value.choices| > 0 &&
      run.result == ReadReply(decode(run.call.outcome.value).value.choices[0], baseCover,
                              decode(run.call.outcome.value).value.totalTokens)
  {
    var request := Request(model, [Message("system", SystemPrompt),
                                   Message("user", UserPayload(nodesJson, baseResume, baseCover))], false);
    var call := Retry.InvokeDeepseekApi(request, 0, server);
    Retry.RetryFromZero(Success(request), None, 0, server);
    var result :=
      match call.outcome
      case Failure(f) => Failed(ApiFailed(f))
      case Success(raw) =>
        match decode(raw)
        case None => Failed(DecodeFailed)
        case Some(resp) =>
          if |resp.choices| == 0 then Failed(NoChoices)
          else ReadReply(resp.choices[0], baseCover, resp.totalTokens);
    Generation(result, call)
  }
}
