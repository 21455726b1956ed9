# jdextractor core in Dafny

This project models the core of jdextractor, a tool that turns a job posting
into a tailored resume, an optional cover letter, the company and role, and a
fit score, by asking a chat-completion API. The model covers these parts:

- **Model request** (module `Reply`, `jdextract/generate.go`): the user payload
  with its three labelled sections, and the request with its system prompt.
- **Model reply** (module `Reply`, `jdextract/generate.go`): tag extraction
  with the regular expressions' leftmost-first semantics, the score read with
  `strconv.Atoi`, and the check that company, role and resume are present.
- **Retry controller** (module `Retry`, `jdextract/llm.go` and
  `jdextract/fetch.go`): on a 429 answer it escalates the backoff (500 ms
  stands in for none, then times 5) and gives up above 10000 ms. Every wait
  can be cancelled. Other statuses and transport errors end the call. A
  fetched page is capped at 100000 bytes, and the reader URL is built in
  `buildJinaUrl`.
- **Slug** (module `Slug`, `jdextract/storage.go`): the directory name for a
  job. The loop that picks the title is an imperative method, proved against
  a recursive specification.
- **Portable paths** (module `Paths`, `jdextract/app.go`): the directory
  layout next to the executable. The macOS walk up to the enclosing `.app`
  bundle is an imperative loop, proved against a recursive specification.
- **Patterns** (module `Patterns`, `jdextract/parse.go`): `headingRe` and
  `separatorRe` as matchers with RE2's leftmost-first, greedy and lazy
  semantics. Each is defined by an executable search and proved equal to the
  match a declarative predicate describes.

Supporting modules:

- `GoStrings`: the parts of Go's `strings` and `strconv` the core uses:
  `TrimSpace` with `unicode.IsSpace`, `Trim`, `TrimLeft`, `TrimPrefix`, ASCII
  `ToLower`, and `Atoi` with its clamp at the largest int64.
- `Wrappers`: `Option` and `Result`.

Some properties of the code as written, each proved:

- Starting from backoff 0, as `GenerateAll` does, a call sends at most two
  requests and waits at most once, for 2500 ms. The escalation 500, 2500,
  12500 ms might suggest three throttled attempts, but the code gives up on
  the second 429: 12500 ms exceeds the 10000 ms cap before it is waited.
  Starting at 500 ms it also makes only two attempts.
- The score is not clamped to 1..10. Any run of digits is read, and values
  above the int64 range become the largest int64.
- On macOS with no `.app` ancestor, the walk ends at `/`, so the data
  directory becomes `/data`.
- `headingRe`'s `\s+` can cross a line break, so a line holding only `#`
  makes the next line the heading text.

## Model

| member | source | states |
|---|---|---|
| Reply.ExtractTag | jdextract/generate.go:41-47 | the result has no white space at either end, and it is "" when the text holds no `<name>…</name>` span |
| Reply.TagGroup | jdextract/generate.go:34-42 | the capture group is None exactly when no span exists, and otherwise it is the text between the tags of the leftmost-first match (earliest opening tag, nearest closing tag) |
| Reply.ExtractFirst | jdextract/generate.go:41-47 | when a leftmost-first match exists, `extractTag` returns its group passed through `TrimSpace` |
| Reply.ScoreFrom | jdextract/generate.go:36 | finds the leftmost `<score>digits</score>` match at or after a position, or proves there is none |
| Reply.ScoreAt | jdextract/generate.go:106-107 | the digits of a score match, trimmed and read, equal `Atoi` of the digits |
| Reply.ScoreOf | jdextract/generate.go:106-108 | the score is within 0..MaxInt64, is 0 when no score tag matches, and otherwise is `Atoi` of the digits of the leftmost match |
| Reply.UserPayload | jdextract/generate.go:63-71 | the user message starts with the job label, the encoded nodes, the resume label and the resume. It ends there when no base cover letter was given, and otherwise continues with exactly the cover label and the cover letter |
| Reply.PayloadRoundTrip | jdextract/generate.go:63-71 | splitting the user payload at its labels gives back the encoded nodes, the resume and the optional cover letter. This holds when the nodes have no raw line break and the resume does not contain the cover label |
| Reply.ReadReply | jdextract/generate.go:100-120 | it fails, with all results zeroed, exactly when company, role or resume extracts to "", and the error then carries the extracted company and role and the resume's length in UTF-8 bytes. Otherwise those three are non-empty and trimmed, the score and token count are returned, and the cover is present only when a base cover letter was given and the cover tag is non-empty |
| Reply.GenerateAll | jdextract/generate.go:49-121 | the call record is exactly what `InvokeDeepseekApi` yields, from backoff 0, for the request carrying the model, the system prompt and the user payload with streaming off. So its outcomes are those `RetrySettles`, `RetryExhausted` and `InvokeReturnsBody` describe for the server. At most two requests and one 2500 ms wait occur. Every outcome is accounted for, each with zeroed results on error: an API failure is returned as such, an undecodable reply gives the decode error, an empty choice list gives "no choices", and otherwise the result is `ReadReply` of the first choice. A success comes only from that last case |
| Retry.Schedule | jdextract/llm.go:34-42 | the backoffs of successive calls under constant throttling begin with the starting backoff |
| Retry.Escalate | jdextract/llm.go:34-38 | the backoff after a 429 is a multiple of five larger than the current one, and 2500 ms when there was no backoff yet |
| Retry.ScheduleFromZero | jdextract/llm.go:34-42 | from 0 the backoffs are [0, 2500] and the only wait is 2500 ms. From 500 ms the backoffs and waits are [500, 2500] |
| Retry.ScheduleBounded | jdextract/llm.go:34-42 | whatever the starting backoff, a call makes at most six attempts |
| Retry.ReadBody | jdextract/fetch.go:80-87 | a read error is reported only when it comes before the limit. A successful read is a prefix of the body, at most the limit long, and the whole body when it fits |
| Retry.Retry | jdextract/llm.go:15-54 | the record accounts for the server (`Accounts`): the attempts stay within the schedule, the waits are a prefix of the planned ones, every request sent is the prepared one and every answer before the last is a 429. A success, transport error, bad status or read failure is what `Settle` makes of the last answer, which is not a 429. A cancellation carries the context error of the wait after the last request. A build failure sent nothing. Rate limiting follows a 429 at the last step of the schedule |
| Retry.Settle | jdextract/llm.go:29-53 | an answer that is not a 429 decides a transport error exactly when the client failed, a bad status exactly when the status is not 200, and otherwise the body read under the limit or the read error |
| Retry.RetrySettles | jdextract/llm.go:15-54 | conversely, when no wait is cancelled and the first m answers are 429s within the schedule, the call sends m + 1 requests, waits the first planned backoffs, and its outcome is what `Settle` makes of answer m |
| Retry.RetryExhausted | jdextract/llm.go:34-42 | when no wait is cancelled and every answer of the schedule is a 429, the call reports rate limiting after sending one request per step and waiting every planned backoff |
| Retry.RetryCancelled | jdextract/llm.go:16-22 | a wait that the context ends returns the context's error, having waited once and sent nothing |
| Retry.RetryFromZero | jdextract/generate.go:87 | starting from backoff 0 at most two requests are sent, and the waits are [] or [2500] |
| Retry.RateLimitedFromZero | jdextract/llm.go:34-42 | from backoff 0 the call reports rate limiting exactly when the request was built, the first answer is a 429, the 2500 ms wait is not cancelled and the second answer is a 429. It then sent two requests and waited once |
| Retry.TerminalStatus | jdextract/llm.go:44-46 | a status other than 200 and 429 ends the call at once with that status, after one request |
| Retry.InvokeDeepseekApi | jdextract/llm.go:15-54 | every request carries the given body, a request-building failure cannot occur, and a success is the unchanged body of a 200 answer that read cleanly |
| Retry.InvokeReturnsBody | jdextract/llm.go:34-53 | conversely, a 200 answer that reads cleanly after m 429s within the schedule, with no wait cancelled, is returned unchanged after m + 1 requests |
| Retry.BuildJinaUrl | jdextract/fetch.go:37-43 | the URL is the reader prefix followed by the target, and an error is returned exactly when parsing that URL fails |
| Retry.FetchJobDescription | jdextract/fetch.go:45-88 | every request goes to the reader URL, a success is a prefix of a 200 body of at most 100000 bytes (the whole body when it fits), and a URL error means nothing was sent |
| Retry.FetchReturnsCapped | jdextract/fetch.go:66-87 | conversely, a 200 answer after m 429s within the schedule, with no wait cancelled, yields its body cut to 100000 bytes, or the read error when reading fails before the limit |
| GoStrings.IndexFrom | jdextract/generate.go:42 | the first occurrence of a pattern at or after a position, and None only when there is none |
| GoStrings.TrimPrefix | jdextract/storage.go:22 | one leading copy of the prefix is removed when present, otherwise the text is unchanged |
| GoStrings.TrimLeft | jdextract/storage.go:24 | the result is a suffix, everything removed is in the cutset, and the result does not start with a cutset character |
| GoStrings.Trim | jdextract/storage.go:34 | the result is the slice of the input after its leading cutset run, everything after it is in the cutset, it has no cutset character at either end, and it is empty exactly when every character is in the cutset |
| GoStrings.TrimIsLeftThenRight | jdextract/storage.go:34 | `Trim` is `TrimLeft` followed by `TrimRight` |
| GoStrings.TrimSpace | jdextract/storage.go:32 | the result is the input with its leading and trailing Unicode white space removed and nothing else: a slice whose removed ends are all white space, with no white space at either end, empty exactly when the input is all white space |
| GoStrings.Utf8Length | jdextract/generate.go:117 | `len` of a string counts UTF-8 bytes: between one and four per character |
| GoStrings.Utf8LengthAscii | jdextract/generate.go:117 | the byte length equals the character count exactly when the text is ASCII |
| GoStrings.ToLower | jdextract/storage.go:32 | maps each ASCII capital to its small letter and keeps every other character, at the same position |
| GoStrings.Atoi | jdextract/generate.go:107 | a digit string's decimal value, or the largest int64 when the value does not fit |
| Slug.Slugify | jdextract/storage.go:16-40 | the directory name is the eight-character prefix alone when the slug of the chosen title is empty, and otherwise the prefix, a dash and the slug |
| Slug.Candidate | jdextract/storage.go:20-25 | the value a node offers for the title is a suffix of its content, and "" for a node of any other kind |
| Slug.PickTitle | jdextract/storage.go:19-29 | the title is empty exactly when every node's candidate is empty, and otherwise it is one of the candidates |
| Slug.PickTitleFirst | jdextract/storage.go:19-29 | the title is the candidate of the first node whose candidate is non-empty |
| Slug.PickTitleNone | jdextract/storage.go:19-29 | when no node yields a candidate, the title is "" |
| Slug.PickTitleIgnoresLater | jdextract/storage.go:26-28 | once a title is found, later nodes do not matter |
| Slug.OtherKindIgnored | jdextract/storage.go:20-25 | a node of any other kind never changes the title, wherever it stands |
| Slug.CandidateStrips | jdextract/storage.go:21-24 | a Jina title loses one leading "Title:". A job title loses all leading `#`, `*`, space and tab characters, and nothing else |
| Slug.Collapse | jdextract/storage.go:33 | replacing `[^a-z0-9]+` by "-" leaves only `[a-z0-9-]` and never lengthens the text |
| Slug.CollapseShape | jdextract/storage.go:33 | replacing `[^a-z0-9]+` by "-" yields only `[a-z0-9-]` with no two dashes in a row and is no longer than the input. It is empty only for empty input, and starts or ends with a dash exactly when the input starts or ends with a replaced character |
| Slug.CollapseRun | jdextract/storage.go:14 | a whole run of non-`[a-z0-9]` characters becomes one dash |
| Slug.CollapseKeeps | jdextract/storage.go:14 | text made only of `[a-z0-9]` is left unchanged |
| Slug.CollapseSplit | jdextract/storage.go:33 | the replacement can be done piecewise at any cut that does not split a run of replaced characters |
| Slug.CollapseKept | jdextract/storage.go:33 | the replaced text has a non-dash character exactly when the input has a `[a-z0-9]` character |
| Slug.TrimKeepsKept | jdextract/storage.go:32 | the text after `TrimSpace` has a `[a-z0-9]` character exactly when the input has one |
| Slug.TrimmedShape | jdextract/storage.go:34 | trimming dashes from the replaced text leaves `[a-z0-9-]` with no double dash and no dash at either end |
| Slug.SlugOf | jdextract/storage.go:32-34 | the slug uses only `[a-z0-9-]`, never has two dashes in a row, and neither starts nor ends with a dash |
| Slug.SlugEmpty | jdextract/storage.go:32-36 | the slug is empty exactly when the lower-cased title holds no `[a-z0-9]` character |
| Paths.Dir | jdextract/app.go:38 | the parent of a clean absolute path is clean. It is "/" for "/". Otherwise it is a strictly shorter path, and the original is that path followed by a slash and more text, unless the parent is "/" |
| Paths.Join | jdextract/app.go:59 | joining a clean directory and one element gives a clean path whose `Dir` is the directory and whose `Base` is the element |
| Paths.Layout | jdextract/app.go:57-63 | data and config sit directly under the root, jobs under data, and templates under config, each with its own name and all clean |
| Paths.GetPortablePaths | jdextract/app.go:38-65 | off macOS the root is the executable's directory. On macOS it is where the walk-up loop stops, and the layout is built under that root |
| Paths.AncestorStep | jdextract/app.go:48-53 | the ancestors of a path are the path itself and the ancestors of its parent, so the walk visits every ancestor in order |
| Paths.WalkUp | jdextract/app.go:40-54 | the walk-up loop stops at a clean path that is the start directory or one of its ancestors |
| Paths.WalkUpNearest | jdextract/app.go:40-55 | on macOS the root is the parent of the nearest enclosing `.app` directory, the start directory included, and "/" when there is none |
| Patterns.HeadingAt | jdextract/parse.go:7 | the match at a line start, with the most hashes, the longest spaces, then the longest capture, or proof that none exists there |
| Patterns.FindHeading | jdextract/parse.go:7 | None exactly when nothing matches. Otherwise it is the capture of the leftmost, greedy-preferred match, a non-empty text without line feeds |
| Patterns.NoTripleHash | jdextract/parse.go:7 | a line starting with three hashes never matches at its start |
| Patterns.HeadingAcrossLines | jdextract/parse.go:7 | "#\nfoo" yields the heading text "foo", because `\s` matches the line feed |
| Patterns.HeadingExample | jdextract/parse.go:7 | a `##` heading on a later line is found, and its text stops at the end of the line |
| Patterns.TokenLength | jdextract/parse.go:11 | the separator token at a position, `at` in either case or one of `-`, `–`, `—`, `|`, with its unique length |
| Patterns.SeparatorAt | jdextract/parse.go:11 | for a given end of the role, the match the pattern prefers (greedy spaces, then token, then spaces), or proof that there is none |
| Patterns.Separate | jdextract/parse.go:11 | None exactly when no match exists. Otherwise it is the role and company of the match with the shortest role, both non-empty |
| Patterns.UnspacedNeverSplits | jdextract/parse.go:11 | a token without white space right before and after it is never where a match splits, as in "Front-End" or "Data" |
| Patterns.NoSpaceNoSplit | jdextract/parse.go:11 | text without white space is never split |
| Patterns.SeparatorExample | jdextract/parse.go:9-11 | "Engineer at Acme" splits into "Engineer" and "Acme" |

## Left out

- HTTP mechanics are outside the model: building the `http.Request`, the DeepSeek endpoint URL, its headers, the API key, `c.Do` and closing the body. A `Server` value supplies each answer, or the transport error, of the k-th request.
- Contexts and the clock are outside the model. The `time.After` wait is recorded as a planned sleep, and `Server.cancelDuring` says whether the context ends during it.
- `json.Marshal` of the nodes and of the request, and `json.Unmarshal` of the reply envelope, are not modelled. The encoded nodes are a string parameter and the decoder is a function parameter. The marshalling errors cannot happen for these types and are not modelled.
- `url.Parse` is not modelled. Its error is a parameter of `BuildJinaUrl`, and re-serialising the parsed URL with `String()` is taken to be the identity.
- Retry.Retry: the backoff is a natural number. A negative starting backoff and int64 overflow of `backoff *= 5` are not modelled. No caller passes anything but 0.
- Retry.ReadBody: a read error that comes exactly as the 100000th byte is delivered is treated as beyond the limit.
- GoStrings.ToLower: only ASCII letters are lowered. Unicode case mapping of other letters is not modelled.
- `strings.ToValidUTF8` is not modelled: the text is already a sequence of characters, so it is the identity here.
- `rand.Text()` is not modelled. Its text is a parameter of `Slugify` of at least eight characters, which the real function always returns.
- `os.Executable`, `filepath.EvalSymlinks` and their errors are not modelled. `GetPortablePaths` takes the resolved path, which is clean and absolute. Windows paths are not modelled.
- `runtime.GOOS` is not modelled. It is the `darwin` parameter.
- `headingRe` and `separatorRe` are modelled as matchers. The classifier and document builder that call them are not part of this model.
