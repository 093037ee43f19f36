# PAN example backends and dark-mode bulk fixer, modelled in Dafny

This project models three small programs from the PAN (page area network)
repository and proves properties of them.

* **The SSE event hub** (`sse.py`) stores events. A POST appends a JSON
  record to an append-only log. The record's id is drawn from a counter
  file, or, when that file cannot be used, from the last record in the log.
  A GET replays the logged records that are newer than `lastEventId` and
  whose topic matches one of the subscribed patterns. It then tails the log
  for five minutes and sends a keepalive comment when nothing new has
  arrived. Topic patterns are dotted names in which `*` matches a non-empty
  run of characters without a dot. As with Python's `re.match` and `$`, a
  topic may also end in one extra newline.
* **The data API** (`apps/api.py`) has three parts in the model:
  * a fixed-window rate limiter, keyed by client address and endpoint;
  * `get_data`, which checks the resource and the requested fields against
    whitelists, builds `LIKE` filter clauses with their parameters, and
    computes the paging numbers;
  * `list_fields`.
* **The dark-mode bulk fixer** (`scripts/bulk-apply-dark-mode.py`) inserts a
  theme-init script into each HTML page's `<head>`. It also inserts a theme
  provider element and a bus element before `</body>`. It counts each page
  as fixed, skipped or in error.

Layout:

* `wrappers.dfy` holds `Option`.
* `text.dfy` holds Python's string operations: `strip`, `split`/`join`,
  `int()`/`str()` and case-insensitive search.
* `json.dfy` holds decoded JSON values. In an object the last duplicate key
  wins. `json.dumps`/`json.loads` are a `Codec` of functions, and
  `Lawful(c)` states their round trip.
* `topics.dfy` holds topic matching.
* `sse_format.dfy` holds the SSE frame.
* `sse_client.dfy` holds a browser's event-stream reader. It follows
  section 9.2.6 ("Interpreting an event stream") of the WHATWG HTML Living
  Standard, where a line ends at CRLF, LF or CR. It serves as the partner
  that reads frames back.
* `event_log.dfy` holds the hub as a class over the counter text and the
  log lines.
* `tail.dfy` holds a subscription session.
* `rate_limit.dfy`, `resources.dfy` and `dark_mode.dfy` hold the API parts
  and the fixer.

What the environment provides becomes a value or a function parameter:

* the files, as strings and flags for whether they can be read or written;
* the clock, as an integer `now`;
* `json.dumps`/`json.loads`, as the codec;
* the path computed for the theme script;
* the `re.sub` calls whose patterns the model does not reproduce.

## Model

| member | source | states |
|---|---|---|
| Text.Strip | packages/examples/backends/python/sse.py:52 | `str.strip()` yields a contiguous slice of the input with no whitespace at either end, and everything cut away is whitespace |
| Text.JoinSplit | packages/examples/backends/python/sse.py:60 | joining the parts of `split(sep)` with `sep` gives back the original text |
| Text.SplitJoin | packages/examples/backends/python/sse.py:112 | splitting a join of separator-free parts gives back exactly those parts |
| Text.ParseInt | packages/examples/backends/python/sse.py:52 | `int()` of stripped text: an optional sign and ASCII digits, otherwise an error |
| Text.DecimalRoundTrip | packages/examples/backends/python/sse.py:52-54 | `int(str(n))` is `n` for every integer, negative ones included |
| Text.FindCi | scripts/bulk-apply-dark-mode.py:81-87 | a case-insensitive search returns the first position where the needle occurs, and there is no occurrence before it |
| Text.LowerContains | scripts/bulk-apply-dark-mode.py:64 | `needle in content.lower()` holds exactly when a case-insensitive search for a lower-case needle succeeds |
| Json.Lookup | packages/examples/backends/python/sse.py:118-120 | `dict.get`: absent exactly when no member has the key; otherwise it returns the value of the last member with that key |
| Json.LookupSnoc | packages/examples/backends/python/sse.py:80-81 | setting a key on an object overrides that key and leaves every other key's value as it was |
| Json.AsInt | packages/examples/backends/python/sse.py:64 | `+ 1` and `<=` accept exactly ints and booleans; anything else raises |
| Topics.Match | packages/examples/backends/python/sse.py:102-103 | the regex `^escape(p)$` with `[^.]+` for each `*`: each `*` takes one or more non-dot characters, every other character matches itself |
| Topics.Anchored | packages/examples/backends/python/sse.py:103 | `re.match` with `^…$`: the pattern matches the whole topic, or the topic minus one trailing newline |
| Topics.TopicMatches | packages/examples/backends/python/sse.py:93-106 | `topic_matches` on a string topic: true for an empty list, otherwise the pattern loop |
| Topics.MatchesValue | packages/examples/backends/python/sse.py:93-106 | for a string topic, the result is `topic_matches` itself; only a non-string topic can raise |
| Topics.TopicMatchesIff | packages/examples/backends/python/sse.py:93-106 | a topic matches exactly when the list is empty, or holds `''` or `'*'`, or holds a pattern that matches it |
| Topics.AnyMatchIff | packages/examples/backends/python/sse.py:97-106 | the pattern loop returns true exactly when some pattern is match-all or matches the topic |
| Topics.MatchLiteral | packages/examples/backends/python/sse.py:102-103 | a pattern without `*` matches only the identical topic, because `re.escape` makes every other character literal |
| Topics.MatchLiteralPrefix | packages/examples/backends/python/sse.py:102-103 | a literal prefix of a pattern must match the topic's prefix, and the rest must match the rest |
| Topics.StarMatchesSegment | packages/examples/backends/python/sse.py:102 | `*` (`[^.]+`) matches exactly the non-empty text without a dot |
| Topics.PrefixStar | packages/examples/backends/python/sse.py:102-103 | `q*` matches exactly the topics made of `q` followed by one non-empty segment |
| Topics.MatchKeepsSegments | packages/examples/backends/python/sse.py:102-103 | a topic that a pattern matches has as many dots as the pattern, so `*` never spans segments |
| Topics.SegmentExamples | packages/examples/backends/python/sse.py:93-106 | `a.*` matches `a.b` but neither `a.b.c` nor `b.a`; `*` and the empty list match everything |
| Topics.AnchoredLiteral | packages/examples/backends/python/sse.py:102-103 | a pattern without `*` accepts exactly the identical topic and that topic followed by one newline |
| Topics.AnchoredKeepsSegments | packages/examples/backends/python/sse.py:102-103 | an accepted topic has as many dots as the pattern |
| Topics.TrailingNewline | packages/examples/backends/python/sse.py:103 | `a` accepts `a\n` although the regex alone does not match it, and `a.b\n` matches the list `["a.b"]` |
| SseFormat.Payload | packages/examples/backends/python/sse.py:140-142 | the payload holds the topic and the data, and holds `retain: true` exactly when retain is set |
| SseFormat.FormatSseEvent | packages/examples/backends/python/sse.py:131-144 | the frame is empty exactly when the record's topic is missing or falsy |
| SseFormat.FrameReadsBack | packages/examples/backends/python/sse.py:131-144 | an idle browser reader fed one frame dispatches one message: the event type is the topic, the data is the payload's JSON, the last event id is the record's id; it is idle again afterwards |
| SseFormat.KeepaliveIsSilent | packages/examples/backends/python/sse.py:219-221 | the keepalive comment leaves the reader unchanged |
| SseFormat.WireReadsBack | packages/examples/backends/python/sse.py:186-222 | for frames whose id and topic hold no CR, LF or NUL (`Sendable`), a whole response body dispatches exactly the messages of its frames, in order, and leaves the reader idle |
| SseFormat.PayloadReadsBack | packages/examples/backends/python/sse.py:132-144 | the data line of a frame decodes to the payload built from the record's topic, data and retain flag |
| SseFormat.PayloadCanonical | packages/examples/backends/python/sse.py:140-144 | the payload of encodable values is itself encodable, so `json.loads` inverts its `json.dumps` |
| SseClient.FrameDispatches | packages/examples/backends/python/sse.py:144 | an `id`/`event`/`data` block ended by a blank line, with id, type and data free of CR and LF and an id free of NUL, dispatches one message with that id, type and data |
| SseClient.CarriageReturnEndsLine | packages/examples/backends/python/sse.py:144 | a lone CR ends a line as LF does, and CRLF reads exactly as LF |
| SseClient.FeedLineAfterCarriageReturn | packages/examples/backends/python/sse.py:144 | after a CR, a non-empty line ended by LF is read as one line |
| SseClient.FieldCutAtCarriageReturn | packages/examples/backends/python/sse.py:144 | a CR inside a field value, such as a topic in `event:`, ends the value there, and the rest is read as a line of its own |
| SseClient.CommentIsSilent | packages/examples/backends/python/sse.py:221 | a comment block changes nothing in the reader |
| SseClient.FeedAppend | packages/examples/backends/python/sse.py:189-190 | reading two chunks in turn is reading their concatenation |
| EventLog.CounterValue | packages/examples/backends/python/sse.py:52 | `int(text.strip() or '0')`: 0 for a blank file, otherwise the parsed integer, or an error |
| EventLog.CounterRoundTrip | packages/examples/backends/python/sse.py:52-54 | the counter file reads back as the value last written to it |
| EventLog.LastFilled | packages/examples/backends/python/sse.py:60-62 | the position of the last line before `n` that is not blank: absent exactly when all of them are blank |
| EventLog.LastLine | packages/examples/backends/python/sse.py:60-62 | `lines[-1]` of `content.strip().split('\n')`: absent exactly when the log is blank; otherwise the last non-blank line, stripped on the right, and also on the left when no earlier line is non-blank |
| EventLog.LastLineAppend | packages/examples/backends/python/sse.py:60-62 | after a line without whitespace at either end is appended, it is the last line |
| EventLog.FallbackIgnoresBlank | packages/examples/backends/python/sse.py:60-67 | a trailing blank line does not change the fallback id |
| EventLog.FallbackId | packages/examples/backends/python/sse.py:56-67 | the fallback id is 1 when the log is unreadable, holds only blank lines, or its last line does not parse, is not an object or has an id that is not a number; a record without an id counts as id 0; otherwise it is the record's id plus one |
| EventLog.FallbackAfterAppend | packages/examples/backends/python/sse.py:56-67 | after a record with id `n` is appended, the fallback draws `n + 1` |
| EventLog.DrawId | packages/examples/backends/python/sse.py:50-67 | with a usable counter, the id is the counter plus one, and the file then reads back as that id; otherwise the fallback id, with the counter untouched |
| EventLog.Record | packages/examples/backends/python/sse.py:73-81 | the record holds id, ts, topic and data, and `retain: true` only when retain is truthy |
| EventLog.RecordCanonical | packages/examples/backends/python/sse.py:83 | a record built from encodable values is encodable |
| EventLog.Select | packages/examples/backends/python/sse.py:109-128 | the records `read_events` keeps, in log order: a non-empty line that parses, passes `last_id` and matches the patterns |
| EventLog.SelectAppend | packages/examples/backends/python/sse.py:115-124 | replaying two stretches of the log is replaying each in turn |
| EventLog.SelectMembers | packages/examples/backends/python/sse.py:109-128 | a record is returned exactly when some non-empty line parses to it, it is newer than `last_id` and its topic matches |
| EventLog.SelectFilters | packages/examples/backends/python/sse.py:118-122 | every returned record is an object with a numeric id above `last_id` and a matching topic |
| EventLog.AppendedIsReplayed | packages/examples/backends/python/sse.py:83-86 | a record appended to the log is returned after everything before it exactly when it passes the filters |
| EventLog.Validate | packages/examples/backends/python/sse.py:150-157 | a body that is not an object (falsy bodies count as `{}`) is an internal error; an object without a truthy topic is rejected; otherwise the topic, `data` (default `None`) and `retain` (default false) |
| EventLog.EventHub.constructor | packages/examples/backends/python/sse.py:44-47 | a fresh hub with the counter and log texts it was given, a missing counter reading as `0` and a missing log as empty |
| EventLog.EventHub.NextId | packages/examples/backends/python/sse.py:50-67 | `get_next_id`: the drawn id and the new counter text are `DrawId` of the old state; the log is unchanged |
| EventLog.EventHub.AppendEvent | packages/examples/backends/python/sse.py:70-90 | `append_event`: draws an id, then appends exactly the dumped record when the log can be written |
| EventLog.EventHub.ReadEvents | packages/examples/backends/python/sse.py:109-128 | `read_events`: the loop returns `Select` of the log, or nothing when the log cannot be read |
| EventLog.EventHub.HandlePost | packages/examples/backends/python/sse.py:148-169 | 500 for a malformed body and 400 for a missing topic, both leaving the state unchanged; otherwise the append and 200, or 500 when the log cannot be written; the status is 400 exactly for a missing topic and 200 exactly for a written event |
| Tail.Frames | packages/examples/backends/python/sse.py:189-190 | one frame per replayed record, in order |
| Tail.RecordsFrames | packages/examples/backends/python/sse.py:189-190 | the records carried by the replay's frames are the replayed records |
| Tail.Tick | packages/examples/backends/python/sse.py:198-222 | one pass: a shrunken log restarts the cursor; new lines yield the frames of the matching records; no new lines yield one keepalive; the cursor ends at the end of the log |
| Tail.TickFromEnd | packages/examples/backends/python/sse.py:204-218 | a pass from the end of a log that has grown delivers exactly the matching records of the lines appended |
| Tail.PassesDeliverAppended | packages/examples/backends/python/sse.py:193-222 | while the log only grows, all passes together deliver exactly the matching appended records, with no gap and no repeat, in log order |
| Tail.Replay | packages/examples/backends/python/sse.py:189-190 | the replay loop yields `Frames` of the past records |
| Tail.Stream | packages/examples/backends/python/sse.py:186-222 | everything a session yields: the replay's frames, then the passes of the tail loop |
| Tail.StatAfterReplayLosesGap | packages/examples/backends/python/sse.py:186-193 | as written, with the cursor set by a later `stat`, the session delivers the replay and then only the records appended after the `stat`; the lines in between are never delivered |
| Tail.GapExample | packages/examples/backends/python/sse.py:186-193 | an empty log read, one matching record appended before `stat`: the record is in the log but the session never delivers it |
| Tail.ReplayThenTailHasNoGap | packages/examples/backends/python/sse.py:186-222 | corrected: with the cursor at the end of the log the replay read, the replay is followed by exactly the matching records of every later line |
| Tail.FreshSessionDeliversAll | packages/examples/backends/python/sse.py:186-222 | corrected, without `last_id`: the session delivers every matching record of the final log exactly once, in log order |
| Tail.Session.Open | packages/examples/backends/python/sse.py:186-194 | as written: the frames of `read_events` on the log as read, a deadline 300 seconds out, and the cursor at the end of the log as `stat` later sees it; a missing log at `stat` ends the stream |
| Tail.Session.OpenAtRead | packages/examples/backends/python/sse.py:186-194 | corrected: the same replay and deadline, with the cursor at the end of the log the replay read |
| Tail.Session.Poll | packages/examples/backends/python/sse.py:196-227 | past the deadline the stream ends; an unreadable log changes nothing; otherwise the session appends `Tick`'s output and moves its cursor |
| Tail.Session.Scan | packages/examples/backends/python/sse.py:210-218 | the new-lines loop yields the frames of `Select` over the new lines |
| RateLimit.Key | packages/examples/backends/python/apps/api.py:100 | the key `f"{remote_addr}_{f.__name__}"` |
| RateLimit.KeysDistinct | packages/examples/backends/python/apps/api.py:100 | for addresses without `_`, two requests share a key exactly when they share the address and the endpoint |
| RateLimit.Admit | packages/examples/backends/python/apps/api.py:100-112 | only the caller's window changes; a request is refused (429) exactly when its window is still open and full, and then nothing changes; an admitted request either adds one to an open window's count, keeping its reset, or opens a new window with count 1 and reset `now + window` |
| RateLimit.AdmitKeepsBound | packages/examples/backends/python/apps/api.py:103-110 | no window's count ever exceeds the limit |
| RateLimit.RunInWindow | packages/examples/backends/python/apps/api.py:103-112 | inside one window, exactly the requests that fit under the limit are admitted |
| RateLimit.FreshWindow | packages/examples/backends/python/apps/api.py:103-112 | from a client's first request, at most `limit` requests reach the handler before the window resets |
| RateLimit.DefaultBurst | packages/examples/backends/python/apps/api.py:96-112 | with the default limit of 100 per 60 seconds, a client's first burst inside one window gets exactly `min(n, 100)` requests through |
| RateLimit.RateLimiter.constructor | packages/examples/backends/python/apps/api.py:103 | the shared table starts empty |
| RateLimit.RateLimiter.Check | packages/examples/backends/python/apps/api.py:99-112 | the decorator's branches update the table and admit or refuse as `Admit` says |
| Resources.WhitelistsAgree | packages/examples/backends/python/apps/api.py:46-61 | every whitelisted resource has a non-empty field list that begins with its primary key, and every field name is a plain identifier |
| Resources.Whitelisted | packages/examples/backends/python/apps/api.py:154 | the kept names are exactly the requested names that are whitelisted |
| Resources.WhitelistedAppend | packages/examples/backends/python/apps/api.py:154 | the filter keeps request order: filtering two lists in turn is filtering their concatenation |
| Resources.WhitelistedOne | packages/examples/backends/python/apps/api.py:154 | one name is kept exactly when it is whitelisted |
| Resources.StrippedParts | packages/examples/backends/python/apps/api.py:153-154 | one stripped name per comma-separated part |
| Resources.SelectFields | packages/examples/backends/python/apps/api.py:150-157 | the selected fields are non-empty and all whitelisted; for a `fields` parameter they are exactly the whitelisted requested names in request order, or the whole whitelist when none is |
| Resources.DefaultFields | packages/examples/backends/python/apps/api.py:153-157 | without a `fields` parameter, every whitelisted field is selected |
| Resources.NamesReadBack | packages/examples/backends/python/apps/api.py:153-154 | splitting the comma join of clean names and stripping the parts gives the names back |
| Resources.FieldsInRequestOrder | packages/examples/backends/python/apps/api.py:153-157 | `fields=content,title` selects `content` then `title`, in the order asked |
| Resources.FieldsFallBack | packages/examples/backends/python/apps/api.py:156-157 | a `fields` parameter with no whitelisted name selects the whole whitelist |
| Resources.ClauseOf | packages/examples/backends/python/apps/api.py:192-196 | a filter yields a clause exactly when its key is a whitelisted column |
| Resources.Clauses | packages/examples/backends/python/apps/api.py:191-196 | every clause the loop collects is on a whitelisted column |
| Resources.FiltersAsWritten | packages/examples/backends/python/apps/api.py:186-200 | the filter block as written: `where` is empty when a filter raises, but the patterns appended before it stay |
| Resources.FiltersParam | packages/examples/backends/python/apps/api.py:186-188 | the filters are decoded only when the parameter is present and non-empty, and a `json.loads` that raises gives none |
| Resources.Filters | packages/examples/backends/python/apps/api.py:186-200 | corrected: a filter list that raises is dropped as a whole |
| Resources.FiltersMismatch | packages/examples/backends/python/apps/api.py:186-200 | as written, a filter list whose second element is not an object leaves no WHERE clause but one pattern in the parameters |
| Resources.FiltersAgreeWhenWellFormed | packages/examples/backends/python/apps/api.py:186-200 | for a list of objects, the code as written and the corrected block agree |
| Resources.FiltersBalanced | packages/examples/backends/python/apps/api.py:183-205 | in the corrected block, the WHERE text has exactly as many `?` placeholders as there are parameters |
| Resources.BuildFiltersAsWritten | packages/examples/backends/python/apps/api.py:183-200 | the filter loop as written computes `FiltersAsWritten` |
| Resources.BuildFilters | packages/examples/backends/python/apps/api.py:183-200 | the corrected filter loop computes `Filters` |
| Resources.IntParam | packages/examples/backends/python/apps/api.py:180-181 | `int(params.get(name, default))`: the default when absent, otherwise `int()` of the stripped text |
| Resources.PageSize | packages/examples/backends/python/apps/api.py:180 | no value exactly when `int()` raises; otherwise a value above 100 gives 100, one below 1 gives 1, and one in 1..100 is kept |
| Resources.Start | packages/examples/backends/python/apps/api.py:181 | no value exactly when `int()` raises; otherwise a negative start gives 0 and any other is kept |
| Resources.Pages | packages/examples/backends/python/apps/api.py:230 | the ceiling division: enough pages for the total and no empty last page |
| Resources.PageOf | packages/examples/backends/python/apps/api.py:231 | the 1-based page whose range holds `start` |
| Resources.PageWithinTotal | packages/examples/backends/python/apps/api.py:230-231 | a start inside the total lies on a page that exists |
| Resources.Reply | packages/examples/backends/python/apps/api.py:226-233 | the reply echoes total, start and count; its pages are `Pages` (the fewest pages that cover the total) and its page is `PageOf` (the page holding `start`), which is within the pages when `start` is below the total |
| Resources.GetData | packages/examples/backends/python/apps/api.py:142-200 | an unknown resource is invalid; otherwise the query uses the resource's table and whitelisted fields, selects by primary key when `id` is given, and otherwise answers `BadNumber` exactly when `page_size` or `start` does not parse, or lists with the page size and start of `PageSize` and `Start` and the WHERE clause and parameters of `Filters` over the decoded `filters` parameter; it uses the corrected filter block, so its WHERE and parameters balance |
| Resources.ListFields | packages/examples/backends/python/apps/api.py:242-254 | invalid exactly for unknown resources; otherwise the resource, its primary key and its whitelist, which begins with that key |
| Resources.SameWhitelist | packages/examples/backends/python/apps/api.py:142-157 | `get_data` and `list_fields` reject the same resources, and `get_data` selects only listed fields (all of them by default) |
| DarkMode.HasThemeInit | scripts/bulk-apply-dark-mode.py:38-40 | `'theme-init.js' in content` |
| DarkMode.SearchTag | scripts/bulk-apply-dark-mode.py:44 | `re.search` with `IGNORECASE` finds the first tag followed by `>` or whitespace |
| DarkMode.HasHeadTag | scripts/bulk-apply-dark-mode.py:42-44 | true exactly when `<head` occurs, ignoring case, followed by `>` or whitespace |
| DarkMode.HasBodyTag | scripts/bulk-apply-dark-mode.py:46-48 | true exactly when `<body` occurs, ignoring case, followed by `>` or whitespace |
| DarkMode.HeadTagExamples | scripts/bulk-apply-dark-mode.py:42-44 | `<header>` is not a head tag; `<HEAD>` and `<head lang="en">` are |
| DarkMode.GuardedMarker | scripts/bulk-apply-dark-mode.py:75-105 | after an insertion the marker is present exactly when it already was or the page has `</body>` |
| DarkMode.GuardedKeeps | scripts/bulk-apply-dark-mode.py:75-105 | text without `<` that the page contained is still there after an insertion (text running into `</body>` is split by the inserted line) |
| DarkMode.AddThemeProvider | scripts/bulk-apply-dark-mode.py:75-89 | the provider line goes before the first `</body>`, ignoring case, unless the page already names `pan-theme-provider` |
| DarkMode.EnsurePanBus | scripts/bulk-apply-dark-mode.py:91-105 | the bus line goes before the first `</body>`, ignoring case, unless the page already names `pan-bus` |
| DarkMode.InsertionsIdempotent | scripts/bulk-apply-dark-mode.py:75-105 | applying `add_theme_provider` or `ensure_pan_bus` twice is applying it once |
| DarkMode.BodyGetsBoth | scripts/bulk-apply-dark-mode.py:149-151 | on a page with `</body>`, the two insertions leave both the bus and the provider in place |
| DarkMode.AddThemeInit | scripts/bulk-apply-dark-mode.py:50-73 | with a meta charset, the meta substitution; otherwise the charset line and script tag go right after the first `<head>`, ignoring case; otherwise nothing changes |
| DarkMode.ThemeInitInserted | scripts/bulk-apply-dark-mode.py:64-73 | on a page without a meta charset, the script lands in the page exactly when it has a bare `<head>` |
| DarkMode.Rewrite | scripts/bulk-apply-dark-mode.py:145-151 | `add_theme_init`, then `update_media_query`, then the bus and the provider when a body tag remains |
| DarkMode.PlanAsWritten | scripts/bulk-apply-dark-mode.py:125-159 | as written, a page is skipped exactly when it already has the script or has no head tag; every other page counts as fixed |
| DarkMode.AttributedHeadCountedFixed | scripts/bulk-apply-dark-mode.py:64-73 | as written, `<head lang="en">` without a meta charset is counted fixed but gets no script |
| DarkMode.UntouchedCountedFixed | scripts/bulk-apply-dark-mode.py:131-159 | as written, a page the rewrites leave unchanged can still count as fixed |
| DarkMode.Plan | scripts/bulk-apply-dark-mode.py:117-159 | corrected: a page counts as fixed only when its rewrite holds the script, exactly when it is not yet fixed, has a head tag and the rewrite holds the script; whenever it fixes, it agrees with the code as written |
| DarkMode.Decide | scripts/bulk-apply-dark-mode.py:125-151 | the step-by-step skip checks and rewrites compute `Plan` |
| DarkMode.Fixer.constructor | scripts/bulk-apply-dark-mode.py:21-25 | the counters start at zero |
| DarkMode.Fixer.ProcessFile | scripts/bulk-apply-dark-mode.py:117-163 | each file raises exactly one counter: errors for an unreadable file, skipped or fixed as `Plan` decides; a fix writes the backup and the new page unless it is a dry run |
| DarkMode.Fixer.Record | scripts/bulk-apply-dark-mode.py:137-159 | applies a decision to the counters and the files |

## Left out

- File I/O, Flask routing, HTTP replies other than their status and content, CORS, logging and `print` are left out. Files are strings, and flags say whether they can be read or written.
- Time is an integer parameter. The 15-second and 0.3-second sleeps and `stream_with_context` are not modelled. A client disconnect (`GeneratorExit`) is not modelled; `closed` marks the end of the stream, at the deadline or when the log is missing at `stat`.
- `json.dumps`/`json.loads` and `str()` of containers are function parameters (`Codec`). Their round trip is assumed only where a lemma requires `Lawful`. JSON numbers are integers; floats are not modelled.
- Tail.Session: the cursor counts log lines, while the code counts bytes (`st_size`, `seek`, `tell`). A line still being written when a pass reads it is not modelled.
- EventLog.Select: the log is its list of lines; the `strip()` before `split('\n')` in `read_events` is not modelled. The lines filter drops empty lines, and a whitespace-only line is a line that does not parse. The fallback id (`LastLine`) does model the `strip()`.
- SseFormat.FrameReadsBack: it requires the topic, the id and the payload's JSON to print without CR or LF (`OneLine`, `DumpsOneLine`). A topic that holds either breaks the frame in the code as written; `SseClient.FieldCutAtCarriageReturn` shows what a browser reads then, and the frame-level outcome is not stated.
- SseFormat.WireReadsBack: it covers only bodies whose frames are `Sendable`: ids and topics without CR, LF or NUL. For other bodies it promises nothing.
- SseClient.FrameDispatches: it covers only an id, type and data without CR or LF. A browser ends the line at either, so such a value is cut and the rest is read as another line.
- Resources.GetData: it uses the corrected filter block `Filters`. The code as written is `FiltersAsWritten`, which leaves unbalanced parameters when a filter raises (see Findings).
- Tail.Session.Open: the log as `stat` sees it is a parameter, not a later state of the hub; nothing ties it to the log the replay read. The lemmas assume it extends that log.
- `handle_get`'s parsing of `topics` and `lastEventId` is not modelled. Session.Open takes the pattern list and the last id as given.
- The mysql branch of `get_data` (`%s` placeholders, `zip` of the column names) is not modelled; the model follows the sqlite branch. The database queries, `get_db`, `load_environment`, `require_auth`, the security headers and the route handler are left out.
- Text.ParseInt: it accepts an optional sign and ASCII digits. Python's `int()` also accepts underscores between digits and non-ASCII digits; those are not modelled.
- RateLimit.Admit: time is whole seconds where the code uses the float `time.time()`.
- Requests are modelled one at a time. Both servers run threaded (`threaded=True` at packages/examples/backends/python/sse.py:243, Flask's default at packages/examples/backends/python/apps/api.py:288, with the database shared through `check_same_thread=False` at packages/examples/backends/python/apps/api.py:84). Concurrent `get_next_id` calls can then issue the same id, and concurrent `rate_limit` calls can admit more than `limit` requests in one window. The model does not capture either, and `RateLimit.AdmitKeepsBound` and `EventLog.DrawId` hold only for requests served in turn.
- DarkMode.AddThemeInit: the `<meta charset>` substitution is the `meta` function parameter, because the model does not reproduce the regular expression. `update_media_query` is the `media` parameter, and `calculate_relative_path` gives the `themePath` parameter.
- DarkMode.AddThemeInit: the path must not contain a backslash, because `re.sub` would read it as a template escape.
- Case-insensitive matching folds only ASCII letters. Python's `re.IGNORECASE` and `str.lower()` also fold other letters.
- `find_html_files`, `main` and the command line of the fixer are left out. A failure to write a file is not modelled; `errors` counts only files that cannot be read.
- DarkMode.Fixer.ProcessFile: it models the corrected decision. It writes the backup only for pages it fixes, while the code writes the backup before rewriting.
- `auth.py` and `api-legacy.py` are not part of this model.
- DarkMode.Guarded: its ensures restate its body. The rows name the lemmas about it instead.

## Findings

| source | as written | input that shows it | evidently intended | confidence | as-written member | corrected member |
|---|---|---|---|---|---|---|
| packages/examples/backends/python/apps/api.py:186-200 | each pattern goes into `where_params` inside the loop, but `where` is set only after the loop; a filter that raises (`f.get` on a non-object) jumps to `except: pass` and keeps the patterns appended before it | `filters=[{"key":"title","value":"x"},5]` on `posts`: `where` is `''` and `where_params` is `['%x%']`, so the COUNT query gets one parameter for no placeholder | the conditions and their parameters are committed together, or not at all | not executed | Resources.FiltersMismatch (over Resources.FiltersAsWritten, computed by Resources.BuildFiltersAsWritten) | Resources.FiltersBalanced (over Resources.Filters, computed by Resources.BuildFilters and used by Resources.GetData) |
| packages/examples/backends/python/sse.py:186-193 | `read_events` reads the log and the replay is yielded before `LOG_FILE.stat().st_size` sets the cursor, so lines appended in between are skipped by the tail | an empty log when `read_events` runs, one matching record appended before the `stat`: it is never sent to this subscriber | the cursor is the end of the log the replay read (or the size is taken before reading) | not executed | Tail.StatAfterReplayLosesGap and Tail.GapExample (over Tail.Session.Open) | Tail.ReplayThenTailHasNoGap and Tail.FreshSessionDeliversAll (over Tail.Session.OpenAtRead) |
| scripts/bulk-apply-dark-mode.py:64-73, 117-159 | `has_head_tag` accepts `<head` followed by whitespace, but `add_theme_init` inserts only after a bare `<head>`; the page is then counted as fixed without the script | the page `<head lang="en">`: not skipped, rewritten unchanged, counted fixed, and never gets `theme-init.js` | a page counts as fixed only when the script was inserted | not executed | DarkMode.AttributedHeadCountedFixed (over DarkMode.PlanAsWritten) | DarkMode.Plan (used by DarkMode.Decide and DarkMode.Fixer.ProcessFile) |
