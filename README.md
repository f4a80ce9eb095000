# Bhoolbhulaiya front end, modelled in Dafny

Bhoolbhulaiya is a honeypot site. Its front end is built to be hard for bots to scrape and easy to catch them with. This project models the parts of it that decide what each visitor sees, and proves properties of them:

- **The edge gate** (`EdgeGate`, `Seed`). It runs before every page. A client that carries the flag cookie `mp_flag=1` is redirected to `/honeypot`. Everyone else gets a per-visitor seed: the `mp_seed` cookie if it is present and non-empty, otherwise twelve hex digits cut from a fresh UUID, which is written back as a cookie for an hour. The seed reaches the page in the `x-mp-seed` request header.
- **The bait route** (`AdminLogin`). A hidden link leads to `/admin-login`. The route records the caller's address, sets the flag cookie and redirects to the honeypot page.
- **Polymorphic class names** (`Polymorph`). Every styled element of the landing page gets the class `mp-<key>-<token>`. The token is six base-36 digits of a 32-bit rolling hash of `<seed>:<key>`. The stylesheet is generated from the same class map.
- **The landing page** (`Page`). It picks the seed: header, then cookie, then `"fallbackseed"`. It renders every randomised class and the stylesheet from the one class map.
- **The streaming terminal** (`Terminal`). It keeps a transcript, guards sends with a one-second cooldown, cuts the backend's event stream into blank-line separated `data: ` frames, types the received text one character per tick, and has a kill switch.
- **The operations dashboard** (`SecurityDashboard`). It derives alerts and rows from the polled log. It flashes once per new head alert, and goes offline when a poll is answered with an error status.
- **The live activity feed** (`LiveStats`). It shows a "time ago" label per recent command.

`Http` holds the request and response records the edge code reads and writes. `Text` holds the JavaScript string and number primitives the code relies on: `split`, `trim`, `padStart`, `slice`, `replace`, `toString(36)` and decimal printing.

Randomness, the clock, the network, timers and entry ids are parameters:

- the UUID the runtime draws;
- the current time in milliseconds;
- the chunks a stream delivers;
- the id a new transcript entry gets.

Each timer callback and each stream event is a method the caller invokes.

## Model

| member | source | states |
|---|---|---|
| Text.JoinSplit | src/app/terminal/terminal-client.tsx:211 | Joining the pieces of `split(sep)` with `sep` gives back the text that was split. |
| Text.SplitPiecesFree | src/app/terminal/terminal-client.tsx:211 | No piece of `split(sep)` contains the separator. |
| Text.SplitLeftmost | src/app/terminal/terminal-client.tsx:211 | `split(sep)` cuts at the leftmost occurrence each time: no occurrence of the separator starts inside a piece. |
| Text.SplitUnique | src/app/terminal/terminal-client.tsx:211 | Pieces free of the separator, cut at the leftmost occurrence and joined by it are exactly what `split(sep)` gives for the joined text. |
| Text.Trim | src/app/terminal/terminal-client.tsx:141 | `trim()` cuts a stretch of the input. The result neither starts nor ends with JavaScript white space, and it is empty exactly when the input is all white space. |
| Text.ReplaceFirst | src/app/terminal/terminal-client.tsx:217 | `replace(pat, rep)` leaves text without `pat` unchanged, and swaps a leading `pat` for `rep`. |
| Text.RemoveChar | src/middleware.ts:9 | `replace(/-/g, "")` leaves no hyphen, never lengthens the text, leaves hyphen-free text unchanged, and removes a lone hyphen entirely. With `Text.RemoveCharAppend`, this fixes the result: every other character is kept, in order. |
| Text.RemoveCharAppend | src/lib/seed.ts:5 | Removing hyphens distributes over concatenation. |
| Text.SliceTo | src/app/page.tsx:110 | `slice(0, end)` is a prefix of length `min(end, len)`. A negative end counts from the back. |
| Text.PadStart | src/lib/polymorph.ts:32 | `padStart(width, fill)` is at least `width` long, ends with the input, and is `fill` before it. |
| Text.Numeral | src/lib/polymorph.ts:31 | `toString(radix)` gives base-`radix` digits, with no leading zero unless the number is 0. |
| Text.NumeralRoundTrip | src/lib/polymorph.ts:31 | The digits of `toString(radix)` read back as the number. |
| Text.NumeralLength | src/lib/polymorph.ts:30-33 | A numeral has at most `k` digits exactly when the number is below `radix^k`. |
| Text.LeadingZeros | src/lib/polymorph.ts:32 | Zeros padded in front do not change a numeral's value. |
| Text.DecimalRoundTrip | src/app/live-stats.tsx:120-122 | Decimal printing of any integer, negative ones included, reads back as that integer. |
| Polymorph.ToInt32 | src/lib/polymorph.ts:24 | The 32-bit coercion of the hash lies in the signed 32-bit range and is congruent to its input modulo 2^32. |
| Polymorph.ToInt32Congruent | src/lib/polymorph.ts:24 | Numbers congruent modulo 2^32 have the same 32-bit value. |
| Polymorph.HashStepIsMulAdd | src/lib/polymorph.ts:23-24 | `(h << 5) - h + c`, wrapped to 32 bits, equals `31*h + c` wrapped to 32 bits. |
| Polymorph.UnitsOf | src/lib/polymorph.ts:23 | `charCodeAt` sees a character above U+FFFF as its two UTF-16 surrogates. |
| Polymorph.CodeUnits | src/lib/polymorph.ts:22-23 | The code units of a string are at least as many as its characters, each below 0x10000. |
| Polymorph.CodeUnitsOfChar | src/lib/polymorph.ts:22-23 | A one-character string has exactly that character's UTF-16 units. |
| Polymorph.CodeUnitsAppend | src/lib/polymorph.ts:22-23 | The units of a concatenation are the units of its parts, in order. So a string's units are its characters' encodings, one after another. |
| Polymorph.DecodeCodeUnits | src/lib/polymorph.ts:22-23 | Decoding the code units as UTF-16, with surrogate pairs combined, gives back the string's scalar values. |
| Polymorph.HashUnitsIsRollingHash | src/lib/polymorph.ts:20-27 | The folded hash is the 32-bit rolling hash `31*h + unit`, starting from 0. |
| Polymorph.Hash | src/lib/polymorph.ts:26 | `Math.abs` of a 32-bit value is at most 2^31. |
| Polymorph.HashSeed | src/lib/polymorph.ts:20-27 | The loop over the code units returns exactly `Hash(input)`, at most 2^31. |
| Polymorph.Token | src/lib/polymorph.ts:29-34 | A token is exactly six base-36 digits whose value is the hash. The cut to six never drops a digit because 2^31 < 36^6. |
| Polymorph.TokenFacts | src/lib/polymorph.ts:30-33 | Padding the hash's base-36 numeral to six gives six digits of the same value, which `slice(0, 6)` keeps whole. |
| Polymorph.HashFitsSixDigits | src/lib/polymorph.ts:31-32 | Every hash has at most six base-36 digits. |
| Polymorph.TokenDeterminesHash | src/lib/polymorph.ts:29-34 | Two tokens are equal exactly when their hashes are. |
| Polymorph.ClassName | src/lib/polymorph.ts:36-38 | A class name is "mp-", the key, "-" and six base-36 digits. |
| Polymorph.ParseClassNameRoundTrip | src/lib/polymorph.ts:36-38 | A class name reads back as its key and its token. |
| Polymorph.ClassNameInjective | src/lib/polymorph.ts:36-38 | Equal class names have equal keys and equal tokens. |
| Polymorph.KeyNameRoundTrip | src/lib/polymorph.ts:3-16 | Each of the thirteen keys is named by its own string, read back as that key. |
| Polymorph.KeyNameInjective | src/lib/polymorph.ts:3-16 | Distinct keys have distinct names. |
| Polymorph.CreateClassMap | src/lib/polymorph.ts:40-56 | Every key of the map holds `className(seed, key)`. |
| Polymorph.ClassMapDistinct | src/lib/polymorph.ts:40-56 | Within one map, different keys never share a class name, whatever the seed. |
| Polymorph.ClassMapPattern | src/lib/polymorph.ts:40-56 | Every class of a map matches the `mp-<key>-<token>` pattern of its own key. |
| Polymorph.RuleIndex | src/lib/polymorph.ts:58-166 | Every key has a plain rule in the stylesheet. |
| Polymorph.CssHasSelector | src/lib/polymorph.ts:58-166 | The generated CSS contains `.<class> {` for the class of every key of the map. |
| Polymorph.CssHasHoverSelector | src/lib/polymorph.ts:127 | The generated CSS contains the hover rule of the connect button's class. |
| Seed.Derive | src/lib/seed.ts:5 | The seed has no hyphen. It is a prefix of the base with hyphens removed, `min(length, len)` long. |
| Seed.SeedMonotone | src/lib/seed.ts:1-6 | A shorter seed from the same base is a prefix of a longer one. |
| Seed.StripAfter | src/lib/seed.ts:5 | Removing hyphens from `a + "-" + b`, with `a` hyphen-free, keeps `a` whole. |
| Seed.UuidStripped | src/lib/seed.ts:2-5 | A textual UUID with hyphens removed starts with its first eight and next four hex digits. |
| Seed.UuidSeed | src/lib/seed.ts:1-6 | With a UUID available, the default seed is the UUID's first two groups: twelve lower-case hex digits. |
| Seed.FallbackSeed | src/lib/seed.ts:4-5 | Without a UUID, the seed is the first twelve digits of the millisecond clock. |
| Http.Rewrite | src/middleware.ts:17-19 | A rewritten URL keeps its origin, takes the new path and loses its query. |
| Http.Lookup | src/middleware.ts:14 | `get(name)` is present exactly when the name is, with its value. |
| Http.StoreCookies | src/app/admin-login/route.ts:18-23 | After storing a Set-Cookie list, the client holds the old cookies and the named ones. Unnamed cookies keep their values. Every named cookie holds the value of the last instruction that names it. |
| Http.Expire | src/app/admin-login/route.ts:22 | An expired cookie is no longer sent. All other cookies are unchanged. |
| EdgeGate.GenerateSeed | src/middleware.ts:7-10 | The gate's seed is the shared derivation at length 12. For a textual UUID, it is twelve lower-case hex digits. |
| EdgeGate.ExistingSeed | src/middleware.ts:23-24 | A seed is reused exactly when the seed cookie is present and non-empty. |
| EdgeGate.Middleware | src/middleware.ts:12-49 | It redirects exactly when the client is flagged and outside `/honeypot`, to the same origin's `/honeypot` with no query and no cookies. Otherwise it forwards the seed in both headers, keeps every other request header, and writes a cookie exactly when no seed was reused. |
| EdgeGate.SeedReused | src/middleware.ts:23-28 | A present, non-empty seed cookie is forwarded unchanged and no cookie is written. |
| EdgeGate.SeedCreated | src/middleware.ts:26-46 | A missing or empty seed cookie gives a fresh seed, written as `mp_seed` with path `/`, HTTP only, SameSite lax, for one hour. |
| EdgeGate.GateCorrection | src/middleware.ts:51-53 | The as-written edge step (`GateAsWritten`) and the corrected one (`Gate`) differ exactly on the paths the written matcher skips and the corrected one runs on. Those are the `/favicon?ico` lookalikes, whose requests reach the page without passing the gate. |
| EdgeGate.NoRedirectLoop | src/middleware.ts:16-21 | Following the gate's redirect with the same cookies is let through. |
| EdgeGate.MatcherSkipsLookalike | src/middleware.ts:52 | The matcher as written skips `/favicon_ico`, which is not the icon. |
| EdgeGate.MatcherCorrection | src/middleware.ts:52 | The literal-dot matcher runs wherever the written one does. It runs on more paths only where the character between "favicon" and "ico" is not a dot. |
| EdgeGate.MatcherRunsOnPages | src/middleware.ts:52 | The corrected matcher runs on the root and on every path starting with a lower-case letter other than `f`. |
| AdminLogin.ClientAddress | src/app/admin-login/route.ts:6-9 | The address is the forwarded-for header, else the real-ip header, else "unknown". A present but empty header is still taken. |
| AdminLogin.Get | src/app/admin-login/route.ts:4-26 | The bait answers with a redirect to the same origin's `/honeypot` without query. It sets `mp_flag=1` with path `/`, HTTP only, SameSite lax, for one hour. |
| AdminLogin.BaitFlagsClient | src/app/admin-login/route.ts:17-23 | After storing the bait's cookie, the gate redirects the client's next request outside the honeypot to `/honeypot`. |
| AdminLogin.BaitRedirectSettles | src/app/admin-login/route.ts:13-17 | Following the bait's redirect with the stored cookies passes the gate without another redirect. |
| AdminLogin.FlagExpires | src/app/admin-login/route.ts:22 | Once the flag cookie has expired, the gate lets every request through. |
| Page.PageSeed | src/app/page.tsx:19-23 | The seed is the `x-mp-seed` header, else the `mp_seed` cookie, else "fallbackseed". |
| Page.Home | src/app/page.tsx:18-25 | The page renders with that seed and the class map of that seed. |
| Page.Render | src/app/page.tsx:28-345 | Every randomised class in the markup is the map's class for its key. The session label and the footer are the seed's first ten and twelve characters. The bait link goes to `/admin-login`. |
| Page.StyleCoversMarkup | src/app/page.tsx:24-29 | The page's stylesheet has a rule for every class of the page's map. |
| Page.LabelStartsFooter | src/app/page.tsx:110 | The session label is a prefix of the footer's seed. |
| Page.PageUsesGateSeed | src/app/page.tsx:19-23 | A page reached through the gate renders with the seed the gate forwarded, whatever the cookies hold. |
| Page.SameSeedSameClasses | src/app/page.tsx:22-25 | Requests with the same seed render the same page. |
| Terminal.WithOutputChar | src/app/terminal/terminal-client.tsx:102-110 | A typed character extends a trailing output entry, keeping its id and the earlier entries. Otherwise it starts a new output entry holding just that character. |
| Terminal.TypingAppendsChar | src/app/terminal/terminal-client.tsx:102-110 | Typing one character adds exactly that character to the transcript's text. |
| Terminal.FramePayload | src/app/terminal/terminal-client.tsx:213-218 | A frame carries text exactly when it starts with "data: ". The frame is then "data: " followed by the text. |
| Terminal.PayloadIff | src/app/terminal/terminal-client.tsx:213-218 | A frame carries `t` exactly when it is "data: " followed by `t`. |
| Terminal.Feed | src/app/terminal/terminal-client.tsx:210-212 | Joined by blank lines, the frames and the kept buffer give the buffer plus the chunk. No frame and no buffer contains a blank line. Each cut is at the leftmost blank line: no frame followed by a newline contains one. |
| Terminal.FeedKeepsText | src/app/terminal/terminal-client.tsx:205-220 | Reading a chunk appends exactly that chunk to the text held as frames plus buffer. |
| Terminal.PayloadsAppend | src/app/terminal/terminal-client.tsx:213-219 | The text of two runs of frames is the text of the first followed by that of the second. |
| Terminal.StreamStep | src/app/terminal/terminal-client.tsx:205-220 | After each read, the frames and buffer hold exactly the chunks received so far. |
| Terminal.FramesAreSplit | src/app/terminal/terminal-client.tsx:210-212 | Frames and a buffer with the properties every read keeps are the pieces of `split("\n\n")` of their joined text. |
| Terminal.TerminalClient.constructor | src/app/terminal/terminal-client.tsx:20-37 | The transcript starts with the intro notice. The input, session, busy, cooldown, error, queue and refs start empty. |
| Terminal.TerminalClient.PumpTyping | src/app/terminal/terminal-client.tsx:112-133 | After the pump, a tick is scheduled, whether or not one already was. |
| Terminal.TerminalClient.EnqueueText | src/app/terminal/terminal-client.tsx:135-138 | The text joins the end of the queue, and a tick is scheduled. |
| Terminal.TerminalClient.Tick | src/app/terminal/terminal-client.tsx:117-130 | With text queued, the first character moves into the transcript and the next tick is scheduled. With none, the tick stops and clears `busy` once the stream is done. Typed text followed by the queue stays all text queued. |
| Terminal.TerminalClient.Send | src/app/terminal/terminal-client.tsx:140-172 | An empty command or a busy terminal sends nothing. Within a second of the last send, the command is deferred with a notice and the cooldown. Otherwise it is dispatched: input cleared, busy, no error, the `$ ` echo appended, and a new stream. |
| Terminal.TerminalClient.Attempt | src/app/terminal/terminal-client.tsx:146-172 | Past the guard, the command is deferred or dispatched by the one-second rule alone. |
| Terminal.TerminalClient.RetryAsWritten | src/app/terminal/terminal-client.tsx:155-158 | The retry drops the cooldown flag and then acts like the send of the render that deferred it. An empty command changes nothing else. Within a second of the last send, the command is deferred again, with the notice and a new deadline. Otherwise it is dispatched with the full new state, even while another command is streaming. |
| Terminal.TerminalClient.Retry | src/app/terminal/terminal-client.tsx:155-158 | The corrected retry drops the cooldown flag. While the terminal is busy it changes nothing else. Otherwise it defers or dispatches exactly as the written retry, with the full new state. |
| Terminal.TerminalClient.RateLimited | src/app/terminal/terminal-client.tsx:187-196 | A 429 restarts the cooldown, appends the rate-limit notice, clears `busy` and sets the cooling-down error. |
| Terminal.TerminalClient.BackendFailed | src/app/terminal/terminal-client.tsx:230-242 | Any other failure clears `busy`, sets the unreachable error and appends the connection notice. |
| Terminal.TerminalClient.ReceiveChunk | src/app/terminal/terminal-client.tsx:206-219 | A chunk adds its frames and keeps the unfinished tail. The queue grows by the text of the chunk's "data: " frames, in order. A tick is scheduled exactly when one was already or the chunk had a "data: " frame, even an empty one. |
| Terminal.TerminalClient.ReceiveStream | src/app/terminal/terminal-client.tsx:205-220 | At the end of a stream, the frames followed by the kept buffer are exactly the pieces `split("\n\n")` makes of the whole text received. The frames are the blank-line cuts, so their joining gives back that text. The queue has grown by the frames' text, and a tick is scheduled exactly when one was already or some frame was a "data: " frame. |
| Terminal.TerminalClient.FinishStream | src/app/terminal/terminal-client.tsx:222-229 | A leftover "data: " frame is queued, a non-empty session header becomes the session, the stream is marked done and a tick is scheduled. |
| Terminal.TerminalClient.CooldownCheck | src/app/terminal/terminal-client.tsx:45-58 | Once the clock reaches a set deadline, the cooldown ends and the deadline clears. Before then, nothing changes. |
| Terminal.TerminalClient.KillSwitch | src/app/terminal/terminal-client.tsx:70-91 | With a session, a failed reset request leaves everything unchanged. Otherwise the transcript becomes the single kill-switch notice. The queue, stream flag, session, busy, cooldown and error are cleared, and the input and a scheduled tick are kept. |
| SecurityDashboard.AlertedEntries | src/app/ops/security-client.tsx:94 | The alerted entries are exactly the log's entries with a non-empty alert. |
| SecurityDashboard.AlertedEntriesAppend | src/app/ops/security-client.tsx:94 | The filter keeps log order. The alerted entries of two logs joined are those of the first log, then those of the second. A single entry contributes itself exactly when it raises an alert. |
| SecurityDashboard.AlertCount | src/app/ops/security-client.tsx:94 | The alert counter equals the number of log positions whose entry has a non-empty alert. |
| SecurityDashboard.Take | src/app/ops/security-client.tsx:98 | `slice(0, n)` is the prefix of length `min(n, len)`. |
| SecurityDashboard.AlertRows | src/app/ops/security-client.tsx:98 | The alerts panel is the first at most four alerted entries, in the log order `AlertedEntriesAppend` establishes. |
| SecurityDashboard.LogRows | src/app/ops/security-client.tsx:120 | The command log is the first at most ten entries. |
| SecurityDashboard.NoticesMatchRows | src/app/ops/security-client.tsx:107-131 | The "no active alerts" notice shows exactly when the alerts panel is empty. The waiting notice shows exactly when the log list is empty. |
| SecurityDashboard.LatestAlert | src/app/ops/security-client.tsx:52 | The latest alert is absent exactly when no entry is alerted. Otherwise it is the id of the first alerted entry, with none alerted before it. |
| SecurityDashboard.LatestAlertHeadsPanel | src/app/ops/security-client.tsx:52 | The latest alert is the id at the head of the alerted entries. |
| SecurityDashboard.Upper | src/app/ops/security-client.tsx:101 | `toUpperCase` keeps the length and raises exactly the ASCII lower-case letters. |
| SecurityDashboard.UpperIdempotent | src/app/ops/security-client.tsx:101 | Upper-casing twice is upper-casing once. |
| SecurityDashboard.SeverityLabel | src/app/ops/security-client.tsx:101 | A missing severity is labelled "LOW". A present one is labelled upper-cased, the empty string included. |
| SecurityDashboard.LabelMatchesClass | src/app/ops/security-client.tsx:99-101 | The label is the class's severity upper-cased, the "low" default included. |
| SecurityDashboard.MaxCount | src/app/ops/security-client.tsx:147 | The bar scale is never 0. It is the first count when there is one and it is non-zero, else 1. |
| SecurityDashboard.ShellClass | src/app/ops/security-client.tsx:68 | The root class is `"sec-shell sec-flash"` while flashing and `"sec-shell "` otherwise. |
| SecurityDashboard.Remember | src/app/ops/security-client.tsx:53-54 | The remembered id becomes the latest alert exactly when it flashes. |
| SecurityDashboard.RepollIsQuiet | src/app/ops/security-client.tsx:53-57 | Polling the same log again never flashes a second time. |
| SecurityDashboard.FlashFollowsHead | src/app/ops/security-client.tsx:52-57 | Logs with the same head alert flash, and remember, alike. |
| SecurityDashboard.Dashboard.constructor | src/app/ops/security-client.tsx:25-29 | The dashboard starts idle, with no logs, zero stats, no flash and no remembered alert. |
| SecurityDashboard.Dashboard.BeginFetch | src/app/ops/security-client.tsx:37 | A poll starts by showing "syncing". |
| SecurityDashboard.Dashboard.FinishFetch | src/app/ops/security-client.tsx:37-58 | A rejected request, which `fetchData` does not catch, changes nothing, so the status stays "syncing". A non-ok answer shows "offline" and keeps logs, stats, flash and memory. A successful one replaces the logs (absent means empty) and the stats. It flashes and starts the timer exactly on a new non-empty head alert, and shows "live". |
| SecurityDashboard.Dashboard.FlashTimeout | src/app/ops/security-client.tsx:56 | The timer ends the flash. |
| LiveStats.ElapsedSeconds | src/app/live-stats.tsx:119 | The elapsed time is the whole seconds from the timestamp to now, rounded down, negative for future timestamps. |
| LiveStats.TimeSince | src/app/live-stats.tsx:117-123 | The label is "—" exactly when the timestamp is 0. |
| LiveStats.ReadAgeOf | src/app/live-stats.tsx:120-122 | A count and a unit letter followed by " ago" read back as that count and letter. |
| LiveStats.TimeSinceReadsBack | src/app/live-stats.tsx:117-123 | A real timestamp's label reads back as seconds below a minute (negative included), whole minutes below an hour, or whole hours, each rounded down from the elapsed time. |
| LiveStats.TimestampOf | src/app/live-stats.tsx:144 | `Number(ts)` of a decimal integer is that integer. Anything else counts as no timestamp. |
| LiveStats.Feed | src/app/live-stats.tsx:125-152 | The feed is absent exactly without metrics or without recent commands. Otherwise it has one row per command, in order, with its command and its label. |

## Left out

- Timers, `fetch`, `crypto.randomUUID`, `Math.random`, `Date.now` and `console.log` are not modelled. Their results are parameters, and every timer callback is a method the caller invokes.
- The randomised delay between typing ticks is left out. Only the order of ticks matters to the model.
- The kill switch's reset request to the backend, `POST /api/terminal/reset`, is network I/O. Its outcome is the `resetFailed` parameter. When it fails, the handler throws and the model leaves the state unchanged.
- The request body of a send, which carries the command and the session id, is not modelled; it is network I/O.
- `TextDecoder` is not modelled. Chunks arrive already decoded.
- Reading the `x-session-id` header is not modelled; its value is the parameter of `FinishStream`.
- Terminal.TerminalClient.Tick: it moves one Unicode scalar value per tick, whereas the source moves one UTF-16 code unit. The source types a character above U+FFFF in two ticks, one surrogate half each; the model types it in one.
- Headers and cookies are maps keyed by exact name. Case-insensitive header lookup and multiple values per name are not modelled.
- Cookie expiry is the explicit `Http.Expire` step rather than a clock.
- `EdgeGate.Gate` (corrected matcher) and `EdgeGate.GateAsWritten` (the matcher as written) compose a matcher with the middleware and have no contract of their own. `EdgeGate.GateCorrection` relates them.
- The percentage bar's `Math.round(count / maxCount * 100)` is floating point and is left out. Its scale, `MaxCount`, is modelled.
- `toLocaleTimeString` of the log rows is locale-dependent and is left out.
- LiveStats.TimestampOf: reads only decimal integers. `Number` also accepts surrounding white space, fractions, exponents and hexadecimal, which the backend's timestamps do not use. A non-numeric text, which `Number` reads as NaN, is treated like 0, which `timeSince` also renders as "—".
- SecurityDashboard.Upper: covers ASCII letters only. `toUpperCase` also maps other scripts and can lengthen text (for example "ß" becomes "SS").
- SecurityDashboard.MaxCount: a count that is NaN is not modelled. Counts are integers.
- The terminal's rendering, focus and scrolling, and the static landing page content are left out, as are the other components of the site.
- Terminal.TerminalClient.buffer: the model keeps one stream buffer, but in the source each `handleSend` call has its own local buffer (terminal-client.tsx:203). Two streams can overlap in two ways. One is the as-written retry. The other is the kill switch, in the corrected model too: it clears `busy` without cancelling the running reader (terminal-client.tsx:60-92), so a later send dispatches while the first stream still runs. The model follows a second stream only up to its dispatch. That dispatch resets the shared buffer and frames, whereas the source keeps the first stream's unfinished frame in that call's own local. The first stream's remaining chunks keep arriving in the source and are queued after the reset, and its end marks the stream done. The model treats them as chunks of the current stream.
- The input's guards are not modelled. Enter is ignored during the cooldown, the input is disabled while busy, and the button is disabled while busy or cooling down (terminal-client.tsx:279, :285, :294). `Send` can be called in any state, and its own busy check is modelled.
- Text.SliceTo: counts Unicode scalar values, whereas `slice` counts UTF-16 code units. The seed labels `seed.slice(0, 10)` and `slice(0, 12)` (page.tsx:110, :336) differ from the source for a seed with characters above U+FFFF. The source can also cut such a character's surrogate pair in half, which a Dafny string cannot hold. The seeds the gate generates are hexadecimal, so this concerns only a hand-made seed cookie.
- Terminal.TerminalClient.Retry and RetryAsWritten: the stale closure is modelled only for `busy`. The `sessionId` sent with a retried command is also the stale one, which the model does not carry because the request body is not modelled.

## Findings

| source | as written | input that shows it | evidently intended | confidence | as-written member | corrected member |
|---|---|---|---|---|---|---|
| src/middleware.ts:52 | The matcher's `favicon.ico` alternative leaves the `.` unescaped, so it matches any character. | The path `/favicon_ico` (or `/faviconXico...`) skips the gate, gets no seed, and is never redirected when the client is flagged. | Only the icon `/favicon.ico` skips the gate. | medium, not executed | EdgeGate.MatcherSkipsLookalike | EdgeGate.MatcherCorrection |
| src/app/terminal/terminal-client.tsx:155-158 | The deferred retry calls the `handleSend` of the render that deferred it. That render's `busy` was false, so the retry skips the busy guard. | Send "a" at time t; its reply finishes streaming within half a second. At t+500 send "b": it is deferred, and its retry is due at t+1500. At t+600 press the kill switch, which clears the cooldown. At t+1200 send "c": it is dispatched and streams. At t+1500 "b"'s retry, run by the stale handler, is deferred again because "c" was sent 300 ms earlier. At t+2500 it falls due again: if "c" is still streaming, "b" is dispatched as a second concurrent stream. | A retry, like any send, does nothing while the terminal is busy. | medium, not executed | Terminal.TerminalClient.RetryAsWritten | Terminal.TerminalClient.Retry |
