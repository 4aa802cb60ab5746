# MitchellSoftware portfolio: verified model of the stateful core

This Dafny project models the parts of the portfolio site that keep state or make decisions:

- **Flask backend** (`server/app.py`, `server.py`):
  - the sliding-window visitor log behind the "active sessions" figure;
  - the per-client chat rate limiter (at most 10 admitted messages in any 60-second window);
  - how the client key is taken from `X-Forwarded-For`;
  - the validation that runs before the rate limiter in `/api/chat`;
  - the admin-token guard;
  - the stock-band colour of the PDF table (`get_fill_color`).
- **Lumber-yard restock planner** (`pallet-builder.js`):
  - the fill-colour and label bands, and `darkenColor`;
  - the yard of bunks, each with a restock flag, and the `restockOrder` list that `toggleFlag`, `clearSelection` and `buildYard` keep in step with the flags;
  - the click/tap guard that refuses full bunks;
  - the totals shown in the sidebar, the yard-health panel and the PDF request.
- **Portfolio page** (`script.js`):
  - the `AppState` store: change-detecting `setState`, subscribers, `toggle` and the derived `props`;
  - the scroll handler's active-section computation;
  - the restore of the saved display mode and the mode toggle;
  - the typing effect's step function.

Modules, one per component:

| file | module | models |
|---|---|---|
| `wrappers.dfy` | `Wrappers` | `Option` |
| `tracker.dfy` | `SlidingWindow` | `_visitor_log`/`_track_visitor`, `_chat_rate`/`_check_chat_rate` |
| `requests.dfy` | `Requests` | `_get_real_ip`, the head of `chat()`, the admin guard |
| `bands.dfy` | `StockBands` | `get_fill_color`, `getFillColor*`, `getFillLabel`, `darkenColor` |
| `restock.dfy` | `Restock` | catalog, bunks, `restockOrder`, sidebar/health/PDF totals |
| `appstate.dfy` | `AppStore` | `AppState`, scroll tracking, saved mode, mode toggle |
| `typing.dfy` | `Typing` | `type()` |

State that the source updates in place is modelled with classes, each with `modifies` clauses:

- `SlidingWindow.VisitorLog` and `SlidingWindow.ChatRateLimiter`: the module-level dicts;
- `Restock.Bunk` and `Restock.Yard`: bunk objects whose `flagged` field is flipped in place and shared between `bunkData` and `restockOrder`;
- `AppStore.Store`: `AppState`;
- `Typing.Typewriter`: the typing closure.

Each method is proved against a pure specification function of the old state (`Observe`, `CheckRate`, `Apply`, `Step`, `HealthCounts`, ...). The promised properties are lemmas about those functions.

Conventions:

- Time is an explicit `real` parameter.
- Fractions are exact reals.
- JavaScript values held by the store are `Undefined | Bool | Str`, compared by value, which is what `!==` does on them.

## Model

| member | source | states |
|---|---|---|
| SlidingWindow.Recent | server/app.py:246 | the pruned list keeps exactly the timestamps newer than the cutoff and is never longer |
| SlidingWindow.RecentAppend | server/app.py:246-249 | pruning a list with one timestamp appended prunes the list and keeps the new one iff it is newer than the cutoff |
| SlidingWindow.RecentCompose | server/app.py:243-246 | pruning at an earlier cutoff and then at a later one equals pruning at the later one |
| SlidingWindow.RecentOfStale | server/app.py:246 | a list with nothing newer than the cutoff prunes to the empty list |
| SlidingWindow.RecentOfNewer | server/app.py:246 | a list whose every timestamp is newer than the cutoff is kept whole |
| SlidingWindow.Observe | server/app.py:229-236 | after tracking `ip` at `now`: `ip` maps to `now`; every remaining entry is at least `now - 900`; no key other than `ip` is new and none has a changed value; every other entry at least `now - 900` is kept |
| SlidingWindow.ObserveGrowsByAtMostOne | server/app.py:232-237 | one request adds at most one session to the gauge |
| SlidingWindow.ObserveTwice | tests/test_server.py:359-363 | the same client seen twice at one instant leaves the log one observation leaves, so it has one entry |
| SlidingWindow.SessionScenario | server/app.py:229-236 | an example with the 900 s window: clients at 0 and 899 are both kept; a request at 901 expires the one from 0 and keeps the one from 899 |
| SlidingWindow.VisitorLog.constructor | server/app.py:102 | the log starts empty |
| SlidingWindow.VisitorLog.ActiveSessions | server/app.py:332 | the `active_sessions` figure is the number of tracked clients: zero exactly when the log is empty |
| SlidingWindow.VisitorLog.TrackVisitor | server/app.py:229-237 | the delete loop leaves exactly `Observe(old log, ip, now)`, and the gauge is set to `ActiveSessions` of the new log |
| SlidingWindow.CheckRate | server/app.py:240-250 | only `ip`'s list is rewritten and `ip` becomes a key; the call is admitted iff fewer than 10 timestamps are newer than `now - 60`; admitted: the pruned list with `now` appended; refused: the pruned list; a list of at most 10 stays at most 10 |
| SlidingWindow.StaleHistoryIsAdmitted | tests/server/test_app.py:434-442 | when every stored timestamp is at least 60 s old, however many there are, the call is admitted and the list becomes `[now]` |
| SlidingWindow.RejectionIsFree | server/app.py:247-248 | a refused call leaves a state in which the same call is refused again and changes nothing |
| SlidingWindow.StepKeepsWindow | server/app.py:243-250 | if the stored list is the admitted history pruned at an earlier cutoff, one call leaves the new history pruned at the current cutoff, still at most 10 long |
| SlidingWindow.RunKeepsWindow | server/app.py:240-250 | for a fresh client and a clock that never goes back, after any sequence of calls the stored list is exactly the admitted timestamps inside the current window, and there are at most 10 |
| SlidingWindow.AdmittedPerWindowBounded | server/app.py:107-108 | for a fresh client and a clock that never goes back, no 60-second window ending at a call holds more than 10 admitted messages |
| SlidingWindow.ClockGoingBackAdmitsMore | server/app.py:242-249 | without a monotone clock the bound fails: ten calls at 100, one at 200 and one at 100 again leave twelve admitted messages after the last call's cutoff |
| SlidingWindow.BurstAdmitsLimit | tests/server/test_app.py:510-516 | `n` calls at one instant from a fresh client admit exactly `min(n, 10)`, and the stored list is those timestamps |
| SlidingWindow.BurstStep | server/app.py:246-249 | with `k <= 10` copies of `now` stored, a call at `now` is admitted iff `k < 10` and then stores `k + 1` copies |
| SlidingWindow.LimitScenario | tests/server/test_app.py:423-442 | ten messages at t=0 are admitted; an eleventh at t=5 is refused; ten stored 120 s old do not block a new message, and the list restarts at `[0]` |
| SlidingWindow.ChatRateLimiter.constructor | server/app.py:106 | the limiter starts empty |
| SlidingWindow.ChatRateLimiter.CheckChatRate | server/app.py:240-250 | returns the verdict and leaves the map `CheckRate` specifies |
| Requests.FirstField | server/app.py:225 | `split(',')[0]` is a prefix without a comma, followed by a comma or by the end |
| Requests.LeadingSpace | server/app.py:225 | counts the whitespace characters the string starts with, and stops at the first non-space |
| Requests.TrailingSpaceStart | server/app.py:225 | finds where the trailing whitespace begins; the character before it is not a space |
| Requests.Strip | server/app.py:225 | `strip()` is never longer than its input, and a non-empty result starts and ends with a non-space character |
| Requests.StripSpec | server/app.py:225 | `strip()` returns the slice between leading and trailing whitespace; when non-empty it starts and ends with non-space characters |
| Requests.StripEmptyIffAllSpace | server/app.py:571-579 | a stripped field is empty iff the original is all whitespace |
| Requests.RealIp | server/app.py:221-226 | a non-empty header gives its first comma-separated field, stripped (so no comma, and the empty key when that hop is blank); with no header, the remote address if present and non-empty, otherwise `unknown` |
| Requests.FirstFieldOfJoin | server/app.py:225 | `split(',')[0]` of `first,rest` is `first`, whatever `rest` contains |
| Requests.FirstFieldWithoutComma | server/app.py:225 | `split(',')[0]` of a string without a comma is the whole string |
| Requests.RealIpIgnoresLaterHops | server/app.py:223-225 | the key is the stripped first hop whatever later hops say |
| Requests.RealIpOfSingleHop | server/app.py:223-225 | a header holding one hop gives that hop, stripped |
| Requests.ChatGate | server/app.py:570-585 | a blank name gives 400 with the limiter untouched; otherwise a blank message does; otherwise the limiter is consulted with the client key, 429 is returned iff it refuses, and an admitted request is accepted with the key and the stripped name and message |
| Requests.StatusCode | server/app.py:576-585 | 400 exactly for a missing name or message, 429 exactly when the limiter refuses, 200 exactly for an accepted request (the 503 answers of the AI call are not modelled) |
| Requests.InvalidChatIsFree | server/app.py:576-585 | a rejected invalid request never changes the next rate-limit verdict |
| Requests.Chat | server/app.py:567-585 | acting on the shared limiter, the outcome and the new map are those of `ChatGate` |
| Requests.AdminAuthorized | server/app.py:678-682 | the negated guard `not expected or token != expected` grants access iff `ADMIN_TOKEN` is non-empty and the query token equals it (both directions) |
| Requests.AdminClosedWhenUnset | server/app.py:681-682 | with the variable unset no token opens the route, and an empty token never does |
| StockBands.BandMonotone | pallet-builder.js:350-356 | more stock never yields a lower band |
| StockBands.FillColor | pallet-builder.js:350-356 | the colour is a 24-bit value and equals the colour of the fraction's band |
| StockBands.FillColorCss | pallet-builder.js:358-364 | the CSS string is the `#rrggbb` spelling of `getFillColor`'s number |
| StockBands.FillLabel | pallet-builder.js:366-372 | the label is the band's label |
| StockBands.ServerFillColor | server.py:41-50 | GREEN iff `pct >= 0.8`; `#86efac` iff `0.5 <= pct < 0.8`; YELLOW iff `0.2 <= pct < 0.5`; RED iff `0 < pct < 0.2`; gray iff `pct <= 0`; the same string as `getFillColorCSS`. The copy at server/app.py:350-359 is textually identical, so this one function stands for both |
| StockBands.CssHex | pallet-builder.js:786 | `'#' + n.toString(16).padStart(6, '0')` has seven characters and starts with `#`; its round trip is CssHexRoundTrip |
| StockBands.DigitValue | pallet-builder.js:1127 | `parseInt` of one hexadecimal digit is a value in 0..15 |
| StockBands.CssHexRoundTrip | pallet-builder.js:1127 | the colour string written at line 786, read back with the `#` dropped and the rest as base 16, gives back the 24-bit colour that was written |
| StockBands.CssOfBandColors | pallet-builder.js:350-364 | the hex numbers and CSS strings of the five band colours spell the same colours |
| StockBands.ColorAndLabelIdentifyBand | pallet-builder.js:350-372 | two fractions get the same colour, the same CSS colour or the same label iff they are in the same band, so the five bands are pairwise distinct |
| StockBands.BandLabelsDistinct | pallet-builder.js:366-372 | distinct bands have distinct labels |
| StockBands.ColorScenario | tests/test_server.py:317-349 | 1.0 and 0.8 share a colour, 0.8 and 0.79 do not, and 1.0, 0.5, 0.1 and 0 give at least three colours |
| StockBands.Pct | server.py:159 | the fraction is 0 when capacity is not positive; otherwise it times the capacity is the current stock, and it lies in [0, 1] when the stock is within capacity |
| StockBands.PctBand | server.py:159 | the band of `current/capacity` (or of 0 when capacity is not positive) is the one given by integer cross-multiplication, e.g. Full iff `5*current >= 4*capacity` |
| StockBands.NoCapacityIsGray | server.py:205-206 | a bunk of non-positive capacity, or with no stock, is coloured gray in the PDF table |
| StockBands.DarkenColor | pallet-builder.js:374-379 | every channel of the result is the input channel times the factor, rounded down; the result is 24-bit and no channel is brighter than before |
| StockBands.ScaleBounds | pallet-builder.js:375-378 | a channel scaled by a factor in [0, 1] stays in 0..channel |
| StockBands.ChannelsOfRgb | pallet-builder.js:378 | packing three bytes and unpacking them returns the bytes |
| StockBands.RgbOfChannels | pallet-builder.js:375-377 | unpacking a colour and packing its bytes returns the colour |
| StockBands.DarkenByOne | pallet-builder.js:374-379 | factor 1 is the identity |
| Restock.CatalogWellFormed | pallet-builder.js:7-35 | catalog ids are unique, and every capacity and unit weight is positive |
| Restock.Bunk.constructor | pallet-builder.js:143-148 | a new bunk copies its catalog item, holds the given stock and is not flagged |
| Restock.WithoutId | pallet-builder.js:564 | the filter keeps exactly the entries with another id, all taken from the order |
| Restock.WithoutIdConcat | pallet-builder.js:564 | the filter distributes over concatenation, so the kept entries stay in their order |
| Restock.WithoutIdKeepsDistinct | pallet-builder.js:564 | filtering an order without duplicates keeps it without duplicates |
| Restock.AppendNewId | pallet-builder.js:550-551 | pushing a bunk whose id is not in the order keeps the ids distinct |
| Restock.WithoutAbsentId | pallet-builder.js:564 | filtering out an id that is absent returns the order unchanged, in order |
| Restock.TotalsAppend | pallet-builder.js:640-645 | one more bunk adds its `capacity - current` pieces and their weight to the totals |
| Restock.TotalQty | pallet-builder.js:640-645 | `totalQty` of an order of bunks below capacity is at least one piece per bunk |
| Restock.TotalWeight | pallet-builder.js:640-645 | `totalWeight` of an order of bunks below capacity, with non-negative unit weights, is never negative |
| Restock.LoadFraction | pallet-builder.js:652 | `min(totalWeight / 48000, 1)` never exceeds 1 |
| Restock.LoadLevelOf | pallet-builder.js:652-655 | the bar is `danger` iff the order weighs over 43 200 lbs, `warn` iff it weighs over 33 600 and at most 43 200, and plain iff at most 33 600 |
| Restock.HealthCounts | pallet-builder.js:673-680 | full + low + crit equals the number of bunks |
| Restock.HealthFullIsAtLeastOk | pallet-builder.js:676-679 | the panel's "full" count is the Full and OK bands together (`pct >= 0.5`), not the Full band |
| Restock.OrderLines | pallet-builder.js:776-787 | one PDF line per bunk in the order |
| Restock.SumWeightFrom | pallet-builder.js:801 | the `reduce` over line weights, when none is negative, never ends below its start |
| Restock.SumPiecesFrom | pallet-builder.js:803 | the `reduce` over line piece counts, when none is negative, never ends below its start |
| Restock.PdfPayload | pallet-builder.js:768-805 | no request is built iff the order is empty |
| Restock.FoldsMatchTotals | pallet-builder.js:801-803 | the payload's `reduce` sums equal the sidebar's piece and weight totals |
| Restock.PdfPayloadMatchesSidebar | pallet-builder.js:797-805 | the request's `totalBunks`, `totalPieces` and `totalWeight` are the order's length and the sidebar's totals |
| Restock.FlaggedWitness | pallet-builder.js:667-671 | a non-empty order that matches the flags shows a flagged bunk in the yard |
| Restock.Yard.constructor | pallet-builder.js:40-41 | the yard and the order start empty, and the invariant holds |
| Restock.Yard.BuildYard | pallet-builder.js:136-150 | fresh bunks, one per catalog item, with the given stock levels; none flagged and an empty order, which establishes the invariant (distinct ids, positive capacities, the order holding exactly the flagged bunks once each) |
| Restock.Yard.ToggleFlag | pallet-builder.js:544-566 | only bunk `idx` changes flag; a newly flagged bunk is appended; an unflagged one is removed by id from the order, the rest keeping their order; the invariant is preserved |
| Restock.Yard.SelectBunk | pallet-builder.js:507-515 | a bunk at or above capacity is refused with no change; otherwise exactly its flag flips, the bunk is appended to the restock order when flagged or every entry with its id is removed when unflagged, and the yard's bunks are kept; every flagged bunk stays below capacity |
| Restock.Yard.ClearSelection | pallet-builder.js:667-671 | afterwards no bunk is flagged, the order is empty and the invariant holds |
| Restock.Yard.SidebarTotals | pallet-builder.js:637-645 | the loop's totals are the bunk count, pieces and pounds of the order |
| Restock.Yard.YardHealth | pallet-builder.js:673-680 | the loop's counts are `HealthCounts` of the yard and add up to the number of bunks |
| AppStore.PropsOf | script.js:19-31 | `isCreative` and `isProfessional` hold iff the mode is that name, never both; `typingActive` is truthy iff the stored flag is truthy and the page is creative; the label is "Creative" iff creative; the body class is "professional" iff professional |
| AppStore.ModeDeterminesPresentation | script.js:23-30 | states with the same mode have the same label, body class and mode flags |
| AppStore.InitialProps | script.js:9-15 | the page starts creative, typing, at `home`, with label "Creative" and no body class |
| AppStore.Apply | script.js:42-47 | the assignment loop never removes a key, and only keys named by the update are added |
| AppStore.Differing | script.js:42-47 | a key is reported iff some update gives it a value different from the stored one |
| AppStore.ChangedKeys | script.js:51 | exactly the listed keys whose old and new values differ |
| AppStore.ApplyUntouched | script.js:42-47 | a key the update does not name keeps its entry |
| AppStore.ApplyGet | script.js:42-47 | every key the update names ends with the update's value |
| AppStore.ApplyFrame | script.js:42-47 | every key whose value does not differ keeps its entry, present or absent; only differing keys are assigned |
| AppStore.ApplyWithoutDifference | script.js:42-49 | with no differing key the state is unchanged |
| AppStore.ApplyChangesIffDiffering | script.js:38-49 | the state changes iff some update value differs (both directions), which is when subscribers are notified |
| AppStore.NothingDiffersWhenAllSet | script.js:43 | when every update key already holds its value nothing differs |
| AppStore.SetStateTwice | script.js:38-54 | the same `setState` twice: the second call changes nothing and notifies nobody |
| AppStore.ChangedKeysAreDiffering | script.js:51 | `changedKeys` (old versus new value of each update key) is exactly the differing keys, in update order |
| AppStore.ApplySingle | script.js:63-64 | a one-key update assigns the key iff its value differs |
| AppStore.Toggled | script.js:63-65 | after `toggle(key)` the key holds a boolean whose truth is the negation of the old value's, and every other key reads as before |
| AppStore.ToggleTwice | script.js:63-65 | two toggles restore the state iff the key held a boolean |
| AppStore.Without | script.js:58-60 | the unsubscribed function is gone, every other subscriber remains, and nothing is added |
| AppStore.WithoutConcat | script.js:59 | the filter distributes over concatenation, so the remaining subscribers keep their order |
| AppStore.WithoutCounts | script.js:59 | every occurrence of the function is removed, and every other subscriber keeps its count |
| AppStore.WithoutAbsent | script.js:59 | unsubscribing a function that is not subscribed changes nothing |
| AppStore.LastReached | script.js:179-185 | the index found is a section with `y >= offsetTop - 200`, and no later section has that property |
| AppStore.ActiveSection | script.js:179-185 | the scroll loop's result is `home` or the id of a section with `y >= offsetTop - 200` |
| AppStore.ActiveSectionIsLastReached | script.js:177-185 | the active section is `home` when no section is reached, and otherwise the id of the last reached section in document order |
| AppStore.Restored | script.js:303-307 | a saved `professional` or `creative` becomes the mode; anything else, or nothing saved, leaves the state unchanged; no other key is touched |
| AppStore.NextMode | script.js:202 | the toggle's target is `professional` iff the page is creative, else `creative` |
| AppStore.ModeToggleTwice | script.js:199-205 | two clicks of the mode toggle restore a creative or professional page |
| AppStore.Store.constructor | script.js:8-17 | the store starts in the initial state with no subscribers |
| AppStore.Store.Get | script.js:34-36 | the stored value of a key, or `undefined` when it was never set |
| AppStore.Store.SetState | script.js:38-54 | the loop leaves `Apply(old state, updates)`; with no differing key nobody is notified; otherwise every subscriber, in subscription order, gets the same new props and the differing keys |
| AppStore.Store.Subscribe | script.js:56-57 | the function is appended to the subscribers |
| AppStore.Store.Unsubscribe | script.js:58-60 | the subscribers become `Without(old subscribers, fn)` |
| AppStore.Store.Toggle | script.js:63-65 | the state becomes `Toggled(old state, key)`, and every subscriber is notified of that one key |
| AppStore.Store.Scroll | script.js:176-190 | `scrolled` holds `y > 40`, `activeSection` holds the active section, the rest is as `setState` leaves it, and the subscribers are notified of the differing keys exactly when one of the two changed |
| AppStore.Store.RestoreMode | script.js:303-307 | the state becomes `Restored(old state, saved)`; every subscriber is notified of `mode` exactly when a valid saved mode differs from the current one, and nobody otherwise |
| AppStore.Store.ToggleMode | script.js:199-205 | the mode becomes `NextMode`, so the creative flag flips, and every subscriber is notified of `mode` |
| Typing.TitlesNonEmpty | script.js:120-126 | every title has at least one character |
| Typing.Step | script.js:131-156 | the cursor stays inside its title; inactive means nothing changes and a retry in 500 ms; typing moves one character forward (80 ms), or schedules the 2 s callback exactly when the title is complete; deleting in the middle of a title moves one back and keeps deleting (40 ms); the title index changes only when deletion reaches 0, and then to the next title mod 5, empty, typing, after 500 ms |
| Typing.StepShowsPrefix | script.js:139-146 | the text shown grows by the next character when typing and loses its last one when deleting |
| Typing.StartDeleting | script.js:142 | the 2 s callback starts deletion of the same title, removing one character at once when typing is active |
| Typing.Run | script.js:131-156 | any number of steps keeps the cursor inside its title |
| Typing.TypingForward | script.js:138-144 | typing from position `k` reaches `k + n` while the title is not complete |
| Typing.DeletingBackward | script.js:145-153 | deleting from position `k` takes `k` steps and ends on the next title at position 0, typing |
| Typing.TypingCycle | script.js:131-156 | a title is typed out in as many steps as it has characters, showing the whole title; after the callback the same number of steps brings the next title |
| Typing.Typewriter.constructor | script.js:127-129 | the cursor starts on the first title, at 0, typing |
| Typing.Typewriter.Type | script.js:131-156 | the closure variables and the returned schedule are those of `Step`, and the element shows the cursor's prefix |
| Typing.Typewriter.BeginDeleting | script.js:142 | the callback's effect is `StartDeleting`, and the element still shows the cursor's prefix |

## Left out

- PDF generation (`generate_pdf` in server/app.py and server.py) is not modelled: it is ReportLab layout and base64 image decoding. Only `get_fill_color` and the fraction fed to it are modelled.
- SQLite persistence, Prometheus metrics, psutil readings and the OpenAI call are not modelled. The `/api/chat` model stops where the database work starts, and `Requests.ChatOutcome.Accepted` stands for "proceeds".
- The Three.js scene, meshes, raycasting, camera fly-to, animation, status messages, truck diagram and yard chart are not modelled. The click guard is modelled on the index of the bunk that was hit.
- `randomFill` uses `Math.random`, so `Restock.Yard.BuildYard` takes the fill levels as a parameter.
- `totalCost`, `unitPrice`, names, categories and colours of catalog items are not modelled. The catalog keeps only id, capacity and unit weight.
- client/chat.js is not part of this model; ai/prompt.py is not part of this model.
- The DOM effects of script.js are not modelled: renderers, IntersectionObserver, EmailJS, smooth scroll, cursor glow and the timers. Subscribers are identified by numbers. Notifications are returned as a list instead of being called.
- Concurrency: the Flask dicts are shared between worker threads without locks. Each call is modelled as atomic.
- Time, `X-Forwarded-For`, `remote_addr` and the environment variable are parameters. A missing header or JSON field is the empty string. Non-string JSON values are not modelled.
- Floating point: fractions, `Math.floor` and timestamps are exact reals, and integers are unbounded. Rounding at the band thresholds (for example `0.8` not being exact in binary) is not captured.
- StockBands.DarkenColor: requires `0 <= factor <= 1` and a 24-bit colour. Every call site passes 0.78, 0.9 or 0.92 and a catalog colour. The `>>`, `&` and `|` of the source are written as division, remainder and a sum of non-overlapping bytes, which agree on these inputs.
- SlidingWindow.AdmittedPerWindowBounded: holds only for a clock that never goes back. `time.time()` can step backwards, and then more than 10 messages can fall in one window (SlidingWindow.ClockGoingBackAdmitsMore).
- Restock.HealthCounts: a bunk of non-positive capacity counts as critical, whereas JavaScript would divide by zero. The yard never holds such a bunk (Restock.CatalogWellFormed, Restock.Yard.Valid).
- Typing.Step: requires that the 2 s deletion callback is not pending. The source never schedules `type()` while it is pending, because the callback sets `deleting` before calling `type()`.
- Typing.Typewriter.constructor: the element's text before the first step is taken to be empty.
- AppStore.Store.SetState: requires distinct update keys, as an object literal has. Keys inherited from `Object.prototype` are not modelled.
- The hamburger menu (`toggle('mobileMenuOpen')`) and the nav-link close (`setState({mobileMenuOpen: false})`) are instances of AppStore.Store.Toggle and AppStore.Store.SetState and have no methods of their own.
- The `typingActive` argument of `Typing.Step` is the truthiness of `AppStore.PropsOf(state).typingActive`. It is passed as a boolean.
