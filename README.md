# NFC Keychain Journey — a Dafny model of its core logic

NFC Keychain Journey follows a physical keychain from holder to holder.
Each time the keychain changes hands, the client appends an event to the
keychain's chain. The event records who gave it, who received it, the prompt
that explained why, and a new prompt drawn for the next handover. A small
Express backend also does three things:

- It accepts short "blessings" left at stations, behind a rate limiter,
  length checks and a PII scan.
- It records reports and lets an admin hide blessings.
- It answers every (journey, station) pair with a reaction that is always the
  same for that pair.

This project models that logic in Dafny and proves what it guarantees:

| file | module | models |
|---|---|---|
| `common.dfy` | `Common` | `Option`/`Result`, and JavaScript truthiness of optional strings, with the "or a default" and "or null" idioms |
| `js.dfy` | `Js` | The JavaScript built-ins the code relies on, with their ECMAScript meaning: UTF-16 `length` and `charCodeAt`, `ToInt32`, `<<` and `&` on 32 bits, `Math.abs`, `String(n)` and `parseInt(s, 10)` |
| `pii.dfy` | `Pii` | The five PII regular expressions as predicates on the text, and the ordered scan shared by server and client |
| `api.dfy` | `Api` | The error responses |
| `seed.dfy` | `ReactionSeed` | `generateDeterministicSeed` and GET /reactions |
| `rate_limit.dfy` | `RateLimit` | The fixed-window rate limiter: a class over a `map<string, Entry>` |
| `blessings.dfy` | `Blessings` | POST /blessings, PATCH /blessings/:id/hide and POST /reports |
| `events.dfy` | `Events` | Journey events and event rows, in the snake_case shape App.tsx uses (`keychain_id`, `from_name`, …) |
| `constants.dfy` | `Constants` | `PROMPT_POOL` and `INITIAL_HISTORY_SEED` |
| `journey.dfy` | `Journey` | The App state as a class: grouping rows into the store, the optimistic save, the `?id=` check, and the builder of a new holder's event |
| `client_validation.dfy` | `ClientValidation` | `useCharacterCount` and `usePIIDetection` |

Points of the code's behaviour worth knowing:

- The rate limiter's window is fixed: it opens at a key's first request and
  ends 300000 ms later.
- Lengths and the hash are over UTF-16 code units (`length`,
  `charCodeAt`).
- An empty reaction pool answers INTERNAL_ERROR.
- The `?id=` check accepts anything that `parseInt` reads as 0 to 99, such as
  "07" and "5abc". The raw string then names the keychain.

## Model

| member | source | states |
|---|---|---|
| `Js.BitAndSelf` | routes/routes.ts:363 | `hash & hash` is exactly the conversion of `hash` to a signed 32-bit integer |
| `Js.ParseIntOfNumberToString` | App.tsx:122 | `parseInt(String(n), 10)` gives back n for every integer n below 10^21 in magnitude |
| `ReactionSeed.SeedKey` | routes/routes.ts:358 | The hashed string `${journeyId}-${stationNumber}` |
| `ReactionSeed.Hash` | routes/routes.ts:359-364 | The rolling hash over the code units: 31·h + c wrapped to a signed 32-bit integer at every step, so it is always a signed 32-bit integer |
| `ReactionSeed.LoopStep` | routes/routes.ts:362-363 | One iteration of the loop body, `(hash << 5) - hash + char` then `& itself`; its result is a signed 32-bit integer |
| `ReactionSeed.LoopStepIsWrappedStep` | routes/routes.ts:362-363 | One iteration, `(h << 5) - h + c` followed by `& itself`, equals the signed 32-bit wrap of 31·h + c for every 32-bit h |
| `ReactionSeed.HashIsWrappedPolynomial` | routes/routes.ts:359-364 | Wrapping after every step equals wrapping once at the end: the hash is the unwrapped base-31 value of the code units, reduced to a signed 32-bit integer |
| `ReactionSeed.Seed` | routes/routes.ts:365 | The seed is the absolute value of the hash, so it lies in [0, 2^31] (2^31 included) |
| `ReactionSeed.GenerateDeterministicSeed` | routes/routes.ts:357-366 | The loop over the code units of `${journeyId}-${stationNumber}` returns exactly `Seed(journeyId, stationNumber)`, which is at most 2^31 |
| `ReactionSeed.SeedOfJourney7Station1` | routes/routes.ts:358-365 | Journey "7" at station 1 hashes "7-1" to 54299, so it picks index 9 of a pool of 10 |
| `ReactionSeed.SelectedIndex` | routes/routes.ts:402 | `seed % n` is a valid index of a non-empty pool; it is 0 when n = 1 and the seed itself when seed < n |
| `ReactionSeed.GetReaction` | routes/routes.ts:374-414 | Missing journey_id or station_number gives VALIDATION_ERROR. Otherwise a failed or empty pool gives INTERNAL_ERROR. Otherwise the answer is the reaction at `Seed % n` with the seed echoed, so it depends only on the two parameters and the pool |
| `RateLimit.CeilSeconds` | routes/routes.ts:67 | `Math.ceil(ms / 1000)` for positive ms is at least 1 and is the least s with ms ≤ 1000·s |
| `RateLimit.Decide` | routes/routes.ts:62-69 | A request is rejected iff the key's entry is still in its window and has count ≥ 3. The retry_after is then ⌈(resetTime − now)/1000⌉ ≥ 1 |
| `RateLimit.Next` | routes/routes.ts:62-76 | Rejection keeps the entry. An accepted request inside the window adds 1 and keeps resetTime. No entry, or now ≥ resetTime, gives {1, now + 300000}. Counts stay within 1..3 |
| `RateLimit.AcceptedInsideWindow` | routes/routes.ts:62-76 | Inside a window, a key that has used `count` requests gets exactly min(n, 3 − count) of n further requests through |
| `RateLimit.AtMostThreePerWindow` | routes/routes.ts:62-76 | The first request at or after the reset time is accepted and opens a window. Together with every request in the next five minutes, at most 3 are accepted |
| `RateLimit.StoredKeyAcceptsRemaining` | routes/routes.ts:62-76 | With the limiter's invariant (every stored count in 1..3), a stored key whose window is open gets exactly min(n, 3 − count) of n further requests through, so at most 2 |
| `RateLimit.RateLimiter.constructor` | routes/routes.ts:45 | The store starts empty |
| `RateLimit.RateLimiter.Check` | routes/routes.ts:51-79 | Keyed by `req.ip`, or "unknown" when it is falsy. The decision is `Decide` and only that key's entry is replaced, by `Next`; every other key is untouched. A rejection changes nothing. Counts stay within 1..3 |
| `Pii.EightDigitNumber` | routes/routes.ts:149 | The first alternative of phone_hk, `\b(\d{8})\b`: eight ASCII digits with a word boundary on each side |
| `Pii.PhoneHkAsWritten` | routes/routes.ts:149 | phone_hk as written: an eight-digit number, or "+852" then at least 7 digits, spaces or hyphens, with a word boundary before the '+' and after the match |
| `Pii.PhoneHkFixed` | routes/routes.ts:149 | phone_hk as intended: as written, but without the word boundary before the '+' |
| `Pii.PhoneCnMatch` | routes/routes.ts:150 | phone_cn, `\b1[3-9]\d{9}\b`: an eleven-digit mainland mobile number between word boundaries |
| `Pii.EmailMatch` | routes/routes.ts:151 | email: local part, '@', domain, '.', and at least two of `[A-Z|a-z]`, between word boundaries |
| `Pii.UrlMatch` | routes/routes.ts:152 | url: "http://" or "https://" followed by at least one non-space character, anywhere in the text |
| `Pii.AddressHkAsWritten` | routes/routes.ts:153 | address_hk as written: one of the 15 place names with a word boundary on each side |
| `Pii.AddressHkFixed` | routes/routes.ts:153 | address_hk as intended: any occurrence of one of the 15 place names |
| `Pii.Matches` | routes/routes.ts:148-158 | `piiPatterns[name].test(text)` with the five patterns exactly as written |
| `Pii.MatchesIntended` | routes/routes.ts:148-154 | The same test with phone_hk and address_hk as intended |
| `Pii.IntendedScanCatchesMore` | routes/routes.ts:149-153 | Every name the scan as written reports is reported by the intended scan too; "+852 9123 4567" and "我住香港" are flagged only by the intended one |
| `Pii.MatchingNamesSpec` | routes/routes.ts:156-161 | The accumulated list holds exactly the names whose pattern matches, in table order (a subsequence), without duplicates |
| `Pii.ScanSpec` | routes/routes.ts:156-169 | The full scan is empty iff no pattern matches; otherwise it lists the matching names, once each and in table order |
| `Pii.DetectPatterns` | routes/routes.ts:156-161 | The `forEach`/`push` loop returns the scan: the names of the patterns (as written) that match, a duplicate-free subsequence of [phone_hk, phone_cn, email, url, address_hk] |
| `Pii.FixedPatternsCatchMore` | routes/routes.ts:149-153 | The corrected phone_hk and address_hk flag everything the patterns as written flag |
| `Pii.Plus852AsWrittenNeedsWordBefore` | routes/routes.ts:149 | As written, a "+852" match needs a word character right before the '+' |
| `Pii.PhoneHkAsWrittenMissesPlus852` | routes/routes.ts:149 | "+852 9123 4567" escapes phone_hk as written and is caught by the corrected pattern |
| `Pii.AddressHkAsWrittenNeedsAsciiNeighbours` | routes/routes.ts:153 | As written, address_hk never fires in a text without ASCII word characters |
| `Pii.AddressHkAsWrittenMissesPlaceName` | routes/routes.ts:153 | "我住香港" escapes address_hk as written and is caught by the corrected pattern |
| `Pii.EightDigitNumberFlagged` | routes/routes.ts:149 | Eight ASCII digits between non-word characters (or the string ends) are flagged as phone_hk |
| `Pii.Embed` | routes/routes.ts:147 | A match of any of the five patterns as written, `\b`s included, survives when the piece is put between text that ends, and text that starts, with a non-word character |
| `Pii.PlainTextNotFlagged` | routes/routes.ts:148-154 | Text in any script with no digit, '@' or ':' and no listed place name is flagged by none of the five patterns, neither as written nor as intended |
| `Blessings.CheckFields` | routes/routes.ts:108-144 | Passes iff all three required fields are truthy and the lengths are ≤ 15, ≤ 10 and (for a truthy note) ≤ 120, so exact limits pass. A missing field is reported first, with the OK/missing flags. A too-long code phrase is only reported when the blessing fits; a too-long note only when both fit. Each report carries the maximum and the provided length |
| `Blessings.FieldsPresent` | routes/routes.ts:108 | keychain_id, blessing_text and code_phrase are all truthy: present and not the empty string |
| `Blessings.WithinLimits` | routes/routes.ts:119-144 | blessing_text is at most 15 and code_phrase at most 10 UTF-16 code units, and a truthy optional_note at most 120 |
| `Blessings.TextToCheck` | routes/routes.ts:147 | The scanned text is blessing, code phrase and note joined by single spaces, with an empty note (so a trailing space) when the note is falsy |
| `Blessings.RowFor` | routes/routes.ts:178-187 | The new row carries the id and creation time supplied, and copies keychain_id, blessing_text, code_phrase and optional_note from the request. station_number is 1 when absent or 0 and the request's value otherwise. visibility is "public" when falsy and the request's value otherwise. is_hidden is false |
| `Blessings.BlessingOutcome` | routes/routes.ts:107-200 | After the limiter: a failed field check gives VALIDATION_ERROR with its details. Otherwise a non-empty scan of the patterns as written gives PII_DETECTED with exactly that list. Otherwise a failed insert gives INTERNAL_ERROR. Success happens iff the fields are valid, the scan is empty and the insert succeeds, and returns `RowFor` |
| `Blessings.PiiGate` | routes/routes.ts:146-169 | A valid request passes the PII gate iff none of the five patterns, as written, matches its text. Otherwise PII_DETECTED lists exactly the matching patterns, once each, in table order |
| `Blessings.PiiCheckedBeforeInsert` | routes/routes.ts:163-189 | A valid request whose text matches a pattern is refused with PII_DETECTED whatever the database would do |
| `Blessings.PostBlessing` | routes/routes.ts:101-200 | The limiter runs first and consumes a slot even for requests later refused. A rejection answers RATE_LIMIT_EXCEEDED with its retry_after; otherwise the answer is `BlessingOutcome` |
| `Blessings.Hide` | routes/routes.ts:262-288 | A failing update gives INTERNAL_ERROR. A non-integer or unknown id gives NOT_FOUND and the table is unchanged. Otherwise exactly that row gets the new is_hidden and is returned |
| `Blessings.HideChangesOnlyFlag` | routes/routes.ts:267-271 | Hiding keeps the set of ids, every other row, and every field of the row except is_hidden |
| `Blessings.HideIdempotent` | routes/routes.ts:267-288 | Hiding twice gives the same table and answer as hiding once |
| `Blessings.CreateReport` | routes/routes.ts:309-337 | A blessing_id of 0 or none, or a falsy reason, gives VALIDATION_ERROR. Otherwise a failed insert gives INTERNAL_ERROR. Success happens iff the request is valid and the insert succeeds, and returns the report with the database's id, the supplied creation time, status "pending", and the request's blessing_id, reason and description |
| `Events.Stringify` | App.tsx:63 | `String(v)` of a keychain id or event id that is a number or a string |
| `Events.StringifyReadsBack` | App.tsx:63 | `String(v)` keeps a string, and for a number below 10^21 in magnitude it gives text that `parseInt` reads back as the number |
| `Events.EventOf` | App.tsx:65-68 | The event made from a row differs from the row only in its id, which is `String(row.id)` |
| `Constants.PromptText` | constants.ts:5-22 | A key's text is found only if the pair is in the pool; no text is found only if no entry has the key |
| `Constants.PromptPoolWellFormed` | constants.ts:5-22 | `PROMPT_POOL` (the constant `Constants.PromptPool`, its 15 key/text pairs in source order) has 15 entries with pairwise distinct, non-empty keys, none equal to "START" or "UNKNOWN", and non-empty texts |
| `Constants.PromptTextOfEntry` | constants.ts:5-22 | Looking up the key of any pool entry gives that entry's text |
| `Constants.InitialHistorySeed` | constants.ts:26-37 | The seed history is one event |
| `Constants.SeedPromptInPool` | constants.ts:26-37 | The seed event's next prompt MOST_WORRIED / 最擔心嘅人 is exactly the pool's first entry |
| `Journey.HistoryOf` | App.tsx:76 | `globalStore[k]`, defaulting to `[]`, is the stored history, or empty for an unknown keychain |
| `Journey.Appended` | App.tsx:74-79 | Saving adds the event at the end of its keychain's history (the key is `String(keychain_id)`), adds that key if new, and leaves every other keychain's history unchanged |
| `Journey.Group` | App.tsx:58-72 | The store the rows give: each row's event appended to its keychain's history, in row order |
| `Journey.GroupHasNoEmptyHistory` | App.tsx:61-68 | No keychain in the grouped store has an empty history: a key is only created for a row whose event then goes into it |
| `Journey.ProcessDataToStore` | App.tsx:58-72 | The `forEach` that fills the store returns `Group(rows)` |
| `Journey.GroupKeys` | App.tsx:58-72 | A keychain is in the store iff some row has it (as `String(keychain_id)`) |
| `Journey.GroupIsFilter` | App.tsx:58-72 | A keychain's history is exactly its rows turned into events, in their relative order |
| `Journey.TotalEventsAppended` | App.tsx:74-79 | Saving adds exactly one event to the store's total |
| `Journey.GroupKeepsEveryRow` | App.tsx:58-72 | Grouping keeps the total number of events: the store holds as many events as there were rows |
| `Journey.PayloadOf` | App.tsx:86-95 | The payload has no id field; a falsy next prompt key or text is sent as null |
| `Journey.ReloadMatchesOptimisticUpdate` | App.tsx:74-104 | After a successful insert, reloading gives the store the optimistic update built, except that the event carries the database id |
| `Journey.SelectsKeychain` | App.tsx:121-123 | The `?id=` value is truthy and `parseInt(id, 10)` is a number from 0 to 99 |
| `Journey.DashboardIdsSelect` | App.tsx:121-125 | Every id "0".."99" the dashboard links to selects its keychain |
| `Journey.HundredRefused` | App.tsx:122-129 | "100" parses to 100 and is refused |
| `Journey.MinusOneRefused` | App.tsx:122-129 | "-1" parses to −1 and is refused |
| `Journey.NonNumericRefused` | App.tsx:121-129 | "abc" and the empty string are refused |
| `Journey.LeadingZeroSelects` | App.tsx:122-125 | "07" selects a keychain, and parses to the same number as "7" |
| `Journey.TrailingGarbageSelects` | App.tsx:122-125 | "5abc" selects a keychain |
| `Journey.ActiveHistory` | App.tsx:136 | With a truthy active id the active history is that keychain's history (`globalStore[activeId] || []`); without one it is empty |
| `Journey.LastHolderName` | App.tsx:153 | The holder is the last event's receiver, or 沒有人 for an empty history |
| `Journey.PickIndex` | App.tsx:178 | `Math.floor(r * 15)` for 0 ≤ r < 1 is always an index of the pool |
| `Journey.NewHolderEvent` | App.tsx:172-208 | The first event has giver 大象女士, key START and reason 這是一次偶然的相遇. A later event has the tail's receiver as giver and the tail's next key and text as its own, or UNKNOWN / 命運的安排 when they are falsy. The receiver is the submitted name and the keychain is activeId. The next key and text are one pool entry, and the explanation repeats giver, reason and next text |
| `Journey.NewHolderEventKeepsChain` | App.tsx:172-197 | Appending the new holder's event to a well-linked chain keeps it well linked, so the fallbacks never fire |
| `Journey.WellLinkedReasons` | App.tsx:182-193 | In a well-linked chain, every event after the first has a pool key, never UNKNOWN or START, and the pool's text for that key |
| `Journey.JourneyApp.constructor` | App.tsx:13-26 | The app starts on the ADMIN screen with an empty store and no active keychain |
| `Journey.JourneyApp.InitFromUrl` | App.tsx:117-132 | An accepted `?id=` opens LANDING with the raw string as the active id; anything else shows ADMIN. The store is untouched |
| `Journey.JourneyApp.LoadEvents` | App.tsx:30-56 | A successful query replaces the store with the grouped rows; a failed one leaves it |
| `Journey.JourneyApp.SaveEvent` | App.tsx:74-105 | The store becomes `Appended(store, e)` whether or not the insert succeeds, and the payload is `PayloadOf(e)` |
| `Journey.JourneyApp.HandleNewHolderSubmit` | App.tsx:172-211 | Nothing changes without a truthy active id. Otherwise the built event is appended, the payload sent, and the explanation shown. A well-linked active chain stays well linked |
| `ClientValidation.UseCharacterCount` | lib/hooks/useAPI.ts:294-305 | count is the UTF-16 length and isExceeded iff count > maxLength. remaining = max(0, maxLength − count): never negative, 0 when exceeded, and count + remaining = maxLength otherwise |
| `ClientValidation.CounterAgreesWithServer` | lib/hooks/useAPI.ts:298-304 | With limits 15/10/120, the counters flag exactly the lengths the server refuses |
| `ClientValidation.UsePiiDetection` | lib/hooks/useAPI.ts:264-289 | detectedPatterns is the same ordered scan as on the server, with the same patterns as written, and isPII iff it is non-empty, iff some pattern matches |
| `ClientValidation.ClientFlagImpliesServerFlag` | lib/hooks/useAPI.ts:269-282 | A pattern the hook flags in any one field is flagged by the server in its joined text |
| `ClientValidation.ServerSeesAcrossFields` | routes/routes.ts:147-149 | The converse fails: phone_hk as written flags neither "a+852 1234" nor "5678", but flags the server's join "a+852 1234 5678 " |

## Findings

| source | as written | input that shows it | evidently intended | confidence | as-written member | corrected member |
|---|---|---|---|---|---|---|
| routes/routes.ts:149 (also lib/hooks/useAPI.ts:270) | `\b(\+852[\d\s-]{7,})\b`: the `\b` before '+' needs a word character in front of it | "+852 9123 4567" (text start), or a "+852" number after a space | Flag a "+852" number wherever it stands | high (not executed) | `Pii.PhoneHkAsWrittenMissesPlus852` | `Pii.PhoneHkFixed` |
| routes/routes.ts:153 (also lib/hooks/useAPI.ts:274) | `\b(香港 … 元朗)\b`: CJK names are not `\w`, so both boundaries need ASCII word characters around the name | "我住香港" | Flag any occurrence of a place name | high (not executed) | `Pii.AddressHkAsWrittenMissesPlaceName` | `Pii.AddressHkFixed` |

The scan (`Pii.Matches`), the server gate and the client hook all use the
patterns as written, `Pii.PhoneHkAsWritten` and `Pii.AddressHkAsWritten`, so
the model passes both inputs above just as the code does. The corrected
patterns make up the intended scan `Pii.MatchesIntended`;
`Pii.FixedPatternsCatchMore` and `Pii.IntendedScanCatchesMore` show that the
corrections only add matches, and that they catch both inputs.

## Left out

- Supabase calls are not modelled as code. Each query result is an input:
  - the active reaction pool, already ordered by id;
  - the event rows, already ordered by timestamp;
  - the id an insert returns, or its failure;
  - the blessings table as a map.
  Database sort order is therefore not modelled.
- GET /blessings (routes/routes.ts:214-257) is query building only; it is not modelled.
- Express wiring is not modelled: `errorHandler`, the `try`/`catch` blocks, HTTP status codes, messages, and logging.
- The `NODE_ENV !== 'production'` bypass of the rate limiter is left out. Only the enforcing branch is modelled.
- React is not modelled: rendering, `isLoading`, `alert`, and `window.history`. The `handleIdSelection` and `handleBackToAdmin` navigation handlers are left out too.
- Hook state is modelled as the state each hook's effect settles to. On the first render, `count` is 0 and `detectedPatterns` is empty.
- The hook's regular expressions carry the `g` flag. They are created afresh on each run and tested once, so `lastIndex` is 0 and `test` behaves as without the flag.
- The placeholder `lastEvent` for an empty history (App.tsx:141-151) is not modelled, because nothing reads it. The builder reads the tail only when the history is non-empty.
- `Math.random`, `Date.now`, `new Date().toISOString()` and `crypto.randomUUID` are parameters.
- Concurrent requests and concurrent appends to one keychain are not modelled.
- Js.ParseIntOfNumberToString, Events.StringifyReadsBack: the round trip is promised only below 10^21 in magnitude; from there on `String(n)` uses exponent notation ("1e+21"), which `NumberToString` does not model and which `parseInt` reads back as a different number.
- ReactionSeed.GetReaction: station_number is an integer. `Number()` of a non-numeric, fractional or exponent-form query string (NaN, "1.5", "1e3") is not modelled, and neither is `String(n)` for |n| ≥ 10^21.
- Blessings.Hide: is_hidden is a boolean, and a path id that is not an integer is None. A non-boolean body value is not modelled.
- Blessings.BlessingRequest: the fields have their declared types. A request body with fields of other JSON types is not modelled.
