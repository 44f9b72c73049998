# fhe-quest: the search-attempt lifecycle, in Dafny

fhe-quest is a treasure hunt on a 10×10 grid. The treasure's coordinates are stored encrypted in
a contract. A player pays to try a cell: the browser encrypts the guess and sends it. An oracle
later compares it with the treasure and reports the result through contract events. The one
logical core of the single-page front end (`src/App.js`) is the state machine around one such
attempt. This project models that state machine, together with the small pure helpers the
screen relies on, and proves what they guarantee.

- `wrappers.dfy`: `Option`.
- `numerals.dfy`: `Number.prototype.toString(base)` and `String.prototype.padStart`, with their
  inverse `FromRadix`.
- `display.dfy`: `formatTime`, with a parser for its output that proves the round trip.
- `hex.dfy`: the byte-array to `0x`-lowercase-hex conversion of the encryption result, with a
  decoder that proves the round trip. Also the "convert if it is a `Uint8Array`" step.
- `strings.dfy`: the case-insensitive address comparison, `includes`, and `formatAddress`.
- `ledger.dfy`: what the outside world answers: the game record, the connection, the pending
  query, encryption results, receipts, thrown errors, and contract events. Also the
  catch-block error classification and the remaining-time formula.
- `lifecycle.dfy`: the state machine as pure transitions over a `View` of the component state.
- `properties.dfy`: the properties of the machine. They cover each transition on its own, the
  races between the event and the 10 s fallback, and any interleaving of operations (`Run`).
- `app.dfy`: the component as a class `AppState`. It has the real fields, including a 10×10
  `array2<bool>` grid. Each method is one transition, and its contract equates the new state
  with the `Lifecycle` function applied to the old state.
- `findings.dfy`: two places where the code as written departs from its evident intent. Each
  is modelled both as written and as intended.

How the model maps the source:

- **`searchTreasure` is split at its awaits, and several calls can be in flight.** Its three
  guards run before the first await (`isDecryptionPending`), but `isSearching` is set only
  after it. While that query is pending the Search button is still enabled, so a second click
  passes the guards too. The field `searches` therefore holds one entry per call in flight,
  each at the await it is suspended at: `Querying`, `Encrypting`, `Submitting`, `Settling` (the
  delays before the fallback is set) and `Finishing` (the refreshes before `finally`). Each step
  names the call it continues: `BeginSearch`, `AnswerPending`, `FinishEncryption`,
  `FinishSubmission`, `ScheduleFallback` and `FinishSearch`. A handler, a timer, a countdown
  tick or a step of another call can run between two steps; `Properties.Run` covers every such
  interleaving. `SearchToCompletion` is one call with nothing in between. The flags are shared,
  so a call's `finally` clears `isSearching` even while another call is still encrypting
  (`Properties.LateFinallyClearsFlag`). The invariant states only what does hold: `isSearching`
  implies some call is encrypting or submitting, and `isEncrypting` implies some encryption is
  in flight.
- **`fetchGameStats` is split at `await checkIsCreator()`.** `RecordStats` stores the record
  and the activity (lines 75-89) and leaves the refresh waiting, with the record it read, in
  the field `refreshes`. `FinishRefresh` is its resumption: the owner check sets the creator
  flag (137-148) and, for an active record, the remaining time is computed from that record
  (94-100). A countdown tick can run in between: with one second left it ends the game, and
  the refresh then restores the record's remaining time to an ended game
  (`Properties.TickDuringRefresh`). `Refresh` is one refresh with nothing in between.
- **The creator's encryption is split the same way.** `StartCreatorEncryption` sets
  `isEncrypting` and captures the selection; `EncryptForCreator` is its return. The calls in
  flight are the field `creatorCalls`.
- **Fallback timers.** Each fallback's closure keeps the coordinate and the `isProcessingResult`
  value of the render in which `searchTreasure` was called. The timers are a FIFO queue: every
  timer runs 10 s after it was set, so they fire in the order they were set. A call adds its
  timer in `ScheduleFallback`, after the cosmetic delays that follow the receipt.
- **The fallback's guard is shared by all attempts.** Even as intended, the fallback tests the
  one `isProcessingResult` of the screen, not the state of its own attempt. If an older
  attempt's timer is still pending when a newer attempt opens the overlay, the old timer closes
  the new overlay and marks the old cell (`Properties.OlderTimerClosesNewerAttempt`).
- **The fallback's guard follows its stated intent.** `Lifecycle.OnFallback` checks the current
  `isProcessingResult`. This differs from the code: there, the closure reads the value captured
  when the component rendered. The as-written behaviour is kept in `Findings.FallbackAsWritten`,
  with the inputs that tell the two apart.
- **Different selections.** The handlers for the three dispatched events use the current
  selection. The fallback instead uses the selection captured when the search was clicked.
- **Classification is returned.** The catch blocks compute an `errorMessage` and then discard
  it (lines 399-411 and 453-465). The model returns that classification as the step's
  `Failed(..)` outcome, so that the chain of checks is stated and proved.

## Model

| member | source | states |
|---|---|---|
| Lifecycle.Initial | fhe-quest-by_xadeliner/src/App.js:43-69 | the initial state satisfies the invariant: nothing selected, no cell marked, not searching, not encrypting, no result pending, game inactive at 0 s, no call or timer in flight |
| Lifecycle.SelectCell | fhe-quest-by_xadeliner/src/App.js:953-958 | a grid click keeps the invariant |
| Properties.SelectCellGuard | fhe-quest-by_xadeliner/src/App.js:953-958 | the selection moves to the clicked cell exactly when the game is active and neither searching nor encrypting; otherwise nothing changes, and nothing but the selection ever changes |
| Lifecycle.EnterX | fhe-quest-by_xadeliner/src/App.js:1098-1107 | the creator's X input keeps the invariant |
| Lifecycle.EnterY | fhe-quest-by_xadeliner/src/App.js:1108-1117 | the creator's Y input keeps the invariant |
| Properties.OnlyTypingLeavesGrid | fhe-quest-by_xadeliner/src/App.js:1098-1117 | every operation except the creator inputs keeps the selection on the grid; a 10 the creator types while no game runs takes it off |
| Lifecycle.BeginSearch | fhe-quest-by_xadeliner/src/App.js:283-293 | the guards keep the invariant, and never move the selection or mark a cell |
| Properties.BeginSkipsIff | fhe-quest-by_xadeliner/src/App.js:283-293 | the call returns with no state change if and only if the relayer, contract or signer is missing, the game is inactive, or `isSearching` is set; otherwise it joins the calls in flight with the selection and `isProcessingResult` it read, and no flag is set yet |
| Lifecycle.AnswerPending | fhe-quest-by_xadeliner/src/App.js:296-311 | the answer to the pending query keeps the invariant, and never moves the selection or marks a cell |
| Properties.PendingSkipsIff | fhe-quest-by_xadeliner/src/App.js:296-311 | the call ends with nothing set if and only if a decryption is pending; otherwise `isSearching` and `isEncrypting` are set and the call moves on to encrypting, with nothing else changed |
| Properties.PendingQueryFailureDoesNotBlock | fhe-quest-by_xadeliner/src/App.js:296-303 | a thrown `isDecryptionPending` query is logged and the attempt goes ahead |
| Properties.DoubleClickStartsTwoCalls | fhe-quest-by_xadeliner/src/App.js:291-306 | because `isSearching` is set only after the first await, a second click during the pending query passes the guards, and both calls go on to encrypt |
| Lifecycle.Abort | fhe-quest-by_xadeliner/src/App.js:399-416 | the catch and finally blocks: the classified failure is the outcome, `isSearching` is false, the call is retired, and nothing else changes |
| Lifecycle.FinishEncryption | fhe-quest-by_xadeliner/src/App.js:311-316 | the encryption step keeps the invariant on every branch, and never moves the selection or marks a cell |
| Properties.EncryptionErrorOrder | fhe-quest-by_xadeliner/src/App.js:485-497 | a missing X fails with the `BigInt(null)` error; with X present a throwing encryption reports its own error, even when Y is missing; a missing Y with values returned fails with the `BigInt(null)` error |
| Lifecycle.FinishSubmission | fhe-quest-by_xadeliner/src/App.js:330-350 | the submission step keeps the invariant on every branch, and never moves the selection or marks a cell |
| Lifecycle.ScheduleFallback | fhe-quest-by_xadeliner/src/App.js:352-390 | scheduling the fallback keeps the invariant, and never moves the selection or marks a cell |
| Lifecycle.FinishSearch | fhe-quest-by_xadeliner/src/App.js:412-417 | the finally block keeps the invariant, and never moves the selection or marks a cell |
| Properties.LateFinallyClearsFlag | fhe-quest-by_xadeliner/src/App.js:412-413 | a call's finally block clears `isSearching` while another call is still encrypting, and a further click then passes the guards |
| Lifecycle.SearchToCompletion | fhe-quest-by_xadeliner/src/App.js:282-418 | one call with nothing in between; it has no contract of its own, and `Properties.SearchClearsBusyFlags` states what it does |
| Properties.SendableSearch | fhe-quest-by_xadeliner/src/App.js:330-394 | a call that reaches the transaction submits, with the overlay open and one fallback scheduled, exactly when the receipt is mined with a non-zero status; otherwise it fails with only `isEncrypting` changed |
| Properties.UnsendableSearch | fhe-quest-by_xadeliner/src/App.js:283-316 | a call that does not reach the transaction is skipped with nothing changed, or fails with only `isEncrypting` changed |
| Properties.SearchClearsBusyFlags | fhe-quest-by_xadeliner/src/App.js:282-418 | a skipped call changes nothing. Every other path, throws included, ends with `isSearching` and `isEncrypting` false and the call retired. No path marks a cell or moves the selection. A submission happens if and only if the guards pass, a cell is selected, the four encrypted values are truthy and the receipt status is non-zero; it opens the overlay and schedules one fallback for the clicked cell. A failure changes nothing but `isEncrypting` |
| Properties.RevertedReceiptFails | fhe-quest-by_xadeliner/src/App.js:344-346 | a receipt with status 0 fails the attempt with the "Transaction failed" error |
| Ledger.Classify | fhe-quest-by_xadeliner/src/App.js:399-411 | `CALL_EXCEPTION` if and only if the code says so; `INSUFFICIENT_FUNDS` likewise; user-rejected if and only if neither code and the message contains "user rejected"; otherwise the reason, or the message when there is no reason |
| Lifecycle.OnEvent | fhe-quest-by_xadeliner/src/App.js:863-883 | dispatching an event keeps the invariant |
| Lifecycle.Resolve | fhe-quest-by_xadeliner/src/App.js:673-856 | the handlers' common body never unmarks a cell and never moves the selection; it marks at most the selected cell, and only for a miss; a result for another player changes nothing |
| Properties.WrongResultMarksSelectedCell | fhe-quest-by_xadeliner/src/App.js:822-856 | a miss for this account with a cell selected marks exactly the selected cell, clears `isProcessingResult`, and changes nothing else |
| Properties.CorrectResultNeverMarks | fhe-quest-by_xadeliner/src/App.js:702-716 | a hit for this account sets the game inactive and clears `isProcessingResult`; it marks no cell and changes nothing else |
| Properties.IgnoredEventChangesNothing | fhe-quest-by_xadeliner/src/App.js:774-820 | an event for another player, with no cell selected, or of a kind the listener does not dispatch (`TreasureFound`, `GameCompleted`) changes nothing |
| Properties.EventMatchIgnoresCase | fhe-quest-by_xadeliner/src/App.js:677 | the handlers' effect depends on the account only up to ASCII case |
| Properties.EventIdempotent | fhe-quest-by_xadeliner/src/App.js:828-843 | the same result handled twice has the effect of handling it once |
| Lifecycle.OnFallback | fhe-quest-by_xadeliner/src/App.js:365-390 | the fallback keeps the invariant |
| Properties.FallbackNoOpOnceResolved | fhe-quest-by_xadeliner/src/App.js:365-366 | once the attempt is resolved, the fallback only retires its timer |
| Properties.FallbackResolvesOpenAttempt | fhe-quest-by_xadeliner/src/App.js:365-390 | while the attempt is open, the fallback clears `isProcessingResult` and marks the cell clicked for this attempt, and nothing else |
| Properties.EventThenFallback | fhe-quest-by_xadeliner/src/App.js:365-390 | when the event wins the race, the later fallback changes nothing but its timer |
| Properties.FallbackThenLateMiss | fhe-quest-by_xadeliner/src/App.js:828-843 | when the fallback wins, a late miss for the same cell changes nothing |
| Properties.FallbackThenLateHit | fhe-quest-by_xadeliner/src/App.js:702-716 | a late hit after a timeout ends the game but leaves the fallback's mark on the cell |
| Properties.LateEventMarksCurrentSelection | fhe-quest-by_xadeliner/src/App.js:677-694 | results are matched by the current selection only: after a timeout and a new click, a late miss marks the newly clicked cell |
| Properties.MissBeforeTimeout | fhe-quest-by_xadeliner/src/App.js:282-418 | search, then a miss event, then the fallback: the clicked cell is marked, the overlay closes, and the fallback adds nothing |
| Properties.OlderTimerClosesNewerAttempt | fhe-quest-by_xadeliner/src/App.js:365-366 | an older attempt's timer that fires after a newer attempt opened the overlay closes it and marks the older cell only, not the newer one |
| Properties.TimeoutWithoutEvent | fhe-quest-by_xadeliner/src/App.js:365-390 | search with no event: after the fallback the clicked cell is marked, nothing is busy (not searching, not encrypting, no result pending), the Search button is enabled, and a new search starts |
| Lifecycle.Tick | fhe-quest-by_xadeliner/src/App.js:649-663 | a tick keeps `timeRemaining` non-negative |
| Lifecycle.Ticks | fhe-quest-by_xadeliner/src/App.js:649-663 | any number of ticks keeps the invariant, never raises the remaining time, never starts a stopped game, and changes nothing but the countdown and activity |
| Properties.TickCases | fhe-quest-by_xadeliner/src/App.js:649-663 | with the game active, more than 1 s becomes one less; 1 s becomes 0 and ends the game; a stopped countdown does not move |
| Properties.TickNeverIncreases | fhe-quest-by_xadeliner/src/App.js:653-659 | a tick never raises the remaining time, never takes it below zero, and never starts a stopped game |
| Properties.CountdownDrains | fhe-quest-by_xadeliner/src/App.js:649-663 | an active game with `r` seconds left shows `r - n` after `n < r` ticks, and after exactly `r` ticks shows 0 and is over |
| Properties.StoppedCountdownStays | fhe-quest-by_xadeliner/src/App.js:650 | an inactive game, or one at zero, stays the same over any number of ticks |
| Lifecycle.RecordStats | fhe-quest-by_xadeliner/src/App.js:71-92 | the first half of a refresh keeps the invariant and leaves selection and marked cells alone |
| Lifecycle.FinishRefresh | fhe-quest-by_xadeliner/src/App.js:92-100 | the resumption of a waiting refresh keeps the invariant and leaves selection and marked cells alone |
| Lifecycle.Refresh | fhe-quest-by_xadeliner/src/App.js:72-103 | a refresh with nothing in between keeps the invariant |
| Properties.RecordStatsWaitsForOwner | fhe-quest-by_xadeliner/src/App.js:71-92 | with an answer, the record is stored, activity is `isActive && !isCompleted`, the record waits for the owner check, and the countdown and the creator flag are untouched; without a contract or an answer nothing changes |
| Properties.FinishRefreshUsesItsRecord | fhe-quest-by_xadeliner/src/App.js:92-100 | the resumption uses the record its own call read, not the one shown by then; it leaves activity and the shown record alone, matches the owner case-insensitively, and sets the remaining time only for an active record |
| Properties.TickDuringRefresh | fhe-quest-by_xadeliner/src/App.js:89-99 | a tick between the halves of a refresh, with one second left, ends the game; the refresh then sets the record's remaining time, so the game stays ended with time left and no countdown runs again |
| Lifecycle.CreatorFlag | fhe-quest-by_xadeliner/src/App.js:137-148 | with an account, the flag is a case-insensitive match against the owner, and false when `owner()` failed; with no account it stays as it was |
| Properties.RefreshDerivesActivity | fhe-quest-by_xadeliner/src/App.js:72-100 | the record is stored. Activity is `isActive && !isCompleted`. The remaining time is recomputed only for an active game, where it is `max(0, start + duration - now)`. The creator flag becomes a case-insensitive match against `owner()`, or false when that call fails. No other field changes |
| Properties.RefreshWithoutAnswerChangesNothing | fhe-quest-by_xadeliner/src/App.js:72-102 | with no contract, or when `getGameStats` throws, nothing changes |
| Properties.RefreshPastDeadlineStaysActive | fhe-quest-by_xadeliner/src/App.js:95-100 | a refresh after the deadline of a game the record still calls active gives an active game at 0 s, which the countdown never ends |
| Ledger.RemainingTime | fhe-quest-by_xadeliner/src/App.js:97-98 | never negative; zero exactly at or after the deadline; otherwise `now` plus the result is the deadline |
| Ledger.RemainingTimeMonotone | fhe-quest-by_xadeliner/src/App.js:97-98 | a later clock never gives more time, and the time falls by at most the seconds elapsed |
| Lifecycle.StartCreatorEncryption | fhe-quest-by_xadeliner/src/App.js:470-479 | starting the creator's encryption keeps the invariant, and never moves the selection or marks a cell |
| Properties.CreatorEncryptionGuard | fhe-quest-by_xadeliner/src/App.js:1126-1141 | the button starts an encryption only while no game runs, no encryption is in flight and a relayer exists; it then sets `isEncrypting` and captures the selection, and otherwise nothing changes |
| Lifecycle.EncryptForCreator | fhe-quest-by_xadeliner/src/App.js:1126-1139 | the creator's encryption keeps the invariant, and never moves the selection or marks a cell |
| Properties.CreatorCiphertextsDecode | fhe-quest-by_xadeliner/src/App.js:1126-1139 | a successful encryption clears `isEncrypting`, retires the call and stores both pairs; none of the four values is left a byte array, and each that was one is stored as text that decodes back to the bytes received |
| Properties.CreatorFailureKeepsCiphertexts | fhe-quest-by_xadeliner/src/App.js:1126-1139 | a thrown encryption, or one of a missing coordinate, is swallowed: only `isEncrypting` and the call in flight change |
| Lifecycle.CreateGame | fhe-quest-by_xadeliner/src/App.js:421-467 | game creation keeps the invariant |
| Properties.CreateGameGuards | fhe-quest-by_xadeliner/src/App.js:421-451 | the call returns with nothing done if and only if the connection or either ciphertext is missing; the first half of a refresh runs if and only if the transaction is mined with a non-zero status; otherwise nothing changes |
| Properties.StepMonotone | fhe-quest-by_xadeliner/src/App.js:378-380 | every operation keeps the invariant, never unmarks a cell, and marks at most the cell of a matched miss or of an open fallback |
| Properties.RunMonotone | fhe-quest-by_xadeliner/src/App.js:378-380 | along any sequence of operations the invariant holds and the marked cells only grow |
| Properties.RunMarksOnlyByResolution | fhe-quest-by_xadeliner/src/App.js:841-843 | a cell newly marked along a run was marked by a fallback, or by a dispatched miss for the listening account, somewhere in it, and that operation may mark exactly that cell in the state the run has reached there |
| App.AppState.constructor | fhe-quest-by_xadeliner/src/App.js:43-69 | a fresh 10×10 grid of `false`, in the initial state |
| App.AppState.Mark | fhe-quest-by_xadeliner/src/App.js:378-380 | `gameGrid[y][x] = true` in place: the set of marked cells gains exactly that cell |
| App.AppState.HandleCellClick | fhe-quest-by_xadeliner/src/App.js:953-958 | the new state is `SelectCell` of the old |
| App.AppState.TypeX | fhe-quest-by_xadeliner/src/App.js:1098-1107 | the new state is `EnterX` of the old |
| App.AppState.TypeY | fhe-quest-by_xadeliner/src/App.js:1108-1117 | the new state is `EnterY` of the old |
| App.AppState.BeginSearch | fhe-quest-by_xadeliner/src/App.js:283-293 | state and outcome are those of `BeginSearch` |
| App.AppState.AnswerPending | fhe-quest-by_xadeliner/src/App.js:296-311 | state and outcome are those of `AnswerPending` |
| App.AppState.Abort | fhe-quest-by_xadeliner/src/App.js:399-416 | the catch and finally blocks: state and outcome are those of `Abort` |
| App.AppState.FinishEncryption | fhe-quest-by_xadeliner/src/App.js:311-316 | state and outcome are those of `FinishEncryption` |
| App.AppState.FinishSubmission | fhe-quest-by_xadeliner/src/App.js:330-350 | state and outcome are those of `FinishSubmission` |
| App.AppState.ScheduleFallback | fhe-quest-by_xadeliner/src/App.js:352-390 | the new state is `ScheduleFallback` of the old |
| App.AppState.FinishSearch | fhe-quest-by_xadeliner/src/App.js:412-417 | the new state is `FinishSearch` of the old |
| App.AppState.SearchTreasure | fhe-quest-by_xadeliner/src/App.js:282-418 | state and outcome are those of `SearchToCompletion` |
| App.AppState.HandleResult | fhe-quest-by_xadeliner/src/App.js:822-856 | the shared handler body, in place on the grid |
| App.AppState.HandleEvent | fhe-quest-by_xadeliner/src/App.js:863-883 | the new state is `OnEvent` of the old |
| App.AppState.Fallback | fhe-quest-by_xadeliner/src/App.js:365-390 | the new state is `OnFallback` of the old |
| App.AppState.Tick | fhe-quest-by_xadeliner/src/App.js:649-663 | the new state is `Tick` of the old; only the countdown and activity change |
| App.AppState.CheckIsCreator | fhe-quest-by_xadeliner/src/App.js:137-148 | no account: unchanged; otherwise a case-insensitive match against the owner, false if that call failed |
| App.AppState.RecordStats | fhe-quest-by_xadeliner/src/App.js:71-92 | the new state is `RecordStats` of the old |
| App.AppState.FinishRefresh | fhe-quest-by_xadeliner/src/App.js:92-100 | the new state is `FinishRefresh` of the old |
| App.AppState.FetchGameStats | fhe-quest-by_xadeliner/src/App.js:72-103 | the new state is `Refresh` of the old: the two halves in a row |
| App.AppState.StartCreatorEncryption | fhe-quest-by_xadeliner/src/App.js:470-479 | the new state is `StartCreatorEncryption` of the old |
| App.AppState.EncryptCoordinates | fhe-quest-by_xadeliner/src/App.js:1126-1139 | the new state is `EncryptForCreator` of the old |
| App.AppState.CreateGame | fhe-quest-by_xadeliner/src/App.js:421-467 | state and outcome are those of `CreateGame` |
| Display.FormatTime | fhe-quest-by_xadeliner/src/App.js:961-966 | `formatTime`; it has no contract of its own, and the four lemmas below state what it does |
| Display.ParseFormatTime | fhe-quest-by_xadeliner/src/App.js:961-966 | the `HH:MM:SS` text parses back to the seconds it was made from, with minutes and seconds below 60 |
| Display.FormatTimeInjective | fhe-quest-by_xadeliner/src/App.js:961-966 | different second counts give different texts |
| Display.FormatTimeShape | fhe-quest-by_xadeliner/src/App.js:961-966 | at least 8 characters, exactly 8 below 100 hours, colons at the two fixed places from the end |
| Display.FormatTimeExamples | fhe-quest-by_xadeliner/src/App.js:961-966 | 0 gives `00:00:00` and 3661 gives `01:01:01` |
| Display.FieldFacts | fhe-quest-by_xadeliner/src/App.js:965 | a field is at least two decimal digits, exactly two below 100, and reads back as its number |
| Display.ClockArithmetic | fhe-quest-by_xadeliner/src/App.js:962-964 | `h*3600 + m*60 + s` is the input and `m < 60` |
| Numerals.ToRadix | fhe-quest-by_xadeliner/src/App.js:965 | `toString(base)` gives at least one digit, all of that base |
| Numerals.ToRadixLeadingDigit | fhe-quest-by_xadeliner/src/App.js:965 | the first digit of `toString(base)` is `0` exactly for zero, so no numeral has a leading zero |
| Numerals.FromToRadix | fhe-quest-by_xadeliner/src/App.js:965 | `toString(base)` reads back as its number |
| Numerals.ToRadixLength | fhe-quest-by_xadeliner/src/App.js:508 | one digit below the base, two below its square |
| Numerals.PadStart | fhe-quest-by_xadeliner/src/App.js:508 | `padStart(width, fill)`: the length is the larger of the two, the input is the suffix, and every added character is the fill |
| Numerals.ZeroPaddedValue | fhe-quest-by_xadeliner/src/App.js:965 | zero padding keeps the digits and the value |
| Numerals.DigitChar | fhe-quest-by_xadeliner/src/App.js:508 | a digit below 16 is `0`-`9` or a lowercase `a`-`f` and reads back as itself |
| Hex.ByteToHex | fhe-quest-by_xadeliner/src/App.js:508 | `b.toString(16).padStart(2, '0')` is the high and the low nibble's digit |
| Hex.HexDigits | fhe-quest-by_xadeliner/src/App.js:506-509 | two lowercase hex digits per byte |
| Hex.ToHexString | fhe-quest-by_xadeliner/src/App.js:506-509 | `0x` then only lowercase hex digits, length `2 + 2n` |
| Hex.HexDigitsAt | fhe-quest-by_xadeliner/src/App.js:506-509 | digits `2i` and `2i+1` are the `i`-th byte's |
| Hex.ToHexStringAt | fhe-quest-by_xadeliner/src/App.js:506-509 | characters `2+2i` and `3+2i` are the `i`-th byte's digits |
| Hex.DecodeHexDigits | fhe-quest-by_xadeliner/src/App.js:506-509 | the digits decode back to the bytes |
| Hex.ParseToHexString | fhe-quest-by_xadeliner/src/App.js:506-509 | the `0x` text decodes back to the bytes |
| Hex.ToHexStringInjective | fhe-quest-by_xadeliner/src/App.js:506-509 | different byte arrays give different texts |
| Hex.Truthy | fhe-quest-by_xadeliner/src/App.js:313 | JavaScript truthiness of an encrypted value: the empty text and a missing value are falsy |
| Hex.Hexify | fhe-quest-by_xadeliner/src/App.js:506-528 | a byte array becomes truthy text that decodes back to it; any other value passes unchanged |
| Strings.ToLower | fhe-quest-by_xadeliner/src/App.js:142 | same length, each character lowered on its own |
| Strings.SameAddress | fhe-quest-by_xadeliner/src/App.js:142 | `a.toLowerCase() === b.toLowerCase()`; `SameAddressIff` states it without lowering |
| Strings.SameAddressIff | fhe-quest-by_xadeliner/src/App.js:142 | two addresses are equal ignoring case if and only if they have the same length and every position agrees up to ASCII case |
| Strings.SameAddressEquivalence | fhe-quest-by_xadeliner/src/App.js:677 | reflexive, symmetric and transitive |
| Strings.ToLowerIdempotent | fhe-quest-by_xadeliner/src/App.js:142 | lowering twice is lowering once |
| Strings.Contains | fhe-quest-by_xadeliner/src/App.js:408 | `String.prototype.includes`; `ContainsIff` states it |
| Strings.ContainsIff | fhe-quest-by_xadeliner/src/App.js:408 | `includes` holds if and only if the text occurs at some position |
| Strings.FormatAddress | fhe-quest-by_xadeliner/src/App.js:948-950 | the length is that of the first six characters, `...` and the last four |
| Strings.FormatAddressParts | fhe-quest-by_xadeliner/src/App.js:948-950 | for any text, the display is its first six characters (all of it if shorter), then `...`, then its last four (all of it if shorter) |
| Strings.FormatAddressOfAddress | fhe-quest-by_xadeliner/src/App.js:948-950 | a 42-character address gives 13 characters: its first six, `...`, its last four |
| Findings.FallbackAsWritten | fhe-quest-by_xadeliner/src/App.js:365-380 | the fallback guarded by the value captured at the click: it acts if and only if that value was true |
| Findings.StaleGuardKeepsOverlayOpen | fhe-quest-by_xadeliner/src/App.js:365-366 | with no earlier result pending and no event, the fallback as written leaves the overlay open and the cell unmarked, where the intended one resolves |
| Findings.StaleGuardMarksTreasureCell | fhe-quest-by_xadeliner/src/App.js:365-380 | with an earlier result pending and a hit, the fallback as written marks the treasure cell as a miss, where the intended one does not |
| Findings.OnEventCaptured | fhe-quest-by_xadeliner/src/App.js:673-856 | a stale listener's handler leaves the current selection alone and never unmarks a cell |
| Findings.DispatchAsWritten | fhe-quest-by_xadeliner/src/App.js:863-929 | every listener ever registered handles the event: the selection is kept and no cell is unmarked |
| Findings.SingleListenerIsOnEvent | fhe-quest-by_xadeliner/src/App.js:863-883 | with the one current listener, dispatch is `OnEvent` |
| Findings.StaleListenerMarksUnsearchedCell | fhe-quest-by_xadeliner/src/App.js:863-929 | after clicking one cell and searching another, a miss marks the earlier cell too, which `OnEvent` does not |

## Left out

- Wallet connection, account and chain listeners, and network switching (lines 150-205 and
  620-646) are wallet RPC calls. This includes the partial reset at 623-633, which clears the
  account, provider, signer, contract and relayer but none of the attempt's fields. The model
  sees their result only as the `Connection` flags.
- Relayer initialisation (`initRelayer`, 208-245), `createEncryptedInput`, `add32`, `encrypt`,
  `userDecrypt` and `publicDecrypt` (470-499, 554-616) are foreign cryptographic calls. Their
  result is the `EncryptionResult` parameter. Of `encryptCoordinates` (470-551), which both the
  attempt (311) and the creator's button (1128) call, the model keeps the relayer check, the
  `isEncrypting` flag and the conversion to hex. The single-buffer `createEncryptedCoords`
  (247-279) is called by neither and is not modelled.
- Contract reads and writes (`getGameStats`, `isDecryptionPending`, `owner`, `searchTreasure`,
  `createGame`, `tx.wait`) are parameters: `PendingAnswer`, `SubmitResult`,
  `Option<GameStats>`, and the owner as `Option<string>`. `None` stands for a call that threw.
  The second `isDecryptionPending` call at 325 can only throw into the catch block. That is one
  of the `SubmitThrew` cases.
- The `fetchGameStats` and `fetchPlayerStats` calls after mining (393-394) and the 10 s polling
  (914-917) are not fixed to one point in time. A refresh is the `StatsFetched` operation and,
  for a refresh that got a record, a later `OwnerChecked`; a `Run` can place both anywhere. A
  `searchTreasure` call's `finally` may therefore run before the refreshes it awaited. `fetchPlayerStats`, `fetchAttemptFee` and the attempt fee are
  displays only and are not modelled.
- Timing and UI only, so not modelled: the progress delays and step strings, the result
  animations, their messages and their own timers, `ethers.formatEther`/`parseEther`, the
  conversion of record fields to strings, and console logging.
- JSX rendering (968-1326) is not modelled, apart from the grid's cell click, the creator's two
  coordinate inputs and the "Encrypt Coordinates" handler. `Properties.Enabled` offers the
  creator panel (1061) only while `isCreator` holds, and its "Create Game" button (1155) only
  while no game runs. The panel's other condition, that a relayer exists, is not part of the
  state and is not modelled; the relayer check inside `encryptCoordinates` is.
- The order of the JavaScript event loop is not fixed. The model covers it by splitting each
  call at its awaits and quantifying over every sequence of operations (`Properties.Run`).
  The awaits inside `encryptCoordinates` (the progress delays and the two `encrypt` calls) are
  one step, `FinishEncryption`: nothing the model tracks changes between them. The same holds
  for the awaits between the encryption check and the transaction (325-328), and for
  `createGame`'s awaits on `contract.createGame` and `tx.wait` (421-451), which are one step,
  `Lifecycle.CreateGame`, up to its refresh. React's batching
  of state updates is not modelled.
- Lifecycle.OnEvent: requires the selection to lie on the grid. The source lets the creator
  inputs set any integer. With a `selectedY` outside 0..9 the handler throws a `TypeError`;
  with only `selectedX` outside, it writes a stray property on a row. Neither is modelled.
- Lifecycle.OnFallback: requires the timer's coordinate to lie on the grid, for the same reason.
- Lifecycle.Resolve: requires the selection to lie on the grid, as `Lifecycle.OnEvent`.
- App.AppState.HandleResult: requires the selection to lie on the grid, as `Lifecycle.OnEvent`.
- Findings.FallbackAsWritten: requires the timer's coordinate to lie on the grid, as
  `Lifecycle.OnFallback`.
- Findings.OnEventCaptured: requires the captured selection to lie on the grid, as
  `Lifecycle.OnEvent`.
- Findings.DispatchAsWritten: requires every captured selection to lie on the grid, as
  `Lifecycle.OnEvent`.
- Ledger.Classify: an error is modelled with its `message` as text, a missing message as the
  empty string. In the source, an error with no `code` and no `message` makes
  `err.message.includes` (408, 462) throw a `TypeError` out of the catch block. The `finally`
  block still runs, so the state agrees with the model, but there is no classified outcome.
- App.AppState.HandleEvent: requires the selection to lie on the grid, as `Lifecycle.OnEvent`.
- App.AppState.Fallback: requires the timer's coordinate to lie on the grid, as
  `Lifecycle.OnFallback`.
- Strings.ToLower: lowers ASCII `A`-`Z` only. JavaScript's `toLowerCase` also folds other
  letters, which cannot occur in a hexadecimal address.
- Display.FormatTime: takes a natural number. The countdown it shows is never negative, and
  fractional seconds do not occur.
- Hex.Hexify: truthiness is modelled for byte arrays, text and a missing value. Other
  JavaScript values the relayer could return are not modelled.
- `handleTreasureFound` and `handleGameCompleted` (725-766) are defined but never reach the
  wildcard listener. The model therefore treats their events as no-ops.

## Findings

| source | as written | input that shows it | evidently intended | confidence | as-written member | corrected member |
|---|---|---|---|---|---|---|
| fhe-quest-by_xadeliner/src/App.js:365-366 | the fallback tests `isProcessingResult` as captured by the render in which `searchTreasure` was called | an attempt started with no earlier result pending and answered by no event: the guard reads `false`, so the overlay stays open and the cell unmarked; or an attempt started while an earlier result was pending and answered "found": the fallback marks the treasure cell as a miss | the fallback acts exactly while the current attempt is still unresolved | not executed | Findings.StaleGuardKeepsOverlayOpen | Lifecycle.OnFallback |
| fhe-quest-by_xadeliner/src/App.js:863-929 | the effect re-runs on every change of selection or grid and adds a new `contract.on('*')` listener each time; its cleanup removes none | click (1,1), then click (2,2) and search it; the oracle reports a miss: the listener left from the first click marks (1,1), which was never searched | one listener, using the current selection | not executed | Findings.StaleListenerMarksUnsearchedCell | Lifecycle.OnEvent |
