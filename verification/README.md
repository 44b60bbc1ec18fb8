# GHOST_BIOS controller state, in Dafny

A model of the in-memory state kept by the `GhostBIOS` controller of a
decorative "haunted BIOS" web page, and proofs about it. The page boots
from a boot screen into a main interface, shows a fake process table and
a ten-line activity log that a five-second timer keeps refreshing, opens
popups from a small catalogue, and reacts to two easter eggs (the Konami
code and seven clicks on the logo).

What the model keeps, and where:

- `JsText` (`js_text.dfy`): JavaScript's `split` with a non-empty
  separator and `join`, with both round trips proved (`JoinSplit` for any
  string; `SplitJoin` for pieces free of a one-character separator).
- `JsMath` (`js_math.dfy`): `Math.floor(Math.random() * n)`, with the draw
  of `Math.random()` passed in as a real in `[0, 1)`.
- `ActivityLog` (`activity_log.dfy`): the log lines, their insertion
  (prepend, keep the ten newest) and the view's split of a line into time
  stamp and message.
- `GhostProcesses` (`ghost_processes.dfy`): process rows with a CPU load
  that is a number or `'∞'` (`Cpu = Num(n) | Infinite`), the load refresh,
  the spawn attempt, and the table invariant (four to six rows, the four
  initial rows first, `'∞'` only on the phantom row).
- `Popups` (`popups.dfy`): the popup catalogue and its `ERROR` fallback.
- `EasterEggs` (`easter_eggs.dfy`): the Konami window and the logo click
  counter as pure state steps.
- `Boot` (`boot.dfy`): the boot timeout and the one-shot key listener as
  pure state steps, and runs of them.
- `GhostBios` (`ghost_bios.dfy`): class `GhostBios` with the controller's
  fields. Each page callback is one method with a `modifies` frame naming
  the fields it writes, and each is proved against the functions above.
  `Valid()` is the object invariant that every method keeps: 5 to 10 log
  lines, the process-table invariant, a Konami window of at most 10 codes,
  and a click count below 7.

DOM element presence is a boolean. Elements the source looks up once at
start-up (the boot screen, the main interface, the logo) are constants
that the constructor fixes. Elements looked up on every call are a
parameter of that method. `Math.random()` draws and the locale time stamp
are parameters too. A callback that would
throw a `TypeError` on a missing element is modelled by the boot outcome
`Crashed`, with the state as it stood when the error was thrown.

Behaviours of the source that the model keeps as they are:

- The boot transition is not one-shot. The three-second timeout
  (scripts.js:35-41) never reads `bootComplete`. After a key press has
  skipped the boot, the timeout still swaps the views again and plays the
  boot sound, which the key press never plays (`Boot.TimeoutAfterSkip`).
- `closePopup` never removes the Escape handler. `openPopup` registers a
  freshly bound function (scripts.js:284), and `closePopup` removes a
  different freshly bound function (scripts.js:296). The model counts the
  registered handlers in `escapeListeners`, and only `OpenPopup` changes
  that count.
- Popup types are arbitrary strings with an `ERROR` fallback
  (scripts.js:433). So the secret area, which opens the type `'secret'`
  (scripts.js:572), is shown under the title `ERROR`
  (`GhostBios.GhostBios.LogoClick`).
- The Konami check compares `join(',')` strings, not arrays
  (scripts.js:538). The two comparisons can disagree only when some key
  code holds a comma (`EasterEggs.KonamiExact`). A single code that holds
  commas can match the whole sequence (`EasterEggs.CommaCodeFires`).

## Model

| member | source | states |
|---|---|---|
| `JsText.IndexOf` | scripts.js:257 | the result is the first index where the separator occurs; it is absent exactly when the separator does not occur |
| `JsText.Split` | scripts.js:257 | `split` always returns at least one piece |
| `JsText.SplitFirstPiece` | scripts.js:257 | the first piece holds no separator; a string without the separator splits into itself alone |
| `JsText.SplitRejoin` | scripts.js:257-258 | where the separator occurs, first piece + separator + the rest rejoined is the original string |
| `JsText.JoinSplit` | scripts.js:257-258 | joining the pieces of a split with the same separator gives back the string |
| `JsText.Join` | scripts.js:258 | `join` of no pieces is empty; the result starts with the first piece, followed by the separator when there is a second piece; `JoinSplit` and `SplitJoin` are its round trips with `Split` |
| `JsText.SplitJoin` | scripts.js:538 | splitting a join of one or more pieces gives back the pieces when no piece holds the one-character separator |
| `JsMath.RandomBelow` | scripts.js:240 | `Math.floor(Math.random() * n)` is an index below `n` |
| `ActivityLog.PickMessage` | scripts.js:225-240 | the message of a new line is one of the ten fixed messages |
| `ActivityLog.MakeEntry` | scripts.js:242 | the line `[ts] msg` is three characters longer than its parts, starts with `[`, holds `"] "` right after the time stamp and ends with the whole message; `EntryRoundTrip` is its inverse |
| `ActivityLog.Prepend` | scripts.js:242-247 | after an insertion the log has `min(old + 1, 10)` lines; the first is the new line; the rest are the old lines in order, with only the oldest dropped when full |
| `ActivityLog.PrependAllNewestFirst` | scripts.js:242-247 | from a log of at most 10 lines, after N insertions the log has `min(old + N, 10)` lines: the inserted lines newest first, then the old ones; after 10 or more insertions it holds exactly the 10 latest |
| `ActivityLog.SplitEntry` | scripts.js:257-258 | the time-stamp part holds no `"] "`; when the line holds `"] "`, time stamp + `"] "` + message is the line; otherwise the time stamp is the whole line and the message is empty |
| `ActivityLog.EntryRoundTrip` | scripts.js:242-258 | a line `[ts] msg` splits back into `"[" + ts` and the whole `msg`, even when `msg` holds `"] "`, whenever `ts` does not |
| `GhostProcesses.Load` | scripts.js:177 | a redrawn load is a percentage in `[0, 100)` |
| `GhostProcesses.InitialTable` | scripts.js:10-15 | the initial table has four rows, satisfies the table invariant, and `haunt.bat` starts below 50 |
| `GhostProcesses.Tick` | scripts.js:175-179 | a row keeps its pid and name; a numeric load becomes a percentage in `[0, 100)`; a `'∞'` row is unchanged |
| `GhostProcesses.Retick` | scripts.js:175-179 | the refresh keeps the rows' number and order, every pid and name, and `'∞'`; each numeric load lands in `[0, 100)` |
| `GhostProcesses.Newcomer` | scripts.js:183-189 | a spawned process has a name from the four ghost names, a pid in `[0, 9999)` and a numeric load in `[0, 100)` |
| `GhostProcesses.Spawn` | scripts.js:182-194 | a spawn attempt keeps every existing row and adds at most one; it adds one exactly when the draw is below 0.3 and the table has fewer than 6 rows |
| `GhostProcesses.TickKeepsTable` | scripts.js:170-194 | a full tick keeps the table invariant, so the table never exceeds 6 rows |
| `Popups.GetPopupContent` | scripts.js:305-434 | `diagnostics`, `memory` and `settings` get their own titles; the title is `ERROR` exactly for every other type, and then the body is `Unknown popup type`; the lookup never fails |
| `Popups.CatalogueDistinct` | scripts.js:305-433 | two different catalogue types never show the same popup |
| `EasterEggs.Slide` | scripts.js:533-536 | the window after a key ends with that key, is a suffix of the old window plus the key, and never grows past 10 codes |
| `EasterEggs.KonamiKey` | scripts.js:532-541 | a key press keeps the window at 10 codes at most; when ghost mode fires the window is empty, otherwise it is the slid window |
| `EasterEggs.KonamiCodeCommaFree` | scripts.js:529-530 | no code of the Konami sequence holds a comma |
| `EasterEggs.KonamiExact` | scripts.js:529-541 | with comma-free key codes, ghost mode fires exactly when the slid window equals the 10-code sequence |
| `EasterEggs.CommaCodeFires` | scripts.js:538 | one key code holding the joined sequence fires ghost mode although the window is not the sequence |
| `EasterEggs.LogoClick` | scripts.js:549-553 | a click unlocks exactly when it brings the count to 7, and the count then restarts at 0; otherwise it grows by one; either way it stays below 7 |
| `EasterEggs.Decay` | scripts.js:554 | the one-second timer lowers the count by one and never below zero |
| `EasterEggs.ClicksUnlock` | scripts.js:548-553 | from a count below 7, n clicks in a row unlock the secret area exactly when count + n reaches 7 |
| `Boot.OnTimeout` | scripts.js:35-41 | the timeout swaps the views and plays the sound exactly when both elements are present, whatever `bootComplete` was; with no boot screen it does nothing; only a swap changes the state, setting `bootComplete` |
| `Boot.OnKeyDown` | scripts.js:45-51 | the first key press unregisters the listener; it swaps exactly when the listener is registered, boot is not complete and both elements are present, and throws when an element is missing; `bootComplete` becomes true only by a swap |
| `Boot.RunMonotone` | scripts.js:35-51 | once `bootComplete` is true, no sequence of timeouts and key presses makes it false |
| `Boot.KeyListenerGone` | scripts.js:45-51 | after the first key press, no later key press does anything to the boot views |
| `Boot.TimeoutAfterSkip` | scripts.js:35-51 | after a key press skips the boot, the timeout still swaps the views and plays the boot sound |
| `GhostBios.GhostBios.constructor` | scripts.js:5-32 | boot not complete, key listener registered, no active popup and no Escape listeners; the initial process table and the five initial log lines; an empty Konami window and a zero click count; whether the boot screen, the main interface and the logo exist is fixed once, as the init steps look them up once |
| `GhostBios.GhostBios.BootTimeout` | scripts.js:35-41 | using the element presence fixed at start-up, the new `bootComplete` and the outcome are those of `Boot.OnTimeout`; `bootComplete` never goes back to false |
| `GhostBios.GhostBios.BootKeyDown` | scripts.js:45-51 | using the element presence fixed at start-up, the new boot state and the outcome are those of `Boot.OnKeyDown`; when boot is already complete the key press changes nothing but the listener |
| `GhostBios.GhostBios.AddRandomLogEntry` | scripts.js:224-247 | the new log is `Prepend` of the old one and `[timestamp] message`, so it has `min(old + 1, 10)` lines and the invariant holds |
| `GhostBios.GhostBios.LogRows` | scripts.js:256-258 | one (time stamp, message) row per log line, in log order, each the line's `SplitEntry` |
| `GhostBios.GhostBios.UpdateGhostProcesses` | scripts.js:170-194 | with the process list present, the table becomes `Spawn(Retick(old))`; without it nothing changes; the table invariant holds |
| `GhostBios.GhostBios.SimulationTick` | scripts.js:163-167 | the five-second tick is a process update followed by one log insertion |
| `GhostBios.GhostBios.TriggerGlitch` | scripts.js:477-479 | a glitch inserts one log line, then runs a process update |
| `GhostBios.GhostBios.OpenPopup` | scripts.js:269-284 | with all three elements present, the active popup becomes the type, replacing any other, one more Escape listener is registered, and the catalogue content is shown; otherwise nothing changes |
| `GhostBios.GhostBios.ClosePopup` | scripts.js:289-296 | with the overlay present no popup is active afterwards, whatever was opened before; the Escape listener count is untouched |
| `GhostBios.GhostBios.PopupKeyDown` | scripts.js:299-303 | with at least one Escape listener registered, Escape closes the popup when the overlay is present; any other key changes nothing |
| `GhostBios.GhostBios.ApplySettings` | scripts.js:457-458 | applying settings closes the popup, then inserts one log line |
| `GhostBios.GhostBios.KonamiKeyDown` | scripts.js:532-541 | the new window and the fired flag are `KonamiKey` of the old window; firing inserts one log line (ghost mode), otherwise the log is unchanged |
| `GhostBios.GhostBios.LogoClick` | scripts.js:548-553 | with the logo's listener registered, the count follows `EasterEggs.LogoClick`; an unlock with all popup elements present makes `'secret'` the active popup under the fallback title `ERROR`; without the listener nothing changes |
| `GhostBios.GhostBios.LogoClickDecay` | scripts.js:554 | the count after the one-second timer is `Decay` of the count before |

## Left out

- Rendering: the process list markup, the log-line markup, the popup body
  markup (named by `Body` tags), the secret-area markup, the overlay's and
  body's CSS classes, and the injected stylesheet. They only write the DOM.
- Timers and listener registration. Each timer or listener callback is one
  method. The model does not say when callbacks run or in what order the
  browser calls the key listeners. `LogoClickDecay` may be called at any
  time, not only one second after a click.
- `Math.random()` and `Date`. Draws are real parameters in `[0, 1)`, and
  the `toLocaleTimeString` result is a string parameter.
- `UpdateGhostProcesses` takes one load draw per row, by position. The
  source draws only for numeric rows, in order. The draw for the `'∞'`
  row is ignored.
- The boot sound and every other Web Audio call. The sound plays exactly
  when the timeout's outcome is `Swapped`; the key-press path never plays
  it.
- The system clock display (`startSystemClock`), the window controls
  (`handleWindowControl`, minimise, maximise, close), hover sounds,
  floating messages, navigation and fullscreen shortcuts. These are
  browser side effects only. `closeWindow`'s delayed call to `closePopup`
  is the same as `ClosePopup`.
- The CSS variables written by `applySettings`. Only its closing of the
  popup and its log line are kept.
- The unused fields `systemTime` and `glitchInterval`.
- The global `openPopup`, `closePopup` and `triggerGlitch` functions. They
  only forward to the controller when it exists.
- JavaScript object-key quirks of the catalogue lookup, such as
  `'toString'`. Popup types are plain strings, and only the three catalogue
  keys are defined.
- JavaScript strings are UTF-16 code units. Here they are sequences of
  `char`.
