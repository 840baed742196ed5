# Alert deduplication of the coteur.com return scraper

`scrapper.py` watches a bookmaker-comparison page. Each cycle, `scrape_cotes` walks
the page's match blocks in order. For each block it:

- builds a match name `"<team1> vs <team2>"` from the two team texts;
- skips a match whose name is already in the process-wide set `alerted_matches`;
- otherwise normalises the "retour" percentage text (`%` removed, `,` turned into
  `.`, whitespace stripped) and reads it with `float()`;
- for a value strictly above `RETURN_THRESHOLD` (98.0), appends an alert line and
  adds the name to the set.

After the loop, a non-empty message gets the footer link once and goes to a
Discord webhook in a single call. That call counts as delivered when the status is
200 or 204. The driver repeats the cycle forever.

The Dafny project models that cycle and its driver:

- `wrappers.dfy` holds `Option`.
- `pytext.dfy` (module `PyText`) holds:
  - Python's `str.strip()`, using the full `str.isspace` character set;
  - single-character `str.replace`;
  - the retour normalisation built from them.
- `alerts.dfy` (module `Alerts`) holds the declarative meaning of one cycle. A page
  is a sequence of `Observation`s. Each gives a `Fact`: the match name when there
  are exactly two teams, and the parsed value. On the facts it defines:
  - `NameAt`: the loop-carried `match_name`;
  - `Qualifies`, `FirstHit`, `Emitted` and `QualifiedNames`: which observations
    alert, and what the set gains;
  - `Evaluate`: the whole cycle, or `None` when it raises.
  - `Scan` is the same cycle written as the loop's own step-by-step bookkeeping.
    `ScanMatchesSpec` proves that the two agree.
- `scrapper.dfy` (module `Scrapper`) holds class `AlertState`. Its field
  `alerted` is `alerted_matches`, and its methods update it in place:
  - `VisitMatch` is the loop body;
  - `ScanPage` is the loop;
  - `ScrapeCotes` is one cycle including the dispatch;
  - `Monitor` runs a finite sequence of cycles.
  - Each method is proved against `Scan`, `Evaluate` or the fold `Lifetime`.

Some of the source's behaviour is kept exactly as written:

- **Stale match name.** A block without exactly two teams does not assign
  `match_name`. The block is therefore judged under the previous block's match
  name.
- **Crash before any assignment.** If `match_name` was never assigned, reading it
  raises `UnboundLocalError`. That can only happen on the first block, before
  anything has changed. The cycle then ends with the set untouched and nothing
  sent.
- **A crash ends the driver.** The driver does not catch exceptions, so the first
  cycle that raises ends the process.
- **Strict comparison.** The comparison is `>`, and NaN compares false.
- **No rollback.** The set is updated before the dispatch, whatever the webhook
  answers.

## Model

| member | source | states |
|---|---|---|
| `PyText.IsSpace` | scrapper.py:54 | the whitespace `strip()` removes is the `str.isspace` set; no contract of its own: `Strip` and `StripIsSlice` state what it means for the stripped text |
| `PyText.Strip` | scrapper.py:43-44 | `strip()` leaves a text that is empty or neither starts nor ends with whitespace |
| `PyText.StripIsSlice` | scrapper.py:54 | `strip()` removes whitespace only, and only at the two ends: the result is a contiguous run of the input and everything before and after it is whitespace |
| `PyText.StripKeepsCharacters` | scrapper.py:54 | every character of a stripped text occurs in the original |
| `PyText.StripIdempotent` | scrapper.py:54 | stripping a stripped text changes nothing |
| `PyText.Delete` | scrapper.py:54 | `replace('%', '')` leaves no `%`; `DeleteMultiset`, `DeleteOne` and `DeleteAppend` fix which characters remain and in which order |
| `PyText.DeleteMultiset` | scrapper.py:54 | the deletion keeps every other character exactly as often as it occurs |
| `PyText.DeleteOne` | scrapper.py:54 | on one character the deletion drops it when it is the deleted one and keeps it otherwise |
| `PyText.DeleteAppend` | scrapper.py:54 | deleting from a concatenation is the concatenation of the deletions; with `DeleteOne` this fixes the result character by character, in the original order |
| `PyText.DeleteCharacters` | scrapper.py:54 | the deletion introduces no character |
| `PyText.DeleteAbsent` | scrapper.py:54 | deleting a character that does not occur is the identity |
| `PyText.Substitute` | scrapper.py:54 | `replace(',', '.')` keeps the length and replaces exactly the positions holding `,` |
| `PyText.SubstituteCharacters` | scrapper.py:54 | after the substitution every character is `.` or an original character other than `,` |
| `PyText.SubstituteAbsent` | scrapper.py:54 | substituting a character that does not occur is the identity |
| `PyText.Normalize` | scrapper.py:54 | the text handed to `float()` has no `%` and no `,`, and no whitespace at either end |
| `PyText.NormalizeCharacters` | scrapper.py:54 | normalising only deletes characters and turns `,` into `.` |
| `PyText.NormalizeIdempotent` | scrapper.py:54 | normalising a normalised text changes nothing |
| `Alerts.MatchName` | scrapper.py:43-45 | the name `"<team1> vs <team2>"` of the stripped team texts; no contract of its own: `FactsAt` states that a two-team block yields it |
| `Alerts.Extract` | scrapper.py:41-56 | what one block yields; no contract of its own: `FactsAt` states it block by block, `UnreadableRetourIsIgnored` the unreadable retour |
| `Alerts.Exceeds` | scrapper.py:57 | the strict comparison with 98.0; no contract of its own: `NotAboveThresholdIsIgnored` and `FirstHitIsFirst` state what it decides |
| `Alerts.AlertLine` | scrapper.py:58 | each alert line is non-empty and ends with a newline |
| `Alerts.Facts` | scrapper.py:39-56 | the per-block extraction over `matches`, one fact per block; its own contract gives only the length: `FactsAt` states what each fact is |
| `Alerts.FactsAt` | scrapper.py:41-56 | fact `i` of a page is what block `i` yields: its name when it has two teams, its parsed normalised retour |
| `Alerts.Join` | scrapper.py:58-65 | the accumulated alert text is empty exactly when no alert was raised, which is the `if alert_message` test |
| `Alerts.JoinAppend` | scrapper.py:58 | raising one more alert appends exactly its line to the message |
| `Alerts.NameAt` | scrapper.py:42-48 | the loop-carried `match_name`; no contract of its own: `NameAtIsLastPair` and `NameAtUnset` state it |
| `Alerts.Qualifies` | scrapper.py:48-57 | a name is set, the retour is readable and its value is above 98.0; no contract of its own: `QualifiedNamesContain`, `QualifiedNamesSource` and `NotAboveThresholdIsIgnored` state what it decides |
| `Alerts.FirstHit` | scrapper.py:47-61 | the condition under which lines 58-61 run; no contract of its own: `FirstHitIsFirst` states it |
| `Alerts.Emitted` | scrapper.py:39-61 | the alerts raised by the cycle, in page order; no contract of its own: `EmittedOrder`, `EmittedNames`, `EmittedExceed` and `EmittedDistinct` state it |
| `Alerts.QualifiedNames` | scrapper.py:57-61 | the names that reach `alerted_matches.add`; no contract of its own: `QualifiedNamesContain` and `QualifiedNamesSource` state it |
| `Alerts.NameAtIsLastPair` | scrapper.py:42-45 | a block without two teams is judged under the name of the last earlier block that had two |
| `Alerts.NameAtUnset` | scrapper.py:42-48 | `match_name` is unassigned at a block exactly when no block so far had two teams |
| `Alerts.QualifiedNamesContain` | scrapper.py:57-61 | every block above the threshold contributes its name to the names recorded in the cycle |
| `Alerts.QualifiedNamesSource` | scrapper.py:57-61 | every name recorded in the cycle comes from a block above the threshold |
| `Alerts.FirstHitIsFirst` | scrapper.py:47-61 | a block alerts iff it is above the threshold, its match was not alerted before the cycle, and no earlier qualifying block of the page had the same match |
| `Alerts.AlreadyAlertedIsSkipped` | scrapper.py:47-49 | a block whose match is already in the set raises nothing and leaves the set unchanged |
| `Alerts.NotQualifyingChangesNothing` | scrapper.py:52-63 | a block that does not qualify raises nothing and adds nothing to the set |
| `Alerts.UnreadableRetourIsIgnored` | scrapper.py:52-63 | a block with no retour span, or whose text `float()` rejects, raises nothing and adds nothing |
| `Alerts.NotAboveThresholdIsIgnored` | scrapper.py:57 | a value at or below 98.0, NaN or negative infinity raises nothing and adds nothing: the comparison is strict |
| `Alerts.NewMatchAlerts` | scrapper.py:57-61 | a block above the threshold whose match is new raises exactly one alert with its name and value, and adds exactly that name |
| `Alerts.Scan` | scrapper.py:39-63 | the loop's bookkeeping as a fold; no contract of its own: `ScanStep` states one step and `ScanMatchesSpec` its meaning |
| `Alerts.ScanStep` | scrapper.py:47-61 | one more block either leaves set, alerts and text unchanged or, for a first hit, adds its name, its alert and its line |
| `Alerts.ScanMatchesSpec` | scrapper.py:39-63 | the loop's step-by-step bookkeeping (set, alerts, text) equals the declarative cycle: the set gains the qualifying names, the alerts are the first hits in page order, the text is their lines |
| `Alerts.EmittedExceed` | scrapper.py:57-61 | every alert of a cycle has a value above the threshold and a match not alerted before the cycle |
| `Alerts.EmittedNames` | scrapper.py:47-61 | the matches alerted in a cycle are exactly the qualifying matches not alerted before it |
| `Alerts.EmittedDistinct` | scrapper.py:47-61 | no match alerts twice in one cycle, even when it appears on several blocks |
| `Alerts.Evaluate` | scrapper.py:37-70 | one whole cycle; no contract of its own: `EvaluateSpec` and `EvaluateOrder` state what it computes |
| `Alerts.EmittedOrder` | scrapper.py:39-61 | the alerts of a cycle are exactly the first hits of the page, one per block, in increasing block order, each with that block's name and value |
| `Alerts.EvaluateSpec` | scrapper.py:37-70 | a cycle raises iff the first block lacks two teams. Otherwise: its alerts are distinct, new and above the threshold; their matches are exactly the qualifying matches not alerted before; the set becomes the old set plus exactly those matches and contains every qualifying match; a message exists iff an alert was raised; it is `Join` of the alerts (their lines in the order of the alert sequence, which `EvaluateOrder` fixes to page order) followed once by the footer |
| `Alerts.EvaluateOrder` | scrapper.py:39-61 | the alerts of a cycle that does not raise are the first-hit blocks of the page in page order, each with its name and value, and every first hit is among them |
| `Scrapper.Delivered` | scrapper.py:17 | the status test `in [200, 204]`; no contract of its own: `SendAlert` states it |
| `Scrapper.SendAlert` | scrapper.py:14-20 | one webhook call with the message; delivered iff the status is 200 or 204 |
| `Scrapper.LifetimeAlertsOnce` | scrapper.py:76-79 | over all cycles of the process each match alerts at most once: the alerts are distinct, none was in the starting set, each is above the threshold, and the set only grows, by exactly those matches |
| `Scrapper.Lifetime` | scrapper.py:76-79 | the driver as a fold over the pages; no contract of its own: `LifetimeAlertsOnce` and `CrashIsFinal` state what it keeps |
| `Scrapper.CrashIsFinal` | scrapper.py:76-79 | once a cycle has raised, later pages change nothing |
| `Scrapper.AlertState.constructor` | scrapper.py:9 | the process starts with an empty `alerted_matches` |
| `Scrapper.AlertState.VisitMatch` | scrapper.py:47-63 | one pass of the loop body moves the set and the message exactly one step of `Scan` forward |
| `Scrapper.AlertState.ScanPage` | scrapper.py:37-63 | the loop raises iff the first block lacks two teams, leaving the set untouched; otherwise the set and the message are those of `Scan` over the whole page |
| `Scrapper.AlertState.ScrapeCotes` | scrapper.py:37-70 | one cycle: raising leaves the set unchanged and sends nothing. Otherwise the set becomes `Evaluate`'s, there is a dispatch iff there is a message, and the dispatch carries exactly that message; the set does not depend on the webhook's answer |
| `Scrapper.AlertState.Monitor` | scrapper.py:76-79 | a run over a sequence of pages ends with the set, the crash flag and the sent messages of the fold `Lifetime`, in order, one webhook call each |

## Left out

- The Playwright browser: launching it, navigation, the 20-second `wait_for_selector`, the CSS selectors, `inner_text` and `browser.close()` (scrapper.py:24-35, 41-44, 52, 72). This is foreign I/O. A page is given as its sequence of `Observation`s: the team texts and the optional retour text of each block. A timeout or browser error, which would raise out of the cycle, is not modelled.
- `float()` and `str()` of a float: Python's float grammar and repr are not written out. They are the parameters `Env.parse` (`None` for ValueError) and `Env.render`; `Float` keeps the infinities and NaN that `float()` can return.
- The Discord HTTP call: `DiscordWebhook.execute()` is a parameter `webhook: string -> int` that returns the status code. Exceptions from the network are not modelled.
- Every `print` (scrapper.py:18, 20, 63, 78): console output is not part of the state. `Dispatch.delivered` records which of the two messages at lines 18 and 20 would be printed.
- `time.sleep(300)` and the endless `while True`: `Monitor` runs the finite sequence of pages it is given, and stops at the first cycle that raises.
- `constants.py` is not used by `scrapper.py`; its constants and templates are not part of this model. The threshold, the footer and the alert-line text come from scrapper.py.
- Unicode: `MatchName` and `Normalize` work on code points. The whitespace set is that of `str.isspace`, and no other Unicode processing happens in the source.
