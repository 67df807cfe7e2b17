# gitfiti heatmap painter and OAuth state token — a Dafny model

This project models the two pure cores of gitfiti-as-a-service.

1. **The heatmap painter** (`static/js/gitfiti.js`). The page shows a year of
   days as a heatmap. The user paints contribution counts onto the days with a
   brush, then a verify step turns the painting into a list of commits to push.
   With the DOM stripped away, the page reduces to these parts:
   - an initial chart of 366 zero-count days;
   - a fixed table of five colour brackets (minimums 0, 1, 5, 10, 14; scale maximum 24);
   - an `auto` brush that steps a cell to the next bracket and wraps after the darkest;
   - an upsert of a day's count, matched by calendar day;
   - the verify step. It keeps the positive days and requires a 14 somewhere.
     It rewrites the first 14 to 24 and sums the counts.
2. **The OAuth `state` token** (`index.py`). A token is a 10-character random
   seed followed by the SHA-256 hex digest of the seed and a secret pepper.
   Verification recomputes the token from its first 10 characters.

Modules:

- `Wrappers`: `Option`.
- `Brackets`: the bracket table and the downward scan that picks a count's bracket.
- `Brushes`: the `Auto | Fixed(count)` brush, the `auto` step, brush selection, and repeated clicks.
- `Chart`: day records, the initial chart, and lookup and upsert by calendar day.
- `Painting`: the paint handler `updateElementAndData`.
- `Verification`: the verify step `computeChanges`.
- `Session`: the page state as one value. Each event handler is a state-to-state function.
- `StateToken`: `get_random_state_seed`, `get_state_from_seed` and `verify_state`.

Some things the source takes from outside are parameters here:
- Calendar-day equality (moment's `isSame(..., 'day')`) is a parameter `dayOf: int -> int`.
- The digest (`hashlib.sha256(...).hexdigest()`) is a parameter `sha: string -> string`.
- The configured pepper is a parameter `pepper`.
- `random.choice` is a nondeterministic choice (`:|`) in a method.

Dates are milliseconds since the epoch. Counts are unbounded integers, like
JavaScript numbers in the range the page uses. Colours are 24-bit RGB integers:
`#c6e48b` is `0xc6e48b`.

Two behaviours of the page are worth knowing:

- **Failed push with an empty body.** The page calls `JSON.parse` on the response
  before it looks at the status (`static/js/gitfiti.js:202`). A body that is not
  JSON, such as an empty 500 response, makes the callback throw. The page then
  keeps showing "Processing..."; the generic "Server error." never appears.
  `Session.PushResponse` models this: an `Unparsable` body leaves the state unchanged.
- **Painting after verifying.** Neither `setNewCount` nor `updateElementAndData`
  touches `commitsToPush` or the push button. Painting leaves the staged commits
  and the push button as they were, so a push after painting sends the list from
  the last verify (`Session.PaintKeepsStaging`).

## Model

| member | source | states |
|---|---|---|
| Chart.InitialChart | static/js/gitfiti.js:4-11 | The initial chart has exactly 366 records, all with count 0. Consecutive dates are exactly 86400000 ms apart. The first date is 365 days before the start time and the last date is the start time. |
| Chart.InitialChartUniqueDays | static/js/gitfiti.js:4-11 | In any time zone at a fixed offset from UTC, the 366 initial records fall on 366 different calendar days. |
| Brackets.BracketOf | static/js/gitfiti.js:238-246 | The downward scan stops at the highest bracket whose minimum the count reaches. It finds none exactly when the count is below every minimum. In an ascending table it picks the bracket with the greatest minimum that is at most the count. |
| Brackets.TableBracketOf | static/js/gitfiti.js:14-35 | On the page's table, every count >= 0 has a bracket, given by the step function of the minimums 0/1/5/10/14. Every negative count has no bracket. |
| Brushes.AutoCountIsNextMinimum | static/js/gitfiti.js:222-232 | The `auto` count is defined exactly when some bracket holds the current count, and it is always a bracket minimum. In an ascending table it is the smallest minimum above the count. When the count has reached every minimum, it wraps to bracket 0's minimum. |
| Brushes.TableAutoCount | static/js/gitfiti.js:222-232 | On the page's table, `auto` takes any count >= 0 to the next of 1, 5, 10, 14, and takes 14 and above to 0. A count of 3 becomes 5. |
| Brushes.AutoClicksCycle | static/js/gitfiti.js:222-232 | Repeated `auto` clicks on a cell starting at 0 give 1, 5, 10, 14, 0, 1, ... for any number of clicks. |
| Brushes.AutoClicksAdd | static/js/gitfiti.js:222-232 | Clicking a times and then b times with `auto` is the same as clicking a + b times. |
| Painting.AutoPaintsCycle | static/js/gitfiti.js:218-247 | Painting one day n > 0 times with the `auto` brush, the cell each time carrying the chart's current count for that day (0 when the day has no record), leaves that day reading exactly the count of n `auto` clicks from its starting count |
| Painting.AutoPaintStep | static/js/gitfiti.js:218-247 | One `auto` paint of a day, with the cell carrying that day's current count, leaves the day reading the next bracket's minimum (wrapping from the darkest back to 0), and re-reading the cell afterwards yields that same count |
| Painting.AutoPaintsFromZero | static/js/gitfiti.js:218-247 | Starting from an empty day, n > 0 successive `auto` paints leave it reading the n-th entry of the cycle 1, 5, 10, 14, 0 |
| Brushes.SelectBrush | static/js/gitfiti.js:53-57 | An empty brush index selects `auto`. An index inside the table selects a fixed brush at that bracket's minimum, between 0 and 14. An index outside the table selects nothing. |
| Chart.FindDay | static/js/gitfiti.js:165-167 | `find` returns the first record on the target's calendar day, and returns nothing exactly when no record is on that day. |
| Chart.FindDayFindsFirst | static/js/gitfiti.js:165-167 | Whenever a record is the first one on the target's calendar day, `find` returns that record. |
| Chart.SetNewCount | static/js/gitfiti.js:164-176 | Upsert. If some record shares the target's day, only the first such record gets the new count, and the length and every other record stay the same. Otherwise exactly one record `{date, newCount}` is appended after the unchanged records. |
| Chart.SetThenRead | static/js/gitfiti.js:164-176 | After an upsert, the target's day reads back the new count, and every other calendar day reads the same count as before. |
| Chart.SetNewCountIdempotent | static/js/gitfiti.js:164-176 | Setting a day to the same count twice gives the same chart as setting it once. |
| Chart.SetNewCountKeepsUniqueDays | static/js/gitfiti.js:164-176 | If the chart has at most one record per calendar day, it still does after an upsert. |
| Painting.UpdateElementAndData | static/js/gitfiti.js:218-247 | The handler fills the cell exactly when the brush yields a count and some bracket holds that count. Then the chart is the upsert of that count on the cell's day, and the fill is the colour of the bracket the scan picks. Otherwise the chart is unchanged. |
| Painting.PaintOnPage | static/js/gitfiti.js:218-247 | On the page's table, painting a cell with count >= 0 using `auto` or a fixed brush >= 0 always takes effect. The cell's day then reads the brush value, or the next bracket minimum for `auto`. Every other day is unchanged, and the fill is the colour of the new count's bracket. |
| Painting.PaintBelowEveryBracket | static/js/gitfiti.js:238-246 | When the new count has no bracket, neither the data nor the fill changes. This is the case for a negative fixed brush, or for `auto` on a negative count. |
| Verification.PlaceholderIsDarkestMinimum | static/js/gitfiti.js:118-125 | The count the verify step looks for, 14, is the minimum of the darkest bracket. |
| Verification.PositivesAppend | static/js/gitfiti.js:114-115 | Keeping the positive records of a concatenation is the same as concatenating the kept records of each part, so order is preserved. |
| Verification.PositivesMembers | static/js/gitfiti.js:114-115 | A record is kept exactly when it is in the chart and has a positive count. |
| Verification.PositivesKeepPlaceholder | static/js/gitfiti.js:115-122 | The positive records contain a 14 exactly when the chart does. |
| Verification.ComputeChangesSucceedsIff | static/js/gitfiti.js:113-125 | The verify step succeeds exactly when some record has count exactly 14. A count above 14 does not qualify. |
| Verification.ComputeChangesEmitsPositives | static/js/gitfiti.js:114-131 | There is one commit per positive record, in chart order, with the record's date. Each commit has the record's count, except the first record with count 14, whose commit has 24. Later 14s pass through unchanged. |
| Verification.ComputeChangesTotal | static/js/gitfiti.js:112-130 | The total is the sum of the emitted counts. That equals the sum of the positive counts, plus 10 when the step succeeds. |
| Verification.FirstPlaceholderExists | static/js/gitfiti.js:122-125 | A chart that contains a 14 has a first 14 for the rewrite to hit. |
| Verification.StagedCommits | static/js/gitfiti.js:114-131 | Every emitted commit has a positive count. A successful verify step emits a commit with count 24. |
| Verification.TwoPlaceholdersExample | static/js/gitfiti.js:114-131 | For the counts 14, 14, 3, the verify step emits 24, 14, 3 with total 41 and succeeds. |
| Verification.NoPlaceholderExample | static/js/gitfiti.js:134-146 | For the counts 10, 15, 0, with no 14 among them, the verify step fails. |
| Session.VerifyStages | static/js/gitfiti.js:134-146 | After the verify button, the push button is enabled exactly when the chart contains a 14. On success the staged list is the verify step's output. On failure the staged list is empty and the error message shows. |
| Session.HandlersKeepStaged | static/js/gitfiti.js:134-146 | Starting from the loaded page, every handler keeps this invariant: whenever the push button is enabled, the staged commits are all positive and include one at 24. |
| Session.PaintKeepsStaging | static/js/gitfiti.js:81-89 | Painting changes only the chart. The mouse entering a cell paints only while the mouse button is held, and otherwise changes nothing. |
| Session.PushSendsStaged | static/js/gitfiti.js:181-196 | A push sends something exactly when the button is enabled, and what it sends is the staged list, which includes a commit at 24. The push disables the button, and no response re-enables it. |
| Session.FailedPushShowsText | static/js/gitfiti.js:201-210 | For a non-200 response with a JSON body, the failure text is the body's message when that is non-empty, and "Server error." otherwise. It is never empty. |
| StateToken.RandomStateSeed | index.py:122-130 | A seed has exactly 10 characters, each from `0123456789abdef`. In particular it never contains `c`. |
| StateToken.StateFromSeed | index.py:133-145 | A token is the seed followed by the digest of seed and pepper. Its first `|seed|` characters are the seed. |
| StateToken.VerifyState | index.py:148-157 | A missing (`None`) or empty token is rejected. |
| StateToken.RoundTrip | index.py:160-167 | For any seed of exactly 10 characters, the token issued for it verifies. |
| StateToken.AcceptsExactlyIssued | index.py:148-167 | With a 64-character digest, a token verifies exactly when it was issued for some 10-character seed, and every accepted token is 74 characters long. |
| StateToken.ForgeryRejected | index.py:160-167 | Given an accepted token, a different token with the same first 10 characters is rejected. That includes any change after the first 10 characters and any change of length. |

## Left out

- DOM wiring is not modelled: listeners, `querySelector`, CSS classes and `innerText`, `preventDefault`, the `data-selected` brush marker, and tooltip toggling. The mouse flag is kept only as the `mouseDown` guard on painting.
- The `calendarHeatmap()` builder, SVG rendering and the `fill` attribute are left out, because that library is not part of this model. The fill a paint chooses is returned as a value instead.
- The `XMLHttpRequest` round trip is left out as network I/O. Only the request body (the staged list) and the callback's choice of message are modelled.
- moment.js is left out as a foreign library. Calendar-day comparison is the `dayOf` parameter. A commit carries its date in milliseconds instead of the UTC ISO-8601 string with a `Z` suffix.
- The verify step's success message is modelled as `ReadyToPush(total)` rather than the string `total + ' commits ready to be pushed.'`.
- A brush holder's `data-brush-index` attribute is modelled as already parsed (`Option<int>`). JavaScript's `Number()` conversion of the string is not modelled.
- The datum the heatmap hands to the paint handler comes from the `calendarHeatmap` library, which is not part of this model. `Painting.UpdateElementAndData` takes the cell as an unconstrained input. `Painting.AutoPaintsCycle` assumes the cell carries the chart's current count for its day (0 when the day has no record); only under that assumption do repeated `auto` clicks on the page cycle.
- The push button's state at page load comes from the HTML template, which is not part of this model. `Session.Load` assumes it starts disabled.
- A 200 response whose JSON body is `null` would make the callback throw. The model folds `null` into a body without a message.
- Flask plumbing in `index.py` is left out as web-framework and HTTP code: routes, sessions, redirects, the YAML config, and the GitHub token exchange over `requests`.
- SHA-256 is not specified. It is the parameter `sha`, and a 64-character output is assumed only where a lemma states it. Encoding seed and pepper to UTF-8 bytes before concatenating them is modelled as concatenating the strings.
- `verify_state` does not check that a seed uses the seed alphabet, and neither does the model. A token built from any 10 characters (`StateToken.RoundTrip`) verifies.
- The probability distribution of `random.choice` is not modelled. The seed is any choice from the alphabet.
- StateToken.VerifyState: its own contract states only the rejection of missing and empty tokens. The full accept/reject characterisation is in `StateToken.AcceptsExactlyIssued` and `StateToken.ForgeryRejected`.
