# Smartsheet ↔ Bind ERP invoice sync — a Dafny model of its decision logic

The service (`main.py`) downloads invoices from the Bind ERP API for every
account listed in a Smartsheet configuration sheet. It can also push those
invoices into each account's destination sheet: rows are matched by UUID,
then by a composite signature, and either updated or inserted. A scheduler
reruns each account when its interval has elapsed.

This project models the logic between the network calls:

- **Account selection** (`Accounts`): the `ID` filter, rows without a token,
  base-URL normalisation, the pushes and the per-account summary.
- **Bind request URL** (`Bind`): `build_url`.
- **Identity helpers** (`Text`, `Dates`, `Numbers`, `Identity`): `_slug`,
  `_iso`, `_coerce_total` (exact decimal cents, round half to even) and
  `_make_signature`.
- **Reconciliation engine** (`Rules`, `Sheets`, `Reconcile`): rule
  resolution with its default, the slug-keyed column index, the two indexes
  of the destination rows, the cells of each invoice, and the split into
  inserts and updates.
- **Writes and log truncation** (`Writer`).
- **Scheduler** (`Scheduler`): reading the interval and last-run cells, the
  due-ness rule, and the stamp a successful job leaves. Every scheduler
  member takes a `StampReading` of the last-run stamp. `AsWritten` reads it with
  `_parse_iso` exactly as the program does; `Corrected` reads its `Z` as
  UTC (see "## Findings").

Some shared pieces:

- Python values from sheet cells and JSON are `Values.Value`: `None`, text,
  or a number kept as its `str()` text. Python truthiness, `or` and `str()`
  are written out.
- A Python exception that escapes (`.strip()` on a number, `.items()` on a
  non-dictionary, `_slug` on a non-string) is a `None`/`Raised` result, at
  the point where the source raises.
- Dictionaries whose iteration order matters (JSON objects, rules) are
  sequences of pairs with distinct keys (`Dicts`).
- Timestamps are whole seconds, and the current time is a parameter.

Each loop of the source is a method proved against a function: the
selection loop, the row scan, the index loop, the cell loop, the invoice
loop, the push loop, and the scheduler's cell and row loops. The lemmas then
state the source's promises about those functions.

## Model

| member | source | states |
|---|---|---|
| Text.StripShape | main.py:123 | `strip()` returns one contiguous slice of its input, and that slice has no whitespace at either end |
| Text.StripRemovesSpace | main.py:123 | everything `strip()` removes, before or after the slice, is whitespace; with StripShape this pins the result down exactly |
| Text.StripIdempotent | main.py:123 | stripping a stripped string changes nothing |
| Text.StripLower | main.py:123-126 | lower-casing before or after stripping gives the same text |
| Text.StripNoop | main.py:123 | text that begins and ends with a non-space character is left as it is by `strip()` |
| Text.Slug | main.py:85-86 | a slug is ASCII only and has no space and no upper-case letter |
| Text.SlugAppend | main.py:85-86 | `_slug` works character by character: the slug of a concatenation is the concatenation of the slugs |
| Text.SlugIdempotent | main.py:85-86 | the slug of a slug is itself |
| Text.SlugIgnoresSpace | main.py:85-86 | inserting a space into a title does not change its slug |
| Text.SlugIgnoresCase | main.py:85-86 | lower- or upper-casing a title does not change its slug, so titles that differ only in case or spacing find the same column |
| Text.SlugIgnoresLower | main.py:85-86 | lower-casing a title does not change its slug |
| Text.SlugIgnoresUpper | main.py:85-86 | upper-casing a title does not change its slug |
| Text.FoldLower | main.py:86 | the NFD/ASCII fold commutes with lower-casing, one character at a time |
| Text.FoldUpper | main.py:86 | the NFD/ASCII fold commutes with upper-casing, one character at a time |
| Dates.ParseFormatDate | main.py:93 | `fromisoformat` of `isoformat(d)` gives back every valid date `d` |
| Dates.FormatParseDate | main.py:93 | text that parses as a date is already in the form `isoformat` writes |
| Dates.IsoCases | main.py:89-95 | `_iso` gives None exactly for the empty string; otherwise the first ten characters when they are a valid date, else the input unchanged |
| Dates.IsoIdempotent | main.py:89-95 | applying `_iso` to its own result changes nothing |
| Dates.ParseFormatDateTime | main.py:107 | a formatted date-time without offset parses back to the same clock reading |
| Dates.ParseFormatDateTimeUtc | main.py:107 | a formatted date-time followed by `+00:00` parses back with offset 0 |
| Dates.DeleteZ | main.py:107 | deleting every `Z` from a stamp leaves the naive date-time it was written from |
| Dates.ZAsUtc | main.py:107 | replacing the stamp's `Z` by `+00:00` gives that date-time with a UTC offset |
| Dates.StampReadBackSixHoursLate | main.py:103-114 | as written, the stamp `_actualizar_timestamps` stores for UTC time t reads back as t plus six hours |
| Dates.StampReadBack | main.py:394-397 | with `Z` read as UTC, the stored stamp reads back as exactly the instant it records |
| Numbers.RoundCentsNearest | main.py:195 | `round(x, 2)` in cents is within half a cent of x, and a tie goes to the even cent |
| Numbers.RoundCentsExact | main.py:195 | a decimal with at most two fraction digits is kept exactly by `round(x, 2)` |
| Numbers.Cents | main.py:195 | a signed decimal's cents are within half a cent of its exact value |
| Numbers.CentsTieEven | main.py:195 | for either sign, an amount exactly halfway between two cents is rounded to the even one |
| Numbers.CoerceTotalSpec | main.py:193-197 | a missing or non-numeric total is 0; a numeric total is within half a cent of its exact value, and a tie goes to the even number of cents |
| Identity.MakeSignature | main.py:200-206 | the signature raises exactly when the RFC is truthy but not text |
| Identity.SignatureComponents | main.py:200-206 | the date is "" when missing, canonical when its first ten characters parse, else unchanged; the tax id is the trimmed, upper-cased RFC ("" when missing); a missing or non-numeric total is 0; the CFDI use is the trimmed text ("" when missing) |
| Identity.DateComponent | main.py:202 | the signature date is "" for a missing or empty date, the canonical date when the first ten characters parse, and the text unchanged otherwise |
| Identity.SignatureTotalNearest | main.py:204 | the signature's total is within half a cent of the invoice's exact amount |
| Identity.SignatureIgnoresTaxIdCase | main.py:203 | two invoices whose RFCs differ only in case or surrounding whitespace get the same signature |
| Identity.TaxIdIgnoresCase | main.py:203 | an RFC and its lower-cased spelling give the same tax id |
| Identity.TaxIdIgnoresSpace | main.py:203 | an RFC and its trimmed text give the same tax id |
| Dicts.DictOfLookup | main.py:277 | a dictionary built from pairs has each key once, and a key finds the value of its last pair (JSON duplicate keys) |
| Dicts.DictOfDistinct | main.py:269-275 | pairs whose keys are distinct already are their dictionary, in the same order |
| Dicts.AssignLookup | main.py:277 | after `d[k] = v`, `k` finds `v` and every other key finds what it found before |
| Dicts.AssignDistinct | main.py:277 | building the decoded object with `d[k] = v` never duplicates a key |
| Dicts.IndexedKeys | main.py:305-307 | a key is in a dictionary filled by assignments exactly when some assignment used it |
| Dicts.IndexedLastWins | main.py:305-307 | a key holds the value of the last assignment to it |
| Rules.ResolveRulesCases | main.py:276-280 | the five default rules are used when the cell is empty, not text, does not decode, is not an object, has no `map` or has an empty `map`; otherwise the rules are that `map` |
| Rules.ZeroExponentMapIsDefault | main.py:277 | a `map` written `0e5` decodes to `0.0`, which is falsy, so the five default rules are used |
| Rules.RuleList | main.py:282 | the rule list has the dictionary's keys in order, and each key's target is its text |
| Rules.TextTargets | main.py:282 | the targets are all available exactly when every one is text (`_slug` raises otherwise), and they are then those texts in order |
| Rules.DefaultRuleList | main.py:269-275 | the default rules are exactly the five (field, column title) pairs, in the source's order |
| Reconcile.PushDefaultRules | main.py:276-280 | without usable rules in the account's cell, the push maps exactly the five default fields |
| Sheets.ColumnIndexKeys | main.py:266 | a slug is in the column map exactly when some column's title has that slug |
| Sheets.ColumnIndexLookup | main.py:266 | a slug maps to the id of the last column with that slug |
| Sheets.ColumnIndexIds | main.py:266 | every id in the column map is the id of a column of the sheet |
| Reconcile.RuleColumnCases | main.py:284-290 | an identity field finds a column exactly when some column's slug equals the slug of its rule's target; a field without a rule looks up `""` |
| Reconcile.ScanRow | main.py:297-304 | the cell loop leaves the last truthy UUID cell, stripped, and for each signature column the display value (or value) of its last cell |
| Reconcile.IndexDestination | main.py:292-307 | the row loop fills the two indexes as the index function says, or raises as it says |
| Reconcile.IndexDefined | main.py:307 | indexing completes exactly when every row's signature can be computed |
| Reconcile.IndexSpec | main.py:296-307 | the two indexes are maps filled row by row: the UUID entries of rows that have one, and the signature entry of every row |
| Reconcile.IndexUuids | main.py:300-306 | a UUID is indexed exactly when some row's trimmed UUID is that non-empty text; `""` never is; it maps to the last such row |
| Reconcile.IndexSignatures | main.py:307 | a signature is indexed exactly when some row has it, and maps to the last such row, later rows overwriting earlier ones |
| Reconcile.EveryRowSigned | main.py:307 | every destination row enters the signature index |
| Reconcile.UuidIndexed | main.py:305-306 | the row that last carries a UUID is the one the UUID index returns for it |
| Reconcile.SigIndexed | main.py:307 | the row that last carries a signature is the one the signature index returns for it |
| Reconcile.UuidUnmatched | main.py:305-306 | a UUID that no row carries is not in the UUID index |
| Reconcile.SigUnmatched | main.py:307 | a signature that no row has is not in the signature index |
| Reconcile.BuildCells | main.py:322-331 | the rule loop appends exactly the cells the rules contribute, in rule order |
| Reconcile.RuleCellSpec | main.py:322-331 | a rule contributes a cell exactly when its target's slug names a column and the invoice has a non-null value; the cell goes to that column, and a key starting with "date" in any case has its value put through `_iso` |
| Reconcile.CellsSpec | main.py:322-334 | an invoice's cells are exactly the rules' contributions, at most one per rule, and there are none exactly when no rule contributes |
| Reconcile.IdentityPrecedence | main.py:336-340 | an invoice whose UUID is indexed updates that UUID's row, whatever row its signature would match |
| Reconcile.SignatureFallback | main.py:339-340 | an invoice whose UUID no row carries updates the row its signature matches |
| Reconcile.NewInvoiceInserted | main.py:342-345 | an invoice that matches no row by UUID or by signature is inserted |
| Reconcile.SplitInvoices | main.py:309-345 | the invoice loop builds the two batches as the split function says, or raises as it says |
| Reconcile.SplitDefined | main.py:320 | the split completes exactly when every invoice's signature can be computed |
| Reconcile.PartitionCount | main.py:333-345 | the inserts and updates together number exactly the invoices that have cells |
| Reconcile.SplitRoutes | main.py:342-345 | every routed invoice is in its batch, and every batch entry comes from an invoice routed there |
| Reconcile.SplitPrefix | main.py:312-345 | the batches of the first k invoices are prefixes of the final batches, so fetch order is kept |
| Reconcile.UpdatesTargetRows | main.py:336-343 | every update names a row of the destination sheet |
| Reconcile.TargetIsRow | main.py:336-340 | the row an invoice's UUID or signature finds is a row of the destination sheet |
| Reconcile.PushToSheet | main.py:259-345 | the push opens the sheet, resolves the rules, indexes the rows and splits the invoices as the push function says |
| Reconcile.PushPlanned | main.py:259-345 | a completed push updates only rows of its sheet and places each invoice that has cells in exactly one batch |
| Writer.Writes | main.py:347-356 | a POST of the inserts is issued exactly when there are inserts, and a PUT of the updates exactly when there are updates; nothing else is sent, and a POST comes before the PUT |
| Writer.ShortText | main.py:362-364 | text within the limit is kept; longer text is cut at the limit and followed by " …" |
| Bind.CleanFilter | main.py:123-127 | the cleaned filter always starts with `$filter=`, in any case |
| Bind.Unquestion | main.py:124-125 | exactly one leading `?` is removed, and only when present |
| Bind.Prefixed | main.py:126-127 | `$filter=` is put in front only when the text does not already start with it in any case |
| Bind.CleanFilterIdempotent | main.py:123-127 | cleaning a cleaned filter changes nothing |
| Bind.BuildUrlShape | main.py:120-129 | an absent or empty filter leaves the base unchanged; otherwise the URL is the base, then `&` when the base has a `?` and `?` when it has none, then the cleaned filter |
| Accounts.SelectAccounts | main.py:215-238 | the selection loop returns the selected accounts in row order, or raises where the selection function raises |
| Accounts.SelectionSpec | main.py:215-238 | the selection raises exactly when some row raises; otherwise it holds exactly the accounts of the selected rows |
| Accounts.SelectedRow | main.py:216-237 | a selected row passed the `ID` filter and has a truthy token; its URL is the normalised configured URL or the default; its filter is the trimmed text; its name is the client or `ID-<id>`; its sheet and rules are the row's |
| Accounts.UnselectedRows | main.py:216-226 | a row whose `ID` differs from a non-empty filter is skipped, and a row without a token is never selected |
| Accounts.RaisingRows | main.py:216-228 | a row that passes the filter raises exactly when its filter is a truthy non-text, or when it has a token and its URL is a truthy non-text |
| Accounts.EmptyIdSelectsAll | main.py:216 | an empty `ID` filter selects the same accounts as no filter |
| Accounts.SelectedHaveTokens | main.py:224-226 | every selected account has a token |
| Accounts.FixSuffixSpec | main.py:228-229 | the suffix fix changes letter case only, makes a URL ending in `/invoices` in any case end in `/Invoices`, and is idempotent |
| Accounts.NormalizeKeepsApiUrls | main.py:230-231 | a URL that already has `/api/` only gets its suffix spelling fixed |
| Accounts.FixSuffixFixed | main.py:228-229 | a URL already ending in `/Invoices` is left as it is |
| Accounts.FixSuffixCase | main.py:228-229 | the suffix fix changes only letter case |
| Accounts.FixSuffixEnds | main.py:228-229 | a URL ending in `/invoices` in any case ends in `/Invoices` after the fix |
| Accounts.ApiEndpointIsNormal | main.py:228-231 | the `/api/Invoices` endpoint of any host is left unchanged by normalisation |
| Accounts.DefaultUrlIsNormal | main.py:220 | the default endpoint is left unchanged by normalisation |
| Accounts.SummaryOf | main.py:253 | a download is reported as its invoice count, and a failed download as a failure |
| Accounts.SummariesSpec | main.py:253 | every selected account's name is reported, and a name reports the outcome of the last account with that name |
| Accounts.FailureIsolation | main.py:240-253 | an account whose name no other account uses is reported from its own download alone, whatever the others give |
| Accounts.RunPushes | main.py:244-251 | the push loop performs the pushes the push function lists, stopping after one that raises |
| Accounts.PushesSpec | main.py:244-251 | there is at most one push per account, and only the last push can be one that raised |
| Accounts.PushesComplete | main.py:244-251 | when no push raises, every account with a download and a destination sheet is pushed, in order, with its own invoices and rules |
| Accounts.SyncSpec | main.py:209-253 | a run raises out of the selection loop, before any download is gathered or summarised and before any push, exactly when the selection raises; without push mode no push raises; a completed run reports every selected account and pushes each one with a download and a sheet |
| Scheduler.ScheduleColumnsSpec | main.py:416-419 | each scheduling column is found exactly when some column's title has its slug, and is then a column of the sheet |
| Scheduler.ReadSchedule | main.py:428-435 | the cell loop yields the interval and the last run that IntervalOf and LastRunOf define, for either reading of the stamp |
| Scheduler.IntervalUnset | main.py:424-433 | without an interval cell that has a value, the interval is 0 |
| Scheduler.IntervalFromLast | main.py:429-433 | the interval is `int()` of the last interval cell with a value, or 0 when `int()` raises |
| Scheduler.LastRunUnset | main.py:425-435 | without a cell in the last-run column there is no last run |
| Scheduler.LastRunFromLast | main.py:434-435 | the last run is the stamp reading of the last cell in the last-run column (value, else display): `_parse_iso` as written for `AsWritten` |
| Scheduler.DecideSpec | main.py:437-442 | a row is due exactly when its interval is positive and it has no readable last run or `interval` minutes have passed since it; a row with interval ≤ 0 is idle; a due row stays due later |
| Scheduler.RowJob | main.py:422-445 | a row's job runs for that row, with the display text of its first cell as the `ID` filter; with `AsWritten` the last run is read by `_parse_iso` as the program reads it |
| Scheduler.RowJobCases | main.py:424-442 | no interval column or a non-positive or unparsable interval never runs; a positive interval without a readable last run always runs; due stays due |
| Scheduler.CheckRow | main.py:421-442 | one row's reading and decision give that row's job, under the same stamp reading (`AsWritten` is main.py itself) |
| Scheduler.CheckRows | main.py:421-442 | the row loop collects exactly the jobs of the rows that are due when the loop reaches them (row i at clock reading i), in row order, under the given stamp reading (`AsWritten` is main.py itself) |
| Scheduler.Tick | main.py:415-442 | a round finds the scheduling columns by slug and runs the row loop over the configuration sheet, with one clock reading per row as main.py:440 takes it; `Tick(AsWritten, …)` is the program's round and `Tick(Corrected, …)` the intended one |
| Scheduler.DueJobsSpec | main.py:421-445 | a round runs a job for each row due at its own clock reading and for no other |
| Scheduler.LaterClockRunsMore | main.py:440 | since the clock only moves forward while earlier rows' jobs run, a round runs every job that a round decided entirely at its starting instant would run |
| Scheduler.JobFilterAll | main.py:422 | a job whose row has no cells, or an empty or missing first display value, runs for every account |
| Scheduler.SetColumn | main.py:399-406 | `update_rows` replaces the value of the named column's cells and nothing else |
| Scheduler.IntervalKept | main.py:399-406 | writing the last-run column leaves the interval as it was |
| Scheduler.LastRunStamped | main.py:399-406 | after the stamp is written, the last run is the stamp's reading, under either reading |
| Scheduler.FailedJobRetried | main.py:444-448 | a job that raises leaves its row untouched, so the row is due again in every later round |
| Scheduler.StampedJobDue | main.py:443-446 | with `Z` read as UTC, after a successful job finished at UTC time t the row runs again exactly when `interval` minutes have passed since t |
| Scheduler.StampedJobDueAsWritten | main.py:103-114 | through the program's own row reading (`AsWritten`), after a successful job finished at UTC time t the row runs again exactly when its interval plus six hours have passed since t |

## Left out

- HTTP, not modelled:
  - `bind_get_all` with its pagination, each account's download being a parameter `fetch`;
  - `_smartsheet_call` and its logging;
  - the Smartsheet SDK reads (`sheet_to_json`, `get_sheet`), the configuration being a parameter and a destination sheet one of `sheets`.
- Concurrency and presentation, not modelled: `asyncio.gather` and task creation (each download's outcome is given), the FastAPI endpoints, the `asyncio.sleep(60)` loop, environment and logging setup.
- Logging is not modelled, and neither is the `cliente` label the scheduler computes only for it (main.py:423).
- `json.loads`: the parser is a parameter, returning `None` where it raises. `json.dumps`: `ShortText` takes the dumped text.
- `Writer.Writes` names the two calls. It does not model their URLs or headers, nor the response handling.
- The wall clock and `_now_iso`: the clock readings are parameters (one per row in a scheduler round), and `AfterJob` takes the finishing time.
- Time zones:
  - America/Mexico_City is a fixed UTC−6, with no daylight saving rule;
  - microseconds are not modelled;
  - `fromisoformat` is limited to `YYYY-MM-DD`, `YYYY-MM-DD?HH:MM:SS` and the latter with `+HH:MM`/`-HH:MM`.
- The "Siguiente ejecucion" value `_actualizar_timestamps` writes: nothing in the source reads it back.
- Minutes: the source compares float minutes, `(now - last) / 60 >= interval`. The model compares whole seconds, `now - last >= 60 * interval`, which is the same test on exact values.
- Numbers.CoerceTotal: `float()` is modelled for plain decimal text only. Exponents, `inf`/`nan` and underscores count as non-numeric (0), and binary floating point is replaced by exact decimals rounded half to even.
- Numbers.IntOrZero: `int()` on text accepts surrounding whitespace, a sign and digits; underscores and non-ASCII digits are not modelled. A numeric cell is read from its `str()` text without an exponent, so a float of 1e16 or more, whose `str()` is in exponent form such as `1e+16`, counts as 0, where `int()` gives its integer value.
- IntervalFromLast: for the same reason, an interval cell holding a float of 1e16 or more reads as 0, and the row is idle, where the source runs it. The exact integer of such a binary float is not modelled.
- ResolveRulesCases: a JSON number in the `map` member is falsy exactly when its mantissa has no non-zero digit. A number that underflows to `0.0`, such as `1e-400`, still counts as truthy.
- Text.Slug:
  - the NFD/ASCII fold is modelled for ASCII and Latin-1 letters only, and other characters are dropped;
  - `lower`/`upper` cover ASCII and Latin-1 only, and one character always maps to one character: `Text.UpperChar` keeps 'ß', where Python's `upper()` gives "SS".
- AfterJob: a `Synced` job is always stamped. If `update_rows` itself raises, for example on a transport error (main.py:406), main.py:447 catches the exception and the row keeps its old stamp, so it runs again next round; this is not modelled. `update_rows` (main.py:399-406) names both the last-run and the "Siguiente ejecucion" column. A sheet without the last-run column is modelled as leaving no stamp. A sheet that has the last-run column but no "Siguiente ejecucion" column is modelled as stamped, although the source then sends a cell with `columnId` None. The SDK's behaviour for a missing column id is not modelled.
- Values.Value: JSON booleans, lists and objects in a Bind field are not representable. They are written as cells at main.py:325-331, and a checkbox interval gives `int(True) == 1` at main.py:431; neither is modelled.
- Push: the write step can raise. Possible causes are an httpx transport error, the 30-second timeout (main.py:377-378), or `resp.json()`/`js.get` failing on a 2xx reply (main.py:381-382). The exception would escape `_push_to_sheet`. The model's `Planned` push never raises, and `Writer.Writes` describes the calls without a failure outcome.
- Pushes: every push of a run reconciles against its destination sheet as `sheets` gives it, which is the sheet as it was before the run. The source calls `get_sheet` again for each push (main.py:261), after the earlier pushes' writes have been awaited. So when two accounts share a destination sheet, a later push in the source sees the earlier push's inserts and updates. For example, it turns an invoice with the same UUID into an update, where the model inserts it a second time.
- Pushes: for the same reason as Push, a push loop can stop after a `Planned` push whose write raised (main.py:244-251). In a scheduled run that exception is caught at main.py:447, so the row is not stamped. Neither is modelled.
- Tick: `_job_runner` has no `try` around main.py:415-423 or line 440. A failing `get_sheet` ends the scheduler task for good. `Tick` models one round that always completes, and the endless loop with its `asyncio.sleep(60)` is not modelled.

## Findings

| source | as written | input that shows it | evidently intended | confidence | as-written member | corrected member |
|---|---|---|---|---|---|---|
| main.py:107-109 | `_parse_iso` deletes every `Z` and then reads the naive date-time as Mexico City time. `_actualizar_timestamps` (main.py:394-397) writes UTC time with a `Z` suffix | the stamp `2026-01-01T12:00:00Z`, written at 12:00 UTC, reads back as 12:00 in Mexico City, which is 18:00 UTC. An account with a 60-minute interval then waits seven hours | `Z` read as UTC (`+00:00`), so that a stamp reads back as the instant it records. The scheduler is modelled with both readings: `Scheduler.StampReading.AsWritten` is the program, `Corrected` the intended one | high for a text last-run column; not executed | Dates.StampReadBackSixHoursLate, Scheduler.StampedJobDueAsWritten | Dates.StampReadBack, Scheduler.StampedJobDue |
