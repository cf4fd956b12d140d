# Loan approval app: a verified model of its decision engine and submission ledger

The application takes loan applications from a web form. It runs them through a
small decision engine and returns a templated message. Each submission is kept
in a flat ledger keyed by lower-cased email, and an applicant may resubmit only
after a seven-day cooldown.

This project models two parts of it in Dafny:

- **The decision engine** (`decision_engine.dfy`, module `DecisionEngine`). It
  has a compliance gate (required fields, minimum credit score, maximum loan
  amount) and the loan-to-income ratio, which is `Infinite` when income is not
  positive. Then comes the five-rule, first-match decision matrix, and the
  selection of decision, error and contact templates with their fallbacks. The
  loaded rules and messages are one immutable `Engine` value. An application is
  a dictionary whose fields may be absent, null or present (`Slot`). Where the
  Python code would raise `KeyError` or `TypeError`, the model returns
  `Failure` with that exception.
- **The submission ledger** (`submissions.dfy`, module `Submissions`). The
  cooldown check is a pure newest-to-oldest scan. The class `Ledger` holds the
  record list. Its `SaveSubmission` overwrites in place or appends, and its
  `UpdateContact` marks the newest matching record. Both are loops proved
  against the specification functions `Saved` and `ContactUpdated`.
- **The form handlers** (`app.dfy`, module `App`). This covers the validation
  order of `/submit` and the check-evaluate-save sequence after it. It also
  covers `/contact`. The main cross-operation result is that a ledger holding at
  most one record per email keeps that property through every `/submit`,
  because the cooldown check runs before the save.

`strings.dfy` gives ASCII `lower()` and `str.replace()`. `wrappers.dfy` gives
`Option` and `Result`.

Times are whole seconds, and every operation takes `now` as a parameter. Whole
elapsed days are `(now - timestamp) / 86400`. For a positive divisor, Dafny's
`/` rounds toward negative infinity, like `timedelta.days`. A ledger file that
does not exist yet is the empty sequence.

Four behaviours of the code are worth knowing:

- Saving on its own never enforces one record per email. When the applicant's
  only record is still in its cooldown, so that no record of theirs has aged,
  saving appends a second record (`UngatedSaveDuplicates`). Emails
  stay unique only because `/submit` saves after a cooldown check that did not
  block (`GatedSaveKeepsEmailsUnique`).
- A required loan amount that is null fails the compliance gate. Formatting
  the `denied_compliance` message then raises, so no decision is returned
  (`NullRequiredLoanRaises`).
- Both template fallbacks are looked up eagerly: `decisions['denied']` and
  `errors['system_error']`. A messages file without them raises even for known
  keys (`FormatMessage`, `GetErrorMessage`). In `/submit` this makes every
  rejection except the cooldown one raise (`RejectionNeedsSystemErrorText`).
- A NaN loan amount passes every check, because each comparison with NaN is
  false. `float("nan")` parses (app.py:119); `nan <= 0` is false (app.py:136);
  `nan > maximum_loan_amount` is false (decision_engine.py:57). With a positive
  income the ratio is then NaN, and every comparison with it is false. Rules 1,
  3 and 4 therefore fail, while rule 2 (decision_engine.py:73) never reads the
  ratio. An applicant with credit ≥ pre_approved_min is `conditional` with a
  bankruptcy and `denied` without one (decision_engine.py:86). An applicant in
  the moderate bracket is always `denied`, because `nan <= 0.5` is false
  (decision_engine.py:82). The model has no NaN (amounts are reals), so
  `HighCreditNeverDenied` does not cover this case. A NaN income fails
  `annual_income > 0` and gives the infinite ratio, which the model does have.

## Model

| member | source | states |
|---|---|---|
| `DecisionEngine.FirstMissing` | decision_engine.py:46-48 | finds the first required field, in list order, that is absent or null; none is found exactly when every required field is present and non-null |
| `DecisionEngine.CheckCompliance` | decision_engine.py:41-60 | the gate passes iff all required fields are present and non-null, the credit score (default 0) is at least the minimum, and the loan amount (default 0) is at most the maximum; a null credit score or loan amount that gets compared raises `TypeError`; a missing-field reason names a required field that is missing |
| `DecisionEngine.RatioOf` | decision_engine.py:30 | the ratio is finite exactly when income is positive, and then ratio × income = loan amount |
| `DecisionEngine.MakeDecision` | decision_engine.py:62-86 | never `denied_compliance`; `pre_approved` iff credit ≥ pre_approved_min, no bankruptcy and ratio ≤ max_ratio; `conditional` iff high credit with bankruptcy or a ratio above max_ratio, or moderate credit with ratio ≤ 0.5; `denied` iff credit is below pre_approved_min and not (credit ≥ conditional_min and ratio ≤ 0.5) |
| `DecisionEngine.FormatMessage` | decision_engine.py:88-103 | succeeds iff the `denied` template exists and the loan amount is not null; the output keeps the given key and takes the key's template, or the `denied` template for an unknown key; no ratio is attached; without a `denied` template it raises `KeyError('denied')`; with one, a null loan amount raises `TypeError` |
| `DecisionEngine.EvaluateApplication` | decision_engine.py:13-39 | on success the message's decision field is the verdict's key, and the rest of the message is exactly what `_format_message` builds for that verdict (its template's title, text and next steps); a ratio is attached iff the verdict is not `denied_compliance`; `denied_compliance` only when the gate failed, any other verdict only when it passed |
| `DecisionEngine.GetErrorMessage` | decision_engine.py:105-107 | a known key gives its text; an unknown key gives the `system_error` text; without `system_error` every key raises `KeyError` |
| `DecisionEngine.GetContactMessage` | decision_engine.py:109-117 | succeeds exactly when the template chosen by the case-insensitive key exists, and a missing template raises `KeyError` for that key; on success the title is the template's, and the message is the template's text with every `{email}` replaced (`ReplaceAll`), so a template without `{email}` is returned unchanged |
| `Strings.ReplaceAll` | decision_engine.py:116 | `str.replace`: a text without the pattern is unchanged, and a text that is exactly the pattern becomes the replacement |
| `Strings.ReplaceAllAtLeftmost` | decision_engine.py:116 | `str.replace` scans left to right: the leftmost occurrence is replaced, the text before it is kept, and the rest is processed the same way |
| `DecisionEngine.ContactMessageFillsEmail` | decision_engine.py:109-117 | a contact template `before + "{email}" + after` with that single placeholder gives the chosen template's title and the message `before + email + after` |
| `DecisionEngine.ComplianceFailureShortCircuits` | decision_engine.py:19-21 | a failed gate gives `denied_compliance` with no ratio, whatever the other fields hold (given a `denied` template and a non-null loan amount) |
| `DecisionEngine.MissingRequiredFieldFailsGate` | decision_engine.py:46-48 | an absent or null required field makes the gate fail with a missing-field reason, whatever else holds |
| `DecisionEngine.LowCreditFailsGate` | decision_engine.py:51-53 | a non-null credit score below the minimum makes the gate fail |
| `DecisionEngine.HighLoanFailsGate` | decision_engine.py:56-58 | a loan amount above the maximum makes the gate fail, given a non-null credit score |
| `DecisionEngine.NullRequiredLoanRaises` | decision_engine.py:94-99 | a required loan amount that is null makes evaluation raise instead of returning `denied_compliance`: `TypeError` when the `denied` template exists |
| `DecisionEngine.EvaluationFollowsMatrix` | decision_engine.py:23-37 | given a `denied` template, once the gate passes on an application whose credit score, loan amount and income are present and whose `has_bankruptcy` is present or null (null counts as false), the verdict is the matrix's verdict on credit, ratio and bankruptcy, and that ratio is attached |
| `DecisionEngine.HighCreditNeverDenied` | decision_engine.py:67-78 | credit ≥ pre_approved_min is never `denied`; every case that is not pre-approved is `conditional` |
| `DecisionEngine.ModerateBracketIgnoresMaxRatio` | decision_engine.py:81-86 | for conditional_min ≤ credit < pre_approved_min, the verdict does not change with max_ratio or bankruptcy, and is `conditional` iff ratio ≤ 0.5 |
| `DecisionEngine.NoIncomeNeverPreApproved` | decision_engine.py:30-33 | given a `denied` template and an application that is complete in the same sense and passes the gate, income ≤ 0 is never pre-approved: it is `conditional` for credit ≥ pre_approved_min and `denied` otherwise |
| `DecisionEngine.WorkedExamples` | decision_engine.py:62-86 | with max_ratio 0.4, conditional_min 620 and 600 < pre_approved_min ≤ 780, credit 780 gives `pre_approved` at ratio 0.2 and `conditional` at ratio 0.8; credit 600 gives `denied` |
| `DecisionEngine.UnknownKeyUsesDeniedTemplate` | decision_engine.py:90-94 | given a `denied` template and a non-null loan amount, an unknown decision key is rendered with the `denied` title and next steps, and the output keeps the unknown key |
| `DecisionEngine.ContactKeyIsCaseInsensitive` | decision_engine.py:111 | the contact key is `yes` exactly for the three-letter spellings of "yes" in any letter case |
| `Submissions.LastMatch` | app.py:34-35 | the newest-to-oldest scan finds the newest record with the same lower-cased email; none is found iff no record matches |
| `Submissions.FirstAgedMatch` | app.py:61-64 | the oldest-to-newest scan finds the first record of the email aged at least 7 whole days; none is found iff there is no such record |
| `Submissions.CheckExistingSubmission` | app.py:28-47 | with no match the answer is (False, 0, None); otherwise the prior record is the newest match; the answer is blocked iff it is younger than 7 whole days; then days_remaining = 7 − days, at least 1, and at most 7 when the record is not in the future; when not blocked, days_remaining is 0 |
| `Submissions.Ledger.SaveSubmission` | app.py:50-73 | the new ledger is `Saved(old, data, now)`: the first aged record of the email is overwritten in place, otherwise the record is appended |
| `Submissions.Ledger.UpdateContact` | app.py:189-193 | the new ledger is `ContactUpdated(old, …)`: the newest record of the email gets `contact_requested = (preference == "yes")` and the contact time |
| `Submissions.LastMatchIsUnique` | app.py:34-35 | the newest matching record is unique, and the scan returns exactly that record |
| `Submissions.DaysSinceMonotone` | app.py:37 | whole elapsed days never decrease as `now` advances |
| `Submissions.NewerRecordsDecide` | app.py:34-35 | when the newer part of the ledger has a match, older records never change the answer |
| `Submissions.CooldownCountsDown` | app.py:37-43 | later checks see the same prior record; once unblocked, an applicant stays unblocked; while blocked, days_remaining strictly falls as whole days pass |
| `Submissions.SaveOverwritesFirstAged` | app.py:61-67 | the first aged matching record is replaced by the new one; the length and every other position are unchanged |
| `Submissions.SaveAppendsOtherwise` | app.py:69-70 | with no aged matching record, the result is the old ledger with the new record appended |
| `Submissions.SaveShape` | app.py:61-70 | the length is unchanged or grows by one, the new record occurs in the result, and when it grows the old ledger is a prefix |
| `Submissions.UngatedSaveDuplicates` | app.py:61-70 | saving while the applicant's only record is still in its cooldown adds a second record for the same email |
| `Submissions.GatedSaveKeepsEmailsUnique` | app.py:108-170 | if emails are unique and a check (at the same time or earlier) did not block, the save keeps emails unique |
| `Submissions.ContactUpdateTouchesOnlyNewest` | app.py:189-193 | length unchanged; no match leaves the ledger unchanged; only the newest match changes, and only in its contact fields |
| `Submissions.ContactUpdateKeepsEmailsUnique` | app.py:189-193 | the contact update keeps at most one record per email |
| `Submissions.ContactFlagIsCaseSensitive` | app.py:191 | preference "Yes" is stored as no contact request, and "yes" as a request |
| `App.ValidateSubmission` | app.py:93-148 | the error returned is from the first failing check, in this order: missing fields, email format, cooldown, number parsing, credit in [300, 850], loan > 0, income > 0; every earlier check passes; a cooldown error carries the check's days_remaining; an accepted form carries its converted values |
| `App.AcceptedIffNoCheckFails` | app.py:93-148 | a form is accepted exactly when none of the seven checks fails |
| `App.AcceptedFormsAreComplete` | app.py:128-159 | an accepted form gives a complete application with credit in [300, 850] and a positive loan and income |
| `App.SubmitApplication` | app.py:82-174 | a rejected or crashed submission leaves the ledger unchanged; a rejection other than the cooldown one carries the error text looked up by key, or crashes with the lookup's `KeyError`; a cooldown rejection looks up no text; a failed evaluation crashes; a decided one saves its record via `Saved`; a ledger with unique emails keeps them unique |
| `App.RejectionNeedsSystemErrorText` | app.py:94-147 | without a `system_error` text, every rejection except the cooldown one raises `KeyError('system_error')` |
| `App.ContactPreference` | app.py:177-201 | updates the ledger via `ContactUpdated`, returns the contact message, and keeps emails unique |
| `App.ContactFlagAndMessageDisagree` | app.py:189-200 | "YES" selects the `yes` confirmation text but stores `contact_requested` as false |

## Left out

- Flask routing, template rendering, `jsonify` and HTTP status codes. These are web plumbing. The `/api/evaluate` and `/api/submissions` routes are not modelled; the first follows the same check-evaluate-save sequence as `/submit`.
- `bleach.clean` sanitization, a foreign library, and the `strip()` around it. Form fields arrive already stripped and sanitized.
- The email regular expression. `validate_email` is a function parameter of the validation cascade.
- Reading and writing the JSON files, and the `FileNotFoundError` and catch-all handlers. The ledger is an in-memory sequence, and a missing file is the empty sequence.
- `datetime.now()` and ISO-8601 parsing and formatting. Times are integers (seconds), and each operation takes one `now`. The source calls `datetime.now()` again on each iteration of the save loop.
- Floating point. Amounts are reals, `round(ratio, 2)` is not applied, and NaN and infinite inputs are not modelled. The NaN behaviour is described above.
- `App.SubmitApplication`: the cooldown message is composed from the days remaining, with "day" or "days". It is represented by the `AlreadySubmitted(days)` error, not by its text.
- `DecisionEngine.FormatMessage`: the currency text (`:,.2f` with thousands separators) substituted for `${loan_amount}` is kept abstract as `Filled(template, amount)`.
- `float()` and `int()` string parsing. The form's numeric fields arrive parsed, with `None` for a value the parser rejects.
- `DecisionEngine.__init__` loading `rules.json` and `messages.json`. The loaded data is the `Engine` value. A rules file with keys missing, and required-field names outside the seven keys an application carries, are not modelled. Neither is a messages file without its `decisions`, `errors` or `contact_preference` section, or with a template that lacks `title`, `message` or `next_steps`. The code raises `KeyError` for these (decision_engine.py:90, 95, 96, 100, 107, 112, 115). The `Messages`, `Template` and `ContactTemplate` datatypes always have these parts.
- `Strings.Lower` implements `str.lower()` for ASCII letters only. Unicode case mapping is not modelled.
- Python's in-place mutation of a record dict shared by reference. The model replaces the record at its index, which holds the same contents.
- `has_bankruptcy` values other than booleans (Python truthiness of arbitrary JSON values). Null counts as false.
- The race between the cooldown check and the save under concurrent requests. Concurrency is out of scope.
