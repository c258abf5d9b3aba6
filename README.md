# Ghar-Doc vital-sign pipeline in Dafny

Ghar-Doc is a home health monitor. A wearable device posts vital signs
(body temperature, pulse, heart rate, SpO2, battery level) to a Flask
server. The server validates the reading, stores it, raises threshold
alerts and aggregates readings into statistics, a health summary and a
CSV export. The repository carries two diverging copies of the server,
`Backend/` and `backend/`. This project models the core of both:

- `wrappers.dfy`, `text.dfy`: Option/Result and the handful of Python
  string operations the core relies on (`strip`, `lower`, `replace`,
  `isdigit`, `split`, `join`, `str(int)`), over ASCII.
- `vitals.dfy`: a raw payload field as `Absent | Null | Malformed | Num`,
  the request payload, and the threshold record with the defaults of
  `Backend/config.py`.
- `validator.dfy`: `MedicalDataValidator` (range checks, required and
  optional fields, the error map).
- `records.dfy`: the stored reading and alert rows, the NOT NULL
  columns, the blood-pressure text and `Alert.acknowledge`.
- `storage.dfy`: the database session as a class over two append-only
  tables with add, flush, commit and rollback.
- `alert_engine.dfy`: `HealthAlertManager.check_and_create_alerts`.
- `statistics.dfy`: `MedicalData.get_statistics` and `get_latest_by_user`.
- `summary.dfy`: `get_bmi_category` and `get_health_summary`.
- `export.dfy`: `DataExporter.to_csv`.
- `ingest_api.dfy`: the single-reading and batch endpoints of
  `Backend/app.py`, and the `days` clamp of the statistics endpoint.
- `ingest_device.dfy`: the finger-detection endpoint and the truncating
  batch upload of `backend/app.py`.
- `accounts.dfy`: the account validators, registration, login and profile
  update of `backend/auth.py`, over a class holding the user and profile
  tables.

The clock (`now`), the ISO-8601 parser, the password hash and the password
check, and the renderers for dates, times and floats are parameters.
Temperatures are unit-agnostic `real`s. Averages are exact `real`s.

## Model

| member | source | states |
|---|---|---|
| Validator.Truncate | backend/utils.py:31-43 | `int()` on a number truncates toward zero: the result is within one of the input, on the side of zero |
| Validator.CheckTemperature | backend/utils.py:17-29 | no issue exactly when the value is a number within [min, max], inclusive; an out-of-range number reports its own value and the bounds |
| Validator.CheckTruncated | backend/utils.py:31-57 | the rule the pulse and heart-rate checks share: no issue exactly when the `int()`-truncated value is within [min, max]; None and a non-number give the check's missing and format messages |
| Validator.CheckPulse | backend/utils.py:31-43 | no issue exactly when the truncated value is within [min, max]; None gives "Pulse rate is missing", a non-number "Invalid pulse format" |
| Validator.CheckHeartRate | backend/utils.py:45-57 | as for pulse, with the heart-rate bounds and messages ("Heart rate is missing", "Invalid heart rate format") |
| Validator.CheckSpo2 | backend/utils.py:59-71 | None is accepted; otherwise no issue exactly when the number lies within [min, max] |
| Validator.Validate | backend/utils.py:73-135 | a field key is in the error map exactly when that field's check fails, with that check's message; the reading is valid iff the map is empty iff no check fails |
| Validator.MissingRequiredField | backend/utils.py:81-114 | a missing temperature, pulse or heart rate gives its "... is required" error under its own key, and the reading is invalid |
| Validator.RangeRule | backend/utils.py:81-124 | for a numeric field, an error under its key iff the value (truncated for pulse and heart rate) is strictly outside the bounds |
| Validator.OptionalFields | backend/utils.py:117-133 | absent or None SpO2 and battery never give an error; a battery outside 0-100 always gives "Battery level must be 0-100%" |
| Validator.ValidIsNumeric | backend/utils.py:73-135 | a valid reading has numeric temperature, pulse and heart rate, a temperature within bounds, and no malformed SpO2 or battery |
| Validator.ValidateWithConfigDict | backend/utils.py:80-124 | as written, with Flask's config dict as the threshold argument: it raises exactly when any of temperature, pulse, heart rate or SpO2 is present |
| Validator.ConfigDictNeverValidates | backend/utils.py:80-124 | as written, no payload is ever judged valid |
| Validator.ConfigDictRejectsHealthyReading | Backend/app.py:465 | a healthy in-range reading is valid under the threshold record but raises as the endpoint calls the validator |
| Vitals.DefaultsAreConsistent | Backend/config.py:47-66 | every default alert bound lies inside the corresponding validation range; the batch cap is 100 |
| Records.BloodPressureText | Backend/models.py:171-172 | blood pressure is present exactly when systolic is present and non-zero |
| Records.BloodPressureRoundTrip | Backend/models.py:171-172 | the "s/d" text splits at '/' into two parts that parse back to s and d |
| Records.Acknowledged | Backend/models.py:278-282 | after acknowledge the alert is acknowledged at `now`, and no other field changes |
| Records.AcknowledgeTwice | Backend/models.py:278-282 | a second acknowledge overwrites the time of the first, which is lost |
| Storage.Store.Add | Backend/app.py:631-632 | add and flush: the row is appended iff the session is healthy and the row has no None in a NOT NULL column; otherwise the pending rows are dropped and the session is failed |
| Storage.Store.AddAll | backend/app.py:472-475 | several rows flushed together: all are appended, or, if one breaks a NOT NULL column, none and the session is failed |
| Storage.Store.AddAlert | backend/utils.py:162-163 | an alert row is appended and nothing else changes |
| Storage.Store.Commit | Backend/app.py:647 | a healthy session commits every pending row; a failed one raises and changes nothing |
| Storage.Store.BackToSaved | Backend/app.py:643-645 | a failed flush: the tables go back to the last commit and the session is failed |
| Storage.Store.Rollback | Backend/app.py:667-668 | the tables go back to the last commit and the session is usable again |
| Storage.Store.Acknowledge | Backend/app.py:893-917 | not found (404) iff the alert id does not exist; refused (403) iff the session names a user other than the alert's owner; otherwise exactly that alert is acknowledged at `now`; the reading table is unchanged |
| AlertEngine.TemperatureAlerts | backend/utils.py:150-179 | at most one temperature alert, of the temperature group, fitting the reading (its user, reading id, value and threshold) |
| AlertEngine.PulseAlerts | backend/utils.py:181-208 | at most one pulse alert, fitting the reading |
| AlertEngine.HeartRateAlerts | backend/utils.py:211-223 | at most one heart-rate alert, fitting the reading |
| AlertEngine.Spo2Alerts | backend/utils.py:226-238 | at most one SpO2 alert, fitting the reading |
| AlertEngine.BatteryAlerts | backend/utils.py:241-252 | at most one battery alert, fitting the reading |
| AlertEngine.CheckFor | backend/utils.py:150-252 | the alerts of check g are at most one alert, of group g, fitting the reading |
| AlertEngine.AlertsFor | backend/utils.py:142-257 | at most five alerts, in the order temperature, pulse, heart rate, SpO2, battery, each carrying the reading's user, reading id, measured value and crossed threshold |
| AlertEngine.OwnCheckDecides | backend/utils.py:150-252 | whether an alert kind is raised depends only on that kind's own check |
| AlertEngine.TemperatureRule | backend/utils.py:150-179 | high iff the temperature is truthy and at least the high bound; low iff truthy, below the high bound and at most the low bound; critical iff at least 102, otherwise warning; a low-temperature alert is always a warning |
| AlertEngine.PulseRule | backend/utils.py:181-223 | pulse high and low by the same exclusive rule; heart-rate high iff truthy and at least its bound; all three are warnings |
| AlertEngine.Spo2AndBatteryRule | backend/utils.py:226-252 | SpO2 low iff truthy and strictly below the bound, always critical; battery low iff truthy and below 15, severity info, threshold 15.0 |
| AlertEngine.DefaultsExample | backend/utils.py:142-257 | with the default thresholds, a feverish, fast-pulsed, low-oxygen reading raises exactly temperature-high (warning), pulse-high (warning) and SpO2-low (critical) |
| AlertEngine.AlertsWithConfigDict | backend/utils.py:150-234 | as written, with Flask's config dict as the threshold argument: it raises exactly when temperature, pulse, heart rate or SpO2 is truthy |
| AlertEngine.ConfigDictAgreesOtherwise | backend/utils.py:150-252 | a reading with none of those vitals truthy gets the same alerts as under the threshold record, at most a battery alert |
| AlertEngine.RunCheck | backend/utils.py:150-252 | one check adds exactly its alerts to the alert table and leaves the readings alone |
| AlertEngine.CheckAndCreateAlerts | backend/utils.py:142-257 | the created alerts are exactly AlertsFor of the reading, appended to the alert table, and committed when any were created |
| Statistics.Qualifying | Backend/models.py:199-205 | the qualifying rows are exactly those of the user, at or after `now - days`, and valid; no upper time bound |
| Statistics.QualifyingConcat | Backend/models.py:199-205 | the filter keeps table order: filtering a concatenation is the concatenation of the filtered parts |
| Statistics.QualifyingCounts | Backend/models.py:199-205 | a qualifying row occurs in the result exactly as often as in the table, any other row never |
| Statistics.Values | Backend/models.py:207-216 | the aggregated values are the numeric column entries of the rows: one per row when every row has one |
| Statistics.ValuesAppend | Backend/models.py:207-216 | a further row adds its column value at the end when it has one, and nothing otherwise |
| Statistics.ValuesConcat | Backend/models.py:207-216 | the values of a concatenation are the values of the parts, in table order |
| Statistics.Minimum | Backend/models.py:209-212 | the minimum is one of the values and no value is below it |
| Statistics.Maximum | Backend/models.py:210-213 | the maximum is one of the values and no value is above it |
| Statistics.IfTruthy | Backend/models.py:221-235 | an aggregate is reported iff it exists and is not exactly 0 |
| Statistics.GetStatistics | Backend/models.py:197-238 | the count is the number of qualifying rows; `period_days` echoes `days`; with no qualifying rows every average, minimum and maximum is None |
| Statistics.SumBounds | Backend/models.py:208 | a sum of n values each in [lo, hi] lies in [n*lo, n*hi] |
| Statistics.AverageBetween | Backend/models.py:208-213 | the average of a non-empty column lies between its minimum and maximum |
| Statistics.StatisticsAreOrdered | Backend/models.py:207-216 | min <= average <= max for temperature and for pulse whenever they are reported |
| Statistics.NonQualifyingRowIgnored | Backend/models.py:199-205 | appending a row of another user, an earlier time or an invalid reading leaves the statistics unchanged |
| Statistics.CountMatchesValues | Backend/models.py:134-216 | every stored row has a temperature (a NOT NULL column), so the count equals the number of averaged temperatures |
| Statistics.LatestByUser | Backend/models.py:190-194 | None iff the user has no reading; otherwise one of the user's readings with the greatest timestamp |
| Summary.BmiCategory | backend/utils.py:274-286 | the categories partition the BMI at 18.5, 25 and 30; no BMI is "Unknown" |
| Summary.Concerns | backend/utils.py:303-308 | "Elevated average temperature" iff the average exceeds 99, "Elevated average pulse rate" iff it exceeds 100; at most two, in that order |
| Summary.Unacknowledged | backend/utils.py:298-301 | exactly the user's unacknowledged alerts |
| Summary.UnacknowledgedConcat | backend/utils.py:298-301 | the filter keeps table order: filtering a concatenation is the concatenation of the filtered parts |
| Summary.UnacknowledgedCounts | backend/utils.py:298-301 | an open alert of the user occurs in the result exactly as often as in the table, any other alert never |
| Summary.InsertByTime | backend/utils.py:301 | inserting into a newest-first list keeps it newest-first and adds exactly the one alert |
| Summary.SortByNewest | backend/utils.py:301 | newest-first, and a permutation of its input |
| Summary.PrefixIsNewest | backend/utils.py:301 | in a newest-first list no alert past the first n is newer than one among them |
| Summary.ActiveAlerts | backend/utils.py:298-301 | the user's unacknowledged alerts, newest first, at most ten (fewer only when there are fewer), and a sub-multiset of them, so no alert is repeated beyond its count |
| Summary.ActiveAlertsAreNewest | backend/utils.py:298-301 | no unacknowledged alert left out of the ten is newer than one kept |
| Summary.ActiveAlertsComplete | backend/utils.py:298-301 | below the cap, the active alerts are all the user's unacknowledged alerts |
| Summary.GetHealthSummary | backend/utils.py:289-316 | the statistics are GetStatistics over the window, the latest reading is LatestByUser of the user, the active alerts are ActiveAlerts of the user and the concerns are those of the statistics; hence the count is that of the qualifying readings, the latest reading is absent iff the user has none, and each concern appears iff its average crosses its bound |
| Summary.ConcernsIgnoreNonQualifying | backend/utils.py:303-308 | a non-qualifying reading does not change the concerns |
| Export.Cell | backend/utils.py:340-350 | a truthy number renders as its text; a falsy or missing value as "" |
| Export.Fields | backend/utils.py:340-352 | eleven fields: id, user id, date, time, the cells of temperature, pulse, heart rate and SpO2, the blood-pressure text, the battery cell and "Yes"/"No" for validity |
| Export.Lines | backend/utils.py:332-353 | one CSV line per reading, in order |
| Export.ToCsv | backend/utils.py:323-357 | "" for no readings; otherwise the header and one line per reading joined by newlines |
| Export.RowSplits | backend/utils.py:340-353 | when no rendered text (dates, times, floats, including the renderer for other values) holds ',' or a newline, a row has no newline and splits at commas back into its eleven fields, the last "Yes" or "No"; `to_csv` does no quoting, so this condition is needed |
| Export.HeaderSplits | backend/utils.py:328-330 | the header has no newline and splits into the eleven column titles |
| Export.CsvLayout | backend/utils.py:323-357 | under the same condition on the renderers (no ',' or newline in any rendered text, since `to_csv` does no quoting), the export splits at newlines into n + 1 lines, the header first and the i-th reading's row at i + 1 |
| IngestApi.RecordedAt | Backend/app.py:486-493 | a missing or empty `recorded_at` leaves the field unset; otherwise it is the parse of the text with 'Z' replaced by "+00:00", and a failed parse is ignored |
| IngestApi.ValidRowIsComplete | Backend/app.py:465-496 | a valid reading's row has every NOT NULL column and no validation errors |
| IngestApi.ReceiveMedicalData | Backend/app.py:420-531 | no data, no user id and an unknown user give 400, 400 and 404 with nothing stored; a known user's reading is stored with its validity, alerts are raised only when valid and counted in the response, and a None vital gives 500 with nothing stored |
| IngestApi.ValidRowRaisesWithConfigDict | Backend/app.py:495-503 | as written, a valid reading's row is insertable and committed, and then the alert engine raises on it, so the endpoint answers 500 after storing it |
| IngestApi.SingleRowRecordsValidity | Backend/app.py:465-503 | the stored flag is the validator's verdict; errors are recorded iff invalid; an invalid reading raises no alert |
| IngestApi.MissingVitalIsNotStorable | Backend/app.py:467-496 | the row can be inserted iff temperature, pulse and heart rate are all present and not None |
| IngestApi.Merged | Backend/app.py:597-600 | every batch item takes the batch's user id and device id and is marked offline, its vitals unchanged |
| IngestApi.BatchRowShape | Backend/app.py:597-629 | a batch row carries the batch's user and device, is offline, and can be inserted iff its vitals are present |
| IngestApi.BatchValidRowRaisesWithConfigDict | Backend/app.py:631-645 | as written, a valid batch row is insertable and flushed, and then the alert engine raises on it, so the item is skipped uncounted while its row stays in the session |
| IngestApi.CollectRows | Backend/app.py:595-645 | at most one row per item |
| IngestApi.CollectRowsCount | Backend/app.py:595-641 | one row for every item that is an object |
| IngestApi.BatchRowsShape | Backend/app.py:597-618 | the batch rows take consecutive ids and carry the batch's user, device and offline flag |
| IngestApi.SaveBatchItem | Backend/app.py:596-645 | one item: saved iff it is an object, the session is healthy and its row can be inserted; a saved item appends its row and its alerts; a failing item leaves the session failed |
| IngestApi.SaveBatch | Backend/app.py:591-645 | the loop's counts and tables follow the item-by-item progress: saved count and alert count match the rows and alerts added |
| IngestApi.ReceiveMedicalDataBatch | Backend/app.py:535-674 | 400/400/404 for missing readings, user id or user; a batch above the cap is refused whole; the batch is stored iff the row of every object item can be inserted (items that are not objects are skipped), and then all those rows and their alerts are stored and counted; one item whose row cannot be inserted fails the flush and leaves the session failed, so the whole batch ends in a 500 despite the per-item handler, keeping a prefix of the work |
| IngestApi.ClampDays | Backend/app.py:732-733 | `days` defaults to 7 and is capped at 90 |
| IngestApi.ClampDaysNoLowerBound | Backend/app.py:732-733 | any `days` up to 90, zero and negatives included, passes through unchanged |
| IngestDevice.HeartAndPulse | backend/app.py:320-328 | when heart rate and pulse are both None they become 0; otherwise both are kept |
| IngestDevice.DeviceValidation | backend/app.py:330-335 | with no finger detected the reading is valid with no errors; otherwise it is the validator's verdict |
| IngestDevice.OrDefault | backend/app.py:339-342 | a truthy value is kept, a falsy one replaced by the default |
| IngestDevice.DeviceRowStorable | backend/app.py:337-353 | the stored row always satisfies the NOT NULL columns, and a detected, valid reading is fully numeric |
| IngestDevice.NoFingerReading | backend/app.py:326-350 | without a finger the row is valid, with no errors, and both rates 0 when both were None |
| IngestDevice.DeviceRowRaisesWithConfigDict | backend/app.py:364-369 | as written, a detected, valid device row is insertable and committed, and then the alert engine raises on it (the default temperature 36.5 is truthy), so the endpoint answers 500 after storing it |
| IngestDevice.ReceiveDeviceReading | backend/app.py:304-391 | 400/400/404 as for the other endpoint with nothing stored; a known user's row is stored and alerts are raised only for a valid, detected reading; a non-numeric heart rate is a 500 with nothing stored |
| IngestDevice.Head | backend/app.py:452 | the first 100 items, or all of them when fewer |
| IngestDevice.UploadRows | backend/app.py:451-473 | at most one row per item, ids consecutive, every row offline |
| IngestDevice.CollectUploads | backend/app.py:451-472 | the loop over the readings: it runs to the end iff every item is an object, and then the rows it collects are exactly UploadRows of the items |
| IngestDevice.AsWrittenUploadNeverStores | backend/app.py:451-480 | as written, with the config dict passed to the validator, an upload that would store any row has an item that makes the validator raise or a row that breaks the NOT NULL temperature column, so it never stores a reading |
| IngestDevice.UploadBatch | backend/app.py:441-480 | no readings gives 400; the upload succeeds iff every item of the first 100 is an object and every row can be inserted, and then exactly those rows are stored and counted; no alert is ever created |
| IngestDevice.UploadRowsCount | backend/app.py:451-473 | one row for every object item that names a user |
| IngestDevice.UploadRowsOwners | backend/app.py:452-470 | every uploaded row comes from an item naming a user, and carries that item's user and device |
| IngestDevice.UploadedAtMostLimit | backend/app.py:452 | at most min(100, number of items) rows are uploaded |
| Accounts.RecogniserMatchesGrammar | backend/auth.py:46-48 | the recogniser (first '@', last '.') accepts exactly the strings of the form local@domain.tld |
| Accounts.EmailAccepted | backend/auth.py:46-49 | accepted iff the pattern matches, including the match before a trailing newline that `$` allows |
| Accounts.ValidateEmail | backend/auth.py:41-56 | accepted iff non-empty, matching the pattern and not registered once lowercased; otherwise the first failing message: "required" when empty, "Invalid email format" when the pattern fails, "Email already registered" when a well-formed address is taken |
| Accounts.NormalisedPhone | backend/auth.py:65 | the result holds no space or hyphen and is no longer than the input |
| Accounts.NormalisedPhoneKeepsOthers | backend/auth.py:65 | every character other than a space or hyphen occurs in the normalised number exactly as often as in the input |
| Accounts.NormalisedPhoneConcat | backend/auth.py:65 | the removal works character by character, so the order of the remaining characters is kept |
| Accounts.ValidatePhone | backend/auth.py:59-76 | accepted iff non-empty and, with spaces and hyphens removed, ten digits not already registered; an empty phone gets "required", a normalised form that is not ten digits "must be 10 digits", a well-formed taken number "already registered" |
| Accounts.PhoneJudgedByDigits | backend/auth.py:65-74 | a phone whose normalised form is non-empty is judged exactly as that form; a non-empty phone made only of spaces and hyphens gets "must be 10 digits", where the empty phone gets "required" |
| Accounts.ValidatePassword | backend/auth.py:79-91 | accepted iff at least six characters |
| Accounts.ValidateFullName | backend/auth.py:94-105 | accepted iff at least three characters, each a letter or whitespace |
| Accounts.BlankNameAccepted | backend/auth.py:94-105 | three spaces pass the name check and are stored as an empty name |
| Accounts.RegistrationCheck | backend/auth.py:115-129 | name, then email, then phone, then password: the first failure is returned; when the first three pass, the verdict is the password's |
| Accounts.SameNumberRefused | backend/auth.py:65-74 | once phones are stored normalised, a number already stored is refused however it is spaced |
| Accounts.AsWrittenPhoneRegisteredTwice | backend/auth.py:131-136 | as written, a number first registered with a space is stored with the space, and the same digits without it pass validation again |
| Accounts.FindByEmail | backend/auth.py:177 | the first user with that exact email, or none iff no user has it |
| Accounts.LoginDecision | backend/auth.py:167-207 | success exactly for the first stored user matching the lowercased, stripped email, when the password is right and the account active; that user with the right password and an inactive account gets "Account is deactivated"; missing email or password gives "required" |
| Accounts.LoginHidesWhichPartFailed | backend/auth.py:177-184 | an unknown email and a wrong password give the same message |
| Accounts.DeactivatedOnlyAfterPassword | backend/auth.py:183-188 | "deactivated" is only reported to someone who gave the right password |
| Accounts.EmptyProfile | backend/auth.py:248-250 | a new profile has every column empty |
| Accounts.Assign | backend/auth.py:253-280 | one guarded assignment: the key changes iff it is supplied, and no other key changes |
| Accounts.CopySupplied | backend/auth.py:253-280 | after all the guarded assignments, each column holds the supplied value when supplied and its old value otherwise |
| Accounts.Accounts.Register | backend/auth.py:108-164 | a failed check returns its message with nothing created; otherwise the user is appended with the next id and an empty profile, unless the email collides, which fails without change |
| Accounts.Accounts.Login | backend/auth.py:167-209 | the outcome is the login decision; only a success changes state, stamping that user's last login |
| Accounts.Accounts.UpdateProfile | backend/auth.py:243-294 | the profile exists afterwards; exactly the supplied keys change; `device_id` also stamps the registration time; no other profile and no user changes |
| Accounts.RegisteredUserCanLogIn | backend/auth.py:131-177 | a user just registered logs in with the same email and password |
| Accounts.StoredEmailIsLookupKey | backend/auth.py:134 | an accepted email (without a trailing newline) is stored as its lowercased form, which is not yet taken |
| Accounts.TrailingNewlineCollides | backend/auth.py:46-54 | an email plus "\n" passes validation though its stripped form is already registered |

## Left out

- Flask routing, the JSON response envelope, session management (`create_session`, `destroy_session`, `login_required`), rate limiting, `SystemLog` and logging: responses are datatypes. The one place where the session decides an outcome, the owner check of `acknowledge_alert`, is modelled by passing the session's user (if any) to Store.Acknowledge.
- The clock, `fromisoformat`, `bcrypt` hashing and `check_password`: parameters.
- `round(..., 1)`, `str()` of a float and `strftime`: renderers are parameters; one number renderer prints every numeric cell, so the difference between `str()` of an Integer column (pulse and heart rate print "72") and of a Float column ("72.0") is not modelled; averages are exact reals, unrounded, also where the summary compares them with 99 and 100.
- `calculate_bmi` (floating-point arithmetic): `get_bmi_category` takes the BMI as input.
- `clean_old_data`, `init_db` and the setup scripts: bulk database maintenance.
- Numeric strings: a vital sent as a JSON string holding a number ("98.6", "72") is `Malformed` in the model, though the validator's `float()` and `int()` accept it; the device firmware sends JSON numbers.
- The alert message text (the f-strings of `check_and_create_alerts`) is not a column of the modelled alert row; kind, severity, value and threshold are.
- Unicode: `isalpha`, `isspace`, `isdigit` and `lower` are modelled on ASCII only.
- Database column type coercion and string length limits; foreign keys are not enforced; user ids are integers.
- A key with value null is treated as a missing key when judging whether a payload is empty; a `readings` value that is not a list is not modelled.
- The free-text `notes` and `symptoms` columns and the `signal_strength` column.
- A falsy non-number (an empty string as heart rate) on the device endpoint raises only after the commit; the model treats every non-number heart rate as raising before the insert.
- Ties: LatestByUser and ActiveAlerts pick some newest row when timestamps tie; the database order among ties is not modelled.
- Temperature units: the code mixes Celsius defaults (36.5) and Fahrenheit bounds; temperatures are unit-agnostic.
- Form fields are strings only: None for a form field is not modelled, and the empty string stands for a missing field.
- IngestApi.ReceiveMedicalData: models the corrected validator and the corrected alert engine (Findings 1 and 3). As written, a payload with any vital raises in the validator and answers 500 with nothing stored; with only the validator corrected, a valid reading is committed and the alert engine then raises, answering 500.
- IngestApi.SaveBatchItem: models the corrected validator and alert engine (Findings 1 and 3). As written, an item with any vital raises in the validator and is skipped; with only the validator corrected, a valid item's row is flushed, the alert engine raises, and the item is skipped uncounted while its row is still committed.
- IngestApi.SaveBatch: models the corrected validator and alert engine (Findings 1 and 3); as written, the counts stay 0 for every item carrying a vital, as for SaveBatchItem.
- IngestApi.ReceiveMedicalDataBatch: models the corrected validator and alert engine (Findings 1 and 3). As written, the batch answers 201 with 0 readings saved and 0 alerts whenever every item carries a vital; valid rows still reach the table once only the validator is corrected.
- IngestDevice.UploadBatch: models the corrected validator (Finding 1). As written, an item naming a user and carrying a temperature, pulse, heart rate or SpO2 makes the validator raise, and one carrying none of them has no temperature and fails the commit, so every upload that names a user ends in a 500 with nothing stored (IngestDevice.AsWrittenUploadNeverStores).
- IngestDevice.ReceiveDeviceReading: models the corrected validator and alert engine (Findings 1 and 3). As written, a detected reading raises in the validator and answers 500 with nothing stored; with only the validator corrected, a detected valid reading is committed and then answers 500.
- The exception path of `login_user` and `update_profile` (a failed commit) is not modelled.
- Accounts.CopySupplied: the fourteen guarded assignments of `update_profile` are taken as one loop over the column keys.
- Accounts.Accounts.Register: the unique email column is modelled as a refusal; the unique phone column is not, since the corrected registration stores normalised numbers that the phone check already keeps distinct. As written, the two spellings of Finding 2 are different strings, so that column would not refuse the second one either.

## Findings

| source | as written | input that shows it | evidently intended | confidence | as-written member | corrected member |
|---|---|---|---|---|---|---|
| backend/utils.py:80-124 | `validate_medical_reading` reads `config.BODY_TEMP_MIN` and the other bounds as attributes, but every ingestion endpoint passes `app.config`, a dict, so any payload with a vital raises AttributeError: the single-reading and device endpoints answer 500 with nothing stored, the batch endpoint of `Backend/app.py` skips each such item in its per-item handler and answers 201 with those items unsaved, and the device batch upload of `backend/app.py`, which has no per-item handler, answers 500 and stores nothing | the reading temperature 98.6, pulse 72, heart rate 75, SpO2 98, battery 85.5 | read the bounds from the config (`config['BODY_TEMP_MIN']`), so an in-range reading is valid | not executed | Validator.ConfigDictRejectsHealthyReading | Validator.Validate |
| backend/auth.py:131-136 | `register_user` stores `phone.strip()`, while `validate_phone` looks up the number with spaces and hyphens removed, so the stored form and the lookup key differ | register "98765 43210", then register "9876543210": both pass validation | store the normalised number, so the same number is refused the second time | not executed | Accounts.AsWrittenPhoneRegisteredTwice | Accounts.SameNumberRefused |
| backend/utils.py:150-234 | `check_and_create_alerts` reads `config.TEMP_ALERT_HIGH` and the other alert bounds as attributes, but every endpoint passes `app.config`, a dict, so it raises whenever temperature, pulse, heart rate or SpO2 is truthy, which every valid reading is; the row was already committed or flushed | the same reading 98.6 / 72 / 75 / 98 / 85.5, once the validator is corrected: stored, then 500 | read the alert bounds from the config (`config['TEMP_ALERT_HIGH']`), so a stored valid reading gets its alerts and a success response | not executed | IngestApi.ValidRowRaisesWithConfigDict | AlertEngine.CheckAndCreateAlerts |
