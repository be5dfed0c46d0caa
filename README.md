# Gravity Forms Duplicate Prevention — a Dafny model of the server-side guard

The plugin hooks `duplicate_detection` into Gravity Forms' `gform_validation`
filter. On every submission it fingerprints the submitted field map
(`$_POST`) with `hash_array`, an MD5 digest of the map's `print_r` dump, and
compares the digest with the one kept in the session slot
`$_SESSION['gform_hash']`:

- if the slot holds the same digest, the submission is a double submit: the
  guard turns the form's `enableHoneypot` switch on and posts `'duplicate'`
  under `input_<max+1>`, where `max` is the largest field id of the form
  (`get_max_field_id`), so Gravity Forms believes the honeypot was filled and
  silently discards the entry; it hands the validation result, as it was
  before this change, to the `gform_duplicate_prevention_duplicate_entry`
  action, and leaves the slot alone;
- otherwise it overwrites the slot with the new digest and changes nothing
  else.

Files:

- `wrappers.dfy` — `Option`, for the unset slot and the hook that did not fire.
- `forms.dfy` — module `Forms`: fields, the form object, the validation
  result; `MaxFieldId` (the scan as a recursive function over the fields, in
  the scan's order), lemmas that it bounds every id, is an id when positive and
  is 0 for no fields, and `GetMaxFieldId`, the `foreach` loop proved equal to it.
- `input_keys.dfy` — module `InputKeys`: `sprintf('input_%d', id)` as
  `"input_"` followed by the decimal digits of the id, the digit reader that
  inverts it, and the consequence that distinct ids give distinct keys.
- `guard.dfy` — module `DuplicatePrevention`: `Screen`, one run of the filter
  on values (stored slot, fingerprint function, post map, validation result),
  the lemmas about it, and class `Guard`, which holds the session slot as a
  field and whose `DuplicateDetection` method updates it in place and is proved
  equal to `Screen`.

The fingerprint function is a `const` of the `Guard` class of type
`PostMap -> string`: fixed and deterministic, otherwise arbitrary. Nothing in
the model assumes that different maps have different fingerprints; where a
property needs two maps to differ, it asks for their fingerprints to differ.

When the key `input_<max+1>` is already present in the submitted map (a client
may post any key), the guard overwrites its value; the model states the new key
set as the old one plus that key, which covers both cases.

## Model

| member | source | states |
|---|---|---|
| `Forms.MaxFieldIdBounds` | gravityforms-duplicateprevention.php:109-118 | the scan's result is at least every field id, and is 0 for a form with no fields |
| `Forms.MaxFieldIdAttained` | gravityforms-duplicateprevention.php:109-118 | a positive result of the scan is the id of some field |
| `Forms.NextFieldIdIsUnused` | gravityforms-duplicateprevention.php:109-118 | max + 1 is strictly greater than every field id, so no field has it |
| `Forms.GetMaxFieldId` | gravityforms-duplicateprevention.php:109-118 | the loop starting from 0 and keeping the larger value returns the scan's maximum: at least every id, and 0 or one of the ids |
| `InputKeys.Decimal` | gravityforms-duplicateprevention.php:82 | `%d` of a non-negative id is a non-empty string of decimal digits with no leading zero |
| `InputKeys.ParseDecimalInvertsDecimal` | gravityforms-duplicateprevention.php:82 | reading the digits `%d` wrote gives back the id |
| `InputKeys.InputKey` | gravityforms-duplicateprevention.php:82 | the posted key of a field starts with `input_` followed by at least one character |
| `InputKeys.InputKeyInjective` | gravityforms-duplicateprevention.php:82 | two ids give the same `input_<id>` key if and only if they are equal |
| `DuplicatePrevention.FlaggedIffSlotMatches` | gravityforms-duplicateprevention.php:77 | the duplicate branch is taken exactly when the slot is set and equals the fingerprint of the submitted map |
| `DuplicatePrevention.SlotHoldsLatestFingerprint` | gravityforms-duplicateprevention.php:77-89 | after any call the slot holds the fingerprint of the submitted map; in the duplicate branch it is unchanged |
| `DuplicatePrevention.FreshSessionNeverFlags` | gravityforms-duplicateprevention.php:77-88 | with the slot unset a submission is never a duplicate, and afterwards the slot holds its fingerprint |
| `DuplicatePrevention.PassThroughLeavesRequestAlone` | gravityforms-duplicateprevention.php:86-90 | a non-duplicate call stores the new fingerprint, returns the validation result unchanged and leaves the post map untouched |
| `DuplicatePrevention.FlaggedOnlyEnablesHoneypot` | gravityforms-duplicateprevention.php:80-90 | a duplicate call turns `enableHoneypot` on and keeps validity, form id, fields and every other form setting |
| `DuplicatePrevention.FlaggedInjectsOneFreshKey` | gravityforms-duplicateprevention.php:82 | a duplicate call adds `input_<max+1>` = `'duplicate'` to the post map, keeps every other entry, and that key is not the key of any field of the form |
| `DuplicatePrevention.HookSeesUnmodifiedResult` | gravityforms-duplicateprevention.php:80-84 | the duplicate-entry action receives the validation result as passed in, before the honeypot switch is set |
| `DuplicatePrevention.ResubmissionIsFlagged` | gravityforms-duplicateprevention.php:73-91 | submitting the same map twice in a row flags the second submission, and the slot keeps the first submission's fingerprint |
| `DuplicatePrevention.ChangedSubmissionPasses` | gravityforms-duplicateprevention.php:73-91 | a submission whose fingerprint differs from the previous submission's passes and replaces the slot's value |
| `DuplicatePrevention.SyntheticKeyForFieldsOneTwoFive` | gravityforms-duplicateprevention.php:109-118 | for field ids 1, 2 and 5 the synthetic field is `input_6` |
| `DuplicatePrevention.Guard.constructor` | gravityforms-duplicateprevention.php:52-57 | a guard starts on a fresh session: the slot is unset |
| `DuplicatePrevention.Guard.DuplicateDetection` | gravityforms-duplicateprevention.php:73-91 | the filter's new slot, returned result, post map and hook value are those of `Screen` on the old slot; the hook fires exactly when the old slot matched; the slot then holds the fingerprint of the map just submitted |
| `DuplicatePrevention.SubmitTwice` | gravityforms-duplicateprevention.php:73-91 | on a fresh guard, a first submission passes without firing the hook and the same map submitted again fires it with the unchanged result and gains `input_<max+1>` = `'duplicate'` |

## Left out

- `hash_array` (lines 98-100): MD5 over `print_r` is a library call; it is the
  `hashArray` function the guard is built with, about which nothing is assumed
  but determinism.
- The post map is a Dafny `map`, so PHP array order is not modelled: the real
  `print_r` dump, and hence the digest, depends on the order of the keys, while
  the model's fingerprint sees only keys and values. Nested (array) post values
  are modelled as strings.
- PHP's loose `==` on the two digest strings (line 77) is modelled as string
  equality; the numeric-string case of loose comparison (two digests of the
  form `0e` followed by digits compare equal) is not modelled.
- `floatval` (line 112): field ids are taken as already-parsed non-negative
  whole numbers; fractional, negative and non-numeric ids are not modelled.
- The `$_SESSION` slot is an `Option<string>`; a slot holding a non-string is
  not modelled.
- Logging (`log`, `error_log`, the `print_r` message, lines 42-46 and 83) is
  output only and is left out; `do_action` (line 84) is modelled only as the
  value the action receives.
- Plugin bootstrapping (`__construct`, `start_session` beyond the fresh slot,
  `load_script`, `enqueue_script`, `gform_duplicateprevention_init`, lines
  23-34, 52-57, 133-164) is WordPress registration and is left out.
- `gravityforms-duplicateprevention.js`, the client script that disables
  submit buttons, is DOM code with no state to verify and is not part of this
  model.
