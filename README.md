# Symptom checker: intake form controller and prediction endpoint

This project models the two pieces of sequential logic in a small symptom-checker web
application, and proves their behaviour in Dafny.

- **The browser form controller** (`PROJECT/static/js/script.js`). It has a single-choice
  gender button group and multi-choice symptom buttons. Their choices are kept in
  `selectedGender` and in the `selectedSymptoms` set. It has collapsible symptom
  categories and a live, case-insensitive search over the button texts. Its submit
  handler checks gender, then age, then symptoms, stopping at the first failure. It then
  builds the JSON payload and sorts the reply into a rendered results panel or an alert.
- **The prediction endpoint** (`PROJECT/app.py`). It builds a 47-slot feature vector from
  the request: age, gender, and a one-hot flag for each known symptom. It picks the
  precautions Precaution_1..4 that are present, joins the medicine and diet lists with
  `", "`, and turns any exception into an `{error: message}` reply with status 500.

Modules, one file each:

- `wrappers.dfy` (`Wrappers`): `Option` and `Result`.
- `text.dfy` (`Text`): ASCII lower-casing, substring search (`includes`), joining with a
  separator, and printing a status code in decimal.
- `ordered_set.dfy` (`OrderedSet`): a JavaScript `Set` kept as a sequence without
  duplicates in insertion order, with `Add` and `Delete`.
- `intake_controls.dfy` (`IntakeControls`): the gender group, the symptom picker and its
  search filter, and the categories. Each is a class over arrays of per-button flags.
- `intake_submit.dfy` (`IntakeSubmit`): validation, the payload, the reply
  classification, and the form class with the submit handler.
- `features.dfy` (`Features`): the column list and the feature vector. It is built by a
  method that updates an array in place, proved equal to a fold over the symptoms.
- `predict.dfy` (`Prediction`): precaution selection, reply formatting, and the
  `predict` handler with its error fallback.
- `end_to_end.dfy` (`EndToEnd`): the endpoint's reply as the submit handler receives it.

Notes on behaviour, taken from the code:

- `selectedSymptoms` is a JavaScript `Set`, so it iterates in insertion order. The
  payload's symptom list is therefore that order, not an arbitrary one. Deselecting a
  symptom and selecting it again moves it to the end.
- The set matches the marked buttons exactly only when no two symptom buttons share a
  `data-value`. Without that, the model proves only that every chosen symptom belongs to
  a marked button: unmarking one of two buttons with the same value removes the value
  while the other stays marked.
- The reply's status is checked before its `error` field. The endpoint sends every
  exception with status 500, so the user sees "HTTP error! Status: 500" and never the
  endpoint's message (`EndToEnd.ServerErrorShowsOnlyStatus`).
- An `error` field holding the empty string is false in JavaScript. Such a reply goes on
  to rendering.
- A success body lacking the prediction fields fails on the precaution or workout list with
  the message of the TypeError that V8 raises for `.join` on a missing value.
- A symptom literally named `Age` or `Gender` overwrites slot 0 or 1 with 1, because
  those names are columns too.

## Model

| member | source | states |
|---|---|---|
| `IntakeControls.GenderGroup.constructor` | PROJECT/static/js/script.js:3-4 | at page load no gender is chosen; with markup that marks no button, no gender button is marked and the invariant holds from the start |
| `IntakeControls.GenderGroup.Click` | PROJECT/static/js/script.js:6-12 | after a click exactly the clicked button is marked and `selectedGender` is its value; at most one button is ever marked; re-clicking the marked button changes nothing |
| `IntakeControls.SymptomPicker.constructor` | PROJECT/static/js/script.js:15-16 | at page load the set is empty; with markup that marks no button, no symptom button is marked and the invariant holds from the start |
| `IntakeControls.Toggled` | PROJECT/static/js/script.js:19-27 | a symptom click flips only that button's mark; the value is then in the set exactly when the button is marked; no other value's membership changes |
| `IntakeControls.ToggledTwice` | PROJECT/static/js/script.js:19-27 | two clicks on one button restore the marks and the set's elements; starting unmarked they restore the exact insertion order too |
| `IntakeControls.SymptomPicker.Toggle` | PROJECT/static/js/script.js:18-28 | the click handler updates the marks and the set as `Toggled` says; it keeps the invariant (no duplicates, set within the marked values, equal to them when data-values are distinct); it leaves the display untouched |
| `IntakeControls.SymptomPicker.MarkedIffChosen` | PROJECT/static/js/script.js:19-27 | with distinct data-values, a button is marked if and only if its value is in `selectedSymptoms` |
| `IntakeControls.Matches` | PROJECT/static/js/script.js:46-49 | a button matches if and only if its lower-cased text contains the lower-cased term at some position; an empty term matches every button |
| `IntakeControls.MatchesIgnoresCase` | PROJECT/static/js/script.js:46-48 | the match is the same when the text or the term is lower-cased first |
| `IntakeControls.SymptomPicker.Filter` | PROJECT/static/js/script.js:44-51 | each button becomes inline-block if it matches and hidden otherwise; an empty term shows all; marks and `selectedSymptoms` are unchanged |
| `IntakeControls.Categories.constructor` | PROJECT/static/js/script.js:31-36 | whatever the markup's state, every category starts collapsed with its content hidden |
| `IntakeControls.Categories.TitleClick` | PROJECT/static/js/script.js:37-40 | a title click flips only that category's flag; its content is hidden if and only if it is collapsed, and shown as flex otherwise |
| `IntakeControls.Categories.TitleClickTwice` | PROJECT/static/js/script.js:37-40 | two clicks on one title give back every category's flag and content display |
| `IntakeSubmit.Validate` | PROJECT/static/js/script.js:61-82 | no gender always gives the gender message, whatever the age and symptoms; otherwise an empty or out-of-range age gives the age message; otherwise no symptoms gives the symptom message; a payload exists if and only if all three pass; it carries the gender, the age and the set's sequence |
| `IntakeSubmit.AgeInRange` | PROJECT/static/js/script.js:68 | the age passes when it is filled in and within 1..120 inclusive (a definition, no contract) |
| `IntakeSubmit.IsOk` | PROJECT/static/js/script.js:93 | `response.ok` holds exactly for the 2xx statuses: those that print as three digits led by `2` |
| `IntakeSubmit.Truthy` | PROJECT/static/js/script.js:99 | an `error` field counts exactly when present and not the empty string (a definition, no contract) |
| `IntakeSubmit.HttpErrorMessage` | PROJECT/static/js/script.js:94 | the message is the prefix "HTTP error! Status: " followed by a non-empty run of digits, with no leading zero for a non-zero status |
| `IntakeSubmit.HttpErrorNamesStatus` | PROJECT/static/js/script.js:93-95 | the HTTP error message is the fixed prefix followed by digits that read back as the status |
| `IntakeSubmit.Classify` | PROJECT/static/js/script.js:93-110 | the checks run in order: a rejected fetch gives its message; a non-2xx status gives the HTTP error; then a body that does not parse; then a truthy `error` field gives that message; only otherwise is the panel rendered, with precautions and workout joined by ", " |
| `IntakeSubmit.Submit` | PROJECT/static/js/script.js:63-117 | a failed check sends nothing and alerts its message; a null gender always ends there; a sent payload is the validated one; a failure alerts "Failed to get prediction: " plus the message; success shows the classified panel |
| `IntakeSubmit.IntakeForm.constructor` | PROJECT/static/js/script.js:53-56 | the form reads the two controls and starts with the results panel untouched |
| `IntakeSubmit.IntakeForm.OnSubmit` | PROJECT/static/js/script.js:58-118 | the handler returns the request it sent (none when a check fails) and the alert it raised; the results panel is written and shown only on success, and is left as it was otherwise; a sent request's symptom list has no duplicates |
| `Text.Lower` | PROJECT/static/js/script.js:46-48 | lower-casing keeps the length and lower-cases each character |
| `Text.LowerIsLower` | PROJECT/static/js/script.js:46-48 | the lower-cased text has no upper-case letter and lower-casing again changes nothing |
| `Text.Includes` | PROJECT/static/js/script.js:49 | the empty term is included in every text, and an included term is no longer than the text |
| `Text.IncludesIff` | PROJECT/static/js/script.js:49 | `includes` holds if and only if the term occurs in the text at some position |
| `Text.Join` | PROJECT/static/js/script.js:108-109 | joining no elements gives the empty string; otherwise the text starts with the first element, followed by the separator when there is a second |
| `Text.JoinLength` | PROJECT/static/js/script.js:108-109 | the length of a joined non-empty list is the sum of its elements' lengths plus one separator length per pair of neighbours |
| `Text.JoinSnoc` | PROJECT/app.py:91-92 | joining is left-to-right accumulation: appending an element appends the separator and that element |
| `Text.DecimalString` | PROJECT/static/js/script.js:94 | a status prints as a non-empty string of digits without a leading zero |
| `Text.DecimalRoundTrip` | PROJECT/static/js/script.js:94 | the printed status reads back as the same number |
| `OrderedSet.Add` | PROJECT/static/js/script.js:23 | `Set.add` puts the value in, leaves a present value in place, appends a new one, and keeps the set free of duplicates |
| `OrderedSet.Delete` | PROJECT/static/js/script.js:25 | `Set.delete` takes the value out, changes no other membership, and keeps the set free of duplicates |
| `OrderedSet.DeleteAt` | PROJECT/static/js/script.js:25 | deleting removes exactly the value's one position and keeps the others in order |
| `OrderedSet.DeleteAdd` | PROJECT/static/js/script.js:20-26 | adding an absent value and deleting it again gives back the same sequence |
| `OrderedSet.AddDelete` | PROJECT/static/js/script.js:20-26 | deleting a present value and adding it back keeps the elements but moves that value to the end |
| `OrderedSet.NoDupConcat` | PROJECT/app.py:25-34 | two duplicate-free lists with no common element concatenate to a duplicate-free list |
| `Features.RowsHaveNoRepeats` | PROJECT/app.py:26-33 | no source line of the column list repeats a name |
| `Features.Rows2To5AreNew` | PROJECT/app.py:26-30 | the names on the second to fifth lines do not occur on an earlier line |
| `Features.Rows6And7AreNew` | PROJECT/app.py:26-32 | the names on the sixth and seventh lines do not occur on an earlier line |
| `Features.Row8IsNew` | PROJECT/app.py:26-33 | the names on the last line do not occur on an earlier line |
| `Features.ColumnsShape` | PROJECT/app.py:25-34 | there are 47 columns, `Age` and `Gender` come first, and no name repeats |
| `Features.IndexOf` | PROJECT/app.py:54 | `index` returns a position holding the name, with no earlier position holding it |
| `Features.IndexOfAt` | PROJECT/app.py:54 | in a list without repeats, the index of the name at position k is k |
| `Features.Initial` | PROJECT/app.py:49-51 | the starting vector has one slot per column |
| `Features.Mark` | PROJECT/app.py:53-54 | one loop step keeps the vector's length |
| `Features.Encode` | PROJECT/app.py:52-54 | the symptom loop keeps the vector's length |
| `Features.FeatureVector` | PROJECT/app.py:49-54 | the feature vector always has exactly one slot per column (47) |
| `Features.EncodeAt` | PROJECT/app.py:52-54 | after the loop a slot is 1 exactly when its column is named by some symptom; every other slot keeps its starting value |
| `Features.FeatureVectorAt` | PROJECT/app.py:49-54 | each slot is 1 if its column is named by a symptom (even `Age` or `Gender`); otherwise slot 0 is age, slot 1 is gender, and every other slot is 0 |
| `Features.SameKnownSymptomsSameVector` | PROJECT/app.py:52-54 | the vector depends only on which columns the symptoms name: order, repetition and unknown names make no difference |
| `Features.UnknownSymptomIgnored` | PROJECT/app.py:53 | an unknown symptom is skipped without error and changes nothing |
| `Features.BuildFeatureVector` | PROJECT/app.py:48-54 | the in-place construction with its loop returns an array of 47 slots equal to `FeatureVector` of the request |
| `Prediction.ValueAt` | PROJECT/app.py:84 | a key contributes at most one value: its text when the row has it and the cell is not NaN, nothing otherwise (a definition; the bound is its only contract) |
| `Prediction.PresentValues` | PROJECT/app.py:84 | the comprehension gives at most one value per key |
| `Prediction.PresentValuesAppend` | PROJECT/app.py:84 | the comprehension keeps key order: values for `k1 + k2` are those for `k1` then those for `k2` |
| `Prediction.PresentValuesCons` | PROJECT/app.py:84 | the comprehension over a key followed by more keys is that key's kept value followed by theirs |
| `Prediction.PresentValuesOfFour` | PROJECT/app.py:84 | over four keys, the comprehension is each key's kept value in key order |
| `Prediction.KeyErrorMessage` | PROJECT/app.py:44-46 | the message of a missing key is the key between single quotes (a definition, no contract) |
| `Prediction.KeyErrorNamesKey` | PROJECT/app.py:44-46 | the message of a missing key names it: two keys give the same message if and only if they are the same key |
| `Prediction.Precautions` | PROJECT/app.py:84 | there are at most four precautions |
| `Prediction.PrecautionsInOrder` | PROJECT/app.py:84 | the precautions are Precaution_1..4 in order, each present value kept and each missing or NaN one dropped |
| `Prediction.PrecautionsExtremes` | PROJECT/app.py:79-84 | a row with all four gives all four in order; a row with none, or no row, gives none |
| `Prediction.Format` | PROJECT/app.py:84-95 | the disease, description and workout pass through; each of medicines and diet is empty for no entries, the entry for one, and in general starts with the first entry and is as long as the entries plus one ", " between neighbours; the precautions are the kept values of Precaution_1..4 in order |
| `Prediction.FormatAppendsEntry` | PROJECT/app.py:91-92 | one more medicine (or diet entry) appends ", " and that entry to the medicines (or diet) text; with `Format`'s empty and one-entry cases this makes each text the ", "-join of its list |
| `Prediction.Respond` | PROJECT/app.py:41-97 | a missing key fails with the quoted key name, in the order age, gender, symptoms; the handler answers if and only if all three keys are present and the model and then the lookups succeed for the request's feature vector; an answer is the formatted lookups of the disease the model named |
| `Prediction.Predict` | PROJECT/app.py:41-97 | the handler, which builds the vector in place, replies exactly as `Respond` says |
| `EndToEnd.OnWire` | PROJECT/app.py:88-97 | the reply goes out as parsed JSON (text cells assumed non-empty, see `Prediction.Lookups` under Left out) whose HTTP status is 200 for an answer and 500 for an error |
| `EndToEnd.AnswerIsShown` | PROJECT/static/js/script.js:103-110 | an endpoint answer reaches the panel field for field, with precautions and workout joined by ", " |
| `EndToEnd.ServerErrorShowsOnlyStatus` | PROJECT/static/js/script.js:93-101 | an endpoint exception reaches the user as "Failed to get prediction: HTTP error! Status: 500", never as its own message |
| `EndToEnd.SentPayloadReachesModel` | PROJECT/app.py:43-62 | a payload the form sent never fails on a missing key; any failure is the model's or the lookups' exception |

## Left out

- DOM queries, listener registration, `preventDefault`, `innerHTML` templating, `alert`,
  `console.error` and `scrollIntoView` are not modelled as such. Alerts are returned
  values; the panel is a `Panel` value and a display flag.
- `fetch`, `response.json()`, the `await` points, and overlapping submissions are not
  modelled. Each submission is handled alone, and the network's answer is an `IntakeSubmit.Reply`
  parameter.
- The age field is an optional integer; an empty field is `None`. JavaScript's coercion of
  other strings in the comparisons and in `parseInt` is not modelled: fractions, exponent
  notation, non-numeric text.
- Gender `data-value` attributes are the integers `parseInt` gives; a `NaN` from a
  non-numeric attribute is not modelled.
- `Text.Lower` lower-cases ASCII letters only, not the full Unicode mapping of
  `toLowerCase`.
- A success body whose prediction fields are partly present (some fields but not all) is
  not modelled: the body either holds all of them or none.
- Model, scaler and label-encoder loading, scaling, prediction and label decoding are not
  modelled. They are the `model` parameter of `Prediction.Predict`, which returns a disease
  name or an exception message.
- CSV loading, the case-insensitive row matching and `ast.literal_eval` are not modelled.
  They are the `lookup` parameter, which returns the tables' contents for a disease
  (lists already parsed) or an exception message.
- `EndToEnd.Received` assumes that `JSON.stringify` on the form side
  (`PROJECT/static/js/script.js:90`) and `request.get_json()` on the endpoint side
  (`PROJECT/app.py:43`) carry the payload's three fields across unchanged. The encoding and
  decoding of JSON are not modelled.
- `IntakeControls.GenderGroup.constructor` assumes that the markup marks no gender button.
  The script does not clear the `selected` class at load, so a pre-marked button would
  start marked while `selectedGender` is null, outside `GenderGroup.Valid`.
- `IntakeControls.SymptomPicker.constructor` assumes that the markup marks no symptom
  button. A pre-marked button would start marked while its value is not in the set, and
  its first click would delete rather than add.
- `IntakeControls.Categories.constructor` assumes that every category title is followed
  by its content element. The script reads `nextElementSibling` without a check, and a
  title without one would throw at load. The search and submit listeners would then
  never be registered.
- `Prediction.Lookups` assumes that the description cell and the workout cells of the
  looked-up rows are not empty. pandas reads an empty cell as NaN, and `.get` falls back to
  its default only for a missing key. `jsonify` would write a NaN as a bare `NaN`, which
  `response.json()` rejects, so the user would see the parse error instead of the panel.
  `EndToEnd.OnWire` and `EndToEnd.AnswerIsShown` hold under this assumption; only the
  precaution cells are modelled with NaN.
- Flask routing, `jsonify`, `render_template` and the index route are not modelled.
- Request bodies that are not JSON objects, and field values of other JSON types, are not
  modelled.
- `Features.FeatureColumns` is the column list of `PROJECT/app.py:25-34` written as the
  concatenation of its eight source lines. That is the same list, split so its
  distinctness proof stays small.
