# Hotel check-in form and submission viewer, modelled in Dafny

The modelled system is a small browser front end for a hotel. A guest fills in a
check-in form: name, phone, email, address, Aadhar number, check-in and check-out
dates, number of adults and the purpose of the visit.

`CustomerFormHandler` does the following:
- it validates every named control with a fixed rule table;
- it refuses the submission with the first error message;
- otherwise it collects the trimmed values, adds the submission time and an id, and
  appends the record to a list kept in local storage under one key.

`SubmissionViewer` reads that list back and does the following:
- it lists the records latest first, filtered by a search query on the name or the
  submission date;
- it deletes records by id;
- it imports a JSON array of records, giving every item without an id a fresh one, and
  appends them to what is stored;
- it escapes field values for HTML.

The model is made of these modules:

- `Text` models what the code uses of JavaScript strings:
  - `trim` with the full ECMAScript white-space set;
  - ASCII `toLowerCase`;
  - `includes` and `slice(0, n)`;
  - single-character `replaceAll`.
- `Seqs` models `filter` and `reverse` on arrays, with the subsequence relation.
- `Records` defines a submission: a map from field name to string value, where a
  missing field reads as `""` and an id is truthy when it is present and non-empty.
- `Storage` models `StorageUtil` as a `Store` object: a map from key to a stored
  sequence of submissions.
  - A write may fail. When it does, nothing changes.
  - Whether a write fails is not under the program's control, so it is a
    nondeterministic choice.
- `Validation` models the rule table of `_validateField`. It includes matchers for
  `^\d{10}$`, `^\d{12}$` and `^[^\s@]+@[^\s@]+\.[^\s@]+$`.
  - The matchers are proved equal to the patterns they stand for.
  - Date parsing, `Number(...)` and today's date at midnight come in as an
    environment `Env`.
- `FormHandler` models the form handler. A form is the sequence of its controls, in
  document order.
  - `validateForm` builds an error object. Its key order is the insertion order of a
    JavaScript object, and a repeated key keeps its first place.
  - The class `CustomerFormHandler` holds the store and the storage key. Its methods
    carry the loops of the source.
- `Viewer` models the viewer's search, delete, import merge and HTML escaping as
  functions. The class `SubmissionViewer` holds the loaded `data` and runs the
  handlers against the store.

The following are parameters of the operations:
- the clock (`submittedAt`);
- the generated ids (`Date.now().toString(36)`, with a random suffix for imports);
- the parsed content of an imported file.

Two results of storage writes are ignored by the source and are handled accordingly:
- `_delete` and `_importJSON` ignore the result of `setItem`. The model records
  whether the write happened only in a ghost out-parameter `written`, and it reports a
  successful import either way, as the source does.
- `saveToLocalStorage` does check the result, and `onSubmit` reports the failure.

The check-out rule compares against the value of the `checkin` control as it stands,
untrimmed (`form.elements['checkin'].value`). All other rules use the trimmed value of
their own control. The model keeps this difference. The model finds that control by
its name alone. With exactly one control named `checkin` it reads that control's value;
with several or none it reads no date, and every check-out fails.

Importing an array whose element is not an object fails. ES modules are strict-mode
code, so in the source the assignment `item.id = …` to a primitive (or the read
`null.id`) throws a `TypeError`. That error is caught, so the import fails and storage
is left as it was. The merge does not remove duplicate ids, whatever the comment above
it says. Re-importing an export appends every record a second time, ids and all
(`Viewer.ReimportDuplicates`).

## Model

| member | source | states |
|---|---|---|
| Text.IsSpace | hotal_manage/html_files/js_files/formHander.js:40 | the characters `trim` removes and `\s` matches: the ECMAScript white-space characters and line terminators |
| Text.IsDigit | hotal_manage/html_files/js_files/formHander.js:54 | `\d`: an ASCII decimal digit |
| Text.TrimStart | hotal_manage/html_files/js_files/formHander.js:40 | drops the leading white space, one character at a time |
| Text.TrimEnd | hotal_manage/html_files/js_files/formHander.js:40 | drops the trailing white space, one character at a time |
| Text.Trim | hotal_manage/html_files/js_files/formHander.js:40 | `trim()`: the start trim followed by the end trim |
| Text.TrimSpec | hotal_manage/html_files/js_files/formHander.js:40 | `trim` removes only white space, from both ends, and leaves an infix of the input that neither starts nor ends with white space |
| Text.TrimStartSpec | hotal_manage/html_files/js_files/formHander.js:40 | the leading part removed is all white space and what remains does not start with white space |
| Text.TrimEndSpec | hotal_manage/html_files/js_files/formHander.js:40 | the trailing part removed is all white space and what remains does not end with white space |
| Text.TrimIdempotent | hotal_manage/html_files/js_files/formHander.js:29 | trimming an already trimmed value changes nothing |
| Text.TrimIgnoresPadding | hotal_manage/html_files/js_files/formHander.js:40 | white space added at either end of a value does not change its trimmed form |
| Text.TrimStartFixed | hotal_manage/html_files/js_files/formHander.js:40 | a string that does not start with white space is not changed by the start trim |
| Text.TrimEndFixed | hotal_manage/html_files/js_files/formHander.js:40 | a string that does not end with white space is not changed by the end trim |
| Text.TrimStartSkipsSpace | hotal_manage/html_files/js_files/formHander.js:40 | leading white space added to a string is removed by the start trim |
| Text.TrimEndSkipsSpace | hotal_manage/html_files/js_files/formHander.js:40 | trailing white space added to a string is removed by the end trim |
| Text.TrimStartAppend | hotal_manage/html_files/js_files/formHander.js:40 | the start trim of a concatenation trims into the second part only when the first part is all white space |
| Text.LowerChar | hotal_manage/html_files/js_files/viewer.js:49 | ASCII `toLowerCase` of one character: `A`–`Z` move to `a`–`z`, every other character stays |
| Text.LowerCharSpec | hotal_manage/html_files/js_files/viewer.js:49 | a lower-cased character is never an upper-case letter, only upper-case letters change, and white space stays white space and nothing else becomes white space |
| Text.Lower | hotal_manage/html_files/js_files/viewer.js:46 | lower-casing keeps the length and lower-cases each character |
| Text.LowerIdempotent | hotal_manage/html_files/js_files/viewer.js:49 | lower-casing an already lower-cased string changes nothing |
| Text.TrimLowerTrim | hotal_manage/html_files/js_files/viewer.js:46 | a trimmed, lower-cased query is still trimmed |
| Text.Contains | hotal_manage/html_files/js_files/viewer.js:51 | `includes`: the query is a prefix of the string or of one of its suffixes |
| Text.Prefix | hotal_manage/html_files/js_files/viewer.js:50 | `slice(0, n)`: the whole string when it is at most `n` long, otherwise its first `n` characters |
| Text.ReplaceAll | hotal_manage/html_files/js_files/viewer.js:181 | one-character `replaceAll`: every occurrence of the character, left to right, becomes the replacement |
| Text.ContainsInPrefix | hotal_manage/html_files/js_files/viewer.js:51 | what `includes` finds in a prefix of a string it finds in the whole string |
| Text.PrefixContains | hotal_manage/html_files/js_files/viewer.js:50-51 | a hit in `slice(0, n)` of a string is a hit in the string |
| Text.ReplaceAllAppend | hotal_manage/html_files/js_files/viewer.js:181 | replacing in a concatenation is replacing in each part |
| Text.ReplaceAllAbsent | hotal_manage/html_files/js_files/viewer.js:183 | replacing a character that does not occur leaves the string unchanged |
| Seqs.Keep | hotal_manage/html_files/js_files/viewer.js:124 | `filter`: the elements that pass, in their original order |
| Seqs.Reverse | hotal_manage/html_files/js_files/viewer.js:47 | `slice().reverse()`: the elements in the opposite order |
| Seqs.KeepMembers | hotal_manage/html_files/js_files/viewer.js:124 | `filter` keeps an element exactly when it was there and passes the predicate |
| Seqs.KeepMultiset | hotal_manage/html_files/js_files/viewer.js:124 | `filter` keeps every passing element as often as it occurred and drops every failing one |
| Seqs.KeepSubsequence | hotal_manage/html_files/js_files/viewer.js:48 | `filter` keeps relative order |
| Seqs.KeepReverse | hotal_manage/html_files/js_files/viewer.js:48-52 | filtering then reversing equals reversing then filtering |
| Seqs.KeepIdempotent | hotal_manage/html_files/js_files/viewer.js:124 | filtering twice by the same predicate equals filtering once |
| Seqs.KeepAll | hotal_manage/html_files/js_files/viewer.js:124 | a filter every element passes returns the array unchanged |
| Seqs.KeepAppend | hotal_manage/html_files/js_files/viewer.js:48 | filtering a concatenation is filtering each part |
| Seqs.KeepNone | hotal_manage/html_files/js_files/viewer.js:124 | a filter no element passes returns the empty array |
| Seqs.ReverseAt | hotal_manage/html_files/js_files/viewer.js:47 | `reverse` keeps the length and puts element `k` at position `n-1-k` |
| Seqs.ReverseLength | hotal_manage/html_files/js_files/viewer.js:47 | `reverse` keeps the length |
| Seqs.IsSubsequenceRefl | hotal_manage/html_files/js_files/viewer.js:47 | an array is a subsequence of itself |
| Records.Field | hotal_manage/html_files/js_files/viewer.js:49-50 | `item.f \|\| ''`: the field's value, or `""` when the field is missing |
| Records.HasId | hotal_manage/html_files/js_files/viewer.js:154 | `item.id` is truthy: the field is present and not `""` |
| Storage.Store.Get | hotal_manage/html_files/js_files/utils.js:3-11 | `getItem(key) \|\| []`: the sequence stored under the key, or the empty sequence when the key is absent |
| Storage.Store.constructor | hotal_manage/html_files/js_files/utils.js:2 | a new model store holds no keys; every handler takes an existing store, so data kept across sessions is covered |
| Storage.Store.SetItem | hotal_manage/html_files/js_files/utils.js:13-21 | a write that reports success replaces the value under the key and changes nothing else; a failed write changes nothing |
| Storage.Store.Clear | hotal_manage/html_files/js_files/utils.js:23-25 | removing a key leaves every other key alone; later reads return the empty list |
| Validation.IsKnownField | hotal_manage/html_files/js_files/formHander.js:48-91 | the nine field names that have a rule |
| Validation.RuleMessage | hotal_manage/html_files/js_files/formHander.js:48-94 | the message each rule sets, and `""` for a name with no rule |
| Validation.MatchesDigits | hotal_manage/html_files/js_files/formHander.js:54 | `^\d{n}$`: `n` digits consumed one by one, then the end of the input |
| Validation.EmailChar | hotal_manage/html_files/js_files/formHander.js:58 | `[^\s@]`: neither white space nor `@` |
| Validation.EmailRun | hotal_manage/html_files/js_files/formHander.js:58 | a run of `[^\s@]` characters |
| Validation.MatchesEmail | hotal_manage/html_files/js_files/formHander.js:58 | the email matcher: a non-empty local part up to the first `@`, then a domain free of white space and `@` with a `.` that is neither first nor last |
| Validation.Passes | hotal_manage/html_files/js_files/formHander.js:48-94 | the `switch` of rules on the trimmed value; check-out also reads the check-in value; a name with no rule passes |
| Validation.ValidateField | hotal_manage/html_files/js_files/formHander.js:39-106 | `_validateField` without its CSS effects: trims the value, then pairs the rule's verdict with the rule's message |
| Validation.IndexOf | hotal_manage/html_files/js_files/formHander.js:58 | the index of the first occurrence of a character, or the length of the string when there is none |
| Validation.DigitsExactly | hotal_manage/html_files/js_files/formHander.js:54 | the `^\d{n}$` matcher accepts exactly strings of length `n` made of ASCII digits |
| Validation.EmailRunAppend | hotal_manage/html_files/js_files/formHander.js:58 | a concatenation is free of white space and `@` exactly when both parts are |
| Validation.MatcherGivesPattern | hotal_manage/html_files/js_files/formHander.js:58 | every string the email matcher accepts has the `a@b.c` shape of the regular expression |
| Validation.PatternGivesMatcher | hotal_manage/html_files/js_files/formHander.js:58 | every string of the `a@b.c` shape is accepted by the email matcher |
| Validation.EmailMatcherIsPattern | hotal_manage/html_files/js_files/formHander.js:58 | the email matcher accepts exactly the strings `a@b.c` in which `a`, `b` and `c` are non-empty and free of white space and `@` |
| Validation.LengthRules | hotal_manage/html_files/js_files/formHander.js:48-91 | name needs at least 3 trimmed characters, address at least one, purpose at least 10, each failing with its own message |
| Validation.DigitRules | hotal_manage/html_files/js_files/formHander.js:53-68 | phone passes exactly when its trimmed value is 10 ASCII digits, aadhar when it is 12, each failing with its own message |
| Validation.EmailRule | hotal_manage/html_files/js_files/formHander.js:57-60 | email passes exactly when its trimmed value has the `a@b.c` shape, and its message is "Enter valid email." |
| Validation.DateAndCountRules | hotal_manage/html_files/js_files/formHander.js:69-87 | check-in passes exactly when it is non-empty and parses to today or later. Check-out passes exactly when it is non-empty, the form has one check-in control, both dates parse and check-out is strictly after the untrimmed check-in. Adults passes exactly when it is non-empty and converts to a number of at least 1 |
| Validation.UnknownFieldPasses | hotal_manage/html_files/js_files/formHander.js:92-94 | a control whose name has no rule passes with an empty message |
| Validation.FailureHasMessage | hotal_manage/html_files/js_files/formHander.js:48-94 | only a field with a rule can fail, and a failure always carries a non-empty message |
| Validation.PaddingIsIgnored | hotal_manage/html_files/js_files/formHander.js:40 | white space typed around a field's value never changes that field's own verdict or message |
| Validation.ShortPhoneRefused | hotal_manage/html_files/js_files/formHander.js:53-56 | a five-digit phone number fails |
| Validation.TenDigitPhoneAccepted | hotal_manage/html_files/js_files/formHander.js:53-56 | a ten-digit phone number passes |
| FormHandler.Named | hotal_manage/html_files/js_files/formHander.js:110 | `el => el.name`: the control has a non-empty name |
| FormHandler.NamedElements | hotal_manage/html_files/js_files/formHander.js:110 | `Array.from(form.elements).filter(el => el.name)` |
| FormHandler.IsCheckinControl | hotal_manage/html_files/js_files/formHander.js:78 | the control is named `checkin` |
| FormHandler.CheckinValue | hotal_manage/html_files/js_files/formHander.js:78 | `form.elements['checkin'].value` as the check-out rule uses it: the raw value of the one control named `checkin`, or no date when there are several or none |
| FormHandler.FieldCheck | hotal_manage/html_files/js_files/formHander.js:114 | `this._validateField(el.name, el)` for every control of one form |
| FormHandler.Put | hotal_manage/html_files/js_files/formHander.js:117 | `errors[el.name] = msg`: an existing key keeps its place and takes the new message, a new key goes last |
| FormHandler.ErrorsOf | hotal_manage/html_files/js_files/formHander.js:111-119 | the `errors` object the loop builds: each control in turn, a failing one assigning its message under its name |
| FormHandler.FormErrors | hotal_manage/html_files/js_files/formHander.js:109-121 | the `errors` object of a whole form: the loop over its named controls, with the form's check-in value |
| FormHandler.ValuesOf | hotal_manage/html_files/js_files/formHander.js:26-31 | the object `getValues` builds: each named control in turn sets its trimmed value under its name |
| FormHandler.CheckinValueSingle | hotal_manage/html_files/js_files/formHander.js:78 | with exactly one control named `checkin`, the check-out rule reads that control's raw value |
| FormHandler.CheckinValueShared | hotal_manage/html_files/js_files/formHander.js:78 | with two or more controls named `checkin`, the check-out rule reads no date |
| FormHandler.Fields | hotal_manage/html_files/js_files/formHander.js:164 | the key list of the error object, one key per entry, in order |
| FormHandler.PutFields | hotal_manage/html_files/js_files/formHander.js:117 | `errors[k] = m` leaves the key order alone when `k` is already a key, and otherwise appends `k` |
| FormHandler.PutMessages | hotal_manage/html_files/js_files/formHander.js:117 | storing a field's own rule message keeps every entry paired with its field's message |
| FormHandler.PutHead | hotal_manage/html_files/js_files/formHander.js:117 | after an assignment the error object is non-empty and its first key is unchanged |
| FormHandler.ErrorMessagesAreRuleMessages | hotal_manage/html_files/js_files/formHander.js:113-119 | every message in `errors` is the message of its own field's rule |
| FormHandler.DedupMembers | hotal_manage/html_files/js_files/formHander.js:117 | removing repeated names keeps the same set of names |
| FormHandler.DedupDistinct | hotal_manage/html_files/js_files/formHander.js:117 | after removing repeated names, no name occurs twice |
| FormHandler.FailingNamesMembers | hotal_manage/html_files/js_files/formHander.js:113-119 | a name is among the failing names exactly when some control of that name fails |
| FormHandler.ErrorsOfStep | hotal_manage/html_files/js_files/formHander.js:113-119 | one iteration of the loop leaves `errors` alone for a passing control and assigns its message under its name for a failing one |
| FormHandler.ErrorsInElementOrder | hotal_manage/html_files/js_files/formHander.js:110-119 | the keys of `errors` are the failing names without repetition, each at the position of its first failing control |
| FormHandler.ErrorsExactlyFailing | hotal_manage/html_files/js_files/formHander.js:110-121 | `errors` has a key exactly for each name with a failing control, no key twice, each with its rule's message |
| FormHandler.NoErrorsIffAllPass | hotal_manage/html_files/js_files/formHander.js:111-121 | `errors` is empty exactly when every named control passes |
| FormHandler.FirstErrorIsFirstFailing | hotal_manage/html_files/js_files/formHander.js:164 | the first key of `errors` is the name of the first failing control |
| FormHandler.FirstErrorMessage | hotal_manage/html_files/js_files/formHander.js:162-166 | a rejected form reports the rule message of its first failing named control |
| FormHandler.NamedElementsPass | hotal_manage/html_files/js_files/formHander.js:110 | all controls of `Array.from(form.elements).filter(el => el.name)` pass exactly when every named control of the form passes |
| FormHandler.ValuesKeys | hotal_manage/html_files/js_files/formHander.js:26-31 | the values object has a key exactly for each non-empty control name |
| FormHandler.ValuesAtLast | hotal_manage/html_files/js_files/formHander.js:29 | a name holds the trimmed value of the last control of that name |
| FormHandler.ValuesHoldTrimmed | hotal_manage/html_files/js_files/formHander.js:29 | every value in the values object is already trimmed |
| FormHandler.ValuesAreTrimmed | hotal_manage/html_files/js_files/formHander.js:26-31 | the values object has exactly the named controls as keys, each holding the trimmed value of the last control of that name, and no value changes when trimmed again |
| FormHandler.CustomerFormHandler.constructor | hotal_manage/html_files/js_files/formHander.js:5-10 | the handler is bound to its store and storage key |
| FormHandler.CustomerFormHandler.GetValues | hotal_manage/html_files/js_files/formHander.js:26-31 | the loop computes the values object: one key per named control, each holding the trimmed value |
| FormHandler.CustomerFormHandler.ValidateForm | hotal_manage/html_files/js_files/formHander.js:109-122 | the loop computes the error object of the form; `valid` holds exactly when that object is empty and exactly when every named control passes |
| FormHandler.CustomerFormHandler.SaveToLocalStorage | hotal_manage/html_files/js_files/formHander.js:141-148 | on a successful write the record, stamped with the new id, is appended to the stored list and returned; on a failed write storage is unchanged and `null` comes back |
| FormHandler.CustomerFormHandler.OnSubmit | hotal_manage/html_files/js_files/formHander.js:159-179 | an invalid form stores nothing and reports its first error; a valid form either appends exactly the trimmed values with `submittedAt` and a fresh id, or reports a failed save with storage unchanged |
| Viewer.QueryOf | hotal_manage/html_files/js_files/viewer.js:46 | `(searchInput.value \|\| '').trim().toLowerCase()` |
| Viewer.Matches | hotal_manage/html_files/js_files/viewer.js:49-51 | the lower-cased name includes the query, or the first ten characters of `submittedAt` do |
| Viewer.Matcher | hotal_manage/html_files/js_files/viewer.js:48-52 | the filter callback of `_filter` for one query |
| Viewer.Search | hotal_manage/html_files/js_files/viewer.js:45-53 | `_filter()`: the stored items reversed for a blank query, otherwise the matching items reversed |
| Viewer.QueryIdempotent | hotal_manage/html_files/js_files/viewer.js:46 | normalising an already normalised query changes nothing |
| Viewer.MatchIsFieldHit | hotal_manage/html_files/js_files/viewer.js:48-51 | a match is a hit in the lower-cased name or anywhere in `submittedAt` |
| Viewer.SearchBlankReverses | hotal_manage/html_files/js_files/viewer.js:46-47 | a blank or all-white-space query lists every item, latest first |
| Viewer.SearchKeepsMatches | hotal_manage/html_files/js_files/viewer.js:46-52 | a non-blank query lists exactly the items whose lower-cased name or first ten characters of `submittedAt` contain the lower-cased trimmed query, in reverse stored order |
| Seqs.ReverseMembersAll | hotal_manage/html_files/js_files/viewer.js:47 | reversing keeps the same items |
| Seqs.ReverseMembers | hotal_manage/html_files/js_files/viewer.js:47 | an item is in the reversed list exactly when it is in the list |
| Viewer.HasIdValue | hotal_manage/html_files/js_files/viewer.js:124 | `item.id === id` |
| Viewer.Others | hotal_manage/html_files/js_files/viewer.js:124 | the callback `item => item.id !== id` |
| Viewer.DeleteById | hotal_manage/html_files/js_files/viewer.js:124 | `arr.filter(item => item.id !== id)` |
| Viewer.DeleteRemovesExactlyId | hotal_manage/html_files/js_files/viewer.js:124 | deleting removes every item whose id equals the given id and keeps every other item, with its number of occurrences and its relative order |
| Viewer.DeleteIdempotent | hotal_manage/html_files/js_files/viewer.js:124 | deleting an id twice equals deleting it once |
| Viewer.DeleteAbsentId | hotal_manage/html_files/js_files/viewer.js:124 | deleting an id that no item carries changes nothing |
| Viewer.Stamp | hotal_manage/html_files/js_files/viewer.js:154 | `if (!item.id) item.id = <fresh id>` for one item |
| Viewer.StampIds | hotal_manage/html_files/js_files/viewer.js:153-155 | the `forEach`: item `i` stamped with `freshId(i)` when it lacks a truthy id |
| Viewer.AllObjects | hotal_manage/html_files/js_files/viewer.js:153-154 | every array element is an object, so `item.id = …` does not throw |
| Viewer.Objects | hotal_manage/html_files/js_files/viewer.js:149 | the objects of an array of objects, in order |
| Viewer.MergeImport | hotal_manage/html_files/js_files/viewer.js:149-156 | parse failure, non-array and non-object item each fail; otherwise the stored items followed by the stamped imported ones |
| Viewer.ImportRejects | hotal_manage/html_files/js_files/viewer.js:149-154 | unparseable JSON, a non-array value and an array holding a non-object each make the import fail, each for its own reason |
| Viewer.ImportAppends | hotal_manage/html_files/js_files/viewer.js:151-156 | an array of objects is appended after the stored items, which stay unchanged. Every appended item has a truthy id. An item that had one is unchanged. Any other item differs only by its fresh id |
| Viewer.StampKeepsFields | hotal_manage/html_files/js_files/viewer.js:154 | giving an item an id changes no other field, so every search finds it exactly as before |
| Viewer.AsItems | hotal_manage/html_files/js_files/viewer.js:149 | an exported list reads back as an array of the same objects |
| Viewer.ReimportDuplicates | hotal_manage/html_files/js_files/viewer.js:152-156 | re-importing stored items that all have ids appends them unchanged, so the merge does not remove duplicate ids |
| Viewer.EscapeHtml | hotal_manage/html_files/js_files/viewer.js:179-186 | five one-character `replaceAll`s: `&` first, then `<`, `>`, `"` and `'` |
| Viewer.Entity | hotal_manage/html_files/js_files/viewer.js:181-185 | the HTML character reference each of the five characters becomes, or the character itself |
| Viewer.EscapeEach | hotal_manage/html_files/js_files/viewer.js:179-186 | the per-character reference escape, the independent definition `EscapeHtml` is proved equal to |
| Viewer.Unescape | hotal_manage/html_files/js_files/viewer.js:179-186 | decoding of the five character references as an HTML parser reads them, the inverse `EscapeHtml` is proved against |
| Viewer.IsMarkup | hotal_manage/html_files/js_files/viewer.js:182-185 | the four characters besides `&` that escaping removes |
| Viewer.ReplaceSingle | hotal_manage/html_files/js_files/viewer.js:181 | on a one-character string, replacing `c` gives the replacement when the character is `c` and the string itself otherwise |
| Viewer.LaterLayersAbsent | hotal_manage/html_files/js_files/viewer.js:182-185 | the last four replacements leave a string without `<`, `>`, `"` and `'` unchanged |
| Viewer.EscapeAmp | hotal_manage/html_files/js_files/viewer.js:181 | `&` becomes `&amp;` |
| Viewer.EscapeLt | hotal_manage/html_files/js_files/viewer.js:182 | `<` becomes `&lt;` |
| Viewer.EscapeGt | hotal_manage/html_files/js_files/viewer.js:183 | `>` becomes `&gt;` |
| Viewer.EscapeQuot | hotal_manage/html_files/js_files/viewer.js:184 | `"` becomes `&quot;` |
| Viewer.EscapeApos | hotal_manage/html_files/js_files/viewer.js:185 | `'` becomes `&#39;` |
| Viewer.EscapeOneChar | hotal_manage/html_files/js_files/viewer.js:179-186 | each character escapes to its own HTML character reference, or to itself when it is not one of the five |
| Viewer.EscapeAppend | hotal_manage/html_files/js_files/viewer.js:179-186 | escaping a concatenation is escaping each part |
| Viewer.EscapeIsPerCharacter | hotal_manage/html_files/js_files/viewer.js:179-186 | the chain of five `replaceAll`s, `&` first, is a per-character escape: no step touches the references inserted by an earlier one |
| Viewer.UnescapeEntity | hotal_manage/html_files/js_files/viewer.js:179-186 | decoding reads the reference of one escaped character back as that character |
| Viewer.UnescapeEach | hotal_manage/html_files/js_files/viewer.js:179-186 | decoding the per-character escape gives the original text |
| Viewer.UnescapeInvertsEscape | hotal_manage/html_files/js_files/viewer.js:179-186 | decoding the five character references in escaped text gives the original text back |
| Viewer.EntityHasNoMarkup | hotal_manage/html_files/js_files/viewer.js:179-186 | no character's escape contains `<`, `>`, `"` or `'` |
| Viewer.EscapeEachHasNoMarkup | hotal_manage/html_files/js_files/viewer.js:179-186 | the per-character escape of any text contains no `<`, `>`, `"` or `'` |
| Viewer.EscapeRemovesMarkup | hotal_manage/html_files/js_files/viewer.js:179-186 | escaped text contains no `<`, `>`, `"` or `'` |
| Viewer.EscapePlainUnchanged | hotal_manage/html_files/js_files/viewer.js:179-186 | text without any of the five special characters is left unchanged |
| Viewer.SubmissionViewer.constructor | hotal_manage/html_files/js_files/viewer.js:5-15 | a new viewer is bound to its store and key and has no data loaded |
| Viewer.SubmissionViewer.Load | hotal_manage/html_files/js_files/viewer.js:41-43 | the loaded data is the stored list, which is empty when the key is absent |
| Viewer.SubmissionViewer.Filter | hotal_manage/html_files/js_files/viewer.js:45-53 | a blank query lists every loaded item exactly once, element `i` being item `n-1-i`. Any other query lists exactly the reversed items that match, each as often as it is stored. In both cases the result is a subsequence of the reversed data |
| Viewer.SubmissionViewer.Delete | hotal_manage/html_files/js_files/viewer.js:122-128 | when the write happens the stored list loses exactly the items with that id, and otherwise storage is unchanged; the data is reloaded either way |
| Viewer.SubmissionViewer.ImportJSON | hotal_manage/html_files/js_files/viewer.js:143-169 | with no file nothing happens. A failed parse, check or id assignment leaves storage and data unchanged and reports why. Otherwise the merge is written when the write succeeds, success is reported either way, and the data is reloaded |
| Viewer.SubmissionViewer.ClearAll | hotal_manage/html_files/js_files/viewer.js:31-35 | the key is removed from storage, nothing else changes, and the viewer shows no data |

## Left out

- FormHandler.CheckinValue: element ids, input types and checkedness are not modelled. The browser's `form.elements['checkin']` matches a control by id or by name, and when several controls match it returns a `RadioNodeList` whose value is that of its checked radio button (`""` when none is checked). The model finds the check-in control by name alone, and it treats every name shared by several controls as reading `""`, which is no date.
- DOM and UI:
  - CSS classes and `data-error` attributes set by `_validateField`;
  - `onInput` and the `blur` listener, which only call the rule table for that UI feedback;
  - `showMessage` and its timers;
  - `clearForm`;
  - `_render`, its HTML template and `formatDate`;
  - `alert`, `confirm` (the clear-all and delete handlers are modelled as confirmed) and `console.error`;
  - the click delegation in `_handleClick` (it passes a row's `data-id` to `_delete`).
- `_exportJSON`: Blob, object URL and download link. Only the re-import of an export is stated (`Viewer.ReimportDuplicates`).
- `FileReader`:
  - it is asynchronous, and the file is modelled as its already-parsed content;
  - resetting the file input is not modelled;
  - `JSON.parse` is not modelled character by character. It is an oracle that yields unparseable, not an array, or an array of items.
- JSON values in storage and imports are modelled as objects whose fields are all strings. Not modelled:
  - numeric, boolean, nested or `null` field values;
  - arrays used as items, which are objects in JavaScript;
  - a stored value that is not an array;
  - corrupt stored JSON, which `getItem` reads as an empty list. Storage always holds a list.
- Object key order for integer-like keys (JavaScript lists those first) is not modelled. The error object is kept in plain insertion order.
- The form:
  - it is the sequence of its controls as (name, value) pairs;
  - `FormData` rules on successful controls (disabled controls, unchecked boxes, files, buttons) are not modelled. Every named control contributes;
  - the check-out rule reads `form.elements['checkin'].value`. With no control named `checkin`, the source's check-out rule throws a `TypeError` and the submit handler stops, storing nothing. The model does not have the throw: it treats the case like several controls, so check-out fails and nothing is stored either.
- `Date` and `Number` parsing, `Infinity` and `NaN` are oracles in `Validation.Env`. Only the comparisons the rules make are modelled.
- Text.Lower: only ASCII letters are lower-cased. Unicode case mapping is not modelled.
- String lengths count characters, not UTF-16 code units, so astral characters differ from JavaScript's `length`.
- Ids:
  - `Date.now().toString(36)` and the random suffix are parameters (`Records.Id`, any non-empty string);
  - their uniqueness is not claimed. Two saves in the same millisecond get the same id in the source.
- Concurrency between tabs sharing local storage is not modelled.
