# bankr.ai form state and model cache, in Dafny

This project models the state logic of the bankr.ai client and one piece of its server.

- **RecurringExpenses** and **PersonalInfo** forms. A user picks a field from a fixed registry and types a value. Submitting upserts a `{field, value}` entry and clears the text box. Blank or whitespace-only input is ignored. The "current" panel lists the entries in registry order.
- **DocumentUpload** keeps a list of dropped files. A drop appends the accepted files. "Remove" filters out one position. The `onUpload` callback receives the newly dropped files after a drop and the whole remaining list after a remove.
- **`updatePersonalInfo`** builds the JSON body `{user_name: "dragon_hacks", [field]: value}`.
- **FinancialInfo** holds a two-field record. Each input's change event updates its own field.
- **`ModelManager`** (Python server) caches a loaded retrieval model under `"test_index"` with a timestamp. `get_model` loads on a miss and refreshes the timestamp on a hit. `clear_cache` deletes entries older than `cache_timeout` (3600 s).

Files, one module each:

- `wrappers.dfy`: `Option`.
- `js_text.dfy`: `String.prototype.trim` over ECMAScript's WhiteSpace and LineTerminator characters.
- `entries.dfy`: entries, `findIndex`/`find`, the upsert, and the registry-ordered display.
- `entry_form.dfy`: the form class shared by both entry forms, since their handlers are identical.
- `recurring_expenses.dfy`, `personal_info.dfy`: the registries, icons, initial state and display of each form.
- `document_upload.dfy`, `api.dfy`, `model_manager.dfy`, `financial_info.dfy`.

Each React handler is modelled as one atomic step in which `prev` is the current state. The server's clock is an integer parameter `now`. The model loader `RAGMultiModalModel.from_index` is a function parameter `load`.

What the modelled components do, and do not do:

- Submitting an entry form updates local state only; the forms make no network call and fetch nothing when they mount.
- Files are kept in a list and passed to `onUpload`; the component uploads nothing itself.
- The display skips fields that are not in the form's registry.

## Model

| member | source | states |
|---|---|---|
| `JsText.TrimStart` | src/components/RecurringExpenses.tsx:26 | the result is the suffix of the input left after removing the leading whitespace, and it starts with a non-whitespace character or is empty |
| `JsText.TrimEnd` | src/components/RecurringExpenses.tsx:26 | the result is the prefix of the input left after removing the trailing whitespace, and it ends with a non-whitespace character or is empty |
| `JsText.Trim` | src/components/RecurringExpenses.tsx:26 | `s.trim()` is a slice of `s` with only whitespace outside it, and it is empty or both of its ends are non-whitespace |
| `JsText.IsBlank` | src/components/PersonalInfo.tsx:24 | `!s.trim()` holds exactly when every character of `s` is whitespace |
| `JsText.TrimKeepsContent` | src/components/RecurringExpenses.tsx:26 | an input with a non-whitespace character is not blank, and its trimmed form starts at the first such character |
| `Entries.FindIndex` | src/components/RecurringExpenses.tsx:28 | returns -1 exactly when no entry has the field; otherwise returns the first index holding it |
| `Entries.Find` | src/components/RecurringExpenses.tsx:173 | returns undefined only when no entry has the field; otherwise returns an entry of the list with that field |
| `Entries.FindAtFindIndex` | src/components/PersonalInfo.tsx:85 | `find` returns the element at the index `findIndex` reports, or undefined when that index is -1 |
| `Entries.FirstIndexIsFindIndex` | src/components/PersonalInfo.tsx:26 | any index that holds the field and has no earlier occurrence of it is the index `findIndex` returns |
| `Entries.Upsert` | src/components/RecurringExpenses.tsx:28-35 | an existing field keeps the length; a new field's entry is appended at the end; every position keeps its field; only positions of the submitted field change, and they become `{field, value}` with the raw value |
| `Entries.UpsertFind` | src/components/PersonalInfo.tsx:26-33 | after a submit, looking up the submitted field yields the new value; every other field yields what it yielded before |
| `Entries.UpsertExisting` | src/components/RecurringExpenses.tsx:30-33 | with distinct fields, updating an existing field changes exactly one index, the one holding that field, and keeps length and order |
| `Entries.UpsertPreservesUnique` | src/components/PersonalInfo.tsx:26-33 | if the entries had distinct field names before a submit, they still do after |
| `Entries.Rows` | src/components/RecurringExpenses.tsx:172-174 | at most one row per registry element; every row is a registered field together with the entry `find` locates for it |
| `Entries.RowsComplete` | src/components/PersonalInfo.tsx:84-86 | every registered field that has an entry gets a row showing that entry |
| `Entries.RowsAppend` | src/components/RecurringExpenses.tsx:172 | rows follow registry order: the rows of a registry prefix all come before the rows of the rest |
| `Entries.RowsSingle` | src/components/PersonalInfo.tsx:85-86 | one registry element yields one row when its field has an entry and none when it does not |
| `Entries.RowsShowEveryRegisteredEntry` | src/components/RecurringExpenses.tsx:172-174 | with distinct fields, every entry of a registered field is displayed with its own value |
| `EntryForms.EntryForm.constructor` | src/components/RecurringExpenses.tsx:9-11 | the form starts with the given selected field, an empty box and no entries |
| `EntryForms.EntryForm.SelectField` | src/components/RecurringExpenses.tsx:118 | the select changes only the selected field |
| `EntryForms.EntryForm.SetInput` | src/components/RecurringExpenses.tsx:146 | typing changes only the input value |
| `EntryForms.EntryForm.Submit` | src/components/RecurringExpenses.tsx:24-39 | blank input leaves entries and input unchanged; otherwise entries become the upsert of the raw input under the selected field and the input becomes `''`; the field-uniqueness invariant holds throughout; PersonalInfo.tsx:22-37 is the same handler |
| `RecurringExpenses.ExpenseFieldsDistinct` | src/components/RecurringExpenses.tsx:13-22 | the eight registry values are pairwise distinct |
| `RecurringExpenses.FieldIcon` | src/components/RecurringExpenses.tsx:49-101 | returns an icon exactly for the eight registered field values and null for any other string |
| `RecurringExpenses.FieldIconInverse` | src/components/RecurringExpenses.tsx:50-98 | the icon drawn for a field identifies it: mapping that icon back to its `case` label gives the field |
| `RecurringExpenses.FieldIconInjective` | src/components/RecurringExpenses.tsx:50-98 | two fields drawn with the same icon are the same field |
| `RecurringExpenses.NewRecurringExpenses` | src/components/RecurringExpenses.tsx:9-11 | initially `'rent'` is selected, the box is empty and there are no entries |
| `RecurringExpenses.ExpenseRows` | src/components/RecurringExpenses.tsx:172-185 | at most eight rows; each pairs an element of `expenseFields`, whose label is shown, with the entry `find` returns for its value in `entries`, whose value is shown; every element of `expenseFields` that has an entry gets such a row |
| `PersonalInfo.PersonalFieldsDistinct` | src/components/PersonalInfo.tsx:13-20 | the six registry values are pairwise distinct |
| `PersonalInfo.NewPersonalInfo` | src/components/PersonalInfo.tsx:9-11 | initially `'name'` is selected, the box is empty and there are no entries |
| `PersonalInfo.PersonalRows` | src/components/PersonalInfo.tsx:84-92 | at most six rows; each pairs an element of `personalFields`, whose label is shown, with the entry `find` returns for its value in `entries`, whose value is shown; every element of `personalFields` that has an entry gets such a row |
| `DocumentUpload.RemoveAt` | src/components/DocumentUpload.tsx:72 | for an index in range: the length drops by one, earlier elements keep their positions, later ones shift down by one; an out-of-range index changes nothing |
| `DocumentUpload.RemoveAtMultiset` | src/components/DocumentUpload.tsx:72 | removal loses exactly the removed file and no other |
| `DocumentUpload.RemoveUndoesDrop` | src/components/DocumentUpload.tsx:71-75 | removing the last file dropped restores the list as it was before that drop |
| `DocumentUpload.FilterOutIndex` | src/components/DocumentUpload.tsx:72 | the element-by-element filter on the index computes `RemoveAt` |
| `DocumentUpload.UploadList.constructor` | src/components/DocumentUpload.tsx:9 | the list starts empty |
| `DocumentUpload.UploadList.Drop` | src/components/DocumentUpload.tsx:11-14 | the accepted files are appended in order after the existing ones; `onUpload` receives only the accepted files |
| `DocumentUpload.UploadList.Remove` | src/components/DocumentUpload.tsx:71-75 | the list loses the file at the index; `onUpload` receives the full remaining list |
| `Api.ObjectLiteral` | src/services/api.ts:77-80 | evaluates a literal's properties left to right, a later key overriding an earlier one; its meaning is stated by `Api.ObjectLiteralKeys` and `Api.ObjectLiteralLastWins` |
| `Entries.RowsCompleteAll` | src/components/RecurringExpenses.tsx:172-174 | every registered field with an entry in the list is shown with the entry `find` returns for it |
| `Api.ObjectLiteralKeys` | src/services/api.ts:77-80 | a key is in the literal exactly when some property assigns it |
| `Api.ObjectLiteralLastWins` | src/services/api.ts:78-79 | each key maps to the value of the last property that assigns it |
| `Api.TwoPropertyKeys` | src/services/api.ts:77-80 | a two-property literal has exactly the two keys, or one when they coincide |
| `Api.Payload` | src/services/api.ts:77-80 | the payload always has `user_name`; it maps `field` to `value`; it has no other keys; when `field` is not `user_name`, `user_name` is `"dragon_hacks"` |
| `Api.PayloadIdentityOverride` | src/services/api.ts:78-79 | when `field` is `user_name`, the computed key wins and the payload is `{user_name: value}` |
| `ModelManager.Unexpired` | app/model_manager.py:45-50 | keeps exactly the entries whose age `now - timestamp` is at most the timeout, including an age exactly equal to it; never adds keys; kept entries are unchanged |
| `ModelManager.FreshEntrySurvives` | app/model_manager.py:29 | an entry stamped at `now` survives a clean-up at `now` |
| `ModelManager.UnexpiredIdempotent` | app/model_manager.py:43-50 | cleaning up twice at the same time equals cleaning up once |
| `ModelManager.AtMostOneEntry` | app/model_manager.py:26-40 | a cache holding only `"test_index"` holds at most one model |
| `ModelManager.ModelManager.constructor` | app/model_manager.py:8-10 | a new manager has an empty cache and `cache_timeout == 3600` |
| `ModelManager.ModelManager.GetModel` | app/model_manager.py:22-41 | `device` defaults to `"mps"`; on a hit the cached model is returned without loading; on a miss the loader is called once with (`"test_index"`, `"./indexes"`, device); either way `"test_index"` then holds (model, now); only `"test_index"` is ever a key |
| `ModelManager.ModelManager.ClearCache` | app/model_manager.py:43-51 | the cache becomes `Unexpired` of the old cache at `now` with the manager's timeout |
| `FinancialInfo.Set` | src/components/FinancialInfo.tsx:22-25 | the named field takes the new value; the other field keeps its value |
| `FinancialInfo.ExtensionalByInputs` | src/components/FinancialInfo.tsx:3-6 | a record is determined by the values its two inputs show |
| `FinancialInfo.SetIdempotent` | src/components/FinancialInfo.tsx:22-25 | applying the same change twice equals applying it once |
| `FinancialInfo.SetLastWins` | src/components/FinancialInfo.tsx:22-25 | of two successive changes to one field, the last one wins |
| `FinancialInfo.SetCommutes` | src/components/FinancialInfo.tsx:22-25 | changes to the two different fields commute |
| `FinancialInfo.FinancialForm.constructor` | src/components/FinancialInfo.tsx:14 | the initial `formData` equals the `data` prop |
| `FinancialInfo.FinancialForm.HandleChange` | src/components/FinancialInfo.tsx:20-26 | `formData` becomes the old record with the named field set to the new value |

## Left out

- JSX, CSS classes and SVG path data. `getFieldIcon`'s pictures are the eight constructors of `Icon`. The total row's gating is also left out.
- `formatCurrency` and the total. Both use floating-point `parseFloat` and the foreign `Intl.NumberFormat`.
- React scheduling. Each handler is one atomic step, with `prev` equal to the current state. The `useEffect` that forwards `formData` to `onChange` is not modelled.
- react-dropzone's MIME filtering and drag state. `Drop` receives the files the library has already accepted.
- Network calls in `src/services/api.ts`: the axios instance, `getPersonalInfo`, the POST itself, `uploadFileToIndex` and the logging. Only the payload is modelled.
- UTF-16 code units. JavaScript strings are sequences of UTF-16 code units, and `string` here is a sequence of Unicode scalar values, so a string holding a lone surrogate has no counterpart in the model. No modelled result depends on this: every character `trim` removes is in the Basic Multilingual Plane, and none is a surrogate.
- JSON key order. `Api.Payload` is a map, so the model says nothing about the order in which keys are serialised.
- `ModelManager`'s cleanup thread and its 300-second sleep loop, which are concurrency.
- `time.time()`, which is the integer parameter `now`. Only differences and comparisons of times matter.
- The log line in `clear_cache`, which is I/O.
- `ModelManager.ModelManager.GetModel`: the loader is modelled as a pure function of its three arguments. The model does not capture that two loads with the same arguments could return different objects.
- `ModelManager.ModelManager.GetModel`: a `from_index` call that raises is not modelled. In the source that leaves the cache untouched and the exception propagates to the caller.
- `FinancialInfo.FinancialForm.HandleChange`: the event's `name` is one of the two input names (`InputName`). The JavaScript spread would add a new key for any other name, and no input of the component produces one.
- The FastAPI app, the pydantic schemas, navigation, pages and styling config. None of them holds modelled state logic.
