# Calorie tracker: entry form and activity list

A model of the two components at the heart of a small React calorie
tracker. The **entry form** keeps one draft activity (id, category, name,
calories). Three inputs change it one field at a time. Selecting an entry
for editing loads that entry into the draft. Submitting hands the draft to
the store as a `save-activity` action and starts a new draft from the
defaults under a fresh id. The submit control is enabled only for a draft
whose name has something other than white space and whose calories are
positive; its caption says "Guardar Comida" for the food category (1) and
"Guardar Ejercicio" otherwise. The **activity list** shows a notice when
there are no activities. Otherwise it shows one row per activity, in order.
Each row has a category badge and two controls that dispatch
`set-activeId` and `delete-activity` with the row's id.

Modules:

- `Activities` (activities.dfy): the `Activity` record and the three
  actions the components dispatch.
- `JsString` (js_string.dfy): JavaScript's `trim`, which the validator uses.
- `Form` (form.dfy): the validator, the caption, the edit lookup, and the
  class `ActivityForm` whose `draft` field the setters, the edit effect and
  submit overwrite.
- `ActivityList` (activity_list.dfy): the badge lookup over the category
  catalog, the emptiness test, the rows and the rendered view.

The category catalog is a parameter (a sequence of id/name entries). Fresh
ids are parameters too. An unset selection (`activeId`) is the empty string,
as the form's `if (state.activeId)` treats it.

## Model

| member | source | states |
|---|---|---|
| Form.InitialDraft | src/components/Form.tsx:12-17 | the default draft has the given id and category 1, can never be submitted, and offers to save food |
| Form.IsValidActivity | src/components/Form.tsx:29-32 | valid exactly when the name holds a character that is not white space and calories > 0; so a blank name or calories <= 0 is invalid whatever the other field |
| Form.SubmitLabel | src/components/Form.tsx:114 | the caption is "Guardar Comida" iff the category is 1, and "Guardar Ejercicio" iff it is not |
| Form.WithId | src/components/Form.tsx:24 | the filter keeps only activities with the given id and keeps every one of them |
| Form.FirstIndexWithId | src/components/Form.tsx:24 | the position of the first activity with the id: it has the id and no earlier one does |
| Form.FilterHeadIsFirst | src/components/Form.tsx:24 | when some activity has the id, the filter is non-empty and its head is the first such activity in list order |
| Form.LookupFindsOwnEntry | src/components/Form.tsx:24 | with unique ids, looking up an entry's id finds that entry's position |
| Form.ActivityForm.constructor | src/components/Form.tsx:20 | a form starts with the default draft under the given id, which cannot be submitted |
| Form.ActivityForm.SetCategory | src/components/Form.tsx:62-65 | only the category changes; id, name and calories stay |
| Form.ActivityForm.SetName | src/components/Form.tsx:85-88 | only the name changes; id, category and calories stay |
| Form.ActivityForm.SetCalories | src/components/Form.tsx:104-107 | only the calories change; id, category and name stay |
| Form.ActivityForm.SelectForEdit | src/components/Form.tsx:22-27 | with no selection the draft is unchanged; otherwise it becomes the first activity in list order with the selected id |
| Form.ActivityForm.Submit | src/components/Form.tsx:34-45 | emits `save-activity` with exactly the draft before submit; the new draft is the default under the fresh id and cannot be submitted |
| JsString.TrimStart | src/components/Form.tsx:31 | the result is a suffix of the input, everything dropped is white space, and the result does not start with white space |
| JsString.TrimEnd | src/components/Form.tsx:31 | the result is a prefix of the input, everything dropped is white space, and the result does not end with white space |
| JsString.Trim | src/components/Form.tsx:31 | the result is a slice of the input with only white space around it and none at its ends; it is empty iff the input is all white space |
| JsString.TrimIdempotent | src/components/Form.tsx:31 | trimming an already trimmed name changes nothing |
| ActivityList.CategoryName | src/components/ActivityList.tsx:15 | one entry per catalog entry; entry i is that entry's name if its id matches and the empty string otherwise |
| ActivityList.UnknownCategoryRendersBlank | src/components/ActivityList.tsx:15 | an id that no catalog entry has gives only empty strings, so the badge renders as nothing |
| ActivityList.KnownCategoryRendersItsName | src/components/ActivityList.tsx:15 | with unique catalog ids, a known id gives its name at exactly one position and empty strings elsewhere, so the badge renders as that name |
| ActivityList.IsEmptyActivities | src/components/ActivityList.tsx:18 | true exactly when there are no activities |
| ActivityList.Rows | src/components/ActivityList.tsx:26-57 | one row per activity, in order; row k is keyed by, shows, and dispatches `set-activeId` / `delete-activity` with activity k's id |
| ActivityList.Render | src/components/ActivityList.tsx:24 | the empty-list notice exactly when there are no activities, the rows otherwise |
| ActivityList.EditAndDeleteTargetTheirRow | src/components/ActivityList.tsx:41-49 | with unique ids, the id row k's edit control dispatches makes the form's lookup find activity k, and the id its delete control dispatches belongs to no other row |

## Left out

- The store's reducer and the category catalog's contents are not part of this model. Actions are only built and returned; what the store does with them is not stated.
- Markup, styling, icons and the badge colour (src/components/ActivityList.tsx:29) are presentation only.
- React's hook machinery is not modelled. The selection effect is a method the caller invokes when the selection changes. The memoised values are plain functions.
- Id generation (`uuidv4`) is a library call. The first id and every fresh id after a submit are parameters. In the source the first id is generated once, when the module loads.
- Converting the input text to a number (`+e.target.value`) and JavaScript's floating-point numbers are not modelled. Category and calories are integers, and the setters take the converted value.
- Form.ActivityForm.SelectForEdit requires that some activity has the selected id. In the source a missing id makes the filter empty, and the draft becomes `undefined`, which the form cannot render.
- Form.ActivityForm.Submit does not require a valid draft, because the handler itself does not check. Only the disabled submit control keeps an invalid draft from being submitted.
- `preventDefault` and the DOM event objects are not modelled.
- JsString.Trim works on Unicode scalar values while JavaScript strings are UTF-16 code units. Every character that trimming removes lies in the Basic Multilingual Plane, so the result is the same.
