# lks-formics form engine in Dafny

A model of the core of the lks-formics form builder, with proofs about that model.
The core covers five parts:

- **Field type registry** (`FormElements`): a closed set of ten type tags and a constant table giving six of them a behaviour bundle. The modelled bundles are text, select, checkbox and number.
- **Field behaviour:** each kind's `construct` defaults, its `validate` rule and its property schema limits.
  - The property editors' `applyChanges` replaces an element's attributes wholesale.
  - The option-list edits of select and checkbox.
  - The data-entry components, which record a value into the shared submit map.
- **The designer's drop resolution** (`onDragEnd`) over the draft element list held by the designer state (`useDesigner`), and the canvas click that clears the selection.
- **The public form** (`FormSubmit`): the value map, one validation pass that collects failing ids, the all-or-nothing submission, and the terminal thank-you view.
- **The server actions in `actions/form.ts`:**
  - the admin/owner scoping of the `where` filter;
  - the missing-user and non-admin guards;
  - the published-only public calls;
  - the per-day bucketing of `GetMostUserFormByDate`.
  - The kernels `getDates` and `idGenerator` from `lib/utils.ts` are modelled with them.

Modules, one per file:

| module | file |
|---|---|
| `Wrappers` | `wrappers.dfy` |
| `ElementTypes` | `element_types.dfy` |
| `Utils` | `utils.dfy` |
| `DesignerContext` | `designer_context.dfy` |
| `OptionsEditor` | `options_editor.dfy` |
| `TextFieldElement` | `text_field.dfy` |
| `SelectFieldElement` | `select_field.dfy` |
| `NumberFieldElement` | `number_field.dfy` |
| `CheckboxFieldElement` | `checkbox_field.dfy` |
| `FormElements` | `form_elements.dfy` |
| `Designer` | `designer.dfy` |
| `FormSubmit` | `form_submit.dfy` |
| `FormActions` | `form_actions.dfy` |

Modelling choices:

- **Attributes:** `extraAttributes` is a tagged union with one variant per kind. The source's `label` attribute is called `labelText`, because `label` is a reserved word in Dafny.
- **Values:** a reported value is `Str` (a string) or `Strs` (a list of strings). `Length()` is JavaScript's `.length` of either. For a string that is its number of UTF-16 code units (`ElementTypes.Utf16Length`), not its number of characters: a character above U+FFFF counts twice. The property schemas measure their string bounds the same way, as zod's `min` and `max` do.
- **Well-formed elements:** `ElementTypes.WellFormed` says that an element's attribute record is the variant of its own kind. `FormElements.Construct` produces well-formed elements, and each property editor is called only for an element of its own kind, because the sidebar picks the editor by the element's type.
- **The designer hook:** the `useDesigner` hook is not part of this model. Its state is the class `DesignerContext.DesignerState`:
  - `addElement` is `splice(index, 0, e)`: an index past the end appends.
  - `removeElement` filters out the id and clears the selection if it held that element.
  - `updateElement` replaces the element at `findIndex`, and does nothing when the id is absent.
- **Errors:** a thrown `Error('Element not found')` in `onDragEnd` becomes the `ElementNotFound` result, and nothing changes. A thrown `UserNotFoundErr` becomes `Failure(UserNotFound)`.
- **Parameters:** randomness, the clock and the outcome of remote calls are parameters.
  - `random` for `Math.random()`.
  - `now` for `new Date().getTime()`.
  - `delivered` for whether the awaited `SubmitForm` call resolved.
  - `schemaValid` for the form schema of `CreateForm`.
  - `dayOfMonth` for `Date.getDate`.
- **Database calls:** each call is described by the `Query` it issues. The filters are given their meaning over `Form` records, so that the access rules can be stated.

## Model

| member | source | states |
|---|---|---|
| ElementTypes.TagSetClosed | src/components/FormElements.tsx:8-18 | there are exactly ten tags, all distinct and all listed, and exactly four of them are layout kinds |
| ElementTypes.ValueStore.constructor | src/components/FormSubmit.tsx:22 | the value map starts empty |
| ElementTypes.ValueStore.SubmitValue | src/components/FormSubmit.tsx:45-47 | the map afterwards holds `value` at `key`, and every other key is present and bound exactly as before |
| FormElements.Lookup | src/components/FormElements.tsx:55-62 | a tag has no registry entry exactly when it is a layout tag |
| FormElements.SixEntries | src/components/FormElements.tsx:55-62 | exactly six tags have an entry, and distinct tags have distinct entries |
| FormElements.Construct | src/components/FormElements.tsx:24 | dispatching `construct` yields a well-formed element with the given id, the requested tag and a non-required field |
| FormElements.ConstructOnlyVariesId | src/components/FormElements.tsx:24 | two constructions of one kind differ in nothing but their ids |
| FormElements.Validate | src/components/FormElements.tsx:39-42 | for every modelled kind, a value passes iff the field is not required or the value is non-empty |
| FormElements.ConstructedFieldAcceptsAll | src/components/FormElements.tsx:24 | a freshly constructed field of any modelled kind accepts every value |
| TextFieldElement.Construct | src/components/field/TextField.tsx:31-36 | the given id, type TextField, label "Text Field", helper "Helper Text", not required, placeholder "Value Here..." |
| TextFieldElement.Validate | src/components/field/TextField.tsx:277-287 | when required, valid iff the value's length is positive; when not required, always valid |
| TextFieldElement.ConstructedAcceptsAll | src/components/field/TextField.tsx:265-287 | a fresh text field accepts every value |
| ElementTypes.Utf16Length | src/components/field/TextField.tsx:38-43 | a string's length in UTF-16 code units lies between its number of characters and twice that number |
| ElementTypes.Utf16LengthConcat | src/components/field/TextField.tsx:38-43 | code-unit lengths add up over concatenation |
| ElementTypes.Utf16LengthIsSizeIffBmp | src/components/field/TextField.tsx:38-43 | the code-unit length equals the character count iff no character lies above U+FFFF |
| ElementTypes.AstralCharCountsTwice | src/components/field/TextField.tsx:38-43 | one character above U+FFFF has length 2, so on its own it meets the label's minimum of 2 |
| TextFieldElement.SchemaValid | src/components/field/TextField.tsx:38-43 | accepted values are text attributes whose label has 1 to 50 characters (2 to 50 code units) and whose helper text has at most 200 characters |
| TextFieldElement.DefaultsSatisfySchema | src/components/field/TextField.tsx:31-43 | the default attributes meet the property schema: label of 2 to 50 characters, helper text of at most 200, placeholder of at most 50 |
| TextFieldElement.BlurRecord | src/components/field/TextField.tsx:104-113 | the text is recorded under the element's id iff it validates; otherwise the map is unchanged |
| TextFieldElement.BlurRecordCorrected | src/components/field/TextField.tsx:104-113 | the corrected blur records the text under the element's id whether or not it validates, and changes no other key |
| TextFieldElement.ApplyChanges | src/components/field/TextField.tsx:158-170 | the element with that id gets the new attributes and keeps its id and tag; the selection is unchanged |
| TextFieldElement.SubmitProperties | src/components/field/TextField.tsx:38-43 | the change is applied iff the schema accepts the values; a rejected form changes nothing |
| TextFieldElement.FormComponent.constructor | src/components/field/TextField.tsx:85-90 | the input starts from the default value or "", and the error flag is the `isInvalid` prop |
| TextFieldElement.FormComponent.OnChange | src/components/field/TextField.tsx:103 | typing sets the input value and leaves the error flag alone |
| TextFieldElement.FormComponent.OnBlur | src/components/field/TextField.tsx:104-113 | the shown text is what is checked; without a submit callback nothing changes; otherwise error == not valid, and the map changes as `BlurRecord` says |
| SelectFieldElement.Construct | src/components/field/SelectField.tsx:40-46 | the given id, type SelectField, label "Select Field", helper "Helper Text", placeholder "Value Here...", not required, no options |
| SelectFieldElement.Validate | src/components/field/SelectField.tsx:363-369 | when required, valid iff the value's length is positive; otherwise always valid |
| SelectFieldElement.SchemaValid | src/components/field/SelectField.tsx:48-54 | accepted values are select attributes whose label has 1 to 50 characters (2 to 50 code units) and whose helper text has at most 200 characters; any option list |
| SelectFieldElement.DefaultsSatisfySchema | src/components/field/SelectField.tsx:40-54 | the default attributes meet the property schema |
| SelectFieldElement.ApplyChanges | src/components/field/SelectField.tsx:177-192 | the element gets the new attributes and keeps its id and tag; afterwards nothing is selected |
| SelectFieldElement.SubmitProperties | src/components/field/SelectField.tsx:48-54 | the change is applied iff the schema accepts the values; a rejected form changes neither elements nor selection |
| SelectFieldElement.FormComponent.constructor | src/components/field/SelectField.tsx:96-101 | the choice starts from the default value or "", and the error flag is the `isInvalid` prop |
| SelectFieldElement.FormComponent.OnValueChange | src/components/field/SelectField.tsx:114-120 | the choice is always recorded under the element's id; the error flag is "not valid" |
| NumberFieldElement.Construct | src/components/field/NumberField.tsx:32-39 | the given id, type NumberField, label "Number field", helper "Helper text", not required, placeholder "0", no max, no min |
| NumberFieldElement.Validate | src/components/field/NumberField.tsx:64-71 | when required, valid iff the value's length is positive; otherwise always valid |
| NumberFieldElement.ValidateIgnoresBounds | src/components/field/NumberField.tsx:64-71 | `max` and `min` play no part in validation |
| NumberFieldElement.SchemaValid | src/components/field/NumberField.tsx:41-48 | accepted values are number attributes whose label has 1 to 50 characters (2 to 50 code units) and whose helper text has at most 200 characters; min and max unconstrained |
| NumberFieldElement.DefaultsSatisfySchema | src/components/field/NumberField.tsx:32-48 | the default attributes meet the property schema |
| NumberFieldElement.BlurRecord | src/components/field/NumberField.tsx:142-148 | the text is recorded iff it validates; otherwise the map is unchanged |
| NumberFieldElement.ApplyChanges | src/components/field/NumberField.tsx:196-209 | the element gets the new attributes, max and min included, and keeps its id and tag; the selection is unchanged |
| NumberFieldElement.SubmitProperties | src/components/field/NumberField.tsx:41-48 | the change is applied iff the schema accepts the values |
| NumberFieldElement.FormComponent.constructor | src/components/field/NumberField.tsx:123-128 | the input starts from the default value or "", and the error flag is the `isInvalid` prop |
| NumberFieldElement.FormComponent.OnChange | src/components/field/NumberField.tsx:141 | typing sets the input value and leaves the error flag alone |
| NumberFieldElement.FormComponent.OnBlur | src/components/field/NumberField.tsx:142-148 | the shown text is what is checked; without a submit callback nothing changes; otherwise error == not valid, and the map changes as `BlurRecord` says |
| CheckboxFieldElement.Construct | src/components/field/CheckboxField.tsx:35-40 | the given id, type CheckboxField, label "Checkbox field", helper "Helper text", not required, no options |
| CheckboxFieldElement.Validate | src/components/field/CheckboxField.tsx:63-71 | when required, valid iff at least one item is selected; otherwise always valid |
| CheckboxFieldElement.SchemaValid | src/components/field/CheckboxField.tsx:42-47 | accepted values are checkbox attributes whose label has 1 to 50 characters (2 to 50 code units) and whose helper text has at most 200 characters |
| CheckboxFieldElement.DefaultsSatisfySchema | src/components/field/CheckboxField.tsx:35-47 | the default attributes meet the property schema |
| CheckboxFieldElement.Checked | src/components/field/CheckboxField.tsx:154-155 | checking appends the item after the unchanged earlier selection |
| CheckboxFieldElement.Unchecked | src/components/field/CheckboxField.tsx:156-159 | unchecking removes every copy of the item and keeps the count of every other item; an absent item leaves the list as it was |
| CheckboxFieldElement.UncheckedSplits | src/components/field/CheckboxField.tsx:156-159 | the filter works piecewise on a split list, so the remaining entries keep their order |
| CheckboxFieldElement.CheckThenUncheck | src/components/field/CheckboxField.tsx:153-160 | checking an unselected item and then unchecking it restores the selection |
| CheckboxFieldElement.ApplyChanges | src/components/field/CheckboxField.tsx:217-231 | the element gets the new attributes and keeps its id and tag; afterwards nothing is selected |
| CheckboxFieldElement.SubmitProperties | src/components/field/CheckboxField.tsx:42-47 | the change is applied iff the schema accepts the values; a rejected form changes nothing |
| CheckboxFieldElement.FormComponent.constructor | src/components/field/CheckboxField.tsx:118-133 | the selection starts empty and the mount-time effect reports the empty list and its verdict |
| CheckboxFieldElement.FormComponent.ReportSelection | src/components/field/CheckboxField.tsx:125-133 | the current list is recorded under the element's id, and the error flag is "not valid" |
| CheckboxFieldElement.FormComponent.OnCheckedChange | src/components/field/CheckboxField.tsx:153-160 | the list becomes `Checked` or `Unchecked` of the old list, then it is recorded with its verdict |
| OptionsEditor.AddOption | src/components/field/SelectField.tsx:273 | one more option, "New option", after the unchanged earlier ones |
| OptionsEditor.EditOption | src/components/field/SelectField.tsx:289-292 | the option at the index becomes the text, and every other option is unchanged |
| OptionsEditor.RemoveOption | src/components/field/SelectField.tsx:299-301 | `splice(index, 1)`: the option at the index is gone and later ones shift down; an index past the end changes nothing |
| OptionsEditor.AddThenRemove | src/components/field/CheckboxField.tsx:293 | adding an option and then removing the last one restores the list |
| OptionsEditor.EditThenRestore | src/components/field/CheckboxField.tsx:310-311 | editing an option and then editing it back restores the list |
| DesignerContext.IndexOfId | src/components/Designer.tsx:70 | `findIndex`: -1 iff no element has the id; otherwise the first index holding it |
| DesignerContext.Insert | src/components/Designer.tsx:46 | one element longer; the new element sits at the index, clamped to the length, with the prefix before it and the rest after it unchanged |
| DesignerContext.RemoveId | src/components/Designer.tsx:99 | no element with the id remains, the list does not grow, it shrinks when the id is present, and an absent id changes nothing |
| DesignerContext.ReplaceId | src/components/field/TextField.tsx:161-169 | same length; the first element with the id is replaced and all others kept; an absent id changes nothing |
| DesignerContext.RemoveUniqueId | src/components/Designer.tsx:99 | with unique ids, removal cuts out exactly the element at its index |
| DesignerContext.InsertKeepsUnique | src/components/Designer.tsx:46 | inserting an element whose id is new keeps the ids unique |
| DesignerContext.RemoveKeepsUnique | src/components/Designer.tsx:99 | removal keeps the ids unique |
| DesignerContext.InsertThenRemove | src/components/Designer.tsx:46 | adding an element with a fresh id and then removing that id restores the list |
| DesignerContext.DesignerState.AddElement | src/components/Designer.tsx:46 | the elements become `Insert` of the old ones; the selection is unchanged |
| DesignerContext.DesignerState.RemoveElement | src/components/Designer.tsx:99 | the elements become `RemoveId` of the old ones; the selection is cleared iff it held that id |
| DesignerContext.DesignerState.UpdateElement | src/components/field/TextField.tsx:161 | the elements become `ReplaceId` of the old ones; the selection is unchanged |
| DesignerContext.DesignerState.SetSelectedElement | src/components/Designer.tsx:116 | the selection is replaced and the elements are unchanged |
| Designer.Drop | src/components/Designer.tsx:27-107 | the outcome of one drop as written: "Element not found" arises only for a drop onto an element; a palette drop that applies adds exactly one element; a move never lengthens the list (the branch lemmas below pin each case) |
| Designer.NoTargetNoChange | src/components/Designer.tsx:30 | without an active item or a drop target the elements are unchanged |
| Designer.ButtonOnCanvasAppends | src/components/Designer.tsx:37-48 | a palette button dropped on the canvas appends one new element of its type with the generated id |
| Designer.ButtonOnElementInserts | src/components/Designer.tsx:59-78 | a palette button dropped on an element inserts before it (top half) or after it (bottom half), keeping the other elements in place; an unknown target is "Element not found" |
| Designer.ElementOnCanvasNoChange | src/components/Designer.tsx:81-106 | an element dropped on the canvas changes nothing |
| Designer.MoveIsPermutation | src/components/Designer.tsx:86-106 | with unique ids a move keeps the length, the multiset of elements and unique ids; a missing id is "Element not found" |
| Designer.MoveOntoTopHalfExample | src/components/Designer.tsx:86-106 | in [A, B, C], dragging A onto B's top half gives [B, A, C] |
| Designer.MoveAfterOvershoots | src/components/Designer.tsx:93-105 | as written, in [A, B, C] dragging A onto B's bottom half gives [B, C, A], not [B, A, C] |
| Designer.MoveCorrected | src/components/Designer.tsx:86-106 | the corrected move gives "Element not found" exactly when either id is missing |
| Designer.MoveCorrectedPlacesNextToTarget | src/components/Designer.tsx:86-106 | the corrected move keeps the length and the order of all other elements, and puts the dragged element immediately before (top half) or after (bottom half) the target |
| Designer.MoveCorrectedRoundTrip | src/components/Designer.tsx:86-106 | corrected: [A, B, C], then A after B, gives [B, A, C]; then A before B gives [A, B, C] |
| Designer.UpwardMovesAgree | src/components/Designer.tsx:93-105 | moving onto an element earlier in the list, the code as written and the corrected move agree |
| Designer.Designer.OnDragEnd | src/components/Designer.tsx:27-107 | the new elements are `Drop` of the old ones with the generated id; "Element not found" changes nothing; the selection is cleared only when the moved element was selected |
| Designer.Designer.OnCanvasClick | src/components/Designer.tsx:115-117 | afterwards nothing is selected and the elements are unchanged |
| FormSubmit.EffectiveValue | src/components/FormSubmit.tsx:32 | a field with no recorded value is validated against the empty string; a recorded non-empty value is used as it is |
| FormSubmit.Failing | src/components/FormSubmit.tsx:31-38 | an id is collected iff some field with that id rejects its effective value |
| FormSubmit.FailingAreRequiredAndEmpty | src/components/FormSubmit.tsx:31-38 | only a required field whose value is missing or empty can fail |
| FormSubmit.RecordingNonEmptyClears | src/components/FormSubmit.tsx:45-47 | recording a non-empty value for a key removes exactly that key from the failing ids |
| FormSubmit.FormSubmitState.constructor | src/components/FormSubmit.tsx:22-26 | no values, no errors, not submitted, render key from the clock |
| FormSubmit.FormSubmitState.SubmitValue | src/components/FormSubmit.tsx:45-47 | only the given key is overwritten |
| FormSubmit.FormSubmitState.ValidateForm | src/components/FormSubmit.tsx:30-43 | the loop adds exactly the failing ids to the error set, and the form is valid iff the set is then empty |
| FormSubmit.FormSubmitState.SubmitForm | src/components/FormSubmit.tsx:49-77 | the errors are exactly the failing ids; the external submit is called with the url and the current values iff none fail; submitted becomes true only when that call succeeds; an invalid form bumps the render key |
| FormSubmit.FormSubmitState.View | src/components/FormSubmit.tsx:79-107 | the thank-you view iff submitted; otherwise one field per element, flagged invalid iff its id is in the error set, and given a default iff a value was recorded, that default being the recorded value |
| FormSubmit.ErasedRequiredTextIsStale | src/components/field/TextField.tsx:104-113 | as written, a required text field filled with "abc", then emptied, keeps "abc" and passes validation |
| FormSubmit.ErasedRequiredTextFailsWhenCorrected | src/components/field/TextField.tsx:104-113 | with the corrected blur, the same steps make exactly that field fail |
| FormSubmit.CorrectedBlurDecidesVerdict | src/components/FormSubmit.tsx:31-38 | with the corrected blur and unique ids, a field fails at submission iff the text it was last left with is invalid |
| FormActions.ScopedWhere | src/actions/form.ts:70-77 | no user is `UserNotFound`; otherwise the filter selects form `id` only when the user is an admin or owns it |
| FormActions.RequireAdmin | src/actions/form.ts:227-229 | passes iff there is a user and that user is an admin |
| FormActions.GetFormStats | src/actions/form.ts:12-24 | no user is an error; otherwise the sums cover the caller's own forms |
| FormActions.StatsOf | src/actions/form.ts:26-27 | absent sums read as 0; present sums are kept |
| FormActions.CreateForm | src/actions/form.ts:35-52 | the user check comes before the schema check; the new form is owned by the caller |
| FormActions.GetFormsByUser | src/actions/form.ts:55-67 | no user is an error; otherwise it lists the caller's own forms |
| FormActions.GetFormById | src/actions/form.ts:69-82 | no user is an error; otherwise an owner-scoped lookup of one form, with or without its submissions |
| FormActions.UpdateForm | src/actions/form.ts:84-121 | no user is an error; otherwise an owner-scoped update of the one column that changes |
| FormActions.ApplyUpdate | src/actions/form.ts:97-102 | forms the filter does not select are left as they were |
| FormActions.UpdateLeavesOthersForms | src/actions/form.ts:91-102 | an update never touches a form with another id, and a non-admin's update never touches another user's form |
| FormActions.SubmitForm | src/actions/form.ts:123-143 | one submission with the given values, recorded through the share url |
| FormActions.GetFormContentByUrl | src/actions/form.ts:145-163 | one visit, counted through the share url |
| FormActions.ApplyPublic | src/actions/form.ts:127-162 | a public call leaves every form that is not published under that share url exactly as it was, and never changes any form's id, owner, content, published flag or share url |
| FormActions.PublicCallsCountOnlyPublished | src/actions/form.ts:127-162 | a submission or visit is counted, and a submission stored, only on a published form with that share url, exactly once |
| FormActions.GetAllForms | src/actions/form.ts:272-282 | passes iff the user is an admin |
| FormActions.DeleteFormById | src/actions/form.ts:284-297 | passes iff the user is an admin; the filter then selects exactly the form with that id |
| FormActions.GetAllFormCount | src/lib/utils.ts:26-30 | anyone but an admin gets not-found; an admin gets the count |
| FormActions.Reduce | src/actions/form.ts:256-258 | the chosen group is one of the inputs, has the largest count, and every later group has a strictly smaller count |
| FormActions.TieGoesToLater | src/actions/form.ts:257 | on equal counts the later group wins |
| FormActions.Matching | src/actions/form.ts:250-252 | exactly the groups whose creation day-of-month equals the date's |
| FormActions.MatchingSplits | src/actions/form.ts:250-252 | the filter works piecewise on a split list, so it keeps the rows' order and a later row stays later for the tie rule |
| FormActions.BucketFor | src/actions/form.ts:250-260 | a day with no group on its day-of-month yields count 0 with that date; otherwise the entry is the last maximal group among those that match |
| FormActions.BucketsFor | src/actions/form.ts:249-261 | one entry per date, in order |
| FormActions.GetMostUserFormByDate | src/actions/form.ts:226-263 | non-admins fail; no groups gives null; otherwise one bucket per day of the inclusive range, in order |
| Utils.DayRange | src/lib/utils.ts:14-24 | e - s + 1 days (none when s > e), the i-th being s + i |
| Utils.GetDates | src/lib/utils.ts:14-24 | empty when start > end; the i-th entry is start + i, so consecutive entries differ by one day; every entry is ≤ end and the day after the last is > end; the result is `DayRange` |
| Utils.NatToString | src/lib/utils.ts:11 | at least one character, all digits, no leading zero |
| Utils.ParseNatToString | src/lib/utils.ts:11 | reading the decimal string back gives the number |
| Utils.IdGenerator | src/lib/utils.ts:10-12 | the decimal string, 1 to 4 digits with no leading zero, of ⌊random·1001⌋, an integer in 0..1000 |

## Left out

- Rendering, JSX, styling, toasts, the dnd-kit sensors, the drag overlay and the ready timeout: these are UI or timing, not logic.
- The Prisma and Clerk calls themselves, `revalidatePath`, routing and `notFound`: these are foreign I/O.
  - Queries are described by the `Query` they issue.
  - The update and public-call filters are given a reference meaning over stored forms.
  - A Prisma update that finds no record (and so throws) is not modelled.
- The submission-rate division in `GetFormStats`: floating point.
- `src/components/field/TextAreaField.tsx` and `src/components/field/DateField.tsx` are not part of this model. So `FormElements.Construct`, `FormElements.Validate`, the palette drop and the form validation require one of the four modelled kinds.
- The `useDesigner` hook is not part of this model. Its behaviour is stated in `DesignerContext.DesignerState`.
- The form schema of `CreateForm` (`schema/form`) is not part of this model. Its verdict is the `schemaValid` parameter.
- JavaScript aliasing of the shared default `extraAttributes` object: attributes are values. So the in-place option edit in the properties form is modelled as a new list.
- Calendar and time-zone effects of `Date`:
  - days are integers;
  - `getDate` is the `dayOfMonth` parameter;
  - the `groupBy` rows are an input.
- `Designer.Designer.OnDragEnd`: an active item without a type, or any other payload shape dnd-kit might deliver, is not representable. The event alphabet is the three payloads the palette buttons and element wrappers build.
- `FormSubmit.FormSubmitState.SubmitForm`: the pending transition and a second click while a submission is in flight are not modelled.
- `NumberFieldElement.BlurRecord`: the number field's blur (src/components/field/NumberField.tsx:142-148) has the same stale-value behaviour as the text field's; the finding is worked out for the text field only.
- Numeric attributes: the number field's `min` and `max` are `Option<int>`, while the schema accepts any JavaScript number, fractions included: floating point.
- The optional `extraAttributes`: every element carries an attribute record, because `construct` always supplies one; an element without attributes is not representable.
- `CheckboxFieldElement.FormComponent.constructor`: both mount-time effects are modelled as running once at construction, the `isInvalid` one first. A later change of the `isInvalid` prop is not modelled.

## Findings

| source | as written | input that shows it | evidently intended | confidence | as-written member | corrected member |
|---|---|---|---|---|---|---|
| src/components/Designer.tsx:93-105 | A move takes the target index before removing the dragged element, so a downward move lands one slot past the drop region. | [A, B, C], dragging A onto B's bottom half gives [B, C, A] | "after B": [B, A, C], with the index taken from the list after removal | high, not executed | Designer.MoveAfterOvershoots | Designer.MoveCorrectedPlacesNextToTarget |
| src/components/field/TextField.tsx:104-113 | An invalid blur does not record anything, so a required field that is emptied keeps its earlier value. | Required text field: blur with "abc", then blur with "". The map still holds "abc", and the form validates and submits it. | The submitted value is what the field was last left with, so the emptied field fails validation | medium, not executed | FormSubmit.ErasedRequiredTextIsStale | FormSubmit.CorrectedBlurDecidesVerdict |
