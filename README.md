# Medplum snippet catalog: the questionnaire engine and its helpers, in Dafny

This project models the logic of a catalog of Medplum front-end snippets.

The core is a FHIR R4 questionnaire engine. It works over a `Questionnaire` item tree and a prior `QuestionnaireResponse` tree, and does five things:

- derives the initial form values;
- derives a validation schema (zod in the source, a `Rule` tree here);
- decides which wizard group is active;
- decides whether a conditional question is shown (`enableWhen`);
- maps the form values back into a response.

Around the core sit:

- the wizard's navigator state machine and its "current of total" counter;
- the render dispatch of the questionnaire form, choice and group fields;
- a generic list-editing form state, and the field-change normaliser of its inputs;
- appointment participant lookup;
- the query-variable and paging arithmetic of two tables.

JavaScript values are one datatype, `JsValue.Value`. Its truthiness follows JavaScript: `""`, `0`, `false`, `null` and `undefined` are falsy, and empty arrays and objects are truthy. Objects are ordered field lists, and `{...o, [k]: v}` is `JsValue.Put`. Code that can throw a `TypeError` returns `Wrappers.Result`; the error is not ruled out by a precondition.

State that changes in place is a class:

- `Wizard.IntakeForm` for the wizard page;
- `ChoiceField.RadioInput` for the radio group;
- `FormState.NestedField` and `FormState.Form` for the form state;
- `PatientTable.PatientTable` for the patient table.

Loops in the source are methods with loop invariants, proved equal to a specification function. Examples are `InitialValues.GetResponseItem`, `ResponseMapper.MapQuestionnaireItems`, `ChoiceField.BuildOptions`, `FormState.GetError` and `PatientTable.CollectFilters`.

Three behaviours of the source are modelled as written:

- The questionnaire reference has a stray trailing `)`: `Questionnaire/<id>)` (`ResponseMapper.QuestionnaireReference`, `ResponseMapper.ReferenceIsNotPlain`).
- Submit advances the navigator unless `prev + 1` equals the group count exactly. An index past the end therefore keeps advancing (`Wizard.SubmitNavigator`).
- The group field hands its own linkId down as the whole `parentPath`. A field two groups deep therefore gets the path `inner.question`; the outer group is left out (`GroupField.NestedPathIsOneLevel`).

The source also has a quirk outside the model. The patient table sends its sort string as the variable `sorting`, while the GraphQL query declares `$sort`. The sort string is modelled; the query text is not.

## Model

| member | source | states |
|---|---|---|
| Constants.FormInitialValue | GenericQuestionnaire/constants.tsx:22-29 | exactly string, date, open-choice, boolean, group and reference have a default; the truthy defaults are those of open-choice, boolean and group |
| Constants.FormTypeValue | GenericQuestionnaire/constants.tsx:31-38 | exactly six types have an answer key; string and choice both map to `valueString` |
| Constants.ParserKeys | GenericQuestionnaire/constants.tsx:192-202 | exactly the five keys `valueString`, `valueDate`, `valueBoolean`, `valueCoding` and `valueReference` have a parser |
| Constants.ApplyParser | GenericQuestionnaire/constants.tsx:196-200 | identity parsers return their input; `valueDate` turns only strings into dates; `valueCoding` gives an object whose only key is `valueCoding`, holding the input |
| Constants.ApplyParserTruthy | GenericQuestionnaire/constants.tsx:196-200 | every parser keeps a truthy input truthy |
| Constants.FieldOf | GenericQuestionnaire/constants.tsx:45-190 | the registry has a component exactly for string, date, choice, boolean, group and reference, and the group component only for groups |
| Constants.OpenChoiceHasNoField | GenericQuestionnaire/constants.tsx:22-190 | open-choice has a default and an answer key but nothing to render it |
| Fhir.FindResp | GenericQuestionnaire/utils.ts:189-191 | `find` gives nothing iff no item has the linkId; otherwise the item at the least index that has it |
| Fhir.ItemControlCodeOf | GenericQuestionnaire/utils.ts:222-226 | an item-control extension whose first coding has code `c` yields `c` as the control code |
| InitialValues.ParseInitialData | GenericQuestionnaire/utils.ts:22-25 | a falsy value, or a key without a parser, gives `""`; otherwise the key's parser is applied |
| InitialValues.FirstWithLinkIdSpec | GenericQuestionnaire/utils.ts:35-36 | the match is absent iff no element has the linkId; otherwise it is the element at the least such index |
| InitialValues.FirstWithLinkIdAppend | GenericQuestionnaire/utils.ts:35-39 | a match in the first part of a list wins over any match in the rest |
| InitialValues.GetResponseItem | GenericQuestionnaire/utils.ts:31-41 | the loop with early return gives the first response item with the linkId in depth-first pre-order, or none |
| InitialValues.GetInSubtree | GenericQuestionnaire/utils.ts:36-38 | one iteration checks the item itself before its descendants, and finds the first match of the subtree's pre-order |
| InitialValues.FindResponseStep | GenericQuestionnaire/utils.ts:35-39 | searching one more sibling adds that sibling's subtree after the earlier ones |
| InitialValues.FindResponseSplit | GenericQuestionnaire/utils.ts:35-39 | a match found among the first siblings is the match of the whole list (early return) |
| InitialValues.ParseAnswer | GenericQuestionnaire/utils.ts:53-55 | destructuring the first entry of an answer object throws exactly when it has no entries |
| InitialValues.ParseAnswers | GenericQuestionnaire/utils.ts:53-56 | the answers are mapped one to one, and mapping throws iff some answer has no entries |
| InitialValues.LeafValue | GenericQuestionnaire/utils.ts:53-61 | more than one answer gives the array of parsed answers; exactly one gives that answer parsed, whatever it parses to (or the throw of an empty answer object); no answer gives the type default, or `null` without one |
| InitialValues.SingleFalsyAnswer | GenericQuestionnaire/utils.ts:53-61 | a single answer with a falsy value reloads as `""`, not as the type default, and a single answer object without entries throws |
| InitialValues.SingleAnswerValue | GenericQuestionnaire/utils.ts:58-61 | exactly one truthy answer under a registered key gives that answer parsed, not an array |
| InitialValues.InitialKeys | GenericQuestionnaire/utils.ts:43-64 | the initial values have no duplicate key, and their keys are exactly the items' linkIds |
| InitialValues.PutKeys | GenericQuestionnaire/utils.ts:47-63 | spreading one key into distinct keys keeps them distinct and adds exactly that key |
| InitialValues.InitialStep | GenericQuestionnaire/utils.ts:43-64 | the reduce's result is its prefix's result with the last item's value put under its linkId |
| InitialValues.InitialValueOfLast | GenericQuestionnaire/utils.ts:43-64 | the value under a linkId is the value of the last item with that linkId (later duplicates overwrite) |
| InitialValues.InitialValuesFail | GenericQuestionnaire/utils.ts:43-64 | any item whose value throws makes the whole derivation throw |
| InitialValues.GroupInitialValue | GenericQuestionnaire/utils.ts:46-50 | a group with children gets the values derived from its children and from the matched response's children, or from `[]` |
| InitialValues.NoResponseLeaf | GenericQuestionnaire/utils.ts:53-61 | without a response, a leaf gets its type's default, or `null` without one |
| InitialValues.CorrectAnswerTypeValue | GenericQuestionnaire/utils.ts:67-76 | an unknown question gives `valueString`; otherwise the answer key of the first question with that linkId |
| GroupInfo.FlattenGroups | GenericQuestionnaire/utils.ts:84-88 | flattening keeps no group node |
| GroupInfo.FlattenIsNonGroupPreOrder | GenericQuestionnaire/utils.ts:84-88 | flattening is the pre-order walk through groups with the group nodes dropped, so document order is kept |
| GroupInfo.FlattenAppend | GenericQuestionnaire/utils.ts:84-88 | flattening distributes over concatenation |
| GroupInfo.FlattenNoGroups | GenericQuestionnaire/utils.ts:84-88 | a list without groups flattens to itself |
| GroupInfo.NonGroupsAppend | GenericQuestionnaire/utils.ts:85-87 | dropping groups distributes over concatenation |
| GroupInfo.AnsweredLinkIds | GenericQuestionnaire/utils.ts:111 | a linkId counts as answered iff some response item in the tree has it and a non-empty answer list |
| GroupInfo.FirstIncomplete | GenericQuestionnaire/utils.ts:125-136 | every group before the index is complete, and the group at the index is not |
| GroupInfo.At | GenericQuestionnaire/utils.ts:96-145 | `items[i]` is defined exactly for `0 <= i < length`, negative indices included |
| GroupInfo.CurrentGroupInfo | GenericQuestionnaire/utils.ts:79-146 | `{}` iff there is no questionnaire, no item list, or a non-group item; with no response the index is 0; an explicit navigator index is returned unchanged; the count is the number of groups |
| GroupInfo.ChosenGroup | GenericQuestionnaire/utils.ts:111-145 | without a navigator the index is the first incomplete group, or the last one when all are complete, so `0 <= index < count` |
| GroupInfo.EmptyGroupList | GenericQuestionnaire/utils.ts:90-139 | an empty item list counts as all groups, and its index falls to `-1` |
| FormAnswer.NestedAnswer | GenericQuestionnaire/utils.ts:268-283 | an own key of the object is returned directly |
| FormAnswer.AbsentKey | GenericQuestionnaire/utils.ts:268-283 | a key occurring nowhere in the values gives `undefined` |
| FormAnswer.AbsentInFields | GenericQuestionnaire/utils.ts:273-282 | the entry loop over an object finds nothing when the key occurs nowhere in it |
| FormAnswer.AbsentInItems | GenericQuestionnaire/utils.ts:273-282 | the same loop over an array finds nothing when the key occurs nowhere in it |
| FormAnswer.NestedInGroup | GenericQuestionnaire/utils.ts:273-279 | a question inside a group is found through the group's entry |
| FormAnswer.GetNestedFormAnswer | GenericQuestionnaire/utils.ts:268-283 | the own-key test followed by the entry loop with early return computes the nested answer |
| FormAnswer.SearchFields | GenericQuestionnaire/utils.ts:273-282 | the loop over an object's entries returns the first defined nested result |
| FormAnswer.SearchItems | GenericQuestionnaire/utils.ts:273-282 | the loop over an array's entries returns the first defined nested result |
| ResponseMapper.FormControlAnswer | GenericQuestionnaire/utils.ts:240-252 | a radio button gives one `valueString`; a check box gives one `valueString` per element, and throws when the value is not an array; any other code gives `[]` |
| ResponseMapper.StringAnswers | GenericQuestionnaire/utils.ts:248 | one `valueString` answer per element, in order |
| ResponseMapper.BaseTypeAnswer | GenericQuestionnaire/utils.ts:254-266 | string and choice give `valueString`, date `valueDate` and reference `valueReference`; every other type gives `[]` |
| ResponseMapper.Previous | GenericQuestionnaire/utils.ts:189-191 | the prior response item is the first with the linkId, and there is none without a prior list |
| ResponseMapper.MapOne | GenericQuestionnaire/utils.ts:183-235 | an emitted item carries the questionnaire item's linkId, and a group is always emitted |
| ResponseMapper.ControlLeaf | GenericQuestionnaire/utils.ts:222-232 | a truthy value of an item with an item-control code and no value set is answered with `handleFormControlAnswer`'s result, and throws exactly when that throws |
| ResponseMapper.BaseTypeLeaf | GenericQuestionnaire/utils.ts:222-232 | a truthy value of an item with neither an item-control code nor a value set is answered with `handleBaseTypeAnswer` for its type |
| ResponseMapper.MapList | GenericQuestionnaire/utils.ts:175-238 | the output linkIds are a subsequence of the questionnaire's, so questionnaire order is kept, and every group's linkId appears in them |
| ResponseMapper.EmitStep | GenericQuestionnaire/utils.ts:183-235 | one iteration keeps both order invariants |
| ResponseMapper.IdsStep | GenericQuestionnaire/utils.ts:183-235 | one iteration keeps both order invariants, on the linkId lists alone |
| ResponseMapper.OrderStep | GenericQuestionnaire/utils.ts:193-235 | appending an emitted item after its questionnaire item keeps the subsequence relation |
| ResponseMapper.MapQuestionnaireItems | GenericQuestionnaire/utils.ts:175-238 | the push loop computes the list of contributions; an absent item list gives `[]` |
| ResponseMapper.LoopStep | GenericQuestionnaire/utils.ts:183-235 | one iteration of the loop extends the result of the prefix, or makes the whole list throw |
| ResponseMapper.MapListSnoc | GenericQuestionnaire/utils.ts:183-235 | the result for one more item is the prefix's result joined with that item's contribution |
| ResponseMapper.MapListFails | GenericQuestionnaire/utils.ts:183-235 | a prefix that throws makes the whole list throw |
| ResponseMapper.MapItem | GenericQuestionnaire/utils.ts:184-234 | one iteration, with the recursive call for a group, returns the item's contribution |
| ResponseMapper.MapOnePicks | GenericQuestionnaire/utils.ts:148-187 | an emitted item copies exactly `id`, `linkId`, `extension`, `modifierExtension`, `definition` and `text` |
| ResponseMapper.GroupEmitted | GenericQuestionnaire/utils.ts:193-204 | a group's children are mapped from `values[linkId]`, or from the same values when that is falsy, against the prior item's children |
| ResponseMapper.FalsyLeaf | GenericQuestionnaire/utils.ts:207-214 | a falsy leaf value keeps the prior answer when there is one, and is otherwise omitted |
| ResponseMapper.ValueSetLeaf | GenericQuestionnaire/utils.ts:216-220 | a truthy value of an item with an `answerValueSet` becomes the single answer `[value]` |
| ResponseMapper.SubsequenceExtend | GenericQuestionnaire/utils.ts:214 | skipping an item keeps the output a subsequence |
| ResponseMapper.SubsequenceDrop | GenericQuestionnaire/utils.ts:183-235 | dropping the last output linkId keeps it a subsequence |
| ResponseMapper.QuestionnaireReference | GenericQuestionnaire/utils.ts:166 | the reference is `Questionnaire/<id>)`, ending in `)`; a missing id is written `undefined` |
| ResponseMapper.ReferenceIsNotPlain | GenericQuestionnaire/utils.ts:166 | the stray `)` makes the reference differ from `Questionnaire/<id>` |
| ResponseMapper.ResponseFromFormValues | GenericQuestionnaire/utils.ts:157-173 | throws exactly when mapping the items throws; otherwise the response has that reference, status `in-progress`, the given subject and source, and the mapped items, whose linkIds follow the questionnaire's order and include every top-level group |
| ResponseMapper.StringRoundTrip | GenericQuestionnaire/utils.ts:254-258 | a string answer written into a response is read back unchanged by the initial-value derivation |
| ResponseMapper.MapStringItem | GenericQuestionnaire/utils.ts:254-258 | a string question's text becomes one `valueString` answer |
| ResponseMapper.ReadBackString | GenericQuestionnaire/utils.ts:53-61 | that answer gives the text back as the initial value |
| ResponseMapper.InitialSingle | GenericQuestionnaire/utils.ts:43-64 | a one-item list's initial values hold only that item's value |
| EnableWhenGate.Gate | GenericQuestionnaire/components/EnableWhenWrapper.tsx:24-66 | no rule, or an operator outside `= != > < >= <=`, renders; a falsy or missing answer suppresses; `=` renders iff the answer equals `answerString`, and `!=` iff it does not; for a truthy answer, `>`, `<`, `>=` and `<=` render iff `parseInt(String(answer))` is a number and stands in that relation to a present `answerInteger` |
| EnableWhenGate.EqualityComplement | GenericQuestionnaire/components/EnableWhenWrapper.tsx:44-49 | for a truthy answer, `=` and `!=` decide oppositely |
| EnableWhenGate.NumberAnswer | GenericQuestionnaire/components/EnableWhenWrapper.tsx:50-61 | a number answer is compared by its own value |
| EnableWhenGate.DecimalTextAnswer | GenericQuestionnaire/components/EnableWhenWrapper.tsx:50-61 | a text answer holding an integer's decimal form is compared by that integer |
| EnableWhenGate.MissingBound | GenericQuestionnaire/components/EnableWhenWrapper.tsx:50-61 | without `answerInteger`, every ordering comparison is false and the children are suppressed |
| EnableWhenGate.DateAnswer | GenericQuestionnaire/components/EnableWhenWrapper.tsx:50-61 | a date answer is not numeric, so every ordering comparison suppresses the children |
| EnableWhenGate.NonNumericAnswer | GenericQuestionnaire/components/EnableWhenWrapper.tsx:50-61 | an answer whose string form does not parse as an integer suppresses every ordering comparison, whatever the bound |
| EnableWhenGate.OrderComplement | GenericQuestionnaire/components/EnableWhenWrapper.tsx:53-57 | for a numeric answer, `<` and `>=` decide oppositely |
| Schema.RuleAt | GenericQuestionnaire/zod-schema/genericQuestionnaireZodSchema.ts:45-61 | a shape has a rule under a key iff the key is among its keys |
| Schema.RulePut | GenericQuestionnaire/zod-schema/genericQuestionnaireZodSchema.ts:48-55 | spreading a key in sets its rule and leaves the others; a new key is appended |
| Schema.RuleKinds | GenericQuestionnaire/zod-schema/genericQuestionnaireZodSchema.ts:10-43 | an object rule iff a group with a non-empty child list; strings get the required or plain string rule; dates the required or optional date rule; every other type, and a childless group, get `any` |
| Schema.FormSchema | GenericQuestionnaire/zod-schema/genericQuestionnaireZodSchema.ts:45-61 | the schema is an object rule |
| Schema.SchemaKeys | GenericQuestionnaire/zod-schema/genericQuestionnaireZodSchema.ts:45-61 | the schema has no duplicate key, and its keys are exactly the items' linkIds |
| Schema.ShapeStep | GenericQuestionnaire/zod-schema/genericQuestionnaireZodSchema.ts:46-58 | the reduce puts the last item's rule into the prefix's shape |
| Schema.RulePutKeys | GenericQuestionnaire/zod-schema/genericQuestionnaireZodSchema.ts:48-55 | spreading one key into distinct keys keeps them distinct and adds exactly that key |
| Schema.RuleOfLast | GenericQuestionnaire/zod-schema/genericQuestionnaireZodSchema.ts:45-61 | the rule under a linkId is the rule of the last item with it (later duplicates overwrite) |
| Schema.TransformISODate | GenericQuestionnaire/zod-schema/genericQuestionnaireZodSchema.ts:63-66 | a falsy date gives `""` |
| Schema.FormatISODate | GenericQuestionnaire/zod-schema/genericQuestionnaireZodSchema.ts:65 | the date-only form is a prefix of the date text, at most ten characters long |
| Schema.DateRoundTrip | GenericQuestionnaire/zod-schema/genericQuestionnaireZodSchema.ts:63-66 | a `yyyy-MM-dd` answer parsed on load is transformed back to the same text |
| Schema.RequiredString | GenericQuestionnaire/zod-schema/genericQuestionnaireZodSchema.ts:68-73 | a required string accepts exactly the texts with a non-space character, and passes on the trimmed text |
| Schema.OptionalString | GenericQuestionnaire/zod-schema/genericQuestionnaireZodSchema.ts:34 | an optional string accepts every text, `""` included, unchanged |
| Schema.DateRules | GenericQuestionnaire/zod-schema/genericQuestionnaireZodSchema.ts:36-40 | a required date rejects `null`, and an optional date lets it through |
| Schema.CompatibleShapeChecks | GenericQuestionnaire/zod-schema/genericQuestionnaireZodSchema.ts:45-61 | values whose every shape key is present and accepted pass the object rule |
| Schema.CompatiblePut | GenericQuestionnaire/zod-schema/genericQuestionnaireZodSchema.ts:48-55 | putting the same key into the shape and into the values keeps them compatible |
| Schema.RuleAtIndex | GenericQuestionnaire/zod-schema/genericQuestionnaireZodSchema.ts:45-61 | with distinct keys, the rule at an index is the rule under its key |
| Schema.RulePutDistinct | GenericQuestionnaire/zod-schema/genericQuestionnaireZodSchema.ts:48-55 | spreading a key in keeps the keys distinct |
| Schema.DefaultsPass | GenericQuestionnaire/zod-schema/genericQuestionnaireZodSchema.ts:45-61 | without any required question, the initial values of an unanswered questionnaire pass its schema |
| Schema.DefaultsCompatible | GenericQuestionnaire/zod-schema/genericQuestionnaireZodSchema.ts:45-61 | without any required question, the default values are compatible with the shape |
| Schema.ItemDefaultPasses | GenericQuestionnaire/zod-schema/genericQuestionnaireZodSchema.ts:10-43 | one unanswered item's default passes its own rule |
| Schema.GroupDefaultPasses | GenericQuestionnaire/zod-schema/genericQuestionnaireZodSchema.ts:15-31 | an unanswered group without required questions gets the object of its children's defaults, and that object passes the group's rule |
| Schema.LeafDefaultPasses | GenericQuestionnaire/zod-schema/genericQuestionnaireZodSchema.ts:33-42 | the default of a leaf type passes the optional rule of that type |
| Schema.CheckShapeFails | GenericQuestionnaire/zod-schema/genericQuestionnaireZodSchema.ts:45-61 | an object rule fails as soon as one key fails |
| Schema.RuleAtSomeIndex | GenericQuestionnaire/zod-schema/genericQuestionnaireZodSchema.ts:45-61 | a rule found under a key sits at some index of the shape |
| Schema.RequiredStringBlocksDefaults | GenericQuestionnaire/zod-schema/genericQuestionnaireZodSchema.ts:68-73 | an unanswered questionnaire with a required string question fails its schema, since the default `""` is rejected |
| Schema.StringDefault | GenericQuestionnaire/utils.ts:61 | an unanswered string item starts as `""` |
| Schema.EnteredStringPasses | GenericQuestionnaire/zod-schema/genericQuestionnaireZodSchema.ts:68-73 | once a text with a non-space character is entered, a one-question form with a required string passes, and the text is trimmed |
| Schema.SchemaRejectsKey | GenericQuestionnaire/zod-schema/genericQuestionnaireZodSchema.ts:45-61 | one rejected key makes the questionnaire's schema reject |
| Schema.ShapeRejectsKey | GenericQuestionnaire/zod-schema/genericQuestionnaireZodSchema.ts:45-61 | one rejected key makes the whole shape reject |
| Schema.ObjectRejects | GenericQuestionnaire/zod-schema/genericQuestionnaireZodSchema.ts:45-61 | a rejected shape makes the object rule reject |
| ChoiceField.StrategyOf | GenericQuestionnaire/components/QuestionnaireChoiceField.tsx:59-93 | a `check-box` control gives the checkbox field; else a non-empty `answerValueSet` gives the coding input for that value set; else the radio group |
| ChoiceField.CheckBoxWins | GenericQuestionnaire/components/QuestionnaireChoiceField.tsx:59-93 | a `check-box` control wins over a value set |
| ChoiceField.CodingAnswer | GenericQuestionnaire/components/QuestionnaireChoiceField.tsx:78 | the coding input reports `{valueCoding: code}`, the shape the `valueCoding` parser builds |
| ChoiceField.CodingAnswerReadBack | GenericQuestionnaire/components/QuestionnaireChoiceField.tsx:78-110 | that answer, read back as the current answer, gives the code with type `Coding` |
| ChoiceField.AnswerValue | GenericQuestionnaire/components/QuestionnaireChoiceField.tsx:96-102 | the typed value is a `value<Type>` field of the answer with a defined value; there is none iff no such field exists |
| ChoiceField.FirstValueField | GenericQuestionnaire/components/QuestionnaireChoiceField.tsx:96-102 | the field returned is a defined `value...` field with no defined `value...` field before it; none when all are undefined |
| ChoiceField.CurrentAnswer | GenericQuestionnaire/components/QuestionnaireChoiceField.tsx:104-110 | with an answer at that index, the result is that answer's typed value; without one it is none |
| ChoiceField.OptionName | GenericQuestionnaire/components/QuestionnaireChoiceField.tsx:137 | option `i` is named `<name>-option-<i>` |
| ChoiceField.OptionNameInjective | GenericQuestionnaire/components/QuestionnaireChoiceField.tsx:137 | distinct indices give distinct option names |
| ChoiceField.OptionsOf | GenericQuestionnaire/components/QuestionnaireChoiceField.tsx:131-148 | the options are no more than the answer options |
| ChoiceField.OptionsInOrder | GenericQuestionnaire/components/QuestionnaireChoiceField.tsx:131-148 | option `k` is the answer option at the `k`-th truthy index, under that index's name, so the options keep the answer options' order |
| ChoiceField.BuildOptions | GenericQuestionnaire/components/QuestionnaireChoiceField.tsx:131-148 | the loop builds exactly the truthy options and the last matching default |
| ChoiceField.OptionsAreTruthyOptions | GenericQuestionnaire/components/QuestionnaireChoiceField.tsx:131-148 | every option is an answer option with a truthy value, named after its original index (gaps left by skipped options) |
| ChoiceField.TruthyOptionsOffered | GenericQuestionnaire/components/QuestionnaireChoiceField.tsx:131-148 | every answer option with a truthy value is offered, under its index's name |
| ChoiceField.NoInitialNoDefault | GenericQuestionnaire/components/QuestionnaireChoiceField.tsx:144-146 | without an initial value, the only call site's case, there is no default |
| ChoiceField.DefaultIsLastMatch | GenericQuestionnaire/components/QuestionnaireChoiceField.tsx:144-146 | the default is the name of the last truthy option equal to the initial value |
| ChoiceField.OptionByName | GenericQuestionnaire/components/QuestionnaireChoiceField.tsx:168 | the first option with the name, or none |
| ChoiceField.OptionByValue | GenericQuestionnaire/components/QuestionnaireChoiceField.tsx:112-117 | the first option whose value equals the given one, or none |
| ChoiceField.CurrentRadioAnswer | GenericQuestionnaire/components/QuestionnaireChoiceField.tsx:112-117 | a selection exists iff some option's value equals the current answer's value, and it is the name of the first such option |
| ChoiceField.UnansweredSelectsNothing | GenericQuestionnaire/components/QuestionnaireChoiceField.tsx:112-156 | an unanswered question selects no option |
| ChoiceField.RadioInput.constructor | GenericQuestionnaire/components/QuestionnaireChoiceField.tsx:131-160 | the options are the built ones; the selection is the name of the first option whose value equals the current answer's, falling back to the default |
| ChoiceField.RadioInput.OnChange | GenericQuestionnaire/components/QuestionnaireChoiceField.tsx:167-174 | an unknown name changes nothing and reports nothing; a known name becomes the selection and reports that option's typed value |
| ChoiceField.ChoosingOptionReportsItsValue | GenericQuestionnaire/components/QuestionnaireChoiceField.tsx:137-174 | choosing the option named after answer option `j` reports answer option `j`'s value |
| QuestionnaireForm.FormFieldName | snippets/GenericQuestionnaire/components/QuestionnaireForm.tsx:26 | the path is `parentPath.linkId` when `parentPath` is non-empty, else the bare linkId |
| QuestionnaireForm.FieldNameSplits | snippets/GenericQuestionnaire/components/QuestionnaireForm.tsx:26 | for a `parentPath` without dots, the text before the first dot is `parentPath` and the rest is the linkId |
| QuestionnaireForm.Label | snippets/GenericQuestionnaire/components/QuestionnaireForm.tsx:33 | the label is the text, defaulting to `""` |
| QuestionnaireForm.FirstEnableWhen | snippets/GenericQuestionnaire/components/QuestionnaireForm.tsx:40 | only the first `enableWhen` entry is used, and none for an empty list |
| QuestionnaireForm.ExtensionOrEmpty | snippets/GenericQuestionnaire/components/QuestionnaireForm.tsx:42-45 | a missing extension value gives `""` |
| QuestionnaireForm.ResponseChild | snippets/GenericQuestionnaire/components/QuestionnaireForm.tsx:37-39 | the response item is the first response child with the question's linkId |
| QuestionnaireForm.RenderChild | snippets/GenericQuestionnaire/components/QuestionnaireForm.tsx:22-24 | a child yields nothing iff its type has no registry entry, and otherwise that entry's component |
| QuestionnaireForm.RenderList | snippets/GenericQuestionnaire/components/QuestionnaireForm.tsx:21-47 | one result per child, in order |
| QuestionnaireForm.Render | snippets/GenericQuestionnaire/components/QuestionnaireForm.tsx:19-47 | an absent group renders nothing; otherwise one result per child of the group |
| QuestionnaireForm.RenderedProps | snippets/GenericQuestionnaire/components/QuestionnaireForm.tsx:28-46 | a rendered child gets its linkId as key and name, the joined path, its text or `""` as label, its required flag, its question, the response child with its linkId and its first `enableWhen` |
| QuestionnaireForm.Shown | GenericQuestionnaire/components/EnableWhenWrapper.tsx:28-66 | a rendered child is shown iff the gate lets its `enableWhen` through |
| QuestionnaireForm.UnconditionalShown | GenericQuestionnaire/components/EnableWhenWrapper.tsx:29 | a rendered child without `enableWhen` is always shown |
| GroupField.FindNestedGroup | GenericQuestionnaire/components/QuestionnaireGroupField.tsx:24-38 | an absent list gives nothing |
| GroupField.FindInList | GenericQuestionnaire/components/QuestionnaireGroupField.tsx:30-37 | a found item has the linkId |
| GroupField.FirstItemAppend | GenericQuestionnaire/components/QuestionnaireGroupField.tsx:30-36 | a match in the first part of a walk wins over any later one |
| GroupField.ItemIndexAppend | GenericQuestionnaire/components/QuestionnaireGroupField.tsx:30-36 | the first index in a concatenation lies in the first part when it has a match |
| GroupField.FindIsPreOrderFirst | GenericQuestionnaire/components/QuestionnaireGroupField.tsx:24-38 | the search returns the first item with the linkId in depth-first pre-order, or nothing when none has it |
| GroupField.ListIsPreOrderFirst | GenericQuestionnaire/components/QuestionnaireGroupField.tsx:30-37 | the loop checks an item before its descendants, and earlier siblings' subtrees before later ones |
| GroupField.GroupContent | GenericQuestionnaire/components/QuestionnaireGroupField.tsx:40-50 | the nested form renders the group found among the parent's children, with `parentPath` set to the group's linkId |
| GroupField.NestedPathIsOneLevel | GenericQuestionnaire/components/QuestionnaireGroupField.tsx:45-50 | a question inside a nested group gets the path `group.question` whatever the outer path |
| WizardCounter.CounterText | snippets/GenericQuestionnaire/components/QuestionnaireWizardCounter.tsx:5-30 | text is shown iff total and current are defined and non-zero and total is at least 2; it reads `<current> of <total>` |
| WizardCounter.SingleGroupHidden | snippets/GenericQuestionnaire/components/QuestionnaireWizardCounter.tsx:5-24 | a single group shows no counter |
| WizardCounter.CounterStartsWithCurrent | snippets/GenericQuestionnaire/components/QuestionnaireWizardCounter.tsx:28 | reading the counter text as a number gives back the current position |
| Wizard.SubmitNavigator | snippets/GenericQuestionnaire/GenericQuestionnaire.tsx:56-61 | an undefined index stays; the index stays when `prev + 1` equals the count, and otherwise advances by one |
| Wizard.PreviousNavigator | snippets/GenericQuestionnaire/GenericQuestionnaire.tsx:86-92 | from undefined it goes to 0, otherwise to `prev - 1` |
| Wizard.SubmitInRange | snippets/GenericQuestionnaire/GenericQuestionnaire.tsx:56-61 | an index inside the groups stays inside, and the last group stays put |
| Wizard.PreviousInRange | snippets/GenericQuestionnaire/GenericQuestionnaire.tsx:86-92 | stepping back from a non-zero index inside the groups stays inside |
| Wizard.SyncIsFixedPoint | snippets/GenericQuestionnaire/GenericQuestionnaire.tsx:94-98 | once synchronised, the navigator reproduces the same group info |
| Wizard.GroupResponses | snippets/GenericQuestionnaire/GenericQuestionnaire.tsx:101-105 | the current group's responses are chosen by position, `response.item[groupIndex].item`, or `[]` |
| Wizard.FormResponse | snippets/GenericQuestionnaire/GenericQuestionnaire.tsx:131 | no response gives no response item; otherwise the item at the group index (0 without group info), or none when the index is out of range |
| Wizard.FormResponseIsGroupResponse | snippets/GenericQuestionnaire/GenericQuestionnaire.tsx:101-131 | the form's response item is the one whose children are the group's responses |
| Wizard.CurrentItems | snippets/GenericQuestionnaire/GenericQuestionnaire.tsx:107-110 | no current group gives no items; otherwise the group's own items |
| Wizard.CurrentItemsOfGroup | snippets/GenericQuestionnaire/GenericQuestionnaire.tsx:107-110 | positioned on group `k`, the form shows the items of the questionnaire's group `k` |
| Wizard.CounterShowsPosition | snippets/GenericQuestionnaire/GenericQuestionnaire.tsx:123 | with at least two groups, the counter shows the one-based position and the group count |
| Wizard.IntakeForm.constructor | snippets/GenericQuestionnaire/GenericQuestionnaire.tsx:27-31 | the page starts loading, with nothing fetched, no schema and no navigator index |
| Wizard.IntakeForm.Load | snippets/GenericQuestionnaire/GenericQuestionnaire.tsx:66-84 | the fetched questionnaire is stored and loading ends; the response is kept only for a questionnaire with items |
| Wizard.IntakeForm.HandleSubmit | snippets/GenericQuestionnaire/GenericQuestionnaire.tsx:43-62 | without a current group, a non-empty questionnaire id or a schema nothing changes; otherwise the submitted `formValues` are checked and parsed against the schema; when they pass, the saved response is stored and the navigator moves by the submit rule, and when they fail nothing changes |
| Wizard.IntakeForm.OnPrevious | snippets/GenericQuestionnaire/GenericQuestionnaire.tsx:86-92 | at index 0 nothing changes; otherwise the previous-step rule applies |
| Wizard.IntakeForm.SyncIndex | snippets/GenericQuestionnaire/GenericQuestionnaire.tsx:94-98 | with a response, the navigator takes the computed group index |
| Wizard.IntakeForm.ResetForm | snippets/GenericQuestionnaire/GenericQuestionnaire.tsx:100-111 | the schema is derived from the current group's items; the values are their initial values over the group's responses, when derivable |
| FormState.DefaultEntries | snippets/Form/Form.tsx:17-24 | a missing default gives `[]`; a single default is wrapped into a one-element list; a list is kept |
| FormState.EmptyObjects | snippets/Form/Form.tsx:22-23 | the error list starts as one `{}` per entry |
| FormState.FirstDefined | snippets/Form/Form.tsx:123-126 | the first non-undefined value, and `undefined` iff all are undefined |
| FormState.ErrorOf | snippets/Form/Form.tsx:26-34 | the error is the first defined message of some entry, with no entry before it having a truthy one; it is `undefined` iff no entry has a truthy first defined message |
| FormState.GetError | snippets/Form/Form.tsx:26-34 | the loop with early return computes that error |
| FormState.NoMessagesNoError | snippets/Form/Form.tsx:26-34 | error entries without messages give no error |
| FormState.RemoveAt | snippets/Form/Form.tsx:62-65 | `splice(i, 1)` removes exactly index `i` and keeps the rest in order |
| FormState.RemoveShifts | snippets/Form/Form.tsx:62-65 | after removal, entries before `i` stay and later ones shift down by one |
| FormState.NestedField.constructor | snippets/Form/Form.tsx:17-24 | `formData` is the default list, and `errorList` has the same length, all `{}` |
| FormState.NestedField.HandleChildChange | snippets/Form/Form.tsx:36-48 | key `childPath` is set only at `index`, in both lists; their lengths stay equal; the whole list is reported with the first error |
| FormState.NestedField.AddItem | snippets/Form/Form.tsx:50-58 | `{}` is appended to both lists, keeping their lengths equal |
| FormState.NestedField.RemoveItem | snippets/Form/Form.tsx:60-70 | index `i` is spliced out of both lists, keeping their lengths equal and the rest in order |
| FormState.Form.constructor | snippets/Form/Form.tsx:113-116 | the form data is the default and the error map is empty |
| FormState.Form.HandleChange | snippets/Form/Form.tsx:118-121 | `errorMap[path]` and `formData[path]` are set, and every other key is unchanged |
| FormState.Form.HandleSubmit | snippets/Form/Form.tsx:123-126 | the submit reports the data and the first non-undefined error |
| FormState.ClearingLastError | snippets/Form/Form.tsx:118-126 | clearing the only error leaves the submit without error |
| FormFields.HandleChange | Form/FormFields.tsx:20-140 | a falsy value reports no data, with `Missing required field` iff the field is required; a truthy value reports no error; text, date-time and time inputs report the value itself, the resource input a reference, and the coding input `[{coding: [value]}]` |
| FormFields.CreateReference | Form/FormFields.tsx:112-114 | the resource input reports an object with a `reference` key |
| FormFields.RequiredWithoutDefault | Form/FormFields.tsx:23-34 | a required input mounted without a default reports the missing-field error, and a form with no other error then submits with that error |
| FormFields.PutIntoUndefined | snippets/Form/Form.tsx:118-126 | one defined error among undefined ones is the first defined error |
| Appointment.ReferenceType | snippets/AppointmentFormModal/appointment.ts:10 | the reference type is the text before the first `/`, and holds no `/` |
| Appointment.ParticipantIndex | snippets/AppointmentFormModal/appointment.ts:8-13 | every participant before the index lacks a matching actor, and the one at the index has one |
| Appointment.GetParticipant | snippets/AppointmentFormModal/appointment.ts:4-15 | nothing iff no participant has an actor of the type; otherwise the actor of the first such participant; participants without an actor are skipped |
| Appointment.GetPatient | snippets/AppointmentFormModal/appointment.ts:17-19 | the participant lookup with `Patient` |
| Appointment.GetPractitioner | snippets/AppointmentFormModal/appointment.ts:21-23 | the participant lookup with `Practitioner` |
| Appointment.RefToType | snippets/AppointmentFormModal/appointment.ts:10-11 | a reference `type/id` names `type` |
| Appointment.FirstMatchFound | snippets/AppointmentFormModal/appointment.ts:4-15 | the lookup returns the actor of the first participant whose actor has the type |
| Appointment.PatientAndPractitioner | snippets/AppointmentFormModal/appointment.ts:4-23 | on any appointment, the first `Patient` actor and the first `Practitioner` actor are what the two helpers return, and they differ |
| PatientTable.FirstGiven | snippets/MantineReactTable/PatientTable.tsx:36 | `given?.[0]` exists iff there is a non-empty given list |
| PatientTable.FormatName | snippets/MantineReactTable/PatientTable.tsx:30-37 | a missing name gives `""`; a list uses its first name; an empty list throws |
| PatientTable.FormatNameParts | snippets/MantineReactTable/PatientTable.tsx:36 | the first given name and the family name are read back as the words before and after the first space |
| PatientTable.NameContains | snippets/MantineReactTable/PatientTable.tsx:133-149 | a filter term is never empty |
| PatientTable.ColumnTermsAreNameFilters | snippets/MantineReactTable/PatientTable.tsx:135-139 | every term comes from a filter on the `name` column, and every such filter gives a term |
| PatientTable.NoNameFilterNoTerms | snippets/MantineReactTable/PatientTable.tsx:135-139 | filters on other columns contribute nothing |
| PatientTable.ColumnTermsNonEmpty | snippets/MantineReactTable/PatientTable.tsx:135-139 | no term is empty |
| PatientTable.CollectFilters | snippets/MantineReactTable/PatientTable.tsx:133-149 | the loop gives the column terms in order, then the global filter's term when that filter is not empty |
| PatientTable.MappedFilters | snippets/MantineReactTable/PatientTable.tsx:151-152 | the filter variable is the terms joined by ` and `, and is absent, never `""`, when that join is empty |
| PatientTable.FiltersJoined | snippets/MantineReactTable/PatientTable.tsx:151-152 | each further term is appended after ` and ` |
| PatientTable.FilterAbsentIffNoTerms | snippets/MantineReactTable/PatientTable.tsx:147-152 | the filter is absent iff there is no `name` column filter and the global filter is empty |
| PatientTable.SortTermRoundTrip | snippets/MantineReactTable/PatientTable.tsx:141-145 | a sort term reads back as its column and direction, `-` standing for descending |
| PatientTable.SortTerms | snippets/MantineReactTable/PatientTable.tsx:141-144 | one sort term per sorted column, in order |
| PatientTable.MappedSorting | snippets/MantineReactTable/PatientTable.tsx:141-145 | no sorting gives `""`, one sorted column gives its term, and more give the first term, `,` and the rest |
| PatientTable.SortingRoundTrip | snippets/MantineReactTable/PatientTable.tsx:141-145 | splitting the sort string at `,` and reading each term back gives the sorted columns and directions, when no id contains `,` or starts with `-` |
| PatientTable.PatientTable.constructor | snippets/MantineReactTable/PatientTable.tsx:44-53 | the table starts loading with no rows, on page 0 with page size 10 |
| PatientTable.PatientTable.StartFetch | snippets/MantineReactTable/PatientTable.tsx:124-159 | the first load shows the loader and later ones the progress bar; the query asks for offset `pageIndex * pageSize`, count `pageSize`, and the filter and sort strings |
| PatientTable.PatientTable.FinishFetch | snippets/MantineReactTable/PatientTable.tsx:161-174 | errors show the messages joined by `", "` and keep the rows; a page sets the row count and the page size, and then either replaces the rows by the copied resources of its edges and clears the error, or throws on a nullish edge, leaving rows, error and the loading flags as they were; otherwise loading ends |
| PatientTable.SpreadCopy | snippets/MantineReactTable/PatientTable.tsx:169 | `{...v}` copies an object and makes `{}` of `null` or `undefined` |
| PatientTable.PageRows | snippets/MantineReactTable/PatientTable.tsx:169 | throws iff some edge is nullish; otherwise one row per edge, the copy of its `resource` |
| PatientTable.RowsOfWrappedResources | snippets/MantineReactTable/PatientTable.tsx:169 | edges wrapping object resources give those resources back as the rows |
| GraphQLTable.Resources | snippets/GraphQLTable/Table.tsx:50 | the edges are mapped one to one, in order, to their `resource`; a null edge throws |
| GraphQLTable.ParseQueryResult | snippets/GraphQLTable/Table.tsx:43-54 | count, offset and page size are copied; a missing connection or non-array edges throw |
| GraphQLTable.ParseQueryResultOk | snippets/GraphQLTable/Table.tsx:43-54 | a present connection whose edges are an array without null entries parses to its count, offset, page size and edge resources |
| GraphQLTable.ParseConnection | snippets/GraphQLTable/Table.tsx:43-54 | a connection whose edges carry resources is read back with those resources, in order |
| GraphQLTable.WrapResources | snippets/GraphQLTable/Table.tsx:50 | edges `{resource}` map back to the resources |
| GraphQLTable.Offset | snippets/GraphQLTable/Table.tsx:37-59 | the first page has offset 0, and page `p` ends at `p * pageSize` |
| GraphQLTable.PageSizeOf | snippets/GraphQLTable/Table.tsx:37 | the page size is the prop, or 20 without one |
| GraphQLTable.RequestOf | snippets/GraphQLTable/Table.tsx:59-62 | the fetch sends `offset` for the current page and `count` equal to the page size |
| GraphQLTable.DefaultRequest | snippets/GraphQLTable/Table.tsx:37-62 | without a page size, page `n` asks for 20 rows from `20 * (n - 1)` |
| GraphQLTable.NextPageOffset | snippets/GraphQLTable/Table.tsx:59 | consecutive pages abut |
| GraphQLTable.PageCount | snippets/GraphQLTable/Table.tsx:112 | the page count is the ceiling of count over page size, with a missing value defaulting to 1; it is the least number of pages that covers the count |
| GraphQLTable.CeilBounds | snippets/GraphQLTable/Table.tsx:112 | the rounded-up quotient covers the count, and one page less does not |
| GraphQLTable.RowOnItsPage | snippets/GraphQLTable/Table.tsx:59-112 | every row of the count lies on a page between 1 and the page count whose offset range contains it |
| GraphQLTable.RowCells | snippets/GraphQLTable/Table.tsx:99-103 | one cell per column, each rendering the row |
| GraphQLTable.Rows | snippets/GraphQLTable/Table.tsx:97-105 | one row per edge, in order |
| GraphQLTable.Body | snippets/GraphQLTable/Table.tsx:90-106 | loading shows one loader cell across the columns; otherwise one row per edge and one cell per column, and nothing before the first result |

## Left out

- I/O is not modelled. This covers remote fetches and saves (`questionnaireServices.ts`, the GraphQL calls and `ResourceForm.tsx`), notifications, navigation and rendering. Each fetched result is a method parameter (`Wizard.IntakeForm.Load`, `Wizard.IntakeForm.HandleSubmit`, `PatientTable.PatientTable.FinishFetch`).
- The form library behind `useForm` is not modelled: the user's edits happen inside it. `Wizard.IntakeForm.values` holds what the form effect seeds with `setValues`. The values the library submits reach `Wizard.IntakeForm.HandleSubmit` as its `formValues` parameter (GenericQuestionnaire.tsx:127). The library's own validation before it calls the handler applies the same schema as `formSchema.parse`, so both are `Schema.Check`.
- React hook scheduling is not modelled: effects run when the methods are called. Effect dependency lists are not modelled. The patient table's refetch ignores `pageSize`.
- The `authored` time stamp of a response comes from the clock and is left out.
- The bot deploy script, the core-data upload page, the resource search input, the appointment modal and forms, the mask input, the check-box field and the table buttons are I/O, concurrency or pure UI. They are not part of this model.
- Foreign library calls are simplified:
  - `getExtensionValue` is the first extension with the url.
  - `getAllQuestionnaireAnswers` is the set of linkIds answered anywhere in the response tree.
  - `parseReference` is the text before the first `/`.
  - `createReference` keeps only `reference: "<resourceType>/<id>"`.
  - `pick` copies the six fields.
  - `deepEquals` and `stringify` are Dafny `==`.
  - `getTypedPropertyValue` of an answer's `value` is the first `value...` field, in key order, whose value is defined (`ChoiceField.FirstValueField`).
  - `filtersToFhirFilterString` is not modelled; of the GraphQL table's query variables only `offset` and `count` are built.
- Schema.Check: zod is reduced to the acceptance and output of the six rule kinds, with a simplification: an object rule drops keys not in the shape, and no error messages are modelled beyond the required-field constant. Every date value is taken as a valid date: a malformed text that `parseISO` would turn into an Invalid Date, which `z.date()` rejects, is not modelled.
- Schema.FormatISODate: `formatISO` with date representation is the first ten characters of the parsed text. Time zones and the local calendar are not modelled.
- ChoiceField.AnswerValue: the type name of a typed value is the key suffix (`valueString` gives `String`). Medplum's lower-casing of primitive type names is not modelled.
- ChoiceField.RadioInput.constructor: the selection is computed at construction. The effect that re-synchronises it when the answer changes is not modelled separately.
- JavaScript puts integer-like keys first when it orders object keys; here insertion order is kept. Property lookup sees own properties only, not the prototype chain.
- Numbers are unbounded integers. Floating point, `NaN` and `Infinity` do not occur, except that `GraphQLTable.PageCount` returns `None` for a zero page size.
- GraphQLTable.PageCount: count and page size are whole numbers. A fractional or negative count is not modelled.
- FormState.NestedField.HandleChildChange: the source writes at any index. An index past the end would create a sparse array, so the method requires an existing index.
- FormState.NestedField.HandleChildChange: the source builds the new lists from the `formData` and `errorList` of the last render and sets them without functional updaters. When several children of one entry report in the same commit, as the inputs do on mount, each call starts from the same stale lists and only the last child's key survives. The method applies the calls one after another and keeps every key, so this lost update is not captured.
- PatientTable.FormatName: a name part that is missing is written `undefined`, as a template literal writes it. The display text and the photo of the accessor are not modelled.
- PatientTable.PatientTable.FinishFetch: the spread copy of an object row is the same value, since the model has no object identity. The throw on a nullish edge is reported by the method's result; the rejected promise is not modelled.
- The other table columns are set up but not modelled: caregivers, join date (`dayjs`), last session and status.
- The checkbox field of a choice question is UI only. Its strategy is selected (`ChoiceField.StrategyOf`), and its answer encoding is `ResponseMapper.FormControlAnswer`.
