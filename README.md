# Latest Form Version / Survey Updates: configuration validator and field transfer

This project models the logic of a REDCap external module. The module copies
field values from a source form into a destination form whenever a record is
saved. An administrator writes one or more *configuration instances*. Each
instance names a source form, a destination form and two parallel field lists.

The model covers:

- **`parseConfigList`** (module `FieldList`). A raw field list is split on
  every non-word character, as `preg_split('/\W/', …, PREG_SPLIT_NO_EMPTY)`
  does, and each piece is trimmed. Both instance classes share it.
- **`checkFormsFields` and `validateConfig`, in both variants.**
  `SurveyUpdatesInstance` (module `SurveyUpdates`) checks the following:
  - that the form is in the event;
  - that every field is on the form;
  - whether the form repeats as required.

  A repeating-status mismatch only sets a message; the check stays valid.

  `LatestFormVersionInstance` (module `LatestInstance`) checks that every
  field is on the form. For the destination form it also checks that exactly
  one event holds the form.

  Both variants then:
  - require equal field counts;
  - compare the element type and validation type of each pair of fields;
  - report all mismatching pairs together.

  The steps the two variants share are in module `FieldChecks`:
  - `array_diff`;
  - the type-comparison loop;
  - the messages.
- **`transferData` of `SurveyUpdatesInstance`.** Position `i` of the source
  row goes to destination field `i`. This happens only when the value is not
  `''` or `overwrite` is set. The result is written in a single `saveData`
  call under the destination event. The transfer counts as saved exactly when
  the store returns no errors.
- **The module class `LatestFormVersion`** (module `LatestModule`):
  - `parseSubsettingsFromSettings`, the transpose from one value list per key
    into one map per instance;
  - `validateConfigs`, which reports every invalid instance with its 1-based
    position;
  - the one-way delete flag that `redcap_every_page_before_render` sets;
  - the filter/validate/transfer loop of `redcap_save_record`.

The project metadata (`$Proj`) is a value of type `Project.Metadata`. It has
four tables:
- the fields of each form;
- the forms of each event;
- the type of each field;
- the repeating status of each event.

Setting values are `Settings.Value`: PHP null, a checkbox boolean, or text.
The model follows PHP 7 conversions:
- a missing key reads as null;
- null becomes `""`;
- truthiness and loose `==` against a string.

The two instance classes keep their fields as `const` fields set by the
constructor, as the PHP objects never change them afterwards. The module
class's `deleteAction` is a mutable `deleteForm` field. The loops of the
source are methods with loop invariants. Each method is proved against a
specification function, and the lemmas about those functions state what the
code promises.

## Model

| member | source | states |
|---|---|---|
| FieldList.ParseConfigList | src/SurveyUpdatesInstance.php:54-61 | the list is exactly the pieces of the input between non-word characters, empty pieces dropped, in input order; trimming changes no piece and every name is a non-empty run of word characters |
| FieldList.SplitWords | src/LatestFormVersionInstance.php:50-57 | every parsed name is a non-empty string of ASCII letters, digits and `_` |
| FieldList.TrimKeepsWord | src/SurveyUpdatesInstance.php:58 | `trim` leaves a name made of word characters unchanged |
| FieldList.SplitKeepsOrder | src/LatestFormVersionInstance.php:52 | the names glued together are exactly the word characters of the input in their original order: nothing is reordered, dropped or invented |
| FieldList.SplitEmpty | src/SurveyUpdatesInstance.php:56 | the list is empty exactly when the input holds no word character |
| FieldList.SplitJoin | src/SurveyUpdatesInstance.php:56 | splitting a list of names joined by single spaces gives the list back |
| FieldList.ReparseJoined | src/SurveyUpdatesInstance.php:54-61 | parsing is idempotent: the parsed list, joined by spaces and parsed again, is the same list |
| FieldChecks.MissingFields | src/SurveyUpdatesInstance.php:147-152 | `array_diff`: a field is reported exactly when it is configured and not on the form; the report is no longer than the list |
| FieldChecks.MissingFieldsAppend | src/LatestFormVersionInstance.php:129-133 | the missing fields of a list are those of its first part followed by those of the rest, so they keep their configured order |
| FieldChecks.CollectMismatches | src/SurveyUpdatesInstance.php:97-107 | the type-comparison loop collects exactly the specified list of mismatching pairs |
| FieldChecks.MismatchesReportEveryPair | src/LatestFormVersionInstance.php:91-100 | a pair `src => dst` is reported exactly when it sits at a position whose element type or validation type differ |
| FieldChecks.MismatchesEmpty | src/SurveyUpdatesInstance.php:104-112 | nothing is reported exactly when every pair agrees on both types |
| FieldChecks.MismatchesPrefix | src/SurveyUpdatesInstance.php:99-106 | pairs are reported in index order: the report of a prefix opens the report of any longer prefix |
| SurveyUpdates.SurveyUpdatesInstance.constructor | src/SurveyUpdatesInstance.php:30-46 | each field holds its setting, read as PHP string; the two field lists are the parsed settings |
| SurveyUpdates.SurveyUpdatesInstance.CheckFormsFields | src/SurveyUpdatesInstance.php:133-171 | valid exactly when the form is in the event and every field is on the form; a form outside the event is reported before any field check; missing fields are listed exactly; a repeating-status mismatch sets the matching message but keeps the result valid |
| SurveyUpdates.SurveyUpdatesInstance.ValidateConfig | src/SurveyUpdatesInstance.php:75-118 | an invalid source check is returned unchanged without examining the destination; an invalid destination check is returned; unequal counts are invalid and carry both counts; valid exactly when both checks pass, counts agree and, unless the destination check left a message, all paired types agree; every mismatching pair is reported together |
| SurveyUpdates.SurveyUpdatesInstance.TransferData | src/SurveyUpdatesInstance.php:182-220 | one save of the write map for the record under the destination event; saved exactly when the store returns no errors, and those errors are returned |
| SurveyUpdates.SurveyUpdatesInstance.WriteMapKeys | src/SurveyUpdatesInstance.php:199-207 | a destination field is written exactly when some position paired with it keeps its value; no other key is written |
| SurveyUpdates.SurveyUpdatesInstance.WriteMapValues | src/SurveyUpdatesInstance.php:199-207 | a kept value lands in its destination field unless a later kept position writes the same field (the last write wins) |
| SurveyUpdates.SurveyUpdatesInstance.TransferRule | src/SurveyUpdatesInstance.php:199-207 | with distinct destination fields, `destination_fields[i]` is written exactly when value `i` is not `''` or overwrite is set, and then it receives value `i` |
| LatestInstance.CheckRules | src/LatestFormVersionInstance.php:123-151 | a check passes exactly when every field is on the form and, for a singleton form, exactly one event holds it; a passing check carries no message; a failing one lists exactly the missing fields or names the form that is not in one event |
| LatestInstance.LatestFormVersionInstance.CheckFormsFields | src/LatestFormVersionInstance.php:123-151 | the field check and the event-counting loop return exactly the verdict `CheckRules` characterises |
| LatestInstance.LatestFormVersionInstance.constructor | src/LatestFormVersionInstance.php:28-42 | each field holds its setting, read as PHP string; the two field lists are the parsed settings |
| LatestInstance.ValidateRules | src/LatestFormVersionInstance.php:70-111 | the source is checked without and the destination with the singleton rule; an invalid source check short-circuits; unequal counts are invalid with both counts and skip the type comparison; otherwise every mismatching pair is reported together; valid exactly when no message is set |
| LatestInstance.ValidIffRulesHold | src/LatestFormVersionInstance.php:70-111 | a configuration is valid exactly when all fields are on their forms, the destination form is in exactly one event, the counts agree and each pair agrees on both types |
| LatestInstance.LatestFormVersionInstance.ValidateConfig | src/LatestFormVersionInstance.php:70-111 | returns exactly the verdict that `ValidateRules` and `ValidIffRulesHold` characterise |
| LatestModule.WidthIsLongest | LatestFormVersion.php:68-74 | the number of instances is the length of the longest value list among the sub-setting keys |
| LatestModule.RowStep | LatestFormVersion.php:69-73 | taking one more key into the transpose adds its `i`-th value, if any, to instance `i` |
| LatestModule.RowBeyondWidth | LatestFormVersion.php:71-72 | no instance exists beyond the longest value list |
| LatestModule.CollectKeys | LatestFormVersion.php:62-65 | the keys of the sub-settings, in configured order |
| LatestModule.Transpose | LatestFormVersion.php:67-74 | the nested loops produce one map per value index; instance `i` is the map of every key that has an `i`-th value to that value |
| LatestModule.AddColumn | LatestFormVersion.php:70-73 | the inner loop writes one key's values into the instances, creating those past the end |
| LatestModule.LatestFormVersion.ParseSubsettingsFromSettings | LatestFormVersion.php:57-76 | false exactly when the setting is not of type `sub_settings`; otherwise `result[i][k] == settings[k][i]` for every key and index, no other entries exist, and no instance is empty |
| LatestModule.ValidateInstance | LatestFormVersion.php:83-86 | constructing the instance object and calling `validateConfig` gives the verdict of that configuration |
| LatestModule.VerdictAt | LatestFormVersion.php:82-86 | the `i`-th verdict is the verdict on instance `i` |
| LatestModule.IssuesAreInvalid | LatestFormVersion.php:89-92 | every reported issue names an invalid instance by its 1-based position and carries that instance's message |
| LatestModule.IssuesInOrder | LatestFormVersion.php:82-93 | issues appear in instance order |
| LatestModule.IssuesComplete | LatestFormVersion.php:82-93 | every invalid instance is reported; valid instances add nothing |
| LatestModule.IssuesEmpty | LatestFormVersion.php:79-93 | the report is empty exactly when every verdict is valid |
| LatestModule.NoIssuesIffAllValid | LatestFormVersion.php:78-97 | `validateConfigs` reports nothing exactly when every configuration instance is valid |
| LatestModule.LatestFormVersion.ValidateConfigs | LatestFormVersion.php:78-98 | the messages are exactly the report of invalid instances; the result is false exactly when something was reported, which by `NoIssuesIffAllValid` means some instance is invalid |
| LatestModule.LatestFormVersion.constructor | LatestFormVersion.php:15-20 | a new module object has no delete action recorded |
| LatestModule.LatestFormVersion.RedcapEveryPageBeforeRender | LatestFormVersion.php:113-119 | the delete flag becomes set exactly when it was set or the posted `submit-action` is `submit-btn-deleteform`; nothing clears it |
| LatestModule.StepFor | LatestFormVersion.php:133-152 | data is transferred exactly for a selected, valid instance while no form is being deleted; nothing happens exactly when the instance is not selected or a form is being deleted; an invalid selected instance is skipped with its message |
| LatestModule.LatestFormVersion.RedcapSaveRecord | LatestFormVersion.php:121-155 | one step per instance, in order, each decided by that instance's own selection (`repeat_event_id == event_id`, `repeat_form == instrument`), its verdict and the delete flag, so an invalid instance never stops later ones |
| LatestModule.LatestFormVersion.SaveInstance | LatestFormVersion.php:133-152 | the loop body for one instance takes the step `StepFor` describes |

## Left out

- `REDCap::getData` and `REDCap::saveData` are external. The source row is looked up in a map keyed by event, repeat key and instance number. The save is a function parameter that returns the store's error list. The nested `repeat_instances` array shape is reduced to that lookup.
- `global $Proj` and `setRepeatingFormsEvents()` become the immutable `Metadata` value passed to the constructors. `$Proj->project_id` is used only in message text and is left out.
- `LatestFormVersionInstance::transferData` (src/LatestFormVersionInstance.php:162-204) reads properties this class never sets. Its behaviour rests on PHP's undefined-property semantics, so it is not modelled. The save hook records a `Transfer` step where the source calls it, and the transfer rule is modelled on `SurveyUpdatesInstance::transferData`.
- LatestModule.LatestFormVersion.RedcapSaveRecord: does not model what the transfer returns, because the source only logs it.
- Logging (`emDebug`, `emLog`, `emError`) is left out, because it has no effect on results.
- `redcap_module_save_configuration` only calls `validateConfigs` and logs the result, so it is left out.
- `getSubSettings` and `getSettingConfig` are host plumbing. Their results are parameters: the instance list and the `SettingConfig`.
- `pages/ConfigAjax.php` is HTTP glue and is not part of this model.
- Message texts are tagged values (`FieldChecks.Message`), not HTML strings. The `json_encode` of error payloads is left out.
- Settings.LooseEquals: does not model PHP's numeric-string comparison (`"1" == "01"`). Event ids and form names are compared as plain strings.
- FieldChecks.MissingFields: a form the project lacks is treated as a form with no fields. PHP 7's `array_diff` on a null field list returns null, which would let the check pass. PHP 8 would raise a `TypeError` instead. The model takes the reading in which such a configuration is rejected.
- `\w` is taken as ASCII letters, digits and `_`, as PCRE has it without the `u` flag. Locale-dependent word characters are left out.
- The code has no checkbox-exclusion check, and neither has the model.
- `LatestFormVersionInstance` does not check whether the destination form repeats. `SurveyUpdatesInstance` reports a repeating destination but keeps the configuration valid (src/SurveyUpdatesInstance.php:157-161). The model follows the code in both.
- `SurveyUpdatesInstance::validateConfig` replaces the message of a valid source check with that of the destination check. A source form that does not repeat is therefore accepted. The model keeps this behaviour of the code, as `ValidateConfig`'s contract states.
