# laravel-bread field definitions, in Dafny

This project models the core of laravel-bread, a Laravel package that describes an Eloquent model's form fields in PHP. From that description it derives:

- validation rules;
- fillable/hidden guards;
- a definition for a front end;
- how the model's attributes are stored and validated.

The model covers five parts of the package.

- **Field descriptors.** `BaseField` and its subclasses are fluent builders of a field definition. Each holds:
  - a definition record;
  - the required rule (`nullable`/`required`);
  - a list of validation tokens;
  - a validation key;
  - a group.

  Nested fields (`JsonField`, `RepeatableJsonField`, `MetaField`) capture another builder's rules and fields. They re-key the rules under `parent.` or `parent.*.`. Relation fields name themselves after the relation and record where the related models are fetched.
- **`DefinitionBuilder`**, which holds:
  - the groups (seeded from the shipped configuration);
  - the fillable/hidden guard lists;
  - the rules map;
  - the name-keyed definitions.

  `addField` checks each field and then registers it. It can also produce the grouped full definition and the flat one.
- **The `FieldDefinition` trait**, which compiles a model's definition. It takes the definition from a tagged cache, or from the model's `define` hook when the cache has none. It then installs the definition, merging guards without duplicates and layering rules so that the model's own rules win.
- **The `BreadModelTrait` attribute pipeline**, which covers:
  - the order of the steps in the saving hook;
  - rule selection by top-level key;
  - JSON encoding and decoding as the flat definition directs;
  - joining ENUM arrays with `;`;
  - the fillable whitelist;
  - how `syncMediaFiles` dispatches each entry.
- **The decision logic of `BreadController`**, which covers:
  - the pagination flag;
  - related-id extraction, the permission gate, and dispatch by relation type in `attach`/`detach`;
  - model-class resolution;
  - meta-field validation and saving;
  - normalisation of relation-sync values;
  - the order of the steps before and after a save.

## How the model is built

- **PHP arrays** are ordered association lists `seq<(Key, Value)>` (module `Assoc`). `Put` keeps the position of an existing key and appends a new one.
  - A PHP value is `Null`, `Bool`, `Int`, `Str` or `Arr` (module `Values`).
  - `array_replace_recursive` is `Values.ReplaceRecursive`, and its lookup, key and idempotence laws are proved.
- **Rules maps** are `map<string, string>`.
- **A field** is one class, `FieldBase.BaseField`, tagged with its `kind`:
  - each PHP subclass is a module with a `Create` method (its `setDefaultDefinition` and `name`) and its own setters;
  - overridden methods (`CheckboxField::name`, `NestedBaseField::getRules`) are switches on the kind.
- **`DefinitionBuilder.Builder`** and **`FieldDefinition.DefinedModel`** are classes whose methods update their fields in place. Each method's `ensures` states the whole new state in terms of specification functions, and lemmas prove what those functions mean.
- **Loops of the source** are methods with loops, each proved equal to a function on its inputs. These are:
  - `addFields`;
  - `getFullDefinition`;
  - `setFieldGuards`;
  - `getRules`;
  - the two attribute transforms;
  - `syncMediaFiles`;
  - the meta loops;
  - `syncRelations`;
  - the save hooks.
- **What the package takes from elsewhere is passed in as a parameter:**
  - JSON encoding and decoding as a `JsonCodec` record; `Strings::isJson` is defined from its decode (`Strings.IsJson`);
  - `Str::snake`/`kebab`/`plural` as an `Inflector`;
  - `Rule::in`;
  - the `Lang` placeholder text;
  - the cache store and whether it supports tags;
  - `allowRelationChanges`;
  - a validator's verdict;
  - the outcome of each media-library call.

  The ORM calls the controller makes are returned as a list of calls (`RelationCall`, `MetaCall`, `MediaCall`, `AfterSaveStep`). The model never performs them.
- **Configuration** (`src/config/bread.php`) is the set of constants in `BreadConfig`. There, `model_namespace` is `\App\Models\`, the default group is `general`, and the shipped groups are `general` (order 0) and `relations` (order 100).
- **Three points of behaviour worth stating plainly:**
  - the error for a definition that fails `validateSingleDefinition` names the builder class, not the field;
  - `syncMediaFiles` handles its entries in list order and does not remove before adding;
  - `maxDate`/`minDate` set only `extra_data` and add no validation rule.

## Model

| member | source | states |
|---|---|---|
| FieldBase.BaseField.constructor | src/Fields/Base/BaseField.php:15-39 | A fresh field has exactly the default definition: null label, description, placeholder and default; not required; label shown; not hidden; fillable; empty `hidden_on` and `extra_data`; no name, type, input type or rule string. Its rule is `nullable` with no tokens, and it has no key and no group |
| FieldBase.RuleString | src/Fields/Base/BaseField.php:101-104 | The rule string starts with the required rule. Split at the bar character, it gives back the required rule followed by the tokens in order, whenever no token contains the bar character |
| FieldBase.BaseField.Name | src/Fields/Base/BaseField.php:41-50 | `name` always sets the name. It sets the validation key only when none exists yet, so a later rename keeps the first key. For a checkbox that first key is `name.*`, as the override in src/Fields/CheckboxField.php:23-33 makes it |
| FieldBase.BaseField.Label | src/Fields/Base/BaseField.php:52-56 | Sets the label and nothing else |
| FieldBase.BaseField.ShowLabel | src/Fields/Base/BaseField.php:58-62 | Sets `show_label` and nothing else |
| FieldBase.BaseField.Description | src/Fields/Base/BaseField.php:64-68 | Sets the description and nothing else |
| FieldBase.BaseField.Placeholder | src/Fields/Base/BaseField.php:70-74 | Sets the placeholder and nothing else |
| FieldBase.BaseField.DefaultValue | src/Fields/Base/BaseField.php:76-80 | Sets the default value and nothing else |
| FieldBase.BaseField.Required | src/Fields/Base/BaseField.php:82-87 | Sets `required`. The required rule becomes the override when one is given, otherwise `required` or `nullable` to match the flag |
| FieldBase.BaseField.SetValidation | src/Fields/Base/BaseField.php:89-93 | Replaces the whole token list |
| FieldBase.BaseField.AddValidation | src/Fields/Base/BaseField.php:95-99 | Appends exactly one token at the end, without removing duplicates |
| FieldBase.BaseField.SetValidationKey | src/Fields/Base/BaseField.php:111-115 | The validation key becomes the given key |
| FieldBase.BaseField.Fillable | src/Fields/Base/BaseField.php:122-126 | Sets `fillable` and nothing else |
| FieldBase.BaseField.Hidden | src/Fields/Base/BaseField.php:128-132 | Sets `hidden` and nothing else |
| FieldBase.BaseField.InputHidden | src/Fields/Base/BaseField.php:134-138 | Sets `input_hidden` and nothing else |
| FieldBase.BaseField.Type | src/Fields/Base/BaseField.php:140-144 | Sets `type` and nothing else |
| FieldBase.BaseField.InputType | src/Fields/Base/BaseField.php:146-150 | Sets `input_type` and nothing else |
| FieldBase.BaseField.AddExtraData | src/Fields/Base/BaseField.php:152-156 | Extra data is replaced recursively. With distinct keys, every supplied key reads back the merged value and every other key keeps its value |
| FieldBase.BaseField.AddExtraEntry | src/Fields/Base/BaseField.php:152-156 | Writing one extra-data key makes that key read back the value and leaves every other key unchanged |
| FieldBase.BaseField.Group | src/Fields/Base/BaseField.php:158-162 | The explicit group is set |
| FieldBase.BaseField.HiddenOn | src/Fields/Base/BaseField.php:169-173 | Sets `hidden_on` and nothing else |
| FieldBase.BaseField.GetDefinition | src/Fields/Base/BaseField.php:175-179 | Writes the current rule string back into the definition and changes nothing else. The returned definition is the stored one |
| Values.ReplaceRecursiveLookup | src/Fields/Base/BaseField.php:152-156 | After a recursive replace, a key reads the supplied value, merged recursively when both sides are arrays. A key not supplied reads what it read before |
| Values.ReplaceRecursiveKeys | src/Fields/Base/BaseField.php:152-156 | A recursive replace keeps every existing key in place and adds the supplied keys that were missing |
| Values.ReplaceRecursiveIdempotent | src/Fields/Base/BaseField.php:152-156 | Merging the same extra data twice gives the same result as merging it once |
| Definitions.DefinitionHasKeys | src/Fields/Base/BaseField.php:24-39 | A field's definition as a PHP array always holds the ten base keys. It holds `rule_string` exactly when a rule string has been written |
| Definitions.LookupRequired | src/Builder/DefinitionBuilder.php:148-180 | In the PHP array, `name`, `type` and `input_type` read back the field's own values, and are absent when unset |
| Definitions.LookupRuleString | src/Fields/Base/BaseField.php:175-179 | In the PHP array, `rule_string` reads back the stored rule string |
| Definitions.AllGroupFieldsHas | src/Fields/Base/NestedBaseField.php:26-28 | The corrected flattening, which lists the groups' field lists one after another, lists a definition exactly when some group lists it |
| NestedBaseField.NestedPrefix | src/Fields/Base/NestedBaseField.php:39-50 | The prefix of nested rule keys starts with the parent's key |
| NestedBaseField.PrefixRulesLookup | src/Fields/Base/NestedBaseField.php:39-50 | Every nested rule `k` reappears as `prefix + k` with the same rule. Every output key is the prefix followed by a nested key |
| NestedBaseField.PrefixRulesSize | src/Fields/Base/NestedBaseField.php:44-49 | Each nested rule yields exactly one output rule, so an empty sub-schema yields none |
| NestedBaseField.GetRules | src/Fields/Base/NestedBaseField.php:39-50 | A nested field's rules are its captured rules, re-keyed under `key.` (or `key.*.` when repeatable) using the key at the time of the call. Any other field has no extra rules |
| NestedBaseField.Fields | src/Fields/Base/NestedBaseField.php:15-32 | Corrected: `fields` keeps the sub-builder's rules. As nested fields it keeps either the groups or every field definition, group after group |
| NestedBaseField.NestedFieldsAsWrittenFails | src/Fields/Base/NestedBaseField.php:26-28 | As written, the flattening throws exactly when the groups are not kept and there is at least one group. When it does not throw it agrees with the corrected flattening |
| NestedBaseField.FieldsAsWritten | src/Fields/Base/NestedBaseField.php:15-32 | The flag and the rules are stored first. When the flattening throws, the nested fields keep their old value and the error is returned. Otherwise they become the flattened fields |
| JsonField.Create | src/Fields/JsonField.php:13-20 | Type `JSON`, input `nested-fields`. The field stays fillable, with no tokens |
| JsonField.Fields | src/Fields/JsonField.php:22-30 | Corrected: captures the sub-builder's rules and fields and stores the fields in `extra_data.fields` |
| JsonField.FieldsAsWritten | src/Fields/JsonField.php:22-30 | As written: when the flattening throws, `extra_data.fields` is not written and the definition is unchanged. Otherwise the flattened fields are stored in `extra_data.fields` |
| JsonField.FieldsAsWrittenFailsWithGroups | src/Fields/Base/NestedBaseField.php:26-28 | On any builder with a group, such as a fresh one with the configured groups, `fields` without nested groups throws |
| RepeatableJsonField.Create | src/Fields/RepeatableJsonField.php:14-23 | The field is repeatable, with type `JSON` and input `repeatable-nested-fields` |
| MetaField.Create | src/Fields/MetaField.php:13-27 | Type `META`, input `nested-fields`, not fillable, and `extra_data.relation` set to the relation name |
| MetaField.RelationName | src/Fields/MetaField.php:29-36 | Overwrites `extra_data.relation` and leaves every other key unchanged |
| TextField.Create | src/Fields/TextField.php:12-21 | Type `TEXT`, input `text`, tokens `string` and `max:255`, and `extra_data.max` 255 |
| TextField.DefaultLimit | src/Fields/TextField.php:18 | On the defaults, the length limit leaves the rules `string` then `max:255` and the extra data holding `max` 255 alone |
| TextField.DefaultMaxLength | src/Fields/TextField.php:18 | The `maxLength()` default applied to a field whose rules are just `string` and whose extra data is empty |
| TextField.WithoutContaining | src/Fields/TextField.php:23-34 | The filter keeps exactly the tokens that do not mention the marker, and never grows the list |
| TextField.LengthToken | src/Fields/TextField.php:23-34 | The corrected length token is the marker followed by the requested limit, which parses back to that limit |
| TextField.LengthTokenAsWrittenIgnoresLength | src/Fields/TextField.php:29 | For a non-negative limit, the token the source writes equals the token for the requested limit exactly when the limit is 255 |
| TextField.MaxLength | src/Fields/TextField.php:23-34 | Corrected: no earlier token mentioning `max:` remains, and the requested limit's token comes last. `extra_data.max` becomes the limit and every other key is unchanged. `TextAreaField::maxLength` (src/Fields/TextAreaField.php:22-33) is the same operation |
| TextField.MinLength | src/Fields/TextField.php:36-47 | Corrected: the same as `MaxLength`, for `min:` and `extra_data.min`. `TextAreaField::minLength` (src/Fields/TextAreaField.php:35-46) is the same operation |
| TextField.MaxLengthAsWritten | src/Fields/TextField.php:23-34 | As written: the `max:` tokens are removed and `max:255` is appended whatever the limit, while `extra_data.max` becomes the limit |
| TextField.MinLengthAsWritten | src/Fields/TextField.php:36-47 | As written: the `min:` tokens are removed and `min:255` is appended whatever the limit, while `extra_data.min` becomes the limit |
| TextField.LengthLimitIdempotent | src/Fields/TextField.php:23-47 | Applying the same length limit twice gives the same tokens and extra data as applying it once |
| TextAreaField.Create | src/Fields/TextAreaField.php:12-20 | Type `TEXT`, input `textarea`, just the `string` token, and no `max` token |
| SelectField.Create | src/Fields/SelectField.php:12-19 | Type `ENUM`, input `select`, no tokens |
| SelectField.InRule | src/Fields/SelectField.php:29-37 | The rule is `in:` followed by the option keys. Split at commas it gives back the keys in order (for non-empty options whose keys hold no comma) |
| SelectField.KeyStrings | src/Fields/SelectField.php:29-37 | Each option key is written as its PHP string, in order |
| SelectField.Options | src/Fields/SelectField.php:29-37 | Appends one `in:` token and merges the options into `extra_data.options` |
| SelectField.StylingFormat | src/Fields/SelectField.php:42-49 | `extra_data.styling_format` becomes the given format, or the class's default format when none is given. Every other key is unchanged |
| CheckboxField.Create | src/Fields/CheckboxField.php:14-21 | Type `ENUM`, input `checkbox`, no tokens |
| CheckboxField.Options | src/Fields/CheckboxField.php:43-51 | Appends one `Rule::in` token computed from the option keys and merges the options into `extra_data.options` |
| CheckboxField.StylingFormat | src/Fields/CheckboxField.php:56-63 | `extra_data.styling_format` becomes the given format, or the class's default format when none is given. Every other key is unchanged |
| RadioField.Create | src/Fields/RadioField.php:14-21 | Type `ENUM`, input `radio`, no tokens. There is no key override |
| RadioField.Options | src/Fields/RadioField.php:31-39 | Appends one `Rule::in` token computed from the option keys and merges the options |
| RadioField.StylingFormat | src/Fields/RadioField.php:44-51 | `extra_data.styling_format` becomes the given format, or the class's default format when none is given. Every other key is unchanged |
| BoolField.Create | src/Fields/BoolField.php:12-20 | Type `BOOL`, input `boolean`, token `boolean`, label not shown |
| BoolField.StylingFormat | src/Fields/BoolField.php:25-32 | `extra_data.styling_format` becomes the given format, or the class's default format when none is given. Every other key is unchanged |
| PasswordConfirmField.Create | src/Fields/PasswordConfirmField.php:12-20 | Type `TEXT`, input `password-confirmation`, not fillable, hidden on `view` |
| PasswordConfirmField.MatchField | src/Fields/PasswordConfirmField.php:22-30 | The field becomes required. The required rule is `required_with:f`, `same:f` is appended, and `extra_data.match_field` is `f` |
| PasswordField.Create | src/Fields/PasswordField.php:12-20 | Type `TEXT`, input `password`, token `string`, hidden on `view`, still fillable |
| DateField.Create | src/Fields/DateField.php:12-23 | Type `TIMESTAMP`, input `date`, token `date`, timezone `UTC` |
| DateTimeField.Create | src/Fields/DateTimeField.php:12-23 | Type `TIMESTAMP`, input `datetime`, token `date`, timezone `UTC` |
| TimeField.Create | src/Fields/TimeField.php:12-23 | Type `TEXT`, input `time`, token `date_format:H:i:s`, timezone `UTC` |
| DateField.MaxDate | src/Fields/DateField.php:30-36 | Sets only `extra_data.max` and adds no token. It is shared by the date-time and time fields |
| DateField.MinDate | src/Fields/DateField.php:43-49 | Sets only `extra_data.min` and adds no token |
| DateField.Timezone | src/Fields/DateField.php:51-57 | Overwrites `extra_data.timezone` only |
| IntField.Create | src/Fields/IntField.php:12-19 | Type `INT`, input `number`, token `numeric` |
| FloatField.Create | src/Fields/FloatField.php:12-19 | Type `FLOAT`, input `number`, token `numeric` |
| EmailField.Create | src/Fields/EmailField.php:12-20 | Type `TEXT`, input `email`, token `email`, fillable and not hidden |
| TelField.Create | src/Fields/TelField.php:12-20 | Type `TEXT`, input `tel`, and one token that itself contains the bar character |
| WysiwygField.Create | src/Fields/WysiwygField.php:12-19 | Type `JSON`, input `wysiwyg`, no tokens |
| FileUploadField.CreateUpload | src/Fields/FileUploadField.php:37-62 | An upload field is `MEDIA`, not fillable, defaults to `[]` and has token `array`. Its extra data is the media type, TUS off, an empty endpoint, the mime list, and the collection set to the name (null without one) |
| FileUploadField.Create | src/Fields/FileUploadField.php:37-62 | A file upload is media type `files` with input `file-upload` and the 22 default file mime types |
| ImageUploadField.Create | src/Fields/ImageUploadField.php:17-42 | An image upload is media type `images` with input `image-upload` and mime types `image/jpeg`, `image/png` |
| FileUploadField.Multiple | src/Fields/FileUploadField.php:64-71 | Sets `extra_data.multiple` only. It is shared by the image upload |
| FileUploadField.Collection | src/Fields/FileUploadField.php:73-80 | Sets `extra_data.collection` only |
| FileUploadField.AllowedMimeTypesAsWritten | src/Fields/FileUploadField.php:82-89 | Merges the list into `mime_types` recursively, index by index |
| FileUploadField.AllowedMimeTypesAsWrittenKeepsDefaults | src/Fields/FileUploadField.php:82-89 | Allowing only `application/pdf` on a file field leaves `image/png` at index 1, so the list is not the one given |
| FileUploadField.AllowedMimeTypesAsWrittenKeepsTail | src/Fields/FileUploadField.php:82-89 | As written, every current type past the end of the given list stays allowed at its old index |
| FileUploadField.AllowedMimeTypes | src/Fields/FileUploadField.php:82-89 | Corrected: `mime_types` reads back exactly the given list, and every other extra-data key is unchanged |
| FileUploadField.EnableTUS | src/Fields/FileUploadField.php:91-99 | Sets `tus` to true and `tus_endpoint` to the endpoint |
| RelationBaseField.Relation | src/Fields/Base/RelationBaseField.php:11-29 | Fails when the model has no `getRelationType`. Otherwise the field keeps a truthy name or takes the snake-cased relation method, and `relation`, `related_to` and `endpoint` are recorded. The endpoint is `lower(plural(kebab(model)))` |
| RelationBaseField.RelationExtraMerged | src/Fields/Base/RelationBaseField.php:22-26 | After the merge the three relation keys hold plain strings, replacing an earlier `endpoint`, and every other key is unchanged |
| RelationBaseField.Endpoint | src/Fields/Base/RelationBaseField.php:31-37 | Overwrites the endpoint only |
| HasOneField.Create | src/Fields/HasOneField.php:16-35 | Type `HASONE`, input `model-search`, token `numeric`, not fillable. The extra data is a single choice, no prefetch, search and display on `title`, no extra display field and no labels |
| HasOneField.RelationAsWritten | src/Fields/HasOneField.php:37-63 | As written, a field without a name always fails: with the not-`HasOne` message when a related model is loaded, and with the `method_exists` `TypeError` when it is null. A named field keeps its name and key and gets the relation data |
| HasOneField.Relation | src/Fields/HasOneField.php:37-63 | Corrected (`$model->{$method}()`): without a name, the field is named after the relation's qualified foreign key and fails when that key is missing. A named field keeps its name and key. The relation data is then merged |
| HasOneField.SearchFieldAsWritten | src/Fields/HasOneField.php:65-77 | Only `search_field` changes, because the display field is written to an unused variable |
| HasOneField.SearchFieldAsWrittenKeepsDisplay | src/Fields/HasOneField.php:72 | On a fresh field, `searchField('name')` as written still displays `title` |
| HasOneField.SearchField | src/Fields/HasOneField.php:65-77 | Corrected: `search_field` is set, `display_field` too unless told otherwise, and nothing else changes |
| HasOneField.DisplayField | src/Fields/HasOneField.php:79-85 | Sets `display_field` only |
| HasOneField.Prefetch | src/Fields/HasOneField.php:87-93 | Sets `prefetch` only |
| HasOneField.ExtraDisplayField | src/Fields/HasOneField.php:102-108 | Sets `extra_display_field` only |
| HasOneField.DisplayFieldLabels | src/Fields/HasOneField.php:117-123 | Sets `display_field_labels` only |
| HasManySelectField.Create | src/Fields/HasManySelectField.php:14-33 | Type `HASMANY`, input `model-search`, token `array`, not fillable, multiple choices |
| HasManySelectField.Relation | src/Fields/HasManySelectField.php:35-44 | The base relation step, plus `parent_model` set to the model's class basename. Every other key is unchanged |
| HasManyField.CreateRelationList | src/Fields/HasManyField.php:12-25 | Fails when the group configuration is not an array. Otherwise the group is `relations` exactly when the map has that key |
| HasManyField.ShippedGroupsHaveRelations | src/config/bread.php:65-82 | The shipped group map is an array with a `relations` key |
| HasManyField.Create | src/Fields/HasManyField.php:12-25 | Type `HASMANY`, input `relation-list`, token `array`, not fillable, and group `relations` under the shipped configuration |
| ManyToManyField.CreateAsWritten | src/Fields/ManyToManyField.php:20 | As written the field cannot be built: `array_key_exists` is given the string `general` and throws a `TypeError` |
| ManyToManyField.Create | src/Fields/ManyToManyField.php:12-25 | Corrected to read the group map: type `MANYTOMANY`, input `relation-list`, token `array`, not fillable, group `relations` |
| DefinitionBuilder.Builder.constructor | src/Builder/DefinitionBuilder.php:15-37 | A new builder starts with the configured groups; no rules, fields, definitions, options or guards; not cachable; TTL 20160. It has model names only when given a model |
| DefinitionBuilder.ModelNames | src/Builder/DefinitionBuilder.php:39-49 | The model info always has a name and a plural name |
| DefinitionBuilder.Builder.SetModelInfo | src/Builder/DefinitionBuilder.php:39-49 | The model info becomes the names derived from the class |
| DefinitionBuilder.Builder.AddGroup | src/Builder/DefinitionBuilder.php:60-75 | The group reads back with an empty field list. Its order defaults to the number of groups present before. Re-adding a key replaces that group in place, and every other group is unchanged |
| DefinitionBuilder.Builder.SetOptions | src/Builder/DefinitionBuilder.php:136-139 | The options become the given array |
| DefinitionBuilder.FirstUnset | src/Builder/DefinitionBuilder.php:148-180 | No required key is reported exactly when all are set to non-null values. A reported key is required and unset |
| DefinitionBuilder.MissingKeys | src/Builder/DefinitionBuilder.php:148-180 | Reports exactly the keys that must exist but are absent |
| DefinitionBuilder.DefinitionErrorMeaning | src/Builder/DefinitionBuilder.php:148-180 | A definition is accepted exactly when `name`, `type` and `input_type` are set and all eleven keys exist. Every error names the builder class |
| DefinitionBuilder.FieldErrorAgrees | src/Builder/DefinitionBuilder.php:148-180 | Checking a field's PHP array matches the direct check on its record |
| DefinitionBuilder.FirstUnsetOfField | src/Builder/DefinitionBuilder.php:148-180 | For a field the first unset key is `name`, then `type`, then `input_type` |
| DefinitionBuilder.MissingKeysOfField | src/Builder/DefinitionBuilder.php:148-180 | A field's array lacks at most `rule_string` among the keys that must exist |
| DefinitionBuilder.MustExistKeys | src/Builder/DefinitionBuilder.php:148-180 | The must-exist keys are distinct, include `rule_string`, and are otherwise base keys |
| DefinitionBuilder.MissingKeysExactly | src/Builder/DefinitionBuilder.php:148-180 | When one key alone is absent, exactly that key is reported |
| DefinitionBuilder.ValidateSingleDefinition | src/Builder/DefinitionBuilder.php:148-180 | The loops report the first unset required key, else the list of missing keys, else accept |
| DefinitionBuilder.Guarded | src/Builder/DefinitionBuilder.php:90-103 | A guard list keeps its prefix and gains the name only when the flag is set. A list without duplicates stays without them |
| DefinitionBuilder.Stored | src/Builder/DefinitionBuilder.php:90-98 | The stored definition is hidden when it was hidden or input-hidden. It has no `input_hidden` true, and nothing else changes |
| DefinitionBuilder.Arranged | src/Builder/DefinitionBuilder.php:105-114 | Nested rules are merged first. Then a non-empty rule string lands under the validation key and overwrites it |
| DefinitionBuilder.Builder.AddField | src/Builder/DefinitionBuilder.php:85-125 | A failing definition changes nothing. A valid one updates the guards and rules. It is stored under its name only when its group exists, and otherwise fails naming the field, keeping the guard and rule updates |
| DefinitionBuilder.Builder.Register | src/Builder/DefinitionBuilder.php:90-122 | The registration step of `addField`: guards, rules, then the group check and the store |
| DefinitionBuilder.Builder.GuardHidden | src/Builder/DefinitionBuilder.php:90-93 | A hidden field's name joins the hidden guard once |
| DefinitionBuilder.Builder.GuardFillable | src/Builder/DefinitionBuilder.php:100-103 | A fillable field's name joins the fillable guard once |
| DefinitionBuilder.Builder.RecordRules | src/Builder/DefinitionBuilder.php:105-114 | Rules become the arranged rules |
| DefinitionBuilder.Builder.MergeRules | src/Builder/DefinitionBuilder.php:105-110 | Nested rules overwrite equal keys |
| DefinitionBuilder.Builder.Store | src/Builder/DefinitionBuilder.php:121-122 | The field and its definition are stored under its name, and earlier names stay |
| DefinitionBuilder.Builder.AddFields | src/Builder/DefinitionBuilder.php:127-134 | The loop is the fold of `addField` over the fields: the error and the registry are those of the fold, so the first failing field stops the loop and the fields before it stay added. Without an error, every field given is stored under its name |
| DefinitionBuilder.AddAllFailure | src/Builder/DefinitionBuilder.php:127-134 | Adding a list fails exactly when some field is the first one to fail |
| DefinitionBuilder.AddAllFailsAt | src/Builder/DefinitionBuilder.php:127-134 | When field `k` is the first to fail, the outcome is that field's step on the registry the fields before it left |
| DefinitionBuilder.AddAllStoresAll | src/Builder/DefinitionBuilder.php:127-134 | When adding a list succeeds, every field in it has a name under which a definition is stored |
| DefinitionBuilder.InitialViews | src/Builder/DefinitionBuilder.php:187-202 | The full view starts with every group, in order, holding no fields |
| DefinitionBuilder.PlaceAllView | src/Builder/DefinitionBuilder.php:187-202 | Each group lists its fields in registration order, a field name registered twice placed once. A group is added for an unknown key. Keys stay distinct |
| DefinitionBuilder.Builder.Placements | src/Builder/DefinitionBuilder.php:187-202 | One placement per stored field |
| DefinitionBuilder.Builder.GetFullDefinition | src/Builder/DefinitionBuilder.php:187-202 | The loop computes the full view and changes nothing |
| DefinitionBuilder.Builder.SetCacheable | src/Builder/DefinitionBuilder.php:212-231 | Fails exactly when caching is asked of a store without tags, and then changes nothing. Otherwise the flag and TTL are set, and the builder is cachable exactly when asked |
| FieldDefinition.DefinedModel.constructor | src/Traits/FieldDefinition.php:14-16 | A model starts with its own guards, rules and attributes and no definition |
| FieldDefinition.MergedGuardMeaning | src/Traits/FieldDefinition.php:183-200 | Merging a guard keeps the existing list as a prefix and lists exactly the old and new names, with no duplicates introduced |
| FieldDefinition.MergedGuardIdempotent | src/Traits/FieldDefinition.php:183-200 | Merging the same guard names twice is merging them once |
| FieldDefinition.MergedGuardAllListed | src/Traits/FieldDefinition.php:183-200 | Names already listed leave the guard unchanged |
| FieldDefinition.AppendMissing | src/Traits/FieldDefinition.php:183-200 | The loop over one guard list computes the merged guard |
| FieldDefinition.DefinedModel.SetFieldGuards | src/Traits/FieldDefinition.php:183-200 | Both guard lists become their merges |
| FieldDefinition.LayeredRules | src/Traits/FieldDefinition.php:202-207 | Rules are the union of both maps, and the model's own rules win on equal keys |
| FieldDefinition.DefinedModel.SetFieldRules | src/Traits/FieldDefinition.php:202-207 | Rules become the layered rules |
| FieldDefinition.DefinedModel.SetFieldDefinition | src/Traits/FieldDefinition.php:165-181 | Guards and rules are merged and both definitions are stored, with the skeleton for an empty definition. The model is defined exactly when the flat part is non-empty |
| FieldDefinition.DefinedModel.CachedFor | src/Traits/FieldDefinition.php:68-88 | A cache entry is used exactly when the store supports tags and holds a usable entry under the lower-cased class basename |
| FieldDefinition.DefinitionCache.Put | src/Traits/FieldDefinition.php:54-63 | Storing sets that one key |
| FieldDefinition.DefinedModel.CompileDefinition | src/Traits/FieldDefinition.php:23-66 | Without `force`, nothing happens while compiling or once defined, and a usable cache entry is installed. Otherwise the builder's full and flat views are installed, the compiling flag is false again, and the cache is written only when cachable |
| FieldDefinition.DefinedModel.GetFieldDefinition | src/Traits/FieldDefinition.php:123-131 | Returns the installed definition. A defined model changes nothing. An undefined one is compiled first, exactly as `CompileDefinition` without `force` does |
| FieldDefinition.DefinedModel.GetFlatFieldDefinition | src/Traits/FieldDefinition.php:136-143 | Returns the installed flat definition. With a non-empty one nothing changes. With an empty one the model is compiled first, exactly as `CompileDefinition` without `force` does |
| FieldDefinition.RemoteRelationFields | src/Traits/FieldDefinition.php:150-157 | Keeps exactly the entries typed `HASMANY` or `MANYTOMANY` |
| FieldDefinition.FieldDefaults | src/Traits/FieldDefinition.php:216-239 | Maps each flat name to its default, in order |
| FieldDefinition.FieldDefault | src/Traits/FieldDefinition.php:216-239 | A missing or falsy name (`''`, `'0'`) returns every default as an array. An unknown name returns null. A known name returns its default when that is an array or null, and otherwise fails with the `?array` return-type `TypeError` |
| FieldDefinition.FieldDefaultsAgree | src/Traits/FieldDefinition.php:216-239 | The defaults map has a name exactly when the flat definition does, holding that field's default. A successful single-name read agrees with the map, with null for an absent name |
| FieldDefinition.DefinedModel.GetFieldDefaults | src/Traits/FieldDefinition.php:216-239 | Returns the default for the name from the flat definition, reading it through `getFlatFieldDefinition`. It changes nothing when the flat definition was non-empty, and otherwise compiles first |
| BreadModelTrait.SelectedRules | src/Traits/BreadModelTrait.php:106-109 | A rule is kept exactly when the part of its key before the first `.` is an attribute key or a fillable name. Kept rules keep their text |
| BreadModelTrait.NestedRuleSelected | src/Traits/BreadModelTrait.php:106-109 | A rule `parent.rest` is kept when `parent` is present or fillable |
| BreadModelTrait.UnrelatedRuleDropped | src/Traits/BreadModelTrait.php:106-109 | A rule whose top key is neither present nor fillable is dropped |
| BreadModelTrait.Validate | src/Traits/BreadModelTrait.php:100-118 | Validation sees the attributes prepared for validation and the rules selected with the fillable names read first. It fails exactly when the validator says so and leaves the attributes alone. With a non-empty flat definition nothing changes; with an empty one the model is compiled first, exactly as `CompileDefinition` without `force` does |
| BreadModelTrait.Saving | src/Traits/BreadModelTrait.php:78-90 | Steps run in order: compile if forced or undefined, validate if asked, then transform. A failed validation stops before the transform with the attributes unchanged; otherwise the attributes become the transformed ones. When the builder defines a field, the save fails exactly when validation is on and the validator rejects the prepared attributes under the selected rules; a forced compile installs the builder's definitions, clears the compiling flag and caches them when cachable; an unforced one does what `compileDefinition()` does |
| BreadModelTrait.ValidateThenStore | src/Traits/BreadModelTrait.php:84-89 | After the compile step: a failed validation leaves the attributes alone, a passed or skipped one stores the transformed attributes. With a non-empty flat definition or a compile under way, the definition state is untouched and the save fails exactly when the validator rejects |
| BreadModelTrait.KeptEnumValues | src/Traits/BreadModelTrait.php:198-200 | Keeps exactly the entries that are neither `''` nor null |
| BreadModelTrait.PhpStrings | src/Traits/BreadModelTrait.php:198-200 | Each kept value is written as its PHP string |
| BreadModelTrait.EnumJoinedSplits | src/Traits/BreadModelTrait.php:196-202 | Splitting the joined ENUM string at `;` gives back the kept values in order (for string values without `;`) |
| BreadModelTrait.SavedValue | src/Traits/BreadModelTrait.php:187-207 | A JSON value that the JSON check does not accept is encoded, and one it accepts is stored as it is. An ENUM array is joined, a non-array ENUM value is unchanged, and other types are unchanged |
| BreadModelTrait.ValidatedValue | src/Traits/BreadModelTrait.php:221-232 | Only a JSON-typed value the JSON check accepts is decoded; everything else is passed on as it is |
| BreadModelTrait.SavedValueValidates | src/Traits/BreadModelTrait.php:187-232 | Corrected (any JSON text is accepted): for a lawful codec, a JSON value saved and then prepared for validation reads as the value prepared directly, for every value |
| BreadModelTrait.SavedValueValidatesAsWritten | src/Helpers/Strings.php:14-18 | With `isJson` as written, a saved JSON value reads back for validation as before only when it was already JSON or is truthy; a falsy value reads back as its encoding, a string |
| BreadModelTrait.SavedValueIdempotent | src/Traits/BreadModelTrait.php:187-207 | Corrected: saving a value of any type twice stores what saving it once does |
| BreadModelTrait.EmptyArraySavedAsWritten | src/Helpers/Strings.php:14-18 | As written, `[]` in a JSON field is stored as `"[]"`, which validates as that string and is encoded again on the next save |
| BreadModelTrait.TransformedIdempotent | src/Traits/BreadModelTrait.php:182-208 | Corrected: transforming already transformed attributes changes nothing, so a second save stores what the first did |
| Strings.IsJsonIsText | src/Helpers/Strings.php:14-18 | For a lawful codec, whatever `isJson` accepts is JSON text |
| Strings.EncodingIsJson | src/Helpers/Strings.php:14-18 | For a lawful codec, an encoding is always JSON text, and `isJson` accepts it exactly when the encoded value is truthy |
| BreadModelTrait.SavedAttributesValidate | src/Traits/BreadModelTrait.php:182-235 | Corrected, for a lawful codec: for any attribute that is not ENUM-typed, preparing the saved attributes for validation gives the same value as preparing the raw attributes |
| BreadModelTrait.TransformationsKeepKeys | src/Traits/BreadModelTrait.php:182-235 | Both transforms keep the keys in order and change only values of the types they handle |
| BreadModelTrait.TransformEntries | src/Traits/BreadModelTrait.php:182-208 | The loop computes the saved attributes |
| BreadModelTrait.ValidationEntries | src/Traits/BreadModelTrait.php:217-235 | The loop computes the attributes prepared for validation |
| BreadModelTrait.Prepared | src/Traits/BreadModelTrait.php:165-172 | With filtering, exactly the fillable keys are kept with their values. Without it, every key is kept |
| BreadModelTrait.PrepareAttributes | src/Traits/BreadModelTrait.php:147-173 | Returns the attributes filtered by the fillable guard when asked. A defined model changes nothing, and an undefined one is compiled first exactly as `CompileDefinition` without `force` does |
| BreadModelTrait.Construct | src/Models/BreadModel.php:21-30 | The model compiles on construction, exactly as `CompileDefinition` without `force` does, only when asked and without a definition. Otherwise nothing changes. The attributes are kept |
| BreadModelTrait.MediaCallFor | src/Traits/BreadModelTrait.php:262-296 | Corrected: `add` is checked before `remove`. Images and files are added from the TUS key or base64 (files with their name), and removal uses `id`. A TUS file is added from its TUS key |
| BreadModelTrait.MediaCallAsWritten | src/Traits/BreadModelTrait.php:262-296 | As written, a TUS file entry is added from its `base64` field under its name. Every other entry gets the corrected call |
| BreadModelTrait.CallForAgrees | src/Traits/BreadModelTrait.php:262-296 | Away from TUS file entries, the as-written and corrected calls agree |
| BreadModelTrait.MediaPlanSources | src/Traits/BreadModelTrait.php:261-301 | Every planned call comes from some entry. It is a removal exactly when the entry does not ask to be added, and a removal is for an entry with `remove` true, using its `id` |
| BreadModelTrait.MediaPlanAsWrittenAgrees | src/Traits/BreadModelTrait.php:261-301 | A list with no TUS file entry gets the same calls as written as under the correction |
| BreadModelTrait.TusFileAsWrittenLosesKey | src/Traits/BreadModelTrait.php:274-280 | As written, a TUS file entry passes the missing `base64` value instead of its TUS key |
| BreadModelTrait.TusFileAsWrittenStops | src/Traits/BreadModelTrait.php:274-297 | As written, a TUS file entry without `base64` whose null call raises an `\Error` ends the loop at that entry: nothing is added for it and no later entry gets a call |
| BreadModelTrait.MediaPlanAppend | src/Traits/BreadModelTrait.php:261-301 | The calls for a list are the calls for its parts, in list order |
| BreadModelTrait.SyncMediaFiles | src/Traits/BreadModelTrait.php:259-302 | Corrected: the calls are made in order, one per entry that asks for one. An `\Exception` is logged and the loop goes on. An `\Error` escapes and ends the loop after that call |
| BreadModelTrait.SyncMediaFilesAsWritten | src/Traits/BreadModelTrait.php:259-302 | The same loop over the calls the source makes, with the TUS file slip |
| BreadModelTrait.SyncOutcomeMeaning | src/Traits/BreadModelTrait.php:259-302 | The calls made are a prefix of the plan. The run is cut short exactly when some planned call raises an `\Error`, and then by the first such call, whose message is reported. No call before it escaped |
| BreadController.PaginationDisabledMeaning | src/Http/Controllers/BreadController.php:54-58 | A string disables pagination exactly when it is `'false'` (which is truthy) or falsy and not empty, which leaves `'0'`. Any other value disables it exactly when it is `false` |
| BreadController.RelatedIds | src/Http/Controllers/BreadController.php:271-279 | A truthy `related_id` wins. An array `related_ids` is used as given and a scalar is wrapped. No ids exactly when neither is truthy |
| BreadController.ChangePlanShape | src/Http/Controllers/BreadController.php:286-296 | `BelongsToMany` attaches or detaches once per id. Every other type associates or dissociates and then saves, per id in order |
| BreadController.PivotPlanShape | src/Http/Controllers/BreadController.php:286-291 | For `BelongsToMany`, the calls are one attach or detach per id, in the order of the ids |
| BreadController.PairedPlanShape | src/Http/Controllers/BreadController.php:292-296 | For any other relation type, each id gets its associate or dissociate call followed by a save, in the order of the ids |
| BreadController.ChangeRelation | src/Http/Controllers/BreadController.php:254-299 | Without permission the result is a 403 before any change. Otherwise it is the change plan for the extracted ids (none when there are no ids) |
| BreadController.Controller.GetModelClass | src/Http/Controllers/BreadController.php:387-399 | The name is resolved and written back to `modelName` |
| BreadController.ResolvedModelClassStable | src/Http/Controllers/BreadController.php:387-399 | Resolving an already resolved name gives the same name |
| BreadController.ModelClassFromController | src/Http/Controllers/BreadController.php:390-396 | Without `modelName`, the controller `Ns\PostController` or a bare `PostController` resolves to the model namespace followed by `Post` |
| BreadController.ExistingMeta | src/Http/Controllers/BreadController.php:446-452 | The loop collects the stored meta values by key, for an existing model only |
| BreadController.ExistingMetaDistinct | src/Http/Controllers/BreadController.php:446-452 | The collected meta has distinct keys |
| BreadController.LookupMergeInto | src/Http/Controllers/BreadController.php:454 | Merging, a key of the later array reads its value, and other keys keep theirs |
| BreadController.ArrayMergeLookup | src/Http/Controllers/BreadController.php:454 | Under `array_merge`, string keys of the second array win |
| BreadController.IncomingMetaWins | src/Http/Controllers/BreadController.php:446-459 | The meta validation input is the existing meta overlaid by the incoming values, so incoming wins |
| BreadController.RulesOfKeys | src/Http/Controllers/BreadController.php:462-471 | Rules exist exactly for the names of the flattened fields |
| BreadController.RulesOfLast | src/Http/Controllers/BreadController.php:462-471 | A name's rule is the rule string of its last field |
| BreadController.AddRule | src/Http/Controllers/BreadController.php:462-471 | One more field sets its own name's rule |
| BreadController.MetaRules | src/Http/Controllers/BreadController.php:462-471 | The nested loops compute the rules of the flattened fields |
| BreadController.ValidateMetaFields | src/Http/Controllers/BreadController.php:444-474 | Fails exactly when the validator rejects the merged input against those rules |
| BreadController.MetaPlanUpserts | src/Http/Controllers/BreadController.php:502-518 | Only present keys are upserted, each with its value or null for media. Every present field is upserted |
| BreadController.SaveMetaFields | src/Http/Controllers/BreadController.php:484-519 | Does nothing unless relation changes are allowed. Otherwise it writes the meta plan of the flattened fields |
| BreadController.RelationValues | src/Http/Controllers/BreadController.php:539-547 | An array is used as given, a numeric value is wrapped, and anything else gives `[]`. Numeric strings follow PHP 8's grammar: surrounding whitespace, a sign, digits with at most one dot, and an exponent |
| BreadController.NumericIgnoresSpace | src/Http/Controllers/BreadController.php:545 | A leading or a trailing space does not change whether a string is numeric |
| BreadController.DigitsNumeric | src/Http/Controllers/BreadController.php:545 | Any non-empty run of digits is numeric, so it is wrapped into a one-element list |
| BreadController.DigitsExponentNumeric | src/Http/Controllers/BreadController.php:545 | A run of digits followed by `e` and a run of digits, such as `'1e3'`, is numeric |
| BreadController.SyncPlanMeaning | src/Http/Controllers/BreadController.php:531-552 | Exactly the present and allowed relation fields are synced, each with its normalised values |
| BreadController.SyncRelations | src/Http/Controllers/BreadController.php:527-553 | The loop computes the sync plan of the remote relation fields |
| BreadController.MetaStepsAreMeta | src/Http/Controllers/BreadController.php:604-621 | The meta step list holds only meta saves, at most one per field |
| BreadController.MediaStepsAreMedia | src/Http/Controllers/BreadController.php:625-640 | The media step list holds only media syncs |
| BreadController.MetaStepsPrefix | src/Http/Controllers/BreadController.php:568-585 | The meta steps of a prefix of the definition are a prefix of the meta steps |
| BreadController.AfterModelSave | src/Http/Controllers/BreadController.php:601-643 | Meta saves come first, then one relation sync, then media syncs |
| BreadController.BeforeModelSave | src/Http/Controllers/BreadController.php:565-588 | Meta fields are validated in the order they would be saved. The first that throws, with a `TypeError` or a validation failure, stops the run and is reported. With no failure every meta field was validated |
| BreadController.MetaCheckTypes | src/Http/Controllers/BreadController.php:444 | A meta value that is not an array throws the `TypeError` for argument 3 of `validateMetaFields`. With arguments of the declared types, the validator alone decides |

## Left out

- The order of a definition's keys in PHP's array is not modelled. A definition is a record, and the rules are a map.
- PHP's normalisation of numeric-string keys (`"5"` becoming `5`) is not modelled. Keys stay as they are given.
- The cache's TTL and store I/O, the `Lang` and inflector texts, `Rule::in`, and JSON encoding and decoding are parameters. Their behaviour is taken as given.
- The reflection in `getRelationType` (src/Traits/FieldDefinition.php:249-264) is a parameter (`RelationBaseField.ModelRef`). So is `getQualifiedForeignKeyName` on the relation object that `$model->{$method}()` returns; as written, `HasOneField.RelationAsWritten` only needs to know whether a related model is loaded.
- The `define` hook is not run. Compilation takes the builder the hook returned.
- The skeleton a model without a definition receives has no `model_info` or `options`. The source's empty arrays carry nothing the rest of the package reads.
- The Carbon date reformatting in `prepareAttributes` (src/Traits/BreadModelTrait.php:153-163) is left out, because it depends on a date and timezone library.
- `Arr::set`'s expansion of dotted keys in `validateMetaFields` is left out. The merged input is passed to the validator as it is.
- `applyBeforeValidation` is left out. It is the identity, a hook for subclasses.
- The `before*` closures and the query closures of the controller are left out, because they are caller code.
- `index`, `view`, `create`, `update`, `delete`, `findOrFailByQuery`, `loadFresh` and `tus`, with the 404 of a missing model, are left out. They are ORM, query-builder and HTTP calls.
- The TUS server, the service provider, the console commands and `RequestParams` are left out. They are I/O.
- The `syncRelations` that a nested `afterModelSave` runs on a meta model is not modelled. `SaveMetaFields` returns a `SyncMetaMedia` call instead.
- `BreadController.RelationValues`: `Value` has no floats, so `is_numeric` on a PHP float is not modelled. Numeric strings are.
- Floats are absent from `Value`. A `FloatField` value, or a float inside an ENUM array, has no model.
- `Text.AsciiLower` lower-cases ASCII letters only. That is what `strtolower` does (src/Traits/FieldDefinition.php:70). `Str::lower` (src/Builder/DefinitionBuilder.php:42, src/Fields/Base/RelationBaseField.php:25) also lower-cases non-ASCII letters, which the model does not.
- `BreadModelTrait.SyncMediaFiles`: whether a media call fails is a pure function of the call. A failure that depends on earlier calls, such as removing the same id twice, is not expressed.
- The media-library calls, mime checking and the contents of the error log are left out. Only the calls `syncMediaFiles` makes and which of them fail are modelled.
- The controller passes a fourth argument (`mime_types`) to `syncMediaFiles`, which takes three. PHP ignores it, and so does the model.
- A missing array index read as null is modelled as null, as PHP does with a warning. Laravel may turn that warning into an `ErrorException`, which the media loop catches and logs; for a TUS document entry that means it is skipped rather than ending the loop, and either way nothing is added for it.
- `ArrayMerge` renumbers integer keys as `array_merge` does, but no lemma states that renumbering. Meta keys are strings.
- `BreadModelTrait.Saving`: with a builder that defines no field, every read of the empty flat definition compiles again, so the final definition state is not stated for that case. Only the order of the steps and the attributes are.
- The JSON codec's laws (`Strings.Lawful`) hold for PHP's `json_encode`/`json_decode` on the modelled values only: strings that are not valid UTF-8, floats and numeric-string keys are outside `Value`.
- `BreadController.ResolvedModelClassStable`: this is proved only for a namespace that is empty or contains `\`, the shape of the shipped one.
- `CheckboxField.Options`, `RadioField.Options`: the `Rule::in` token is a parameter. Its text is not stated.
- Static flags (`isCompilingDefinition`, `forceDefineOnSave`, `defineOnConstruct`) are a `Compiler` object and method parameters. Concurrency around them is not modelled.

## Findings

| source | as written | input that shows it | evidently intended | confidence | as-written member | corrected member |
|---|---|---|---|---|---|---|
| src/Fields/TextField.php:29 | `maxLength($n)` appends the literal token `max:255` (`minLength` at line 42 appends `min:255`; src/Fields/TextAreaField.php:28 and 41 do the same) | `maxLength(100)` gives the token `max:255` while `extra_data.max` is 100 | the token carries the requested limit, `max:100` | not executed | TextField.LengthTokenAsWrittenIgnoresLength | TextField.LengthToken |
| src/Fields/HasOneField.php:72 | `searchField` stores the display field into a misspelt `$date`, which is never used (src/Fields/HasManySelectField.php:53 has the same slip) | `searchField('name')` on a fresh field leaves `display_field` as `title` | `display_field` becomes the search field unless `$setDisplayField` is false | not executed | HasOneField.SearchFieldAsWrittenKeepsDisplay | HasOneField.SearchField |
| src/Fields/ManyToManyField.php:20 | the group check passes `config('bread.default_field_group')`, the string `general`, to `array_key_exists` | `new ManyToManyField('tags')` under the shipped configuration throws a `TypeError` on PHP 8 | read the group map `default_field_groups`, as `HasManyField` does | not executed | ManyToManyField.CreateAsWritten | ManyToManyField.Create |
| src/Traits/BreadModelTrait.php:276 | a `files` entry uploaded over TUS is added from `$file['base64']` | the entry `['add' => true, 'tusKey' => 'upload-1']` passes null to `validateAndAddMedia(string $file, ...)` (line 314); the `TypeError` escapes `catch (\Exception $e)` and ends the loop (if Laravel turns the missing-key warning into an `ErrorException`, the entry is logged and skipped instead); nothing is added either way | add from `$file['tusKey']`, as the image branch does | not executed | BreadModelTrait.TusFileAsWrittenStops | BreadModelTrait.SyncMediaFiles |
| src/Helpers/Strings.php:17 | `isJson` is `$json && $str !== $json`, false whenever `json_decode` gives a falsy value | `[]` in a JSON field is stored as `"[]"`; that string is then not JSON to `isJson`, so it validates as a string and the next save encodes it again as `"\"[]\""` (`0`, `false` and `null` behave alike) | accept any string that is JSON text (`json_last_error() === JSON_ERROR_NONE`) | not executed | BreadModelTrait.EmptyArraySavedAsWritten | BreadModelTrait.TransformedIdempotent |
| src/Fields/HasOneField.php:48 | `$model->{$relationInfo['method']}` reads the relation as a property (lines 48 and 53), which gives the related model or null rather than the relation object | any `HasOneField` without a name: a loaded related model has no `getQualifiedForeignKeyName`, so the field is refused as not a `HasOne`, and null makes `method_exists` throw a `TypeError` on PHP 8 | call the relation method, `$model->{$relationInfo['method']}()`, and name the field after its qualified foreign key | not executed | HasOneField.RelationAsWritten | HasOneField.Relation |
| src/Fields/Base/NestedBaseField.php:28 | the groups are flattened with `array_merge(...$groupFields)`, which spreads an array keyed by group name, so PHP 8 reads the keys as named parameters | `JsonField::fields($builder)` with the default `useNestedGroups = false`, on any builder with a group (a fresh one has `general` and `relations`), throws an `Error` for unknown named parameters | flatten the groups' field lists in order, `array_merge(...array_values($groupFields))` | not executed | JsonField.FieldsAsWrittenFailsWithGroups | NestedBaseField.Fields |
| src/Fields/FileUploadField.php:84-86 | `allowedMimeTypes` goes through `array_replace_recursive`, so the new list only overwrites the default list's first entries | `allowedMimeTypes(['application/pdf'])` on a file field leaves 21 default types after it, `image/png` at index 1 | the allowed types become exactly the given list | not executed | FileUploadField.AllowedMimeTypesAsWrittenKeepsDefaults | FileUploadField.AllowedMimeTypes |
