/**
 * `RepeatableJsonField`: nested fields repeated row after row. Its rules
 * apply to every row (`name.*.key`); its `fields` is `JsonField.Fields`.
 */
module RepeatableJsonField {
  import opened Wrappers
  import opened Values
  import opened Definitions
  import opened FieldBase

  /** `new RepeatableJsonField($name)`: type `JSON`, input `repeatable-nested-fields`, repeatable. */
  method Create(name: Option<string>) returns (f: BaseField)
    ensures fresh(f) && f.kind == RepeatableJson && f.Valid() && NamedAs(f, name) && f.IsRepeatable()
    ensures f.definition == Named(DefaultDefinition().(typ := Some("JSON"), inputType := Some("repeatable-nested-fields")), name)
    ensures f.requiredRule == "nullable" && f.validationRules == [] && f.group == None
    ensures f.nestedRules == map[] && f.nestedFields == Arr([]) && !f.useNestedGroups
  {
    f := new BaseField(RepeatableJson);
    f.Type("JSON");
    f.InputType("repeatable-nested-fields");
    f.NameIfGiven(name);
  }
}
