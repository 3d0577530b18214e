/**
 * `MetaField`: nested fields stored through a meta relation of the model.
 * Its `fields` is `JsonField.Fields`.
 */
module MetaField {
  import opened Wrappers
  import opened Values
  import opened Definitions
  import opened FieldBase

  /** `relationName`: the relation the nested values are saved through. */
  method RelationName(f: BaseField, relationName: string)
    modifies f`definition
    ensures ExtraWritten(f, "relation", Str(relationName))
  {
    f.AddExtraEntry("relation", Str(relationName));
  }

  /**
   * `new MetaField($relationName, $name)`: type `META`, input
   * `nested-fields`, not fillable; the relation is set after the name.
   */
  method Create(relationName: string, name: Option<string>) returns (f: BaseField)
    ensures fresh(f) && f.kind == Meta && f.Valid() && NamedAs(f, name)
    ensures f.definition == Named(DefaultDefinition().(typ := Some("META"), inputType := Some("nested-fields"),
              fillable := false, extraData := [(S("relation"), Str(relationName))]), name)
    ensures f.requiredRule == "nullable" && f.validationRules == [] && f.group == None
    ensures f.nestedRules == map[] && f.nestedFields == Arr([]) && !f.useNestedGroups
  {
    f := new BaseField(Meta);
    f.Type("META");
    f.InputType("nested-fields");
    f.Fillable(false);
    f.NameIfGiven(name);
    ReplaceAddNew([], S("relation"), Str(relationName));
    RelationName(f, relationName);
  }
}
