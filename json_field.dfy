/**
 * `JsonField`: a group of nested fields stored as one JSON value.
 * `RepeatableJsonField` and `MetaField` override `fields` with the same code,
 * modelled here once.
 */
module JsonField {
  import opened Wrappers
  import opened Assoc
  import opened Values
  import opened Definitions
  import opened FieldBase
  import NestedBaseField
  import DefinitionBuilder

  /** `new JsonField($name)`: type `JSON`, input `nested-fields`, no nested fields yet. */
  method Create(name: Option<string>) returns (f: BaseField)
    ensures fresh(f) && f.kind == Json && f.Valid() && NamedAs(f, name)
    ensures f.definition == Named(DefaultDefinition().(typ := Some("JSON"), inputType := Some("nested-fields")), name)
    ensures f.requiredRule == "nullable" && f.validationRules == [] && f.group == None
    ensures f.nestedRules == map[] && f.nestedFields == Arr([]) && !f.useNestedGroups
  {
    f := new BaseField(Json);
    f.Type("JSON");
    f.InputType("nested-fields");
    f.NameIfGiven(name);
  }

  /**
   * `fields($callback, $useNestedGroups)`, given the builder the callback
   * filled: the nested definition gives the field its rules and nested
   * fields, and the nested fields are also handed to the front end as
   * `extra_data.fields`.
   */
  method Fields(f: BaseField, nested: DefinitionBuilder.Builder, useNestedGroups: bool)
    requires nested.Valid()
    modifies f`useNestedGroups, f`nestedRules, f`nestedFields, f`definition
    ensures f.useNestedGroups == useNestedGroups
    ensures f.nestedRules == old(nested.FullView()).rules
    ensures f.nestedFields == NestedBaseField.NestedFields(old(nested.FullView()), useNestedGroups)
    ensures ExtraWritten(f, "fields", f.nestedFields)
  {
    ghost var view := nested.FullView();
    var full := nested.GetFullDefinition();
    assert full == view;
    NestedBaseField.Fields(f, full, useNestedGroups);
    f.AddExtraEntry("fields", f.nestedFields);
  }
  /**
   * `fields` as written: on the default path the sub-builder's groups are
   * spread into `array_merge`, so it fails (before `extra_data.fields` is
   * written) whenever the sub-builder has a group.
   */
  method FieldsAsWritten(f: BaseField, nested: DefinitionBuilder.Builder, useNestedGroups: bool) returns (err: Option<string>)
    requires nested.Valid()
    modifies f`useNestedGroups, f`nestedRules, f`nestedFields, f`definition
    ensures f.useNestedGroups == useNestedGroups
    ensures f.nestedRules == old(nested.FullView()).rules
    ensures var r := NestedBaseField.NestedFieldsAsWritten(old(nested.FullView()), useNestedGroups);
            if r.Failure? then err == Some(r.error) && f.nestedFields == old(f.nestedFields) && f.definition == old(f.definition)
            else err == None && f.nestedFields == r.value && ExtraWritten(f, "fields", f.nestedFields)
  {
    ghost var view := nested.FullView();
    var full := nested.GetFullDefinition();
    assert full == view;
    err := NestedBaseField.FieldsAsWritten(f, full, useNestedGroups);
    if err.Some? {
      return;
    }
    f.AddExtraEntry("fields", f.nestedFields);
  }

  /**
   * Every builder with a group, and so every fresh one with the configured
   * `general` and `relations` groups, makes the source's `fields` fail
   * unless the groups are kept.
   */
  lemma FieldsAsWrittenFailsWithGroups(nested: DefinitionBuilder.Builder)
    requires nested.Valid() && |nested.groups| > 0
    ensures NestedBaseField.NestedFieldsAsWritten(nested.FullView(), false).Failure?
  {
    var views := DefinitionBuilder.InitialViews(nested.groups);
    var k := nested.groups[0].0;
    assert Keys(nested.groups)[0] == k;
    assert HasKey(views, k);
    DefinitionBuilder.PlaceAllView(views, nested.Placements(), k);
    assert |nested.FullView().fieldGroups| > 0;
  }
}
