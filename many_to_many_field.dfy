/**
 * `ManyToManyField`: the list of related models of a many-to-many relation.
 * Its defaults check for the `relations` group in `default_field_group`,
 * the name of the default group, instead of in `default_field_groups`.
 */
module ManyToManyField {
  import opened Wrappers
  import opened Values
  import opened Definitions
  import opened FieldBase
  import BreadConfig
  import HasManyField

  /**
   * `new ManyToManyField($name)` as written: the group check is handed the
   * string `general`, and `array_key_exists` throws a `TypeError`, so no
   * many-to-many field can be created under the shipped configuration.
   */
  method CreateAsWritten(name: Option<string>) returns (r: Result<BaseField>)
    ensures r == Failure("array_key_exists(): Argument #2 ($array) must be of type array, string given")
  {
    r := HasManyField.CreateRelationList(ManyToMany, "MANYTOMANY", Str(BreadConfig.DefaultFieldGroup), name);
  }

  /**
   * `new ManyToManyField($name)` as intended: type `MANYTOMANY`, in the
   * `relations` group because the configured groups hold it, exactly like
   * `HasManyField`.
   */
  method Create(name: Option<string>) returns (f: BaseField)
    ensures fresh(f) && f.kind == ManyToMany && f.Valid() && NamedAs(f, name)
    ensures f.definition == Named(DefaultDefinition().(typ := Some("MANYTOMANY"), inputType := Some("relation-list"),
              fillable := false), name)
    ensures f.requiredRule == "nullable" && f.validationRules == ["array"] && f.group == Some("relations")
  {
    HasManyField.ShippedGroupsHaveRelations();
    var r := HasManyField.CreateRelationList(ManyToMany, "MANYTOMANY", BreadConfig.DefaultFieldGroupsValue(), name);
    f := r.value;
  }
}
