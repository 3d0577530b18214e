/**
 * `HasManyField`: the list of related models of a has-many relation, shown
 * in the `relations` group when that group is configured.
 */
module HasManyField {
  import opened Wrappers
  import opened Assoc
  import opened Values
  import opened Definitions
  import opened FieldBase
  import BreadConfig

  /**
   * The defaults of a relation-list field: input `relation-list`, rule
   * `array`, not fillable, and the group `relations` when
   * `array_key_exists('relations', $groupsConfig)`; that check throws when
   * the configuration value it reads is not an array. Then the name.
   */
  method CreateRelationList(kind: Kind, typ: string, groupsConfig: Value, name: Option<string>)
    returns (r: Result<BaseField>)
    ensures r.Failure? <==> !groupsConfig.Arr?
    ensures r.Failure? ==> r.error == ArrayKeyExists("relations", groupsConfig).error
    ensures r.Success? ==>
              var f := r.value;
              && fresh(f) && f.kind == kind && f.Valid() && NamedAs(f, name)
              && f.definition == Named(DefaultDefinition().(typ := Some(typ), inputType := Some("relation-list"),
                   fillable := false), name)
              && f.requiredRule == "nullable" && f.validationRules == ["array"]
              && f.group == if HasKey(groupsConfig.entries, S("relations")) then Some("relations") else None
  {
    var f := new BaseField(kind);
    f.Type(typ);
    f.InputType("relation-list");
    f.AddValidation("array");
    f.Fillable(false);
    var hasRelations := ArrayKeyExists("relations", groupsConfig);
    if hasRelations.Failure? {
      return Failure(hasRelations.error);
    }
    if hasRelations.value {
      f.Group("relations");
    }
    f.NameIfGiven(name);
    r := Success(f);
  }

  /** The shipped `default_field_groups` is an array holding `relations`. */
  lemma ShippedGroupsHaveRelations()
    ensures BreadConfig.DefaultFieldGroupsValue().Arr?
    ensures HasKey(BreadConfig.DefaultFieldGroupsValue().entries, S("relations"))
  {
    var es := BreadConfig.DefaultFieldGroupsValue().entries;
    assert es[1].0 == S("relations");
    assert Keys(es)[1] == S("relations");
  }

  /**
   * `new HasManyField($name)`: type `HASMANY`; with the shipped
   * configuration the field lands in the `relations` group.
   */
  method Create(name: Option<string>) returns (f: BaseField)
    ensures fresh(f) && f.kind == HasMany && f.Valid() && NamedAs(f, name)
    ensures f.definition == Named(DefaultDefinition().(typ := Some("HASMANY"), inputType := Some("relation-list"),
              fillable := false), name)
    ensures f.requiredRule == "nullable" && f.validationRules == ["array"] && f.group == Some("relations")
  {
    ShippedGroupsHaveRelations();
    var r := CreateRelationList(HasMany, "HASMANY", BreadConfig.DefaultFieldGroupsValue(), name);
    f := r.value;
  }
}
