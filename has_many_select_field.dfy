/**
 * `HasManySelectField`: a search input that picks several related models.
 * Its display setters are those of `HasOneField`.
 */
module HasManySelectField {
  import opened Wrappers
  import opened Assoc
  import opened Values
  import opened Definitions
  import opened FieldBase
  import opened RelationBaseField
  import HasOneField
  import Text

  /** `new HasManySelectField($name)`: type `HASMANY`, rule `array`, several choices. */
  method Create(searchLabel: string, name: Option<string>) returns (f: BaseField)
    ensures fresh(f) && f.kind == HasManySelect && f.Valid() && NamedAs(f, name)
    ensures f.definition == Named(DefaultDefinition().(typ := Some("HASMANY"), inputType := Some("model-search"),
              fillable := false, placeholder := Some(searchLabel + ".."), extraData := HasOneField.SearchExtra(true)), name)
    ensures f.requiredRule == "nullable" && f.validationRules == ["array"] && f.group == None
  {
    f := HasOneField.CreateSearch(HasManySelect, "HASMANY", "array", true, searchLabel, name);
  }

  /**
   * `HasManySelectField::relation`: the base `relation`, then the basename
   * of the model the relation starts from under `parent_model`.
   */
  method Relation(f: BaseField, relation: string, model: ModelRef, infl: Inflector) returns (err: Option<string>)
    requires f.kind == HasManySelect
    modifies f`definition, f`validationKey
    ensures model.relationType.None? ==>
              err == Some(MissingTraitMessage(model.className)) && unchanged(f)
    ensures model.relationType.Some? ==>
              var info := model.relationType.value(relation);
              var n := RelationFieldName(old(f.definition.name), info, infl);
              && err.None? && f.Valid()
              && f.definition == old(f.definition).(name := Some(n), extraData := f.definition.extraData)
              && f.validationKey == (if old(f.HasValidationKey()) then old(f.validationKey) else Some(n))
              && f.definition.extraData == ReplaceRecursive(ReplaceRecursive(old(f.definition.extraData),
                   RelationExtra(info, infl)), [(S("parent_model"), Str(Text.ClassBasename(model.className)))])
              && Get(f.definition.extraData, "parent_model") == Some(Str(Text.ClassBasename(model.className)))
              && Get(f.definition.extraData, "relation") == Some(Str(info.relationMethod))
              && Get(f.definition.extraData, "related_to") == Some(Str(info.model))
              && Get(f.definition.extraData, "endpoint") == Some(Str(DefaultEndpoint(info.model, infl)))
              && forall k :: !IsRelationKey(k) && k != "parent_model" ==>
                   Get(f.definition.extraData, k) == Get(old(f.definition.extraData), k)
  {
    err := RelationBaseField.Relation(f, relation, model, infl);
    if err.Some? {
      return;
    }
    ParentModel(f, Text.ClassBasename(model.className));
  }

  /** Records `parent_model` in the extra data and leaves every other key as it was. */
  method ParentModel(f: BaseField, basename: string)
    modifies f`definition
    ensures f.definition == old(f.definition).(extraData :=
              ReplaceRecursive(old(f.definition.extraData), [(S("parent_model"), Str(basename))]))
    ensures Get(f.definition.extraData, "parent_model") == Some(Str(basename))
    ensures forall k :: k != "parent_model" ==> Get(f.definition.extraData, k) == Get(old(f.definition.extraData), k)
  {
    f.AddExtraEntry("parent_model", Str(basename));
  }
}
