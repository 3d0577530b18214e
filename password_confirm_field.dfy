/** `PasswordConfirmField`: a second password input that must repeat another field. */
module PasswordConfirmField {
  import opened Wrappers
  import opened Values
  import opened Definitions
  import opened FieldBase

  /** `new PasswordConfirmField($name)`: type `TEXT`, input `password-confirmation`, not fillable, hidden on `view`. */
  method Create(name: Option<string>) returns (f: BaseField)
    ensures fresh(f) && f.kind == PasswordConfirm && f.Valid() && NamedAs(f, name)
    ensures f.definition == Named(DefaultDefinition().(typ := Some("TEXT"), inputType := Some("password-confirmation"),
                                                       fillable := false, hiddenOn := [(I(0), Str("view"))]), name)
    ensures f.requiredRule == "nullable" && f.validationRules == [] && f.group == None
  {
    f := new BaseField(PasswordConfirm);
    f.Type("TEXT");
    f.InputType("password-confirmation");
    f.Fillable(false);
    f.HiddenOn([(I(0), Str("view"))]);
    f.NameIfGiven(name);
  }

  /**
   * `matchField`: the confirmation is required whenever `field` is given and
   * must equal it; the front end learns which field it repeats.
   */
  method MatchField(f: BaseField, field: string)
    modifies f`definition, f`requiredRule, f`validationRules
    ensures f.requiredRule == "required_with:" + field
    ensures f.validationRules == old(f.validationRules) + ["same:" + field]
    ensures f.definition == old(f.definition).(required := true,
              extraData := ReplaceRecursive(old(f.definition.extraData), [(S("match_field"), Str(field))]))
    ensures Get(f.definition.extraData, "match_field") == Some(Str(field))
  {
    f.Required(true, Some("required_with:" + field));
    f.AddValidation("same:" + field);
    f.AddExtraEntry("match_field", Str(field));
  }
}
