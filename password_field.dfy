/** `PasswordField`: a password input that is never shown in the `view` screen. */
module PasswordField {
  import opened Wrappers
  import opened Values
  import opened Definitions
  import opened FieldBase

  /** `new PasswordField($name)`: type `TEXT`, input `password`, rule `string`, hidden on `view`. */
  method Create(name: Option<string>) returns (f: BaseField)
    ensures fresh(f) && f.kind == Password && f.Valid() && NamedAs(f, name)
    ensures f.definition == Named(DefaultDefinition().(typ := Some("TEXT"), inputType := Some("password"), hiddenOn := [(I(0), Str("view"))]), name)
    ensures f.requiredRule == "nullable" && f.validationRules == ["string"] && f.group == None
  {
    f := new BaseField(Password);
    f.Type("TEXT");
    f.InputType("password");
    f.AddValidation("string");
    f.HiddenOn([(I(0), Str("view"))]);
    f.NameIfGiven(name);
  }
}
