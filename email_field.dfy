/** `EmailField`: an e-mail address input. */
module EmailField {
  import opened Wrappers
  import opened Values
  import opened Definitions
  import opened FieldBase

  /** `new EmailField($name)`: type `TEXT`, input `email`, rule `email`. */
  method Create(name: Option<string>) returns (f: BaseField)
    ensures fresh(f) && f.kind == Email && f.Valid() && NamedAs(f, name)
    ensures f.definition == Named(DefaultDefinition().(typ := Some("TEXT"), inputType := Some("email")), name)
    ensures f.requiredRule == "nullable" && f.validationRules == ["email"] && f.group == None
  {
    f := new BaseField(Email);
    f.Type("TEXT");
    f.InputType("email");
    f.AddValidation("email");
    f.NameIfGiven(name);
  }
}
