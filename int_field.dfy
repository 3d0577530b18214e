/** `IntField`: an integer number input. */
module IntField {
  import opened Wrappers
  import opened Values
  import opened Definitions
  import opened FieldBase

  /** `new IntField($name)`: type `INT`, input `number`, rule `numeric`. */
  method Create(name: Option<string>) returns (f: BaseField)
    ensures fresh(f) && f.kind == IntInput && f.Valid() && NamedAs(f, name)
    ensures f.definition == Named(DefaultDefinition().(typ := Some("INT"), inputType := Some("number")), name)
    ensures f.requiredRule == "nullable" && f.validationRules == ["numeric"] && f.group == None
  {
    f := new BaseField(IntInput);
    f.Type("INT");
    f.InputType("number");
    f.AddValidation("numeric");
    f.NameIfGiven(name);
  }
}
