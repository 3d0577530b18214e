/** `FloatField`: a decimal number input. */
module FloatField {
  import opened Wrappers
  import opened Values
  import opened Definitions
  import opened FieldBase

  /** `new FloatField($name)`: type `FLOAT`, input `number`, rule `numeric`. */
  method Create(name: Option<string>) returns (f: BaseField)
    ensures fresh(f) && f.kind == FloatInput && f.Valid() && NamedAs(f, name)
    ensures f.definition == Named(DefaultDefinition().(typ := Some("FLOAT"), inputType := Some("number")), name)
    ensures f.requiredRule == "nullable" && f.validationRules == ["numeric"] && f.group == None
  {
    f := new BaseField(FloatInput);
    f.Type("FLOAT");
    f.InputType("number");
    f.AddValidation("numeric");
    f.NameIfGiven(name);
  }
}
