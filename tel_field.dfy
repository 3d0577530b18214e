/** `TelField`: a telephone number input (E.164 digits, optional leading `+`). */
module TelField {
  import opened Wrappers
  import opened Values
  import opened Definitions
  import opened FieldBase

  /** `new TelField($name)`: type `TEXT`, input `tel`, one token holding both `string` and the E.164 pattern. */
  method Create(name: Option<string>) returns (f: BaseField)
    ensures fresh(f) && f.kind == Tel && f.Valid() && NamedAs(f, name)
    ensures f.definition == Named(DefaultDefinition().(typ := Some("TEXT"), inputType := Some("tel")), name)
    ensures f.requiredRule == "nullable" && f.validationRules == ["string|regex:/^\\+?[1-9]\\d{1,14}$/"] && f.group == None
  {
    f := new BaseField(Tel);
    f.Type("TEXT");
    f.InputType("tel");
    f.AddValidation("string|regex:/^\\+?[1-9]\\d{1,14}$/");
    f.NameIfGiven(name);
  }
}
