/**
 * `TextAreaField`: a multi-line text input. Unlike `TextField` it starts
 * without a length limit; its `maxLength` and `minLength` are the same code
 * as `TextField`'s and are modelled by `TextField.MaxLength` and
 * `TextField.MinLength`.
 */
module TextAreaField {
  import opened Wrappers
  import opened Values
  import opened Definitions
  import opened FieldBase

  /** `new TextAreaField($name)`: type `TEXT`, input `textarea`, rule `string`. */
  method Create(name: Option<string>) returns (f: BaseField)
    ensures fresh(f) && f.kind == TextArea && f.Valid() && NamedAs(f, name)
    ensures f.definition == Named(DefaultDefinition().(typ := Some("TEXT"), inputType := Some("textarea")), name)
    ensures f.requiredRule == "nullable" && f.validationRules == ["string"] && f.group == None
  {
    f := new BaseField(TextArea);
    f.Type("TEXT");
    f.InputType("textarea");
    f.AddValidation("string");
    f.NameIfGiven(name);
  }
}
