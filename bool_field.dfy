/** `BoolField`: a yes/no input, shown without its label by default. */
module BoolField {
  import opened Wrappers
  import opened Values
  import opened Definitions
  import opened FieldBase

  /** The format `stylingFormat()` uses when called without one. */
  const DefaultStylingFormat: string := "checkbox"

  /** `new BoolField($name)`: type `BOOL`, input `boolean`, rule `boolean`, label not shown. */
  method Create(name: Option<string>) returns (f: BaseField)
    ensures fresh(f) && f.kind == BoolInput && f.Valid() && NamedAs(f, name)
    ensures f.definition == Named(DefaultDefinition().(typ := Some("BOOL"), inputType := Some("boolean"), showLabel := false), name)
    ensures f.requiredRule == "nullable" && f.validationRules == ["boolean"] && f.group == None
  {
    f := new BaseField(BoolInput);
    f.Type("BOOL");
    f.InputType("boolean");
    f.AddValidation("boolean");
    f.ShowLabel(false);
    f.NameIfGiven(name);
  }

  /** `stylingFormat($format)`: how the front end draws the input; `None` is the call without a format. */
  method StylingFormat(f: BaseField, format: Option<string>)
    modifies f`definition
    ensures ExtraWritten(f, "styling_format", Str(format.GetOr(DefaultStylingFormat)))
  {
    f.AddExtraEntry("styling_format", Str(format.GetOr(DefaultStylingFormat)));
  }
}
