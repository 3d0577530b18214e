/** `RadioField`: a group of options where one of the option keys is picked. */
module RadioField {
  import opened Wrappers
  import opened Values
  import opened Definitions
  import opened FieldBase
  import Assoc

  /** The format `stylingFormat()` uses when called without one. */
  const DefaultStylingFormat: string := "radio"

  /** `new RadioField($name)`: type `ENUM`, input `radio`, no rule tokens. */
  method Create(name: Option<string>) returns (f: BaseField)
    ensures fresh(f) && f.kind == Radio && f.Valid() && NamedAs(f, name)
    ensures f.definition == Named(DefaultDefinition().(typ := Some("ENUM"), inputType := Some("radio")), name)
    ensures f.requiredRule == "nullable" && f.validationRules == [] && f.group == None
  {
    f := new BaseField(Radio);
    f.Type("ENUM");
    f.InputType("radio");
    f.NameIfGiven(name);
  }

  /**
   * `options`: restricts the value to the option keys through the framework's
   * `Rule::in` (`ruleIn`, which formats the rule) and gives the front end the labels.
   */
  method Options(f: BaseField, options: Entries, ruleIn: seq<Key> -> string)
    modifies f`definition, f`validationRules
    ensures f.validationRules == old(f.validationRules) + [ruleIn(Assoc.Keys(options))]
    ensures ExtraWritten(f, "options", Arr(options))
  {
    f.AddValidation(ruleIn(Assoc.Keys(options)));
    f.AddExtraEntry("options", Arr(options));
  }

  /** `stylingFormat($format)`: how the front end draws the input; `None` is the call without a format. */
  method StylingFormat(f: BaseField, format: Option<string>)
    modifies f`definition
    ensures ExtraWritten(f, "styling_format", Str(format.GetOr(DefaultStylingFormat)))
  {
    f.AddExtraEntry("styling_format", Str(format.GetOr(DefaultStylingFormat)));
  }
}
