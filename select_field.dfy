/** `SelectField`: a drop-down whose value must be one of the option keys. */
module SelectField {
  import opened Wrappers
  import opened Assoc
  import opened Values
  import opened Definitions
  import opened FieldBase
  import Text

  /** The format `stylingFormat()` uses when called without one. */
  const DefaultStylingFormat: string := "select"

  /** PHP's conversion of an array key to a string. */
  function KeyString(k: Key): string {
    match k
    case I(i) => Text.IntToString(i)
    case S(s) => s
  }

  function KeyStrings(keys: seq<Key>): (ss: seq<string>)
    ensures |ss| == |keys| && forall i :: 0 <= i < |keys| ==> ss[i] == KeyString(keys[i])
  {
    seq(|keys|, i requires 0 <= i < |keys| => KeyString(keys[i]))
  }

  /**
   * `'in:' . implode(',', array_keys($options))`: the rule lists every option
   * key, so splitting its parameter list at the commas gives the keys back
   * when none of them contains a comma.
   */
  function InRule(options: Entries): (rule: string)
    ensures "in:" <= rule
    ensures |options| > 0 && (forall i :: 0 <= i < |options| ==> ',' !in KeyString(options[i].0)) ==>
              Text.Split(rule[3..], ',') == KeyStrings(Keys(options))
  {
    var parts := KeyStrings(Keys(options));
    var rule := "in:" + Text.Join(",", parts);
    assert rule[3..] == Text.Join([','], parts);
    if |options| > 0 && (forall i :: 0 <= i < |options| ==> ',' !in KeyString(options[i].0)) then
      Text.SplitJoin(parts, ',');
      rule
    else
      rule
  }

  /** `new SelectField($name)`: type `ENUM`, input `select`, no rule tokens. */
  method Create(name: Option<string>) returns (f: BaseField)
    ensures fresh(f) && f.kind == Select && f.Valid() && NamedAs(f, name)
    ensures f.definition == Named(DefaultDefinition().(typ := Some("ENUM"), inputType := Some("select")), name)
    ensures f.requiredRule == "nullable" && f.validationRules == [] && f.group == None
  {
    f := new BaseField(Select);
    f.Type("ENUM");
    f.InputType("select");
    f.NameIfGiven(name);
  }

  /** `options`: restricts the value to the option keys and gives the front end the labels. */
  method Options(f: BaseField, options: Entries)
    modifies f`definition, f`validationRules
    ensures f.validationRules == old(f.validationRules) + [InRule(options)]
    ensures ExtraWritten(f, "options", Arr(options))
  {
    f.AddValidation(InRule(options));
    f.AddExtraEntry("options", Arr(options));
  }

  /** `stylingFormat($format)`: how the front end draws the input; `None` is the call without a format. */
  method StylingFormat(f: BaseField, format: Option<string>)
    modifies f`definition
    ensures ExtraWritten(f, "styling_format", Str(format.GetOr(DefaultStylingFormat)))
  {
    f.AddExtraEntry("styling_format", Str(format.GetOr(DefaultStylingFormat)));
  }
}
