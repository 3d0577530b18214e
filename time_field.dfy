/**
 * `TimeField`: a time-of-day picker. Its `maxDate`, `minDate` and `timezone` are the same code as `DateField`'s
 * and are modelled by `DateField.MaxDate`, `DateField.MinDate` and `DateField.Timezone`.
 */
module TimeField {
  import opened Wrappers
  import opened Values
  import opened Definitions
  import opened FieldBase

  /** `new TimeField($name)`: type `TEXT`, input `time`, rule `date_format:H:i:s`, time zone `UTC`. */
  method Create(name: Option<string>) returns (f: BaseField)
    ensures fresh(f) && f.kind == Time && f.Valid() && NamedAs(f, name)
    ensures f.definition == Named(DefaultDefinition().(typ := Some("TEXT"), inputType := Some("time"),
                                                       extraData := [(S("timezone"), Str("UTC"))]), name)
    ensures f.requiredRule == "nullable" && f.validationRules == ["date_format:H:i:s"] && f.group == None
  {
    f := new BaseField(Time);
    f.Type("TEXT");
    f.InputType("time");
    f.AddValidation("date_format:H:i:s");
    f.AddExtraEntry("timezone", Str("UTC"));
    assert ReplaceRecursive([], [(S("timezone"), Str("UTC"))]) == [(S("timezone"), Str("UTC"))];
    f.NameIfGiven(name);
  }
}
