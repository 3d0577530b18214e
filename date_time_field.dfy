/**
 * `DateTimeField`: a date and time picker. Its `maxDate`, `minDate` and `timezone` are the same code as `DateField`'s
 * and are modelled by `DateField.MaxDate`, `DateField.MinDate` and `DateField.Timezone`.
 */
module DateTimeField {
  import opened Wrappers
  import opened Values
  import opened Definitions
  import opened FieldBase

  /** `new DateTimeField($name)`: type `TIMESTAMP`, input `datetime`, rule `date`, time zone `UTC`. */
  method Create(name: Option<string>) returns (f: BaseField)
    ensures fresh(f) && f.kind == DateTime && f.Valid() && NamedAs(f, name)
    ensures f.definition == Named(DefaultDefinition().(typ := Some("TIMESTAMP"), inputType := Some("datetime"),
                                                       extraData := [(S("timezone"), Str("UTC"))]), name)
    ensures f.requiredRule == "nullable" && f.validationRules == ["date"] && f.group == None
  {
    f := new BaseField(DateTime);
    f.Type("TIMESTAMP");
    f.InputType("datetime");
    f.AddValidation("date");
    f.AddExtraEntry("timezone", Str("UTC"));
    assert ReplaceRecursive([], [(S("timezone"), Str("UTC"))]) == [(S("timezone"), Str("UTC"))];
    f.NameIfGiven(name);
  }
}
