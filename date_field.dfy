/**
 * `DateField`: a date picker. `DateTimeField` and `TimeField` share its setters.
 */
module DateField {
  import opened Wrappers
  import opened Values
  import opened Definitions
  import opened FieldBase

  /** The time zone a new date field is interpreted in. */
  const DefaultTimezone: string := "UTC"

  /** `maxDate`: the latest value the picker offers (only shown to the front end; no rule is added). */
  method MaxDate(f: BaseField, date: string)
    modifies f`definition
    ensures ExtraWritten(f, "max", Str(date))
  {
    f.AddExtraEntry("max", Str(date));
  }

  /** `minDate`: the earliest value the picker offers (only shown to the front end; no rule is added). */
  method MinDate(f: BaseField, date: string)
    modifies f`definition
    ensures ExtraWritten(f, "min", Str(date))
  {
    f.AddExtraEntry("min", Str(date));
  }

  /** `timezone` */
  method Timezone(f: BaseField, timezone: string)
    modifies f`definition
    ensures ExtraWritten(f, "timezone", Str(timezone))
  {
    f.AddExtraEntry("timezone", Str(timezone));
  }

  /** `new DateField($name)`: type `TIMESTAMP`, input `date`, rule `date`, time zone `UTC`. */
  method Create(name: Option<string>) returns (f: BaseField)
    ensures fresh(f) && f.kind == Date && f.Valid() && NamedAs(f, name)
    ensures f.definition == Named(DefaultDefinition().(typ := Some("TIMESTAMP"), inputType := Some("date"),
                                                       extraData := [(S("timezone"), Str(DefaultTimezone))]), name)
    ensures f.requiredRule == "nullable" && f.validationRules == ["date"] && f.group == None
  {
    f := new BaseField(Date);
    f.Type("TIMESTAMP");
    f.InputType("date");
    f.AddValidation("date");
    f.AddExtraEntry("timezone", Str(DefaultTimezone));
    ReplaceIntoEmpty([(S("timezone"), Str(DefaultTimezone))]);
    f.NameIfGiven(name);
  }
}
