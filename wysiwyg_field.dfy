/** `WysiwygField`: a rich-text editor whose content is stored as JSON. */
module WysiwygField {
  import opened Wrappers
  import opened Values
  import opened Definitions
  import opened FieldBase

  /** `new WysiwygField($name)`: type `JSON`, input `wysiwyg`, no rule tokens. */
  method Create(name: Option<string>) returns (f: BaseField)
    ensures fresh(f) && f.kind == Wysiwyg && f.Valid() && NamedAs(f, name)
    ensures f.definition == Named(DefaultDefinition().(typ := Some("JSON"), inputType := Some("wysiwyg")), name)
    ensures f.requiredRule == "nullable" && f.validationRules == [] && f.group == None
  {
    f := new BaseField(Wysiwyg);
    f.Type("JSON");
    f.InputType("wysiwyg");
    f.NameIfGiven(name);
  }
}
