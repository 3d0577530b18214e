/** The shapes the definition builder produces and the model stores. */
module Definitions {
  import opened Wrappers
  import opened Values
  import opened Assoc
  import Text

  /**
   * A field's definition array. The keys `setDefaultDefinition` creates are
   * always there; `type`, `input_type`, `name`, `input_hidden` and
   * `rule_string` only once their setter (or `getDefinition`) has run.
   */
  datatype Definition = Definition(
    labelText: Option<string>,
    description: Option<string>,
    placeholder: Option<string>,
    default: Value,
    required: bool,
    showLabel: bool,
    hidden: bool,
    hiddenOn: Entries,
    fillable: bool,
    extraData: Entries,
    typ: Option<string>,
    inputType: Option<string>,
    name: Option<string>,
    inputHidden: Option<bool>,
    ruleString: Option<string>)

  /** The definition `setDefaultDefinition` starts every field with. */
  function DefaultDefinition(): Definition {
    Definition(None, None, None, Null, false, true, false, [], true, [], None, None, None, None, None)
  }

  function OptStr(s: Option<string>): Value {
    if s.Some? then Str(s.value) else Null
  }

  /** The keys `setDefaultDefinition` creates, in order. */
  const BaseKeys: seq<string> := [
    "label", "description", "placeholder", "default", "required", "show_label",
    "hidden", "hidden_on", "fillable", "extra_data"]

  /** The entries of the keys every definition holds. */
  function BaseEntries(d: Definition): Entries {
    [(S("label"), OptStr(d.labelText)), (S("description"), OptStr(d.description)),
     (S("placeholder"), OptStr(d.placeholder)), (S("default"), d.default),
     (S("required"), Bool(d.required)), (S("show_label"), Bool(d.showLabel)), (S("hidden"), Bool(d.hidden)),
     (S("hidden_on"), Arr(d.hiddenOn)), (S("fillable"), Bool(d.fillable)), (S("extra_data"), Arr(d.extraData))]
  }

  /** One entry when the value is there, none otherwise. */
  function Optional(k: string, v: Option<Value>): Entries {
    if v.Some? then [(S(k), v.value)] else []
  }

  function OptStrValue(s: Option<string>): Option<Value> {
    if s.Some? then Some(Str(s.value)) else None
  }

  /** The keys that only exist once their setter (or `getDefinition`) has run. */
  function OptionalEntries(d: Definition): Entries {
    Optional("type", OptStrValue(d.typ))
    + (Optional("input_type", OptStrValue(d.inputType))
    + (Optional("name", OptStrValue(d.name))
    + (Optional("input_hidden", if d.inputHidden.Some? then Some(Bool(d.inputHidden.value)) else None)
    + Optional("rule_string", OptStrValue(d.ruleString)))))
  }

  /**
   * The definition as the PHP array it is (keys in the order the setters
   * normally create them; an optional key that was never set is absent).
   */
  function ToEntries(d: Definition): Entries {
    BaseEntries(d) + OptionalEntries(d)
  }

  function ToValue(d: Definition): Value {
    Arr(ToEntries(d))
  }

  /** A field group as `addGroup` and the configuration describe it (its field list is kept apart). */
  datatype Group = Group(key: string, labelText: string, description: string, tabbed: Value, order: int)

  /** Names of the fields that are mass assignable and that are hidden from serialisation. */
  datatype Guards = Guards(fillable: seq<string>, hidden: seq<string>)

  /**
   * A group of the full definition together with the definitions of its
   * fields, in order. A field whose group is no longer configured when the
   * full definition is built creates an entry holding only `fields`
   * (`group` is `None`).
   */
  datatype GroupView = GroupView(group: Option<Group>, fields: seq<Definition>)

  /** The model's display names (`model_info`); `null` until a model is given. */
  datatype ModelInfo = ModelInfo(name: Option<string>, pluralName: Option<string>)

  /** What `getFullDefinition` returns. */
  datatype FullDefinition = FullDefinition(
    modelInfo: ModelInfo,
    guards: Guards,
    rules: map<string, string>,
    fieldGroups: seq<(string, GroupView)>,
    options: Entries)

  /** What `getFlatDefinition` returns: each field's definition under its name, in registration order. */
  type FlatDefinition = seq<(string, Definition)>

  /** `InvalidFieldDefinition` */
  datatype SchemaError = InvalidFieldDefinition(fieldName: string, message: string) {
    function Text(): string {
      "Field defintion for " + fieldName + " is invalid: " + message
    }
  }

  /** A group as the PHP array the nested fields and the front end receive. */
  function GroupValue(gv: GroupView): Value {
    match gv.group
    case Some(g) =>
      Arr([
        (S("key"), Str(g.key)),
        (S("label"), Str(g.labelText)),
        (S("description"), Str(g.description)),
        (S("tabbed"), g.tabbed),
        (S("order"), Int(g.order)),
        (S("fields"), DefinitionList(gv.fields))])
    case None => Arr([(S("fields"), DefinitionList(gv.fields))])
  }

  /** A list of field definitions as a PHP list. */
  function DefinitionList(defs: seq<Definition>): Value {
    List(seq(|defs|, i requires 0 <= i < |defs| => ToValue(defs[i])))
  }

  /** The `field_groups` array, keyed by group key. */
  function GroupsValue(groups: seq<(string, GroupView)>): Value {
    Arr(seq(|groups|, i requires 0 <= i < |groups| => (S(groups[i].0), GroupValue(groups[i].1))))
  }

  /** `array_merge(...array_map(fn ($g) => $g['fields'], $groups))`: every group's fields, group after group. */
  function AllGroupFields(groups: seq<(string, GroupView)>): (defs: seq<Definition>)
    ensures |defs| == Sum(groups)
  {
    if |groups| == 0 then [] else groups[0].1.fields + AllGroupFields(groups[1..])
  }

  function Sum(groups: seq<(string, GroupView)>): nat {
    if |groups| == 0 then 0 else |groups[0].1.fields| + Sum(groups[1..])
  }

  /** A definition is among all group fields exactly when some group holds it. */
  lemma {:induction false} AllGroupFieldsHas(groups: seq<(string, GroupView)>, d: Definition)
    ensures d in AllGroupFields(groups) <==> exists g :: 0 <= g < |groups| && d in groups[g].1.fields
  {
    if |groups| > 0 {
      AllGroupFieldsHas(groups[1..], d);
      if d in AllGroupFields(groups[1..]) {
        var g :| 0 <= g < |groups[1..]| && d in groups[1..][g].1.fields;
        assert d in groups[g + 1].1.fields;
      }
      if exists g :: 0 <= g < |groups| && d in groups[g].1.fields {
        var g :| 0 <= g < |groups| && d in groups[g].1.fields;
        if g > 0 {
          assert d in groups[1..][g - 1].1.fields;
        }
      }
    }
  }

  lemma OptionalLookup(k: string, v: Option<Value>, rest: Entries, j: string)
    ensures Lookup(Optional(k, v) + rest, S(j)) == if j == k && v.Some? then v else Lookup(rest, S(j))
  {
    LookupAppend(Optional(k, v), rest, S(j));
  }

  /** What the name, type and input type keys of a definition array read. */
  lemma {:induction false} LookupRequired(d: Definition, j: string)
    requires j in ["name", "type", "input_type"]
    ensures Lookup(ToEntries(d), S(j)) ==
              if j == "name" then OptStrValue(d.name)
              else if j == "type" then OptStrValue(d.typ)
              else OptStrValue(d.inputType)
  {
    var hidden := if d.inputHidden.Some? then Some(Bool(d.inputHidden.value)) else None;
    var o5 := Optional("rule_string", OptStrValue(d.ruleString));
    var o4 := Optional("input_hidden", hidden) + o5;
    var o3 := Optional("name", OptStrValue(d.name)) + o4;
    var o2 := Optional("input_type", OptStrValue(d.inputType)) + o3;
    OptionalLookup("rule_string", OptStrValue(d.ruleString), [], j);
    assert o5 + [] == o5;
    OptionalLookup("input_hidden", hidden, o5, j);
    OptionalLookup("name", OptStrValue(d.name), o4, j);
    OptionalLookup("input_type", OptStrValue(d.inputType), o3, j);
    OptionalLookup("type", OptStrValue(d.typ), o2, j);
    BaseEntriesKeys(d, j);
    LookupAppend(BaseEntries(d), OptionalEntries(d), S(j));
  }

  lemma BaseEntriesKeys(d: Definition, j: string)
    ensures HasKey(BaseEntries(d), S(j)) <==> j in BaseKeys
  {
    var ks := Keys(BaseEntries(d));
    assert |ks| == |BaseKeys| && forall i :: 0 <= i < |ks| ==> ks[i] == S(BaseKeys[i]);
    if j in BaseKeys {
      var i :| 0 <= i < |BaseKeys| && BaseKeys[i] == j;
      assert ks[i] == S(j);
    }
    if S(j) in ks {
      var i :| 0 <= i < |ks| && ks[i] == S(j);
      assert BaseKeys[i] == j;
    }
  }

  /** Every definition array holds the base keys; it holds `rule_string` once that is set. */
  lemma {:induction false} DefinitionHasKeys(d: Definition)
    ensures forall k :: k in BaseKeys ==> HasKey(ToEntries(d), S(k))
    ensures HasKey(ToEntries(d), S("rule_string")) <==> d.ruleString.Some?
  {
    KeysAppend(BaseEntries(d), OptionalEntries(d));
    forall k | k in BaseKeys ensures HasKey(ToEntries(d), S(k)) {
      BaseEntriesKeys(d, k);
    }
    LookupRuleString(d);
    LookupFound(ToEntries(d), S("rule_string"));
  }

  lemma {:induction false} LookupRuleString(d: Definition)
    ensures Lookup(ToEntries(d), S("rule_string")) == OptStrValue(d.ruleString)
  {
    var j := "rule_string";
    var hidden := if d.inputHidden.Some? then Some(Bool(d.inputHidden.value)) else None;
    var o5 := Optional("rule_string", OptStrValue(d.ruleString));
    var o4 := Optional("input_hidden", hidden) + o5;
    var o3 := Optional("name", OptStrValue(d.name)) + o4;
    var o2 := Optional("input_type", OptStrValue(d.inputType)) + o3;
    OptionalLookup("rule_string", OptStrValue(d.ruleString), [], j);
    assert o5 + [] == o5;
    OptionalLookup("input_hidden", hidden, o5, j);
    OptionalLookup("name", OptStrValue(d.name), o4, j);
    OptionalLookup("input_type", OptStrValue(d.inputType), o3, j);
    OptionalLookup("type", OptStrValue(d.typ), o2, j);
    BaseEntriesKeys(d, j);
    LookupAppend(BaseEntries(d), OptionalEntries(d), S(j));
  }
}
