/**
 * `DefinitionBuilder`: collects the fields of a model, checks each field's
 * definition, and keeps the guards, the validation rules and the field
 * definitions that the model and the front end read.
 */
module DefinitionBuilder {
  import opened Wrappers
  import opened Assoc
  import opened Values
  import opened Definitions
  import opened FieldBase
  import NestedBaseField
  import BreadConfig
  import Text

  /** `DefinitionBuilder::class`, the name every `validateSingleDefinition` error carries. */
  const BuilderClass: string := "Bjerke\\Bread\\Builder\\DefinitionBuilder"

  /** The cache time to live (in minutes) a builder starts with. */
  const DefaultCacheTTL: int := 20160

  /** The keys a definition must hold a value other than null for. */
  const RequiredKeys: seq<string> := ["name", "type", "input_type"]

  /** The keys a definition must hold, null or not. */
  const KeysMustExist: seq<string> := [
    "label", "description", "placeholder", "default", "required", "rule_string",
    "show_label", "hidden", "hidden_on", "fillable", "extra_data"]

  /** `"$field is required"` */
  function RequiredMessage(k: string): string {
    k + " is required"
  }

  /** `"$missingKeys are missing from the definition"`, the keys joined by `, `. */
  function MissingMessage(missing: seq<string>): string {
    Text.Join(", ", missing) + " are missing from the definition"
  }

  /** `isset($definition[$k])`: the key is there and its value is not null. */
  predicate IsSet(def: Entries, k: string) {
    Get(def, k).Some? && !Get(def, k).value.Null?
  }

  /** The first of `keys` that is not set in `def`. */
  function FirstUnset(def: Entries, keys: seq<string>): (r: Option<string>)
    ensures r.None? <==> forall k :: k in keys ==> IsSet(def, k)
    ensures r.Some? ==> r.value in keys && !IsSet(def, r.value)
  {
    if |keys| == 0 then None
    else if !IsSet(def, keys[0]) then Some(keys[0])
    else FirstUnset(def, keys[1..])
  }

  /** `array_diff($keys, array_keys($def))`: the keys `def` lacks, in their order. */
  function MissingKeys(def: Entries, keys: seq<string>): (missing: seq<string>)
    ensures forall k :: k in missing <==> k in keys && !HasKey(def, S(k))
  {
    if |keys| == 0 then []
    else
      var last := keys[|keys| - 1];
      assert forall k :: k in keys <==> k in keys[..|keys| - 1] || k == last;
      MissingKeys(def, keys[..|keys| - 1]) + (if HasKey(def, S(last)) then [] else [last])
  }

  /**
   * What `validateSingleDefinition` throws for a definition, if anything:
   * the first required key that is not set, else the list of keys missing.
   */
  function DefinitionError(def: Entries): Option<SchemaError> {
    match FirstUnset(def, RequiredKeys)
    case Some(k) => Some(InvalidFieldDefinition(BuilderClass, RequiredMessage(k)))
    case None =>
      var missing := MissingKeys(def, KeysMustExist);
      if |missing| > 0 then Some(InvalidFieldDefinition(BuilderClass, MissingMessage(missing))) else None
  }

  /**
   * A definition passes exactly when every required key is set and every
   * key that must exist is there; an error always names the builder class.
   */
  lemma DefinitionErrorMeaning(def: Entries)
    ensures DefinitionError(def).None? <==>
              (forall k :: k in RequiredKeys ==> IsSet(def, k)) &&
              (forall k :: k in KeysMustExist ==> HasKey(def, S(k)))
    ensures DefinitionError(def).Some? ==> DefinitionError(def).value.fieldName == BuilderClass
  {
    var missing := MissingKeys(def, KeysMustExist);
    if |missing| > 0 {
      assert missing[0] in missing;
    } else {
      assert forall k :: k !in missing;
    }
  }

  /** What the check throws for a field's definition, read off the record. */
  function FieldError(d: Definition): Option<SchemaError> {
    if d.name.None? then Some(InvalidFieldDefinition(BuilderClass, RequiredMessage("name")))
    else if d.typ.None? then Some(InvalidFieldDefinition(BuilderClass, RequiredMessage("type")))
    else if d.inputType.None? then Some(InvalidFieldDefinition(BuilderClass, RequiredMessage("input_type")))
    else if d.ruleString.None? then Some(InvalidFieldDefinition(BuilderClass, MissingMessage(["rule_string"])))
    else None
  }

  /**
   * Checking a field's definition array throws exactly what the record
   * says: a missing name, type or input type first, else a missing rule
   * string (the only key a field's definition can lack).
   */
  lemma FieldErrorAgrees(d: Definition)
    ensures DefinitionError(ToEntries(d)) == FieldError(d)
  {
    FirstUnsetOfField(d);
    MissingKeysOfField(d);
  }

  lemma FirstUnsetOfField(d: Definition)
    ensures FirstUnset(ToEntries(d), RequiredKeys) ==
              if d.name.None? then Some("name") else if d.typ.None? then Some("type")
              else if d.inputType.None? then Some("input_type") else None
  {
    var e := ToEntries(d);
    LookupRequired(d, "name");
    LookupRequired(d, "type");
    LookupRequired(d, "input_type");
    assert IsSet(e, "name") <==> d.name.Some?;
    assert IsSet(e, "type") <==> d.typ.Some?;
    assert IsSet(e, "input_type") <==> d.inputType.Some?;
    assert RequiredKeys[1..] == ["type", "input_type"] && RequiredKeys[1..][1..] == ["input_type"];
    assert RequiredKeys[1..][1..][1..] == [];
  }

  lemma MissingKeysOfField(d: Definition)
    ensures MissingKeys(ToEntries(d), KeysMustExist) == if d.ruleString.None? then ["rule_string"] else []
  {
    DefinitionHasKeys(d);
    MustExistKeys();
    if d.ruleString.None? {
      MissingKeysExactly(ToEntries(d), KeysMustExist, "rule_string");
    } else {
      MissingKeysExactly(ToEntries(d), KeysMustExist, "");
    }
  }

  /** The keys that must exist are distinct; all but `rule_string` are base keys. */
  lemma MustExistKeys()
    ensures Distinct(KeysMustExist) && "rule_string" in KeysMustExist && "" !in KeysMustExist
    ensures forall k :: k in KeysMustExist ==> k in BaseKeys || k == "rule_string"
  {
  }

  /** When `x` is the only one of `keys` the definition lacks, the missing list is `[x]`. */
  lemma {:induction false} MissingKeysExactly(def: Entries, keys: seq<string>, x: string)
    requires Distinct(keys)
    requires forall k :: k in keys ==> (HasKey(def, S(k)) <==> k != x)
    ensures MissingKeys(def, keys) == if x in keys then [x] else []
  {
    if |keys| > 0 {
      var n := |keys| - 1;
      assert forall k :: k in keys[..n] ==> k in keys;
      MissingKeysExactly(def, keys[..n], x);
      assert x in keys <==> x in keys[..n] || keys[n] == x;
      if keys[n] == x {
        assert x !in keys[..n];
      }
    }
  }

  /** `validateSingleDefinition`: checks the required keys one by one, then collects the missing ones. */
  method ValidateSingleDefinition(def: Entries) returns (err: Option<SchemaError>)
    ensures err == DefinitionError(def)
  {
    for i := 0 to |RequiredKeys|
      invariant FirstUnset(def, RequiredKeys) == FirstUnset(def, RequiredKeys[i..])
    {
      if !IsSet(def, RequiredKeys[i]) {
        return Some(InvalidFieldDefinition(BuilderClass, RequiredMessage(RequiredKeys[i])));
      }
      assert RequiredKeys[i..][1..] == RequiredKeys[i + 1..];
    }
    var missing: seq<string> := [];
    for i := 0 to |KeysMustExist|
      invariant missing == MissingKeys(def, KeysMustExist[..i])
    {
      if !HasKey(def, S(KeysMustExist[i])) {
        missing := missing + [KeysMustExist[i]];
      }
      assert KeysMustExist[..i + 1][..i] == KeysMustExist[..i];
    }
    assert KeysMustExist[..|KeysMustExist|] == KeysMustExist;
    if |missing| > 0 {
      return Some(InvalidFieldDefinition(BuilderClass, MissingMessage(missing)));
    }
    return None;
  }

  /** A guard list after a field is added: its name is appended once, when the flag is set. */
  function Guarded(list: seq<string>, flag: bool, name: string): (r: seq<string>)
    ensures list <= r
    ensures forall n :: n in r <==> n in list || (flag && n == name)
    ensures Distinct(list) ==> Distinct(r)
  {
    if flag && name !in list then list + [name] else list
  }

  /** The definition as the builder stores it: a truthy `input_hidden` becomes `hidden` and is removed. */
  function Stored(d: Definition): (s: Definition)
    ensures s.hidden == (d.hidden || d.inputHidden == Some(true))
    ensures s.inputHidden != Some(true)
    ensures s.inputHidden.Some? ==> s.inputHidden == d.inputHidden
    ensures s == d.(hidden := s.hidden, inputHidden := s.inputHidden)
  {
    if d.inputHidden == Some(true) then d.(hidden := true, inputHidden := None) else d
  }

  /**
   * The rules after a field is added: its arrayed rules override existing
   * ones, and a truthy rule string overrides them under the field's
   * validation key.
   */
  function Arranged(rules: map<string, string>, arrayed: map<string, string>, key: string, ruleString: string)
    : (r: map<string, string>)
    ensures forall k :: k in r <==> k in rules || k in arrayed || (Text.Truthy(ruleString) && k == key)
    ensures forall k :: k in r ==>
              r[k] == if Text.Truthy(ruleString) && k == key then ruleString
                      else if k in arrayed then arrayed[k] else rules[k]
  {
    var merged := rules + arrayed;
    if Text.Truthy(ruleString) then merged[key := ruleString] else merged
  }

  /**
   * What `addField` reads off a field: the object, its definition with the
   * current rule string, its validation key, its arrayed rules and its group.
   */
  datatype FieldView = FieldView(field: BaseField, definition: Definition, validationKey: Option<string>,
                                 arrayed: map<string, string>, group: string)

  /** A named field has a validation key (what `BaseField.Valid` keeps). */
  predicate Keyed(v: FieldView) {
    v.definition.name.Some? ==> v.validationKey.Some?
  }

  /**
   * The view of a field object. A nested field without a validation key has
   * no name either, so it is refused before its arrayed rules are read.
   */
  function ViewOfField(f: BaseField): (v: FieldView)
    reads f
    requires f.Valid()
    ensures Keyed(v)
  {
    FieldView(f, f.DefinitionView(), f.validationKey,
              if f.validationKey.Some? || !f.kind.IsNested() then NestedBaseField.ArrayedRules(f) else map[],
              f.GetGroup())
  }

  /** The views of the fields passed to `addFields`, in order. */
  function ViewsOf(fs: seq<BaseField>): (vs: seq<FieldView>)
    reads set i | 0 <= i < |fs| :: fs[i]
    requires forall i :: 0 <= i < |fs| ==> fs[i].Valid()
    ensures |vs| == |fs| && forall i :: 0 <= i < |vs| ==> vs[i] == ViewOfField(fs[i])
  {
    seq(|fs|, i requires 0 <= i < |fs| && fs[i].Valid() reads set j | 0 <= j < |fs| :: fs[j] => ViewOfField(fs[i]))
  }

  /** The part of a builder that adding fields changes. */
  datatype Registry = Registry(guards: Guards, rules: map<string, string>, fields: seq<(string, BaseField)>,
                               definitions: FlatDefinition)

  /**
   * One `addField` on values: a refused definition changes nothing; an
   * accepted one records its guards and rules; then the field is stored
   * under its name when its group is configured, and refused otherwise.
   */
  function AddStep(groups: seq<(string, Group)>, r: Registry, v: FieldView): (Option<SchemaError>, Registry)
    requires Keyed(v)
  {
    if FieldError(v.definition).Some? then (FieldError(v.definition), r)
    else
      var name := v.definition.name.value;
      var guards := Guards(Guarded(r.guards.fillable, v.definition.fillable, name),
                           Guarded(r.guards.hidden, v.definition.hidden, name));
      var rules := Arranged(r.rules, v.arrayed, v.validationKey.value, v.definition.ruleString.value);
      if HasKey(groups, v.group) then
        (None, Registry(guards, rules, Put(r.fields, name, v.field), Put(r.definitions, name, Stored(v.definition))))
      else
        (Some(InvalidFieldDefinition(name, "Group key " + v.group + " not configured")),
         Registry(guards, rules, r.fields, r.definitions))
  }

  /** `addFields` on values: the steps in order, stopping at the first error. */
  function AddAll(groups: seq<(string, Group)>, r: Registry, vs: seq<FieldView>): (Option<SchemaError>, Registry)
    requires forall i :: 0 <= i < |vs| ==> Keyed(vs[i])
    decreases |vs|
  {
    if |vs| == 0 then (None, r)
    else
      var step := AddStep(groups, r, vs[0]);
      if step.0.Some? then step else AddAll(groups, step.1, vs[1..])
  }

  /** Adding `a` then `b` is adding `a + b`, unless adding `a` already failed. */
  lemma {:induction false} AddAllSplit(groups: seq<(string, Group)>, r: Registry, a: seq<FieldView>, b: seq<FieldView>)
    requires forall i :: 0 <= i < |a| ==> Keyed(a[i])
    requires forall i :: 0 <= i < |b| ==> Keyed(b[i])
    ensures forall i :: 0 <= i < |a + b| ==> Keyed((a + b)[i])
    ensures AddAll(groups, r, a + b) ==
              if AddAll(groups, r, a).0.Some? then AddAll(groups, r, a) else AddAll(groups, AddAll(groups, r, a).1, b)
    decreases |a|
  {
    assert forall i :: 0 <= i < |a + b| ==> (a + b)[i] == if i < |a| then a[i] else b[i - |a|];
    if |a| > 0 {
      assert (a + b)[1..] == a[1..] + b;
      var step := AddStep(groups, r, a[0]);
      if step.0.None? {
        AddAllSplit(groups, step.1, a[1..], b);
      }
    } else {
      assert a + b == b;
    }
  }

  /** Whether `addFields` is refused at field `k`, all the fields before it having been added. */
  predicate FailsAt(groups: seq<(string, Group)>, r: Registry, vs: seq<FieldView>, k: int)
    requires forall i :: 0 <= i < |vs| ==> Keyed(vs[i])
  {
    0 <= k < |vs| && AddAll(groups, r, vs[..k]).0.None? && AddStep(groups, AddAll(groups, r, vs[..k]).1, vs[k]).0.Some?
  }

  /** When field `k` is refused, the error and the builder are what that one `addField` leaves. */
  lemma AddAllFailsAt(groups: seq<(string, Group)>, r: Registry, vs: seq<FieldView>, k: int)
    requires forall i :: 0 <= i < |vs| ==> Keyed(vs[i])
    requires FailsAt(groups, r, vs, k)
    ensures AddAll(groups, r, vs) == AddStep(groups, AddAll(groups, r, vs[..k]).1, vs[k])
  {
    assert vs[..k] + vs[k..] == vs;
    AddAllSplit(groups, r, vs[..k], vs[k..]);
    assert vs[k..][0] == vs[k];
  }

  /** `addFields` fails only where some field is refused after all the fields before it were added. */
  lemma {:induction false} AddAllFailure(groups: seq<(string, Group)>, r: Registry, vs: seq<FieldView>)
    requires forall i :: 0 <= i < |vs| ==> Keyed(vs[i])
    ensures AddAll(groups, r, vs).0.Some? <==> exists k :: FailsAt(groups, r, vs, k)
    decreases |vs|
  {
    if |vs| > 0 {
      var step := AddStep(groups, r, vs[0]);
      var rest := vs[1..];
      assert vs[..0] == [];
      if step.0.Some? {
        assert FailsAt(groups, r, vs, 0);
      } else {
        AddAllFailure(groups, step.1, rest);
        if AddAll(groups, r, vs).0.Some? {
          var k :| FailsAt(groups, step.1, rest, k);
          assert vs[..k + 1][0] == vs[0] && vs[..k + 1][1..] == rest[..k];
          assert FailsAt(groups, r, vs, k + 1);
        } else {
          forall k | FailsAt(groups, r, vs, k)
            ensures false
          {
            AddAllFailsAt(groups, r, vs, k);
          }
        }
      }
    }
  }

  /** When `addFields` succeeds, every field is stored under its name. */
  lemma {:induction false} AddAllStoresAll(groups: seq<(string, Group)>, r: Registry, vs: seq<FieldView>)
    requires forall i :: 0 <= i < |vs| ==> Keyed(vs[i])
    ensures AddAll(groups, r, vs).0.None? ==>
              forall i :: 0 <= i < |vs| ==>
                vs[i].definition.name.Some? && HasKey(AddAll(groups, r, vs).1.definitions, vs[i].definition.name.value)
    decreases |vs|
  {
    if |vs| > 0 {
      var step := AddStep(groups, r, vs[0]);
      var rest := vs[1..];
      if step.0.None? {
        AddAllStoresAll(groups, step.1, rest);
        StepKeepsNames(groups, r, vs[0]);
        AddAllKeepsKeys(groups, step.1, rest, vs[0].definition.name.value);
        assert forall i :: 0 < i < |vs| ==> vs[i] == rest[i - 1];
      }
    }
  }

  /** An added field's name is stored, and a step stores every name stored before. */
  lemma StepKeepsNames(groups: seq<(string, Group)>, r: Registry, v: FieldView)
    requires Keyed(v)
    ensures AddStep(groups, r, v).0.None? ==>
              v.definition.name.Some? && HasKey(AddStep(groups, r, v).1.definitions, v.definition.name.value)
    ensures forall k :: HasKey(r.definitions, k) ==> HasKey(AddStep(groups, r, v).1.definitions, k)
  {
    if FieldError(v.definition).None? && HasKey(groups, v.group) {
      KeysPut(r.definitions, v.definition.name.value, Stored(v.definition));
    }
  }

  /** Adding fields never forgets a stored name. */
  lemma {:induction false} AddAllKeepsKeys(groups: seq<(string, Group)>, r: Registry, vs: seq<FieldView>, k: string)
    requires forall i :: 0 <= i < |vs| ==> Keyed(vs[i])
    requires HasKey(r.definitions, k)
    ensures HasKey(AddAll(groups, r, vs).1.definitions, k)
    decreases |vs|
  {
    if |vs| > 0 {
      StepKeepsNames(groups, r, vs[0]);
      var step := AddStep(groups, r, vs[0]);
      if step.0.None? {
        AddAllKeepsKeys(groups, step.1, vs[1..], k);
      }
    }
  }

  /** The configured groups as the full definition starts them, with no fields. */
  function InitialViews(groups: seq<(string, Group)>): (views: seq<(string, GroupView)>)
    ensures Keys(views) == Keys(groups)
    ensures forall i :: 0 <= i < |views| ==> views[i].1 == GroupView(Some(groups[i].1), [])
  {
    seq(|groups|, i requires 0 <= i < |groups| => (groups[i].0, GroupView(Some(groups[i].1), [])))
  }

  /** `$groups[$k]`, where PHP creates an empty entry on a write to a missing key. */
  function ViewOf(views: seq<(string, GroupView)>, k: string): GroupView {
    match Lookup(views, k)
    case Some(gv) => gv
    case None => GroupView(None, [])
  }

  /** `$groups[$group]['fields'][] = $d` */
  function Place(views: seq<(string, GroupView)>, group: string, d: Definition): seq<(string, GroupView)> {
    var gv := ViewOf(views, group);
    Put(views, group, gv.(fields := gv.fields + [d]))
  }

  /** Each definition placed into its group, in order. */
  function PlaceAll(views: seq<(string, GroupView)>, placements: seq<(string, Definition)>): seq<(string, GroupView)>
    decreases |placements|
  {
    if |placements| == 0 then views
    else
      var n := |placements| - 1;
      Place(PlaceAll(views, placements[..n]), placements[n].0, placements[n].1)
  }

  /** The definitions placed into group `k`, in order. */
  function FieldsIn(placements: seq<(string, Definition)>, k: string): seq<Definition>
    decreases |placements|
  {
    if |placements| == 0 then []
    else
      var n := |placements| - 1;
      FieldsIn(placements[..n], k) + (if placements[n].0 == k then [placements[n].1] else [])
  }

  /**
   * After the placements, every group holds its earlier fields followed by
   * exactly the definitions placed into it, in order; the configured groups
   * keep their order and a group only placed into is appended.
   */
  lemma {:induction false} PlaceAllView(views: seq<(string, GroupView)>, placements: seq<(string, Definition)>, k: string)
    ensures ViewOf(PlaceAll(views, placements), k) ==
              ViewOf(views, k).(fields := ViewOf(views, k).fields + FieldsIn(placements, k))
    ensures HasKey(PlaceAll(views, placements), k) <==> HasKey(views, k) || k in Keys(placements)
    ensures Keys(views) <= Keys(PlaceAll(views, placements))
    ensures DistinctKeys(views) ==> DistinctKeys(PlaceAll(views, placements))
    decreases |placements|
  {
    if |placements| > 0 {
      var n := |placements| - 1;
      var prev := PlaceAll(views, placements[..n]);
      PlaceAllView(views, placements[..n], k);
      var (g, d) := placements[n];
      var gv := ViewOf(prev, g);
      LookupPut(prev, g, gv.(fields := gv.fields + [d]), k);
      KeysPut(prev, g, gv.(fields := gv.fields + [d]));
      if DistinctKeys(views) {
        PutDistinct(prev, g, gv.(fields := gv.fields + [d]));
      }
      assert Keys(placements) == Keys(placements[..n]) + [g];
    } else {
      assert FieldsIn(placements, k) == [];
      assert ViewOf(views, k).fields + [] == ViewOf(views, k).fields;
    }
  }

  /** The Lang strings and the inflector `setModelInfo` consults. */
  datatype ModelNaming = ModelNaming(translate: string -> Option<string>, pluralize: string -> string)

  /**
   * `setModelInfo`: the singular and plural names are the `models.<name>.*`
   * translations when they exist, else the class base name and its plural.
   */
  function ModelNames(modelClass: string, naming: ModelNaming): (info: ModelInfo)
    ensures info.name.Some? && info.pluralName.Some?
  {
    var baseName := Text.ClassBasename(modelClass);
    var modelName := Text.AsciiLower(baseName);
    ModelInfo(
      Some(naming.translate("models." + modelName + ".singular").GetOr(baseName)),
      Some(naming.translate("models." + modelName + ".plural").GetOr(naming.pluralize(baseName))))
  }

  class Builder {
    var cacheable: bool
    var cacheTTL: int
    var groups: seq<(string, Group)>
    var rules: map<string, string>
    /** Each field object under its name, in the order the names were first added. */
    var fields: seq<(string, BaseField)>
    var definitions: FlatDefinition
    var options: Entries
    var guards: Guards
    var modelInfo: ModelInfo

    /**
     * Keys are unique; every field has its definition at the same position;
     * no guard lists a name twice.
     */
    ghost predicate Valid()
      reads this
    {
      && DistinctKeys(groups) && DistinctKeys(definitions)
      && Keys(fields) == Keys(definitions) && |fields| == |definitions|
      && Distinct(guards.fillable) && Distinct(guards.hidden)
    }

    /** `new DefinitionBuilder($model)`: the configured groups, nothing else, and the model's names if a model is given. */
    constructor (model: Option<string>, naming: ModelNaming)
      ensures Valid()
      ensures groups == BreadConfig.DefaultFieldGroups() && rules == map[] && fields == [] && definitions == []
      ensures options == [] && guards == Guards([], []) && !cacheable && cacheTTL == DefaultCacheTTL
      ensures modelInfo == if model.Some? then ModelNames(model.value, naming) else ModelInfo(None, None)
    {
      cacheable := false;
      cacheTTL := DefaultCacheTTL;
      groups := BreadConfig.DefaultFieldGroups();
      rules := map[];
      fields := [];
      definitions := [];
      options := [];
      guards := Guards([], []);
      modelInfo := ModelInfo(None, None);
      new;
      if model.Some? {
        SetModelInfo(model.value, naming);
      }
    }

    /** `setModelInfo` */
    method SetModelInfo(modelClass: string, naming: ModelNaming)
      modifies this`modelInfo
      ensures modelInfo == ModelNames(modelClass, naming)
    {
      modelInfo := ModelNames(modelClass, naming);
    }

    /** `addGroup`: adds or replaces a group; its order defaults to the number of groups before it. */
    method AddGroup(key: string, labelText: string, description: string, tabbed: Value, order: Option<int>)
      requires Valid()
      modifies this`groups
      ensures Valid()
      ensures groups == Put(old(groups), key, Group(key, labelText, description, tabbed, order.GetOr(|old(groups)|)))
      ensures Lookup(groups, key) == Some(Group(key, labelText, description, tabbed, order.GetOr(|old(groups)|)))
      ensures forall k :: k != key ==> Lookup(groups, k) == Lookup(old(groups), k)
    {
      var g := Group(key, labelText, description, tabbed, order.GetOr(|groups|));
      PutDistinct(groups, key, g);
      forall k ensures Lookup(Put(groups, key, g), k) == if k == key then Some(g) else Lookup(groups, k) {
        LookupPut(groups, key, g, k);
      }
      groups := Put(groups, key, g);
    }

    /** `setOptions` */
    method SetOptions(newOptions: Entries)
      modifies this`options
      ensures options == newOptions
    {
      options := newOptions;
    }

    /**
     * `addField`: takes the field's definition (storing its rule string in
     * it) and checks it; on success records the guards and the rules; then
     * checks the field's group and, when it is configured, stores the field
     * and its definition under the field's name. A group error leaves the
     * guards and rules already recorded.
     */
    method AddField(f: BaseField) returns (err: Option<SchemaError>)
      requires Valid() && f.Valid()
      modifies this, f`definition
      ensures Valid() && f.Valid()
      ensures f.definition == old(f.DefinitionView())
      ensures forall k :: HasKey(old(definitions), k) ==> HasKey(definitions, k)
      ensures err.None? ==> f.definition.name.Some? && HasKey(definitions, f.definition.name.value)
      ensures groups == old(groups) && options == old(options) && modelInfo == old(modelInfo)
      ensures cacheable == old(cacheable) && cacheTTL == old(cacheTTL)
      ensures FieldError(f.definition).Some? ==>
                && err == FieldError(f.definition)
                && guards == old(guards) && rules == old(rules)
                && fields == old(fields) && definitions == old(definitions)
      ensures FieldError(f.definition).None? ==>
                && f.definition.name.Some? && f.definition.ruleString.Some? && f.validationKey.Some?
                && guards == Guards(Guarded(old(guards.fillable), f.definition.fillable, f.definition.name.value),
                                    Guarded(old(guards.hidden), f.definition.hidden, f.definition.name.value))
                && rules == Arranged(old(rules), NestedBaseField.ArrayedRules(f), f.validationKey.value,
                                     f.definition.ruleString.value)
                && if HasKey(groups, f.GetGroup()) then
                     && err == None
                     && fields == Put(old(fields), f.definition.name.value, f)
                     && definitions == Put(old(definitions), f.definition.name.value, Stored(f.definition))
                   else
                     && err == Some(InvalidFieldDefinition(f.definition.name.value,
                                                           "Group key " + f.GetGroup() + " not configured"))
                     && fields == old(fields) && definitions == old(definitions)
      ensures (err, Current()) == AddStep(groups, old(Current()), old(ViewOfField(f)))
      ensures ViewOfField(f) == old(ViewOfField(f))
    {
      var d := f.GetDefinition();
      err := ValidateSingleDefinition(ToEntries(d));
      FieldErrorAgrees(d);
      if err.Some? {
        return;
      }
      err := Register(f, d);
    }

    /** The part of `addField` after the definition passed its check. */
    method Register(f: BaseField, given: Definition) returns (err: Option<SchemaError>)
      requires Valid() && f.Valid() && given == f.definition
      requires given.name.Some? && given.ruleString.Some?
      modifies this`guards, this`rules, this`fields, this`definitions
      ensures Valid() && f.validationKey.Some?
      ensures forall k :: HasKey(old(definitions), k) ==> HasKey(definitions, k)
      ensures err.None? ==> HasKey(definitions, given.name.value)
      ensures guards == Guards(Guarded(old(guards.fillable), given.fillable, given.name.value),
                               Guarded(old(guards.hidden), given.hidden, given.name.value))
      ensures rules == Arranged(old(rules), NestedBaseField.ArrayedRules(f), f.validationKey.value, given.ruleString.value)
      ensures if HasKey(groups, f.GetGroup()) then
                && err == None
                && fields == Put(old(fields), given.name.value, f)
                && definitions == Put(old(definitions), given.name.value, Stored(given))
              else
                && err == Some(InvalidFieldDefinition(given.name.value, "Group key " + f.GetGroup() + " not configured"))
                && fields == old(fields) && definitions == old(definitions)
    {
      var d := given;
      var name := d.name.value;
      GuardHidden(name, d.hidden);
      if d.inputHidden == Some(true) {
        d := d.(hidden := true, inputHidden := None);
      }
      assert d == Stored(given);
      GuardFillable(name, d.fillable);
      RecordRules(f, d.ruleString.value);

      var group := f.GetGroup();
      if !HasKey(groups, group) {
        return Some(InvalidFieldDefinition(name, "Group key " + group + " not configured"));
      }
      Store(name, f, d);
      return None;
    }

    /** The hidden guard: the name is listed once when the field is hidden. */
    method GuardHidden(name: string, hidden: bool)
      requires Distinct(guards.hidden)
      modifies this`guards
      ensures guards == old(guards).(hidden := Guarded(old(guards.hidden), hidden, name))
    {
      if hidden && name !in guards.hidden {
        guards := guards.(hidden := guards.hidden + [name]);
      }
    }

    /** The fillable guard: the name is listed once when the field is fillable. */
    method GuardFillable(name: string, fillable: bool)
      requires Distinct(guards.fillable)
      modifies this`guards
      ensures guards == old(guards).(fillable := Guarded(old(guards.fillable), fillable, name))
    {
      if fillable && name !in guards.fillable {
        guards := guards.(fillable := guards.fillable + [name]);
      }
    }

    /** The field's arrayed rules, then its rule string under its validation key when it is truthy. */
    method RecordRules(f: BaseField, ruleString: string)
      requires f.validationKey.Some?
      modifies this`rules
      ensures rules == Arranged(old(rules), NestedBaseField.ArrayedRules(f), f.validationKey.value, ruleString)
    {
      var arrayed := NestedBaseField.GetRules(f);
      MergeRules(arrayed);
      if Text.Truthy(ruleString) {
        rules := rules[f.GetValidationKey() := ruleString];
      }
    }

    /** `$this->rules[$key] = $rule` for each arrayed rule of a field. */
    method MergeRules(arrayed: map<string, string>)
      modifies this`rules
      ensures rules == old(rules) + arrayed
    {
      var todo := arrayed.Keys;
      while todo != {}
        invariant todo <= arrayed.Keys
        invariant forall k :: k in rules <==> k in old(rules) || (k in arrayed && k !in todo)
        invariant forall k :: k in rules ==> rules[k] == if k in arrayed && k !in todo then arrayed[k] else old(rules)[k]
        decreases |todo|
      {
        var k :| k in todo;
        rules := rules[k := arrayed[k]];
        todo := todo - {k};
      }
    }

    /** Stores a field and its definition under its name. */
    method Store(name: string, f: BaseField, d: Definition)
      requires Valid()
      modifies this`fields, this`definitions
      ensures Valid()
      ensures fields == Put(old(fields), name, f) && definitions == Put(old(definitions), name, d)
      ensures HasKey(definitions, name)
      ensures forall k :: HasKey(old(definitions), k) ==> HasKey(definitions, k)
    {
      KeysPut(fields, name, f);
      KeysPut(definitions, name, d);
      PutDistinct(definitions, name, d);
      fields := Put(fields, name, f);
      definitions := Put(definitions, name, d);
    }

    /** The guards, rules, fields and definitions, as a value. */
    function Current(): Registry
      reads this
    {
      Registry(guards, rules, fields, definitions)
    }

    /**
     * `addFields`: adds the fields in order, stopping at the first that is
     * refused; the error and the builder are what `AddAll` gives for the
     * fields as they were passed.
     */
    method AddFields(fs: seq<BaseField>) returns (err: Option<SchemaError>)
      requires Valid() && forall i :: 0 <= i < |fs| ==> fs[i].Valid()
      modifies this, set i | 0 <= i < |fs| :: fs[i]
      ensures Valid()
      ensures groups == old(groups) && options == old(options) && modelInfo == old(modelInfo)
      ensures cacheable == old(cacheable) && cacheTTL == old(cacheTTL)
      ensures (err, Current()) == AddAll(groups, old(Current()), old(ViewsOf(fs)))
      ensures err.None? ==>
                forall i :: 0 <= i < |fs| ==> fs[i].definition.name.Some? && HasKey(definitions, fs[i].definition.name.value)
    {
      ghost var views := ViewsOf(fs);
      ghost var start := Current();
      for i := 0 to |fs|
        invariant Valid()
        invariant groups == old(groups) && options == old(options) && modelInfo == old(modelInfo)
        invariant cacheable == old(cacheable) && cacheTTL == old(cacheTTL)
        invariant forall j :: 0 <= j < |fs| ==> fs[j].Valid() && ViewOfField(fs[j]) == views[j]
        invariant AddAll(groups, Current(), views[i..]) == AddAll(groups, start, views)
        invariant forall j :: 0 <= j < i ==> fs[j].definition.name.Some? && HasKey(definitions, fs[j].definition.name.value)
      {
        label before:
        ghost var here := Current();
        err := AddField(fs[i]);
        assert views[i..][0] == views[i] && views[i..][1..] == views[i + 1..];
        forall j | 0 <= j < |fs|
          ensures fs[j].Valid() && ViewOfField(fs[j]) == views[j]
        {
          if fs[j] != fs[i] {
            assert unchanged@before(fs[j]);
          }
        }
        if err.Some? {
          return;
        }
        forall j | 0 <= j <= i
          ensures fs[j].definition.name.Some? && HasKey(definitions, fs[j].definition.name.value)
        {
          if j < i {
            assert fs[j].definition.name == old@before(fs[j].definition.name);
            assert HasKey(old@before(definitions), fs[j].definition.name.value);
          }
        }
      }
      assert views[|fs|..] == [];
      return None;
    }

    /** The field objects the builder holds. */
    function FieldObjects(): set<BaseField>
      reads this
    {
      set i | 0 <= i < |fields| :: fields[i].1
    }

    /** Each held field's current group with its stored definition, in order. */
    function Placements(): (p: seq<(string, Definition)>)
      reads this, FieldObjects()
      requires Valid()
      ensures |p| == |fields|
    {
      seq(|fields|, i requires 0 <= i < |fields| == |definitions| reads this, FieldObjects() =>
        (fields[i].1.GetGroup(), definitions[i].1))
    }

    /** What `getFullDefinition` returns: the groups with the stored definitions placed into them. */
    function FullView(): FullDefinition
      reads this, FieldObjects()
      requires Valid()
    {
      FullDefinition(modelInfo, guards, rules, PlaceAll(InitialViews(groups), Placements()), options)
    }

    /**
     * `getFullDefinition`: appends each field's definition to the group the
     * field names now (which need no longer be configured).
     */
    method GetFullDefinition() returns (full: FullDefinition)
      requires Valid()
      ensures full == FullView() && full == old(FullView())
    {
      var views := InitialViews(groups);
      for i := 0 to |fields|
        invariant views == PlaceAll(InitialViews(groups), Placements()[..i])
        invariant FullView() == old(FullView())
      {
        assert Keys(fields)[i] == Keys(definitions)[i];
        LookupAt(definitions, i);
        var d := Lookup(definitions, fields[i].0).value;
        views := Place(views, fields[i].1.GetGroup(), d);
        assert Placements()[..i + 1][..i] == Placements()[..i];
      }
      assert Placements()[..|fields|] == Placements();
      full := FullDefinition(modelInfo, guards, rules, views, options);
    }

    /** `isCachable`: caching is on only when the cache store supports tags. */
    function IsCachable(supportsTags: bool): bool
      reads this
    {
      cacheable && supportsTags
    }

    /**
     * `setCacheable`: refuses to switch caching on for a cache store without
     * tags (leaving everything as it was); otherwise stores the flag and TTL.
     */
    method SetCacheable(isCachable: bool, ttl: int, supportsTags: bool) returns (err: Option<string>)
      modifies this`cacheable, this`cacheTTL
      ensures err.Some? <==> isCachable && !supportsTags
      ensures err.Some? ==> err.value == "This cache store does not support tagging." &&
                            cacheable == old(cacheable) && cacheTTL == old(cacheTTL)
      ensures err.None? ==> cacheable == isCachable && cacheTTL == ttl && (IsCachable(supportsTags) <==> isCachable)
    {
      if isCachable && !supportsTags {
        return Some("This cache store does not support tagging.");
      }
      cacheable := isCachable;
      cacheTTL := ttl;
      return None;
    }
  }
}
