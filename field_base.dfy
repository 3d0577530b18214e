/**
 * `BaseField`: the state every field of a model definition carries and the
 * fluent setters that change it. The PHP subclasses are told apart by `kind`;
 * each subclass file is a module of its own that creates a field of its kind
 * and adds its own setters.
 */
module FieldBase {
  import opened Wrappers
  import opened Assoc
  import opened Values
  import Text
  import BreadConfig
  import opened Definitions

  /** The concrete field classes of the package. */
  datatype Kind =
    | TextInput | TextArea | Select | Checkbox | Radio | BoolInput | PasswordConfirm | Password
    | FileUpload | ImageUpload | Json | RepeatableJson | Meta | Date | DateTime | Time
    | IntInput | FloatInput | Email | Tel | Wysiwyg | HasMany | ManyToMany | HasOne | HasManySelect
  {
    /** The classes that extend `NestedBaseField`. */
    predicate IsNested() {
      this == Json || this == RepeatableJson || this == Meta
    }

    /** The classes that extend `RelationBaseField`. */
    predicate IsRelation() {
      this == HasMany || this == ManyToMany || this == HasOne || this == HasManySelect
    }
  }

  /** The string every rule token is joined into: `implode('|', [$requiredRule, ...$validationRules])`. */
  function RuleString(requiredRule: string, rules: seq<string>): (s: string)
    ensures requiredRule <= s
    ensures (forall t :: t in [requiredRule] + rules ==> '|' !in t) ==>
              Text.Split(s, '|') == [requiredRule] + rules
  {
    var tokens := [requiredRule] + rules;
    Text.JoinHead(requiredRule, rules, "|");
    if forall t :: t in tokens ==> '|' !in t then
      Text.SplitJoin(tokens, '|');
      Text.Join("|", tokens)
    else
      Text.Join("|", tokens)
  }

  class BaseField {
    const kind: Kind
    var definition: Definition
    var requiredRule: string
    var validationKey: Option<string>
    var validationRules: seq<string>
    var group: Option<string>
    /** `NestedBaseField` state; only the nested kinds change it. */
    var nestedRules: map<string, string>
    var nestedFields: Value
    var useNestedGroups: bool

    /** Once a field is named it has a validation key. */
    ghost predicate Valid()
      reads this
    {
      definition.name.Some? ==> validationKey.Some?
    }

    /** `NestedBaseField::$isRepeatable`, true only for `RepeatableJsonField`. */
    predicate IsRepeatable() {
      kind == RepeatableJson
    }

    /** The base constructor together with the base `setDefaultDefinition`. */
    constructor (kind: Kind)
      ensures Valid() && this.kind == kind
      ensures definition == DefaultDefinition()
      ensures requiredRule == "nullable" && validationKey == None && validationRules == [] && group == None
      ensures nestedRules == map[] && nestedFields == Arr([]) && !useNestedGroups
    {
      this.kind := kind;
      definition := DefaultDefinition();
      requiredRule := "nullable";
      validationKey := None;
      validationRules := [];
      group := None;
      nestedRules := map[];
      nestedFields := Arr([]);
      useNestedGroups := false;
    }

    /** The validation key is set and truthy (`if (!$this->validationKey)` fails). */
    predicate HasValidationKey()
      reads this
    {
      validationKey.Some? && Text.Truthy(validationKey.value)
    }

    /** `getRuleString` */
    function GetRuleString(): string
      reads this
    {
      RuleString(requiredRule, validationRules)
    }

    /** `getValidationKey`; its return type is `string`, so it is only defined once the key is set. */
    function GetValidationKey(): string
      reads this
      requires validationKey.Some?
    {
      validationKey.value
    }

    /** `getGroup`: the field's group, or the configured default group. */
    function GetGroup(): string
      reads this
    {
      group.GetOr(BreadConfig.DefaultFieldGroup)
    }

    /** What `getDefinition` returns: the definition with the current rule string under `rule_string`. */
    function DefinitionView(): Definition
      reads this
    {
      definition.(ruleString := Some(GetRuleString()))
    }

    /**
     * `name`: stores the name and, when no truthy validation key is set yet,
     * makes the name the validation key. `CheckboxField` overrides it so that
     * its key validates every checked value (`name.*`).
     */
    method Name(n: string)
      modifies this`definition, this`validationKey
      ensures Valid()
      ensures definition == old(definition).(name := Some(n))
      ensures validationKey ==
                if old(HasValidationKey()) then old(validationKey)
                else if kind == Checkbox then Some(n + ".*")
                else Some(n)
    {
      var had := HasValidationKey();
      definition := definition.(name := Some(n));
      if !had {
        SetValidationKey(n);
      }
      if kind == Checkbox && !had {
        SetValidationKey(n + ".*");
      }
    }

    /** `label` */
    method Label(l: string)
      modifies this`definition
      ensures definition == old(definition).(labelText := Some(l))
    {
      definition := definition.(labelText := Some(l));
    }

    /** `showLabel` */
    method ShowLabel(show: bool)
      modifies this`definition
      ensures definition == old(definition).(showLabel := show)
    {
      definition := definition.(showLabel := show);
    }

    /** `description` */
    method Description(d: string)
      modifies this`definition
      ensures definition == old(definition).(description := Some(d))
    {
      definition := definition.(description := Some(d));
    }

    /** `placeholder` */
    method Placeholder(p: string)
      modifies this`definition
      ensures definition == old(definition).(placeholder := Some(p))
    {
      definition := definition.(placeholder := Some(p));
    }

    /** `defaultValue` */
    method DefaultValue(v: Value)
      modifies this`definition
      ensures definition == old(definition).(default := v)
    {
      definition := definition.(default := v);
    }

    /** `required`: the flag, and the required rule (`required`/`nullable` unless one is given). */
    method Required(required: bool, rule: Option<string>)
      modifies this`definition, this`requiredRule
      ensures definition == old(definition).(required := required)
      ensures requiredRule == if rule.Some? then rule.value else if required then "required" else "nullable"
    {
      definition := definition.(required := required);
      requiredRule := if rule.Some? then rule.value else if required then "required" else "nullable";
    }

    /** `setValidation`: replaces the rule tokens. */
    method SetValidation(rules: seq<string>)
      modifies this`validationRules
      ensures validationRules == rules
    {
      validationRules := rules;
    }

    /** `addValidation`: appends one rule token. */
    method AddValidation(rule: string)
      modifies this`validationRules
      ensures validationRules == old(validationRules) + [rule]
    {
      validationRules := validationRules + [rule];
    }

    /** `setValidationKey` */
    method SetValidationKey(key: string)
      modifies this`validationKey
      ensures Valid()
      ensures validationKey == Some(key)
    {
      validationKey := Some(key);
    }

    /** `fillable` */
    method Fillable(fillable: bool)
      modifies this`definition
      ensures definition == old(definition).(fillable := fillable)
    {
      definition := definition.(fillable := fillable);
    }

    /** `hidden` */
    method Hidden(hidden: bool)
      modifies this`definition
      ensures definition == old(definition).(hidden := hidden)
    {
      definition := definition.(hidden := hidden);
    }

    /** `inputHidden`: left out of every form; the builder turns it into `hidden`. */
    method InputHidden(hidden: bool)
      modifies this`definition
      ensures definition == old(definition).(inputHidden := Some(hidden))
    {
      definition := definition.(inputHidden := Some(hidden));
    }

    /** `type` */
    method Type(t: string)
      modifies this`definition
      ensures definition == old(definition).(typ := Some(t))
    {
      definition := definition.(typ := Some(t));
    }

    /** `inputType` */
    method InputType(t: string)
      modifies this`definition
      ensures definition == old(definition).(inputType := Some(t))
    {
      definition := definition.(inputType := Some(t));
    }

    /**
     * `addExtraData`: merges `data` into `extra_data` recursively. Every key of
     * `data` then reads the merged value; every other key reads as before.
     */
    method AddExtraData(data: Entries)
      modifies this`definition
      ensures definition == old(definition).(extraData := ReplaceRecursive(old(definition.extraData), data))
      ensures DistinctKeys(data) ==>
                forall k :: Lookup(definition.extraData, k) == MergedLookup(old(definition.extraData), data, k)
    {
      var merged := ReplaceRecursive(definition.extraData, data);
      if DistinctKeys(data) {
        forall k ensures Lookup(merged, k) == MergedLookup(definition.extraData, data, k) {
          ReplaceRecursiveLookup(definition.extraData, data, k);
        }
      }
      definition := definition.(extraData := merged);
    }

    /** `addExtraData([$k => $v])`, the form every subclass setter uses. */
    method AddExtraEntry(k: string, v: Value)
      modifies this`definition
      ensures ExtraWritten(this, k, v)
    {
      ghost var before := definition.extraData;
      var data := [(S(k), v)];
      assert DistinctKeys(data);
      AddExtraData(data);
      forall j ensures Lookup(definition.extraData, j) ==
                         if j == S(k) then Some(Merged(Lookup(before, S(k)), v)) else Lookup(before, j) {
        assert Lookup(data, j) == if j == S(k) then Some(v) else Lookup(data[1..], j);
        assert data[1..] == [];
      }
    }

    /** Overwrites one extra-data key outright instead of merging into it. */
    method ReplaceExtraEntry(k: string, v: Value)
      modifies this`definition
      ensures definition == old(definition).(extraData := Set(old(definition.extraData), k, v))
      ensures Get(definition.extraData, k) == Some(v)
    {
      LookupPut(definition.extraData, S(k), v, S(k));
      definition := definition.(extraData := Set(definition.extraData, k, v));
    }

    /** The constructor's `if ($name) { $this->name($name); }`, which runs before any name is set. */
    method NameIfGiven(name: Option<string>)
      requires validationKey == None && definition.name == None
      modifies this`definition, this`validationKey
      ensures Valid() && NamedAs(this, name)
      ensures definition == Named(old(definition), name)
    {
      if GivenName(name) {
        Name(name.value);
      }
    }

    /** `group` */
    method Group(g: string)
      modifies this`group
      ensures group == Some(g)
    {
      group := Some(g);
    }

    /** `hiddenOn`: the views (e.g. `view`) the field is left out of. */
    method HiddenOn(views: Entries)
      modifies this`definition
      ensures definition == old(definition).(hiddenOn := views)
    {
      definition := definition.(hiddenOn := views);
    }

    /** `getDefinition`: stores the current rule string in the definition and returns it. */
    method GetDefinition() returns (d: Definition)
      modifies this`definition
      ensures definition == old(DefinitionView()) && d == definition
      ensures d.ruleString == Some(GetRuleString())
    {
      definition := definition.(ruleString := Some(GetRuleString()));
      d := definition;
    }
  }

  /** A name given to a constructor is used only when it is truthy (`if ($name)`). */
  predicate GivenName(name: Option<string>) {
    name.Some? && Text.Truthy(name.value)
  }

  /** What a freshly constructed field's name and validation key are. */
  ghost predicate NamedAs(f: BaseField, name: Option<string>)
    reads f
  {
    if GivenName(name) then
      f.definition.name == name &&
      f.validationKey == Some(if f.kind == Checkbox then name.value + ".*" else name.value)
    else
      f.definition.name == None && f.validationKey == None
  }

  /** A fresh field's definition once the name given to the constructor (if truthy) is stored. */
  function Named(d: Definition, name: Option<string>): Definition {
    d.(name := if GivenName(name) then name else None)
  }

  /**
   * `addExtraData([$k => $v])` was the only change to `f`'s definition: `$k`
   * now reads `$v` (merged key by key when both old and new are arrays) and
   * every other extra-data key reads as before.
   */
  twostate predicate ExtraWritten(f: BaseField, k: string, v: Value)
    reads f
  {
    && f.definition == old(f.definition).(extraData := ReplaceRecursive(old(f.definition.extraData), [(S(k), v)]))
    && forall j :: Lookup(f.definition.extraData, j) ==
         if j == S(k) then Some(Merged(Lookup(old(f.definition.extraData), S(k)), v))
         else Lookup(old(f.definition.extraData), j)
  }
}
