/**
 * `NestedBaseField`: a field whose value is itself a set of fields, defined
 * by a definition builder of its own. Its rules are the nested builder's
 * rules, moved under the field's validation key.
 */
module NestedBaseField {
  import opened Wrappers
  import opened Values
  import opened Definitions
  import opened FieldBase

  /** What each nested rule key is prefixed with: `parent.` or, for a repeatable field, `parent.*.`. */
  function NestedPrefix(parentName: string, repeatable: bool): (p: string)
    ensures parentName <= p
  {
    if repeatable then parentName + ".*." else parentName + "."
  }

  /** Every nested rule, its key prefixed with `prefix`. */
  function PrefixRules(rules: map<string, string>, prefix: string): map<string, string> {
    assert forall a: string :: (prefix + a)[|prefix|..] == a;
    map k | k in rules :: prefix + k := rules[k]
  }

  /**
   * A key is among the prefixed rules exactly when it is `prefix` followed
   * by a nested rule key, and it then holds that rule.
   */
  lemma PrefixRulesLookup(rules: map<string, string>, prefix: string)
    ensures forall k :: k in rules ==> prefix + k in PrefixRules(rules, prefix) &&
                                        PrefixRules(rules, prefix)[prefix + k] == rules[k]
    ensures forall k :: k in PrefixRules(rules, prefix) ==>
              prefix <= k && k[|prefix|..] in rules && PrefixRules(rules, prefix)[k] == rules[k[|prefix|..]]
  {
    assert forall a: string :: (prefix + a)[|prefix|..] == a;
  }

  /** No two nested rules land on the same key. */
  lemma PrefixRulesSize(rules: map<string, string>, prefix: string)
    ensures |PrefixRules(rules, prefix).Keys| == |rules.Keys|
  {
    var r := PrefixRules(rules, prefix);
    assert r.Keys == set k | k in rules :: prefix + k;
    InjectiveImage(rules.Keys, prefix);
  }

  lemma InjectiveImage(keys: set<string>, prefix: string)
    ensures |set k | k in keys :: prefix + k| == |keys|
    decreases |keys|
  {
    if keys != {} {
      var k :| k in keys;
      var rest := keys - {k};
      InjectiveImage(rest, prefix);
      var image := set j | j in keys :: prefix + j;
      var restImage := set j | j in rest :: prefix + j;
      assert forall a: string :: (prefix + a)[|prefix|..] == a;
      assert image == restImage + {prefix + k};
      assert prefix + k !in restImage;
    }
  }

  /** The rules `getRules` returns for a field. */
  function ArrayedRules(f: BaseField): map<string, string>
    reads f
    requires f.kind.IsNested() ==> f.validationKey.Some?
  {
    if f.kind.IsNested() then PrefixRules(f.nestedRules, NestedPrefix(f.GetValidationKey(), f.IsRepeatable()))
    else map[]
  }

  /**
   * `getRules`, dispatched on the field's class: the base class has no
   * arrayed rules; a nested field prefixes every nested rule with its
   * validation key (whose `string` return type demands that it is set).
   */
  method GetRules(f: BaseField) returns (rules: map<string, string>)
    requires f.kind.IsNested() ==> f.validationKey.Some?
    ensures !f.kind.IsNested() ==> rules == map[]
    ensures f.kind.IsNested() ==>
              rules == PrefixRules(f.nestedRules, NestedPrefix(f.GetValidationKey(), f.IsRepeatable()))
    ensures rules == ArrayedRules(f)
  {
    rules := map[];
    if !f.kind.IsNested() {
      return;
    }
    var prefix := NestedPrefix(f.GetValidationKey(), f.IsRepeatable());
    var nested := f.nestedRules;
    var todo := nested.Keys;
    while todo != {}
      invariant todo <= nested.Keys
      invariant forall j :: j in nested && j !in todo ==> prefix + j in rules && rules[prefix + j] == nested[j]
      invariant forall k :: k in rules ==>
                  prefix <= k && k[|prefix|..] in nested && k[|prefix|..] !in todo && rules[k] == nested[k[|prefix|..]]
      decreases |todo|
    {
      var k :| k in todo;
      assert (prefix + k)[|prefix|..] == k;
      rules := rules[prefix + k := nested[k]];
      todo := todo - {k};
    }
    var expected := PrefixRules(nested, prefix);
    PrefixRulesLookup(nested, prefix);
    forall k | k in expected || k in rules
      ensures k in rules && k in expected
    {
      assert k == prefix + k[|prefix|..];
    }
    assert forall k :: k in rules <==> k in expected;
  }

  /**
   * The nested fields `fields` is meant to keep: the groups, or all field
   * definitions group after group (`array_merge(...array_values($groupFields))`).
   */
  function NestedFields(nested: FullDefinition, useNestedGroups: bool): Value {
    if useNestedGroups then GroupsValue(nested.fieldGroups)
    else DefinitionList(AllGroupFields(nested.fieldGroups))
  }

  /**
   * What PHP 8 throws when `array_merge(...$groupFields)` is handed an array
   * keyed by group key: each string key becomes a named argument, and the
   * variadic built-in accepts none.
   */
  const UnknownNamedParameters: string := "array_merge() does not accept unknown named parameters"

  /**
   * The nested fields as the source computes them: with `useNestedGroups`
   * the groups; otherwise the groups' field lists are spread into
   * `array_merge`, which fails as soon as there is a group, since every
   * group is keyed by its (string) key.
   */
  function NestedFieldsAsWritten(nested: FullDefinition, useNestedGroups: bool): Result<Value> {
    if useNestedGroups then Success(GroupsValue(nested.fieldGroups))
    else if |nested.fieldGroups| == 0 then Success(DefinitionList([]))
    else Failure(UnknownNamedParameters)
  }

  /**
   * The source's flattening fails exactly when groups are not kept and there
   * is at least one group; where it succeeds it agrees with `NestedFields`.
   */
  lemma NestedFieldsAsWrittenFails(nested: FullDefinition, useNestedGroups: bool)
    ensures NestedFieldsAsWritten(nested, useNestedGroups).Failure? <==> !useNestedGroups && |nested.fieldGroups| > 0
    ensures NestedFieldsAsWritten(nested, useNestedGroups).Success? ==>
              NestedFieldsAsWritten(nested, useNestedGroups).value == NestedFields(nested, useNestedGroups)
  {
    if !useNestedGroups && |nested.fieldGroups| == 0 {
      assert AllGroupFields(nested.fieldGroups) == [];
    }
  }

  /**
   * `fields` as written: the flag and the rules are stored before the
   * flattening, so when it throws they stay written and the nested fields
   * keep their old value.
   */
  method FieldsAsWritten(f: BaseField, nested: FullDefinition, useNestedGroups: bool) returns (err: Option<string>)
    modifies f`useNestedGroups, f`nestedRules, f`nestedFields
    ensures f.useNestedGroups == useNestedGroups && f.nestedRules == nested.rules
    ensures var r := NestedFieldsAsWritten(nested, useNestedGroups);
            if r.Failure? then err == Some(r.error) && f.nestedFields == old(f.nestedFields)
            else err == None && f.nestedFields == r.value
  {
    f.useNestedGroups := useNestedGroups;
    f.nestedRules := nested.rules;
    var r := NestedFieldsAsWritten(nested, useNestedGroups);
    if r.Failure? {
      return Some(r.error);
    }
    f.nestedFields := r.value;
    err := None;
  }

  /**
   * `fields`: keeps the nested builder's rules and, as the nested fields,
   * either its groups (with their fields) or all its field definitions,
   * group after group.
   */
  method Fields(f: BaseField, nested: FullDefinition, useNestedGroups: bool)
    modifies f`useNestedGroups, f`nestedRules, f`nestedFields
    ensures f.useNestedGroups == useNestedGroups && f.nestedRules == nested.rules
    ensures f.nestedFields == NestedFields(nested, useNestedGroups)
  {
    f.useNestedGroups := useNestedGroups;
    f.nestedRules := nested.rules;
    if useNestedGroups {
      f.nestedFields := GroupsValue(nested.fieldGroups);
    } else {
      f.nestedFields := DefinitionList(AllGroupFields(nested.fieldGroups));
    }
  }
}
