/**
 * The decision logic of `BreadController`: when `index` paginates, which
 * ids `attach`/`detach` act on and how, how the model class is resolved,
 * and what `beforeModelSave`/`afterModelSave` validate and save next to the
 * model (meta rows, remote relations, media). The database, the request
 * and the validator are outside the model: their answers are parameters
 * and the changes are returned as lists of calls.
 */
module BreadController {
  import opened Wrappers
  import opened Assoc
  import opened Values
  import opened Definitions
  import Text
  import RelationBaseField
  import FieldDefinition

  // ----- index -----

  /**
   * `index` returns every row instead of a page exactly when `paginate`
   * (null when absent) is `false`, `'false'` or `'0'`, compared strictly.
   */
  predicate PaginationDisabled(paginate: Value) {
    paginate != Null && (paginate == Bool(false) || paginate == Str("false") || paginate == Str("0"))
  }

  /**
   * The comparison is strict, not PHP truthiness: of the strings, `'false'`
   * (which is truthy) and `'0'` disable pagination while `''` does not; of
   * the other values only `false` does (`0` and null do not).
   */
  lemma PaginationDisabledMeaning(paginate: Value)
    ensures paginate.Str? ==>
              (PaginationDisabled(paginate) <==> paginate.s == "false" || (!Truthy(paginate) && paginate.s != ""))
    ensures !paginate.Str? ==> (PaginationDisabled(paginate) <==> paginate.Bool? && !Truthy(paginate))
  {
  }

  // ----- attach / detach -----

  /** The outcome of a controller action: done, or an `HttpException`. */
  datatype Response<T> = Done(value: T) | HttpError(status: nat, message: string)

  /**
   * The ids to attach or detach: a truthy `related_id` alone; otherwise a
   * truthy `related_ids`, as given when it is an array, wrapped when not;
   * otherwise none. Both read as null when absent.
   */
  function RelatedIds(relatedId: Value, relatedIdsRaw: Value): (ids: seq<Value>)
    ensures Truthy(relatedId) ==> ids == [relatedId]
    ensures !Truthy(relatedId) && Truthy(relatedIdsRaw) && relatedIdsRaw.Arr? ==> ids == Assoc.Values(relatedIdsRaw.entries)
    ensures !Truthy(relatedId) && Truthy(relatedIdsRaw) && !relatedIdsRaw.Arr? ==> ids == [relatedIdsRaw]
    ensures |ids| == 0 <==> !Truthy(relatedId) && !Truthy(relatedIdsRaw)
  {
    if Truthy(relatedId) then [relatedId]
    else if Truthy(relatedIdsRaw) then
      if relatedIdsRaw.Arr? then Assoc.Values(relatedIdsRaw.entries) else [relatedIdsRaw]
    else []
  }

  /** A call on the relation `$model->{$method}()`; `SaveRelated` is the `->save()` after (dis)associating. */
  datatype RelationCall =
    | Attach(relation: string, id: Value)
    | Detach(relation: string, id: Value)
    | Associate(relation: string, id: Value)
    | Dissociate(relation: string, id: Value)
    | SaveRelated

  /** The call a `BelongsToMany` relation gets for one id, and the first call any other relation gets. */
  function FirstCall(attach: bool, info: RelationBaseField.RelationInfo, id: Value): RelationCall {
    if info.relationType == "BelongsToMany" then
      if attach then Attach(info.relationMethod, id) else Detach(info.relationMethod, id)
    else
      if attach then Associate(info.relationMethod, id) else Dissociate(info.relationMethod, id)
  }

  /** The calls for one id: a pivot change, or a (dis)association followed by a save. */
  function CallsFor(attach: bool, info: RelationBaseField.RelationInfo, id: Value): seq<RelationCall> {
    if info.relationType == "BelongsToMany" then [FirstCall(attach, info, id)]
    else [FirstCall(attach, info, id), SaveRelated]
  }

  /** The calls for all ids, in order. */
  function ChangePlan(attach: bool, info: RelationBaseField.RelationInfo, ids: seq<Value>): seq<RelationCall>
    decreases |ids|
  {
    if |ids| == 0 then []
    else ChangePlan(attach, info, ids[..|ids| - 1]) + CallsFor(attach, info, ids[|ids| - 1])
  }

  /**
   * A `BelongsToMany` relation gets exactly one attach/detach per id, in
   * order; any other relation gets, per id, the (dis)association and then
   * a save.
   */
  lemma ChangePlanShape(attach: bool, info: RelationBaseField.RelationInfo, ids: seq<Value>)
    ensures info.relationType == "BelongsToMany" ==>
              |ChangePlan(attach, info, ids)| == |ids| &&
              forall i :: 0 <= i < |ids| ==> ChangePlan(attach, info, ids)[i] == FirstCall(attach, info, ids[i])
    ensures info.relationType != "BelongsToMany" ==>
              |ChangePlan(attach, info, ids)| == 2 * |ids| &&
              forall i :: 0 <= i < |ids| ==>
                ChangePlan(attach, info, ids)[2 * i] == FirstCall(attach, info, ids[i]) &&
                ChangePlan(attach, info, ids)[2 * i + 1] == SaveRelated
  {
    if info.relationType == "BelongsToMany" {
      PivotPlanShape(attach, info, ids);
    } else {
      PairedPlanShape(attach, info, ids);
    }
  }

  lemma {:induction false} PivotPlanShape(attach: bool, info: RelationBaseField.RelationInfo, ids: seq<Value>)
    requires info.relationType == "BelongsToMany"
    ensures |ChangePlan(attach, info, ids)| == |ids|
    ensures forall i :: 0 <= i < |ids| ==> ChangePlan(attach, info, ids)[i] == FirstCall(attach, info, ids[i])
    decreases |ids|
  {
    if |ids| > 0 {
      var pre := ids[..|ids| - 1];
      PivotPlanShape(attach, info, pre);
      assert forall i :: 0 <= i < |pre| ==> pre[i] == ids[i];
    }
  }

  lemma {:induction false} PairedPlanShape(attach: bool, info: RelationBaseField.RelationInfo, ids: seq<Value>)
    requires info.relationType != "BelongsToMany"
    ensures |ChangePlan(attach, info, ids)| == 2 * |ids|
    ensures forall i :: 0 <= i < |ids| ==>
              ChangePlan(attach, info, ids)[2 * i] == FirstCall(attach, info, ids[i]) &&
              ChangePlan(attach, info, ids)[2 * i + 1] == SaveRelated
    decreases |ids|
  {
    if |ids| > 0 {
      var n := |ids| - 1;
      var pre := ids[..n];
      PairedPlanShape(attach, info, pre);
      var plan := ChangePlan(attach, info, pre);
      var last := [FirstCall(attach, info, ids[n]), SaveRelated];
      assert ChangePlan(attach, info, ids) == plan + last;
      forall i | 0 <= i < |ids|
        ensures ChangePlan(attach, info, ids)[2 * i] == FirstCall(attach, info, ids[i])
        ensures ChangePlan(attach, info, ids)[2 * i + 1] == SaveRelated
      {
        if i < n {
          assert 2 * i + 1 < |plan|;
          assert pre[i] == ids[i];
        } else {
          assert 2 * i == |plan|;
        }
      }
    }
  }

  const InsufficientPermissions: string := "Insufficient permissions"

  /**
   * `attach` (`attach == true`) and `detach` once the model is found: a
   * relation the model does not allow to change is refused with 403 before
   * anything changes; otherwise each related id is handled in turn.
   */
  method ChangeRelation(attach: bool, info: RelationBaseField.RelationInfo, allowed: string -> bool,
                        relatedId: Value, relatedIdsRaw: Value) returns (r: Response<seq<RelationCall>>)
    ensures !allowed(info.relationMethod) ==> r == HttpError(403, InsufficientPermissions)
    ensures allowed(info.relationMethod) ==> r == Done(ChangePlan(attach, info, RelatedIds(relatedId, relatedIdsRaw)))
  {
    if !allowed(info.relationMethod) {
      return HttpError(403, InsufficientPermissions);
    }
    var ids := RelatedIds(relatedId, relatedIdsRaw);
    var calls := [];
    for i := 0 to |ids|
      invariant calls == ChangePlan(attach, info, ids[..i])
    {
      assert ids[..i + 1][..i] == ids[..i];
      if info.relationType == "BelongsToMany" {
        calls := calls + [FirstCall(attach, info, ids[i])];
      } else {
        calls := calls + [FirstCall(attach, info, ids[i]), SaveRelated];
      }
    }
    assert ids[..|ids|] == ids;
    r := Done(calls);
  }

  // ----- getModelClass -----

  /**
   * The model class `getModelClass` settles on: a truthy `modelName` with a
   * backslash as it is, one without prefixed by the namespace; without a
   * truthy `modelName`, the namespace and the controller's basename less its
   * last ten characters (`Controller`).
   */
  function ResolvedModelClass(namespace: string, modelName: Option<string>, controllerClass: string): string {
    if modelName.Some? && Text.Truthy(modelName.value) then
      if '\\' in modelName.value then modelName.value else namespace + modelName.value
    else namespace + Text.DropLast(Text.ClassBasename(controllerClass), 10)
  }

  /**
   * Resolving is idempotent (the resolved name is stored back into
   * `modelName`) for a namespace that is empty or has a backslash, as the
   * shipped `\App\Models\` has.
   */
  lemma ResolvedModelClassStable(namespace: string, modelName: Option<string>, controllerClass: string)
    requires namespace == "" || '\\' in namespace
    ensures var r := ResolvedModelClass(namespace, modelName, controllerClass);
            ResolvedModelClass(namespace, Some(r), controllerClass) == r
  {
    var r := ResolvedModelClass(namespace, modelName, controllerClass);
    var given := modelName.Some? && Text.Truthy(modelName.value);
    if given && '\\' in modelName.value {
      assert r == modelName.value;
    } else if namespace != "" {
      var rest := if given then modelName.value else Text.DropLast(Text.ClassBasename(controllerClass), 10);
      assert r == namespace + rest;
      var i := Text.IndexOf(namespace, '\\');
      assert r[i] == '\\';
    } else if given {
      assert r == modelName.value;
      assert namespace + r == r;
    } else {
      assert r == Text.DropLast(Text.ClassBasename(controllerClass), 10);
      assert namespace + r == r;
    }
  }

  /**
   * Without a model name, a controller named `<Model>Controller` (in any
   * namespace) resolves to `<Model>` in the model namespace.
   */
  lemma ModelClassFromController(namespace: string, controllerNamespace: string, model: string)
    requires '\\' !in model
    ensures ResolvedModelClass(namespace, None, controllerNamespace + "\\" + model + "Controller") == namespace + model
    ensures ResolvedModelClass(namespace, None, model + "Controller") == namespace + model
  {
    var base := model + "Controller";
    assert '\\' !in base by {
      assert forall i :: 0 <= i < |base| ==> base[i] == if i < |model| then model[i] else "Controller"[i - |model|];
    }
    assert controllerNamespace + "\\" + model + "Controller" == controllerNamespace + "\\" + base;
    Text.ClassBasenameOf(controllerNamespace, base);
    assert base[..|base| - 10] == model;
  }

  /** A controller; `getModelClass` writes what it resolves back into `modelName`. */
  class Controller {
    /** The controller's own class name (`$this`). */
    const controllerClass: string
    var modelName: Option<string>

    constructor (controllerClass: string, modelName: Option<string>)
      ensures this.controllerClass == controllerClass && this.modelName == modelName
    {
      this.controllerClass := controllerClass;
      this.modelName := modelName;
    }

    /** `getModelClass`, with `bread.model_namespace` as `namespace`. */
    method GetModelClass(namespace: string) returns (name: string)
      modifies this
      ensures name == ResolvedModelClass(namespace, old(modelName), controllerClass)
      ensures modelName == Some(name)
    {
      if modelName.Some? && Text.Truthy(modelName.value) && '\\' !in modelName.value {
        modelName := Some(namespace + modelName.value);
        assert Text.Truthy(modelName.value) by {
          var m := old(modelName).value;
          assert |modelName.value| == |namespace| + |m|;
          if |namespace| == 0 {
            assert modelName.value == m;
          }
        }
      }
      if !(modelName.Some? && Text.Truthy(modelName.value)) {
        modelName := Some(namespace + Text.DropLast(Text.ClassBasename(controllerClass), 10));
      }
      name := modelName.value;
    }
  }

  // ----- meta fields -----

  /** A field's name as an array key (`$config['name']`; null reads as `''`). */
  function NameKey(config: Value): string {
    ToPhpString(Field(config, "name"))
  }

  function RuleText(config: Value): string {
    ToPhpString(Field(config, "rule_string"))
  }

  /** The entries of `$config['fields']`; `foreach` over anything that is not an array runs no iteration. */
  function SubFields(config: Value): seq<Value> {
    var fs := Field(config, "fields");
    if fs.Arr? then Assoc.Values(fs.entries) else []
  }

  /** `validateMetaFields` treats a config with no name and a `fields` list as a group. */
  predicate IsUnnamedGroup(config: Value) {
    Field(config, "name") == Null && Field(config, "fields") != Null
  }

  /** The fields `validateMetaFields` takes rules from, groups replaced by their sub-fields. */
  function ValidationFields(configs: seq<Value>): seq<Value>
    decreases |configs|
  {
    if |configs| == 0 then []
    else
      var c := configs[|configs| - 1];
      ValidationFields(configs[..|configs| - 1]) + if IsUnnamedGroup(c) then SubFields(c) else [c]
  }

  /** Name to rule string over a list of fields; a later field with the same name wins. */
  function RulesOf(fields: seq<Value>): map<string, string>
    decreases |fields|
  {
    if |fields| == 0 then map[]
    else RulesOf(fields[..|fields| - 1])[NameKey(fields[|fields| - 1]) := RuleText(fields[|fields| - 1])]
  }

  /** There is a rule for exactly the fields' names. */
  lemma {:induction false} RulesOfKeys(fields: seq<Value>)
    ensures forall k :: k in RulesOf(fields) <==> exists i :: 0 <= i < |fields| && NameKey(fields[i]) == k
    decreases |fields|
  {
    if |fields| > 0 {
      var pre := fields[..|fields| - 1];
      var last := NameKey(fields[|fields| - 1]);
      RulesOfKeys(pre);
      assert forall i :: 0 <= i < |pre| ==> pre[i] == fields[i];
      forall k | k in RulesOf(fields) ensures exists i :: 0 <= i < |fields| && NameKey(fields[i]) == k {
        if k != last {
          assert k in RulesOf(pre);
          var i :| 0 <= i < |pre| && NameKey(pre[i]) == k;
          assert NameKey(fields[i]) == k;
        } else {
          assert NameKey(fields[|fields| - 1]) == k;
        }
      }
      forall k | exists i :: 0 <= i < |fields| && NameKey(fields[i]) == k ensures k in RulesOf(fields) {
        var i :| 0 <= i < |fields| && NameKey(fields[i]) == k;
        if i < |pre| {
          assert NameKey(pre[i]) == k;
        }
      }
    }
  }

  /** A name carries the rule string of the last field with that name. */
  lemma {:induction false} RulesOfLast(fields: seq<Value>, i: nat)
    requires i < |fields| && forall j :: i < j < |fields| ==> NameKey(fields[j]) != NameKey(fields[i])
    ensures NameKey(fields[i]) in RulesOf(fields) && RulesOf(fields)[NameKey(fields[i])] == RuleText(fields[i])
    decreases |fields|
  {
    var pre := fields[..|fields| - 1];
    if i < |pre| {
      assert pre[i] == fields[i];
      assert NameKey(fields[|fields| - 1]) != NameKey(fields[i]);
      forall j | i < j < |pre| ensures NameKey(pre[j]) != NameKey(pre[i]) {
        assert pre[j] == fields[j];
      }
      RulesOfLast(pre, i);
    }
  }

  /** The meta rows of the model by key (`$existingMeta[$meta->meta_key] = ...`); none for a model not yet stored. */
  function ExistingMetaOf(modelExists: bool, rows: seq<(string, Value)>): Entries
    decreases |rows|
  {
    if !modelExists || |rows| == 0 then []
    else Put(ExistingMetaOf(modelExists, rows[..|rows| - 1]), S(rows[|rows| - 1].0), rows[|rows| - 1].1)
  }

  /** The number of integer keys, which `array_merge` numbers from 0. */
  function IntKeyCount(a: Entries): nat {
    if |a| == 0 then 0 else (if a[0].0.I? then 1 else 0) + IntKeyCount(a[1..])
  }

  /** `array_merge`'s step: a string key overwrites, an integer key appends under the next index. */
  function MergeInto(acc: Entries, b: Entries): Entries
    decreases |b|
  {
    if |b| == 0 then acc
    else
      var key := if b[0].0.S? then b[0].0 else I(IntKeyCount(acc));
      MergeInto(Put(acc, key, b[0].1), b[1..])
  }

  /** `array_merge($a, $b)` */
  function ArrayMerge(a: Entries, b: Entries): Entries {
    MergeInto(MergeInto([], a), b)
  }

  lemma {:induction false} LookupMergeInto(acc: Entries, b: Entries, k: string)
    requires DistinctKeys(b)
    ensures Lookup(MergeInto(acc, b), S(k)) == if Lookup(b, S(k)).Some? then Lookup(b, S(k)) else Lookup(acc, S(k))
    decreases |b|
  {
    if |b| > 0 {
      var key := if b[0].0.S? then b[0].0 else I(IntKeyCount(acc));
      assert Keys(b) == [b[0].0] + Keys(b[1..]);
      assert DistinctKeys(b[1..]) by {
        assert Keys(b[1..]) == Keys(b)[1..];
      }
      LookupMergeInto(Put(acc, key, b[0].1), b[1..], k);
      LookupPut(acc, key, b[0].1, S(k));
      LookupFound(b[1..], S(k));
      if b[0].0 == S(k) {
        forall j | 0 <= j < |Keys(b[1..])| ensures Keys(b[1..])[j] != S(k) {
          assert Keys(b[1..])[j] == Keys(b)[j + 1] && Keys(b)[0] == S(k);
        }
      }
    }
  }

  /** Under a string key, `array_merge` reads the second array's value when it has one and the first's otherwise. */
  lemma ArrayMergeLookup(a: Entries, b: Entries, k: string)
    requires DistinctKeys(a) && DistinctKeys(b)
    ensures Lookup(ArrayMerge(a, b), S(k)) == if Lookup(b, S(k)).Some? then Lookup(b, S(k)) else Lookup(a, S(k))
  {
    LookupMergeInto([], a, k);
    LookupMergeInto(MergeInto([], a), b, k);
  }

  lemma {:induction false} ExistingMetaDistinct(modelExists: bool, rows: seq<(string, Value)>)
    ensures DistinctKeys(ExistingMetaOf(modelExists, rows))
    decreases |rows|
  {
    if modelExists && |rows| > 0 {
      ExistingMetaDistinct(modelExists, rows[..|rows| - 1]);
      PutDistinct(ExistingMetaOf(modelExists, rows[..|rows| - 1]), S(rows[|rows| - 1].0), rows[|rows| - 1].1);
    }
  }

  /** What `validateMetaFields` validates: the stored meta overlaid by the incoming values. */
  function MetaValidationInput(modelExists: bool, rows: seq<(string, Value)>, incoming: Entries): Entries {
    ArrayMerge(ExistingMetaOf(modelExists, rows), incoming)
  }

  /** An incoming meta value wins over the stored one; a key not sent keeps its stored value. */
  lemma IncomingMetaWins(modelExists: bool, rows: seq<(string, Value)>, incoming: Entries, k: string)
    requires DistinctKeys(incoming)
    ensures Lookup(MetaValidationInput(modelExists, rows, incoming), S(k)) ==
              if Lookup(incoming, S(k)).Some? then Lookup(incoming, S(k)) else Lookup(ExistingMetaOf(modelExists, rows), S(k))
  {
    ExistingMetaDistinct(modelExists, rows);
    ArrayMergeLookup(ExistingMetaOf(modelExists, rows), incoming, k);
  }

  const ValidationFailed: string := "The given data was invalid."

  /**
   * `validateMetaFields`: collects the stored meta, overlays the incoming
   * values, takes a rule per (sub-)field and asks the validator (`passes`).
   */
  method ValidateMetaFields(modelExists: bool, rows: seq<(string, Value)>, incoming: Entries, configs: seq<Value>,
                            passes: (Entries, map<string, string>) -> bool) returns (err: Option<string>)
    ensures err == if passes(MetaValidationInput(modelExists, rows, incoming), RulesOf(ValidationFields(configs)))
                   then None else Some(ValidationFailed)
  {
    var existing := ExistingMeta(modelExists, rows);
    var input := ArrayMerge(existing, incoming);
    var rules := MetaRules(configs);
    err := if passes(input, rules) then None else Some(ValidationFailed);
  }

  /** The loop of `validateMetaFields` that indexes the stored meta rows by key. */
  method ExistingMeta(modelExists: bool, rows: seq<(string, Value)>) returns (existing: Entries)
    ensures existing == ExistingMetaOf(modelExists, rows)
  {
    existing := [];
    if modelExists {
      for i := 0 to |rows|
        invariant existing == ExistingMetaOf(modelExists, rows[..i])
      {
        assert rows[..i + 1][..i] == rows[..i];
        existing := Put(existing, S(rows[i].0), rows[i].1);
      }
      assert rows[..|rows|] == rows;
    }
  }

  /** The loops of `validateMetaFields` that collect a rule per field, a group's sub-fields in place of the group. */
  method MetaRules(configs: seq<Value>) returns (rules: map<string, string>)
    ensures rules == RulesOf(ValidationFields(configs))
  {
    rules := map[];
    for i := 0 to |configs|
      invariant rules == RulesOf(ValidationFields(configs[..i]))
    {
      var config := configs[i];
      ghost var before := ValidationFields(configs[..i]);
      ValidationFieldsSnoc(configs, i);
      if IsUnnamedGroup(config) {
        rules := AddRules(rules, before, SubFields(config));
      } else {
        AddRule(before, config);
        rules := rules[NameKey(config) := RuleText(config)];
      }
    }
    assert configs[..|configs|] == configs;
  }

  lemma ValidationFieldsSnoc(configs: seq<Value>, i: nat)
    requires i < |configs|
    ensures ValidationFields(configs[..i + 1]) ==
              ValidationFields(configs[..i]) + if IsUnnamedGroup(configs[i]) then SubFields(configs[i]) else [configs[i]]
  {
    assert configs[..i + 1][..i] == configs[..i];
  }

  /** The inner loop over a group's sub-fields. */
  method AddRules(rules0: map<string, string>, ghost fields: seq<Value>, subs: seq<Value>) returns (rules: map<string, string>)
    requires rules0 == RulesOf(fields)
    ensures rules == RulesOf(fields + subs)
  {
    rules := rules0;
    assert fields + subs[..0] == fields;
    for j := 0 to |subs|
      invariant rules == RulesOf(fields + subs[..j])
    {
      AddRule(fields + subs[..j], subs[j]);
      rules := rules[NameKey(subs[j]) := RuleText(subs[j])];
      assert fields + subs[..j + 1] == (fields + subs[..j]) + [subs[j]];
    }
    assert subs[..|subs|] == subs;
  }

  lemma AddRule(fields: seq<Value>, f: Value)
    ensures RulesOf(fields + [f]) == RulesOf(fields)[NameKey(f) := RuleText(f)]
  {
    assert (fields + [f])[..|fields|] == fields;
  }

  /** What `saveMetaFields` does to the meta relation. */
  datatype MetaCall =
    | Upsert(key: string, value: Value)
    /** `afterModelSave` on the stored meta row, with the field as its definition: its media are synced. */
    | SyncMetaMedia(key: string, files: Value, mediaType: Value, collection: Value)

  /** The fields `saveMetaFields` walks: any config with `fields` is replaced by them. */
  function SaveFields(configs: seq<Value>): seq<Value>
    decreases |configs|
  {
    if |configs| == 0 then []
    else
      var c := configs[|configs| - 1];
      SaveFields(configs[..|configs| - 1]) + if Field(c, "fields") != Null then SubFields(c) else [c]
  }

  predicate IsMedia(config: Value) {
    Field(config, "type") == Str("MEDIA")
  }

  /** The calls for one field: a field whose name was sent is upserted (a media field as null, its files synced after). */
  function MetaCallsFor(attributes: Entries, field: Value): seq<MetaCall> {
    var key := NameKey(field);
    match Lookup(attributes, S(key))
    case None => []
    case Some(v) =>
      if !IsMedia(field) then [Upsert(key, v)]
      else
        [Upsert(key, Null)] +
        (if Truthy(v) then [SyncMetaMedia(key, v, Field(Field(field, "extra_data"), "media_type"),
                                          Field(Field(field, "extra_data"), "collection"))]
         else [])
  }

  function MetaPlan(attributes: Entries, fields: seq<Value>): seq<MetaCall>
    decreases |fields|
  {
    if |fields| == 0 then []
    else MetaPlan(attributes, fields[..|fields| - 1]) + MetaCallsFor(attributes, fields[|fields| - 1])
  }

  /**
   * Only keys that were sent are upserted, each with the value sent or
   * (for a media field) null; and every field whose key was sent is upserted.
   */
  lemma {:induction false} MetaPlanUpserts(attributes: Entries, fields: seq<Value>)
    ensures forall c :: c in MetaPlan(attributes, fields) && c.Upsert? ==>
              Lookup(attributes, S(c.key)).Some? && (c.value == Null || Lookup(attributes, S(c.key)) == Some(c.value))
    ensures forall f :: f in fields && Lookup(attributes, S(NameKey(f))).Some? ==>
              Upsert(NameKey(f), if IsMedia(f) then Null else Lookup(attributes, S(NameKey(f))).value) in MetaPlan(attributes, fields)
    decreases |fields|
  {
    if |fields| > 0 {
      var pre := fields[..|fields| - 1];
      var last := fields[|fields| - 1];
      MetaPlanUpserts(attributes, pre);
      assert fields == pre + [last];
      forall f | f in fields ensures f in pre || f == last {}
    }
  }

  /**
   * `saveMetaFields`: nothing when the model does not allow changing the
   * meta relation; otherwise the groups are flattened and each field whose
   * key was sent is upserted.
   */
  method SaveMetaFields(allowed: bool, attributes: Entries, configs: seq<Value>) returns (calls: seq<MetaCall>)
    ensures calls == if allowed then MetaPlan(attributes, SaveFields(configs)) else []
  {
    if !allowed {
      return [];
    }
    var fields := FlattenSaveFields(configs);
    calls := MetaCalls(attributes, fields);
  }

  /** The first loop of `saveMetaFields`: a config with `fields` is replaced by its sub-fields. */
  method FlattenSaveFields(configs: seq<Value>) returns (fields: seq<Value>)
    ensures fields == SaveFields(configs)
  {
    fields := [];
    for i := 0 to |configs|
      invariant fields == SaveFields(configs[..i])
    {
      assert configs[..i + 1][..i] == configs[..i];
      var config := configs[i];
      if Field(config, "fields") != Null {
        fields := AppendAll(fields, SubFields(config));
      } else {
        fields := fields + [config];
      }
    }
    assert configs[..|configs|] == configs;
  }

  /** `foreach ($subs as $sub) { $fields[] = $sub; }` */
  method AppendAll(base: seq<Value>, subs: seq<Value>) returns (fields: seq<Value>)
    ensures fields == base + subs
  {
    fields := base;
    for j := 0 to |subs|
      invariant fields == base + subs[..j]
    {
      fields := fields + [subs[j]];
      assert subs[..j + 1] == subs[..j] + [subs[j]];
    }
    assert subs[..|subs|] == subs;
  }

  /** The second loop of `saveMetaFields`: the calls for each field in turn. */
  method MetaCalls(attributes: Entries, fields: seq<Value>) returns (calls: seq<MetaCall>)
    ensures calls == MetaPlan(attributes, fields)
  {
    calls := [];
    for i := 0 to |fields|
      invariant calls == MetaPlan(attributes, fields[..i])
    {
      assert fields[..i + 1][..i] == fields[..i];
      calls := calls + MetaCallsFor(attributes, fields[i]);
    }
    assert fields[..|fields|] == fields;
  }

  // ----- remote relations -----

  function AllDigits(s: string): bool {
    forall i :: 0 <= i < |s| ==> '0' <= s[i] <= '9'
  }

  /** The white space `is_numeric` allows around a number: space, tab, newline, carriage return, vertical tab, form feed. */
  predicate IsNumericSpace(c: char) {
    c == ' ' || c == '\t' || c == '\n' || c == '\r' || c == '\U{000B}' || c == '\U{000C}'
  }

  function TrimLeft(s: string): string
    decreases |s|
  {
    if |s| > 0 && IsNumericSpace(s[0]) then TrimLeft(s[1..]) else s
  }

  function TrimRight(s: string): string
    decreases |s|
  {
    if |s| > 0 && IsNumericSpace(s[|s| - 1]) then TrimRight(s[..|s| - 1]) else s
  }

  function WithoutSign(s: string): string {
    if |s| > 0 && (s[0] == '+' || s[0] == '-') then s[1..] else s
  }

  /** Digits with at most one decimal point, and at least one digit. */
  predicate DecimalNumber(s: string) {
    if '.' in s then
      var d := Text.IndexOf(s, '.');
      AllDigits(s[..d]) && AllDigits(s[d + 1..]) && |s| > 1
    else |s| > 0 && AllDigits(s)
  }

  /** The position of the first `e` or `E`, or the length when there is none. */
  function ExponentAt(s: string): (i: nat)
    ensures i <= |s| && (i < |s| ==> s[i] == 'e' || s[i] == 'E')
    ensures forall j :: 0 <= j < i ==> s[j] != 'e' && s[j] != 'E'
  {
    if |s| == 0 || s[0] == 'e' || s[0] == 'E' then 0 else 1 + ExponentAt(s[1..])
  }

  /**
   * `is_numeric` on a string (PHP 8): optional white space, an optional
   * sign, a decimal number, an optional exponent (`e` or `E`, an optional
   * sign, digits), optional white space.
   */
  predicate NumericString(s: string) {
    var t := WithoutSign(TrimRight(TrimLeft(s)));
    var x := ExponentAt(t);
    DecimalNumber(t[..x]) && (x == |t| || (|WithoutSign(t[x + 1..])| > 0 && AllDigits(WithoutSign(t[x + 1..]))))
  }

  /** `is_numeric` on the values the model has: integers and numeric strings. */
  predicate IsNumeric(v: Value) {
    v.Int? || (v.Str? && NumericString(v.s))
  }

  /** What `syncRelations` syncs a relation to: an array as given, a number wrapped in a list, else nothing. */
  function RelationValues(v: Value): (r: Value)
    ensures r.Arr?
    ensures v.Arr? ==> r == v
    ensures !v.Arr? ==> r == if IsNumeric(v) then List([v]) else Arr([])
  {
    if v.Arr? then v else if IsNumeric(v) then List([v]) else Arr([])
  }

  /** Trailing white space is dropped whether or not there is leading white space. */
  lemma {:induction false} TrimSnoc(s: string, c: char)
    requires IsNumericSpace(c)
    ensures TrimRight(TrimLeft(s + [c])) == TrimRight(TrimLeft(s))
    decreases |s|
  {
    if |s| == 0 {
      assert TrimLeft([c]) == TrimLeft([]);
    } else if IsNumericSpace(s[0]) {
      assert (s + [c])[1..] == s[1..] + [c];
      TrimSnoc(s[1..], c);
    } else {
      assert (s + [c])[..|s|] == s;
    }
  }

  /** White space around a number does not matter to `is_numeric`: `' 12'` and `'12 '` are wrapped like `'12'`. */
  lemma NumericIgnoresSpace(s: string)
    ensures NumericString(" " + s) <==> NumericString(s)
    ensures NumericString(s + " ") <==> NumericString(s)
  {
    assert (" " + s)[1..] == s;
    TrimSnoc(s, ' ');
  }

  /** A string of digits has no decimal point, exponent, sign or white space. */
  lemma DigitsPlain(digits: string)
    requires |digits| > 0 && AllDigits(digits)
    ensures '.' !in digits && ExponentAt(digits) == |digits|
    ensures TrimLeft(digits) == digits && TrimRight(digits) == digits && WithoutSign(digits) == digits
  {
    assert forall j :: 0 <= j < |digits| ==> digits[j] != 'e' && digits[j] != 'E' && digits[j] != '.';
  }

  /** A string of digits is numeric, and is wrapped in a list. */
  lemma DigitsNumeric(digits: string)
    requires |digits| > 0 && AllDigits(digits)
    ensures NumericString(digits)
    ensures RelationValues(Str(digits)) == List([Str(digits)])
  {
    DigitsPlain(digits);
    assert digits[..|digits|] == digits;
  }

  /** Digits with a digit exponent (`'1e3'`) are numeric too. */
  lemma DigitsExponentNumeric(digits: string)
    requires |digits| > 0 && AllDigits(digits)
    ensures NumericString(digits + "e" + digits)
  {
    DigitsPlain(digits);
    var e := digits + "e" + digits;
    assert TrimLeft(e) == e && TrimRight(e) == e by {
      assert e[0] == digits[0] && e[|e| - 1] == digits[|digits| - 1];
    }
    assert WithoutSign(e) == e by {
      assert e[0] == digits[0];
    }
    assert ExponentAt(e) == |digits| by {
      assert e[|digits|] == 'e';
      assert forall j :: 0 <= j < |digits| ==> e[j] == digits[j];
    }
    assert e[..|digits|] == digits && e[|digits| + 1..] == digits;
  }

  /** The relation a relation field syncs (`extra_data.relation`). */
  function RelationOf(d: Definition): string {
    ToPhpString(At(d.extraData, "relation"))
  }

  function FieldKey(d: Definition): string {
    d.name.GetOr("")
  }

  /** The syncs for the remote relation fields, in order: each field whose name was sent and whose relation may change. */
  function SyncPlan(fields: FlatDefinition, attributes: Entries, allowed: string -> bool): seq<(string, Value)>
    decreases |fields|
  {
    if |fields| == 0 then []
    else
      var d := fields[|fields| - 1].1;
      SyncPlan(fields[..|fields| - 1], attributes, allowed) +
        if HasKey(attributes, S(FieldKey(d))) && allowed(RelationOf(d)) then [(RelationOf(d), RelationValues(At(attributes, FieldKey(d))))]
        else []
  }

  /** A relation is synced exactly when a field of it was sent and it may change, and it is synced to what was sent. */
  lemma {:induction false} SyncPlanMeaning(fields: FlatDefinition, attributes: Entries, allowed: string -> bool)
    ensures forall p :: p in fields && HasKey(attributes, S(FieldKey(p.1))) && allowed(RelationOf(p.1)) ==>
              (RelationOf(p.1), RelationValues(At(attributes, FieldKey(p.1)))) in SyncPlan(fields, attributes, allowed)
    ensures forall s :: s in SyncPlan(fields, attributes, allowed) ==>
              (allowed(s.0) &&
               exists p :: p in fields && RelationOf(p.1) == s.0 && HasKey(attributes, S(FieldKey(p.1))) &&
                           s.1 == RelationValues(At(attributes, FieldKey(p.1))))
    decreases |fields|
  {
    if |fields| > 0 {
      var pre := fields[..|fields| - 1];
      SyncPlanMeaning(pre, attributes, allowed);
      assert fields == pre + [fields[|fields| - 1]];
      forall p | p in fields ensures p in pre || p == fields[|fields| - 1] {}
      forall p | p in pre ensures p in fields {}
    }
  }

  /** `syncRelations` over the model's flat definition. */
  method SyncRelations(flat: FlatDefinition, attributes: Entries, allowed: string -> bool) returns (syncs: seq<(string, Value)>)
    ensures syncs == SyncPlan(FieldDefinition.RemoteRelationFields(flat), attributes, allowed)
  {
    var fields := FieldDefinition.RemoteRelationFields(flat);
    syncs := [];
    for i := 0 to |fields|
      invariant syncs == SyncPlan(fields[..i], attributes, allowed)
    {
      assert fields[..i + 1][..i] == fields[..i];
      var d := fields[i].1;
      if HasKey(attributes, S(FieldKey(d))) {
        if allowed(RelationOf(d)) {
          syncs := syncs + [(RelationOf(d), RelationValues(At(attributes, FieldKey(d))))];
        }
      }
    }
    assert fields[..|fields|] == fields;
  }

  // ----- beforeModelSave / afterModelSave -----

  /** The field was sent and is not empty (`isset(...) && !empty(...)`). */
  predicate Sent(attributes: Entries, field: Value) {
    Truthy(At(attributes, NameKey(field)))
  }

  /** A meta field that was sent and says which relation holds its rows and which sub-fields it has. */
  predicate IsMetaToSave(attributes: Entries, field: Value) {
    && Field(field, "type") == Str("META") && Sent(attributes, field)
    && Field(Field(field, "extra_data"), "fields") != Null
    && Field(Field(field, "extra_data"), "relation") != Null
  }

  predicate IsMediaToSync(attributes: Entries, field: Value) {
    IsMedia(field) && Sent(attributes, field)
  }

  /** What `afterModelSave` does, step by step. */
  datatype AfterSaveStep =
    | SaveMeta(relation: Value, values: Value, configs: Value)
    | SyncRelationsStep
    | SyncMedia(files: Value, mediaType: Value, collection: Value)

  /** The meta fields handled before (validated) and after (saved) the save, in definition order. */
  function MetaSteps(definition: seq<Value>, attributes: Entries): seq<AfterSaveStep>
    decreases |definition|
  {
    if |definition| == 0 then []
    else
      var f := definition[|definition| - 1];
      MetaSteps(definition[..|definition| - 1], attributes) +
        if IsMetaToSave(attributes, f) then
          [SaveMeta(Field(Field(f, "extra_data"), "relation"), At(attributes, NameKey(f)), Field(Field(f, "extra_data"), "fields"))]
        else []
  }

  function MediaSteps(definition: seq<Value>, attributes: Entries): seq<AfterSaveStep>
    decreases |definition|
  {
    if |definition| == 0 then []
    else
      var f := definition[|definition| - 1];
      MediaSteps(definition[..|definition| - 1], attributes) +
        if IsMediaToSync(attributes, f) then
          [SyncMedia(At(attributes, NameKey(f)), Field(Field(f, "extra_data"), "media_type"), Field(Field(f, "extra_data"), "collection"))]
        else []
  }

  lemma {:induction false} MetaStepsAreMeta(definition: seq<Value>, attributes: Entries)
    ensures forall s :: s in MetaSteps(definition, attributes) ==> s.SaveMeta?
    ensures |MetaSteps(definition, attributes)| <= |definition|
    decreases |definition|
  {
    if |definition| > 0 {
      MetaStepsAreMeta(definition[..|definition| - 1], attributes);
    }
  }

  lemma {:induction false} MediaStepsAreMedia(definition: seq<Value>, attributes: Entries)
    ensures forall s :: s in MediaSteps(definition, attributes) ==> s.SyncMedia?
    decreases |definition|
  {
    if |definition| > 0 {
      MediaStepsAreMedia(definition[..|definition| - 1], attributes);
    }
  }

  /**
   * `afterModelSave`: first every meta field, then the relation sync, then
   * every media field; `definition` is the one passed in, or the model's
   * flat definition when none is.
   */
  method AfterModelSave(definition: seq<Value>, attributes: Entries) returns (steps: seq<AfterSaveStep>)
    ensures steps == MetaSteps(definition, attributes) + [SyncRelationsStep] + MediaSteps(definition, attributes)
    ensures forall i, j :: 0 <= i < j < |steps| ==>
              (steps[j].SaveMeta? ==> steps[i].SaveMeta?) && (steps[i].SyncMedia? ==> steps[j].SyncMedia?)
  {
    var meta: seq<AfterSaveStep> := [];
    for i := 0 to |definition|
      invariant meta == MetaSteps(definition[..i], attributes)
    {
      assert definition[..i + 1][..i] == definition[..i];
      var f := definition[i];
      if IsMetaToSave(attributes, f) {
        meta := meta + [SaveMeta(Field(Field(f, "extra_data"), "relation"), At(attributes, NameKey(f)), Field(Field(f, "extra_data"), "fields"))];
      }
    }
    var media: seq<AfterSaveStep> := [];
    for i := 0 to |definition|
      invariant media == MediaSteps(definition[..i], attributes)
    {
      assert definition[..i + 1][..i] == definition[..i];
      var f := definition[i];
      if IsMediaToSync(attributes, f) {
        media := media + [SyncMedia(At(attributes, NameKey(f)), Field(Field(f, "extra_data"), "media_type"), Field(Field(f, "extra_data"), "collection"))];
      }
    }
    assert definition[..|definition|] == definition;
    MetaStepsAreMeta(definition, attributes);
    MediaStepsAreMedia(definition, attributes);
    steps := meta + [SyncRelationsStep] + media;
    forall k | 0 <= k < |steps| ensures (steps[k].SaveMeta? <==> k < |meta|) && (steps[k].SyncMedia? <==> k > |meta|) {
      if k < |meta| {
        assert steps[k] == meta[k] && meta[k] in meta;
      } else if k > |meta| {
        assert steps[k] == media[k - |meta| - 1] && media[k - |meta| - 1] in media;
      }
    }
  }

  /**
   * The `TypeError` message for a typed parameter of `validateMetaFields`
   * given a value it refuses, from the method name on: PHP puts the
   * controller's class name and `::` before it, and the given type and the
   * calling line after it.
   */
  function ArgumentTypeError(position: string, name: string, typ: string): string {
    "validateMetaFields(): Argument #" + position + " ($" + name + ") must be of type " + typ
  }

  /**
   * The `TypeError` the call of `validateMetaFields` throws before its body
   * runs: the relation must be a `string` (a scalar is coerced, an array or
   * null is not), the sent value and the sub-field configuration arrays.
   */
  function MetaArgumentError(step: AfterSaveStep): Option<string>
    requires step.SaveMeta?
  {
    if step.relation.Arr? || step.relation.Null? then Some(ArgumentTypeError("2", "relation", "string"))
    else if !step.values.Arr? then Some(ArgumentTypeError("3", "attributes", "array"))
    else if !step.configs.Arr? then Some(ArgumentTypeError("4", "fieldsConfig", "array"))
    else None
  }

  /** What calling `validateMetaFields` for one meta step throws: a `TypeError`, or the validator's `ValidationException`. */
  function MetaCheck(step: AfterSaveStep, validate: AfterSaveStep -> Option<string>): Option<string>
    requires step.SaveMeta?
  {
    if MetaArgumentError(step).Some? then MetaArgumentError(step) else validate(step)
  }

  /**
   * A meta value that is not an array (a string, say) throws the `TypeError`
   * for argument 3, whatever the validator would have said; when every
   * argument has its declared type, the validator alone decides.
   */
  lemma MetaCheckTypes(step: AfterSaveStep, validate: AfterSaveStep -> Option<string>)
    requires step.SaveMeta?
    ensures (step.relation.Str? || step.relation.Int? || step.relation.Bool?) && !step.values.Arr? ==>
              MetaCheck(step, validate) == Some(ArgumentTypeError("3", "attributes", "array"))
    ensures !step.relation.Arr? && !step.relation.Null? && step.values.Arr? && step.configs.Arr? ==>
              MetaCheck(step, validate) == validate(step)
  {
  }

  /**
   * `beforeModelSave`: the meta fields `afterModelSave` will save are
   * validated first, in the same order; the first that throws, whether with
   * a `TypeError` or a `ValidationException`, stops the save. `validate` is
   * the validator's verdict inside `validateMetaFields` for one of them.
   */
  method BeforeModelSave(definition: seq<Value>, attributes: Entries, validate: AfterSaveStep -> Option<string>)
    returns (err: Option<string>, checked: seq<AfterSaveStep>)
    ensures checked <= MetaSteps(definition, attributes)
    ensures forall s :: s in checked ==> s.SaveMeta?
    ensures err.None? ==> checked == MetaSteps(definition, attributes) && forall s :: s in checked ==> MetaCheck(s, validate).None?
    ensures err.Some? ==>
              (&& |checked| > 0 && err == MetaCheck(checked[|checked| - 1], validate)
               && forall i :: 0 <= i < |checked| - 1 ==> MetaCheck(checked[i], validate).None?)
  {
    err := None;
    checked := [];
    var i := 0;
    while i < |definition|
      invariant 0 <= i <= |definition|
      invariant checked == MetaSteps(definition[..i], attributes)
      invariant forall s :: s in checked ==> s.SaveMeta? && MetaCheck(s, validate).None?
      invariant err.None?
    {
      assert definition[..i + 1][..i] == definition[..i];
      var f := definition[i];
      if IsMetaToSave(attributes, f) {
        var step := SaveMeta(Field(Field(f, "extra_data"), "relation"), At(attributes, NameKey(f)), Field(Field(f, "extra_data"), "fields"));
        var prefix := checked;
        checked := checked + [step];
        err := MetaCheck(step, validate);
        if err.Some? {
          MetaStepsPrefix(definition, i + 1, attributes);
          assert forall j :: 0 <= j < |checked| - 1 ==> checked[j] == prefix[j] && prefix[j] in prefix;
          return;
        }
      }
      i := i + 1;
    }
    assert definition[..|definition|] == definition;
  }

  /** The meta steps of a prefix of the definition are a prefix of its meta steps. */
  lemma {:induction false} MetaStepsPrefix(definition: seq<Value>, n: nat, attributes: Entries)
    requires n <= |definition|
    ensures MetaSteps(definition[..n], attributes) <= MetaSteps(definition, attributes)
    decreases |definition| - n
  {
    if n < |definition| {
      MetaStepsPrefix(definition, n + 1, attributes);
      assert definition[..n + 1][..n] == definition[..n];
    } else {
      assert definition[..n] == definition;
    }
  }
}
