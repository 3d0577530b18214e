/**
 * `RelationBaseField`: the fields that show a relation of the model. Its
 * `relation` setter names the field after the relation and tells the front
 * end which model the relation leads to and where to fetch it.
 */
module RelationBaseField {
  import opened Wrappers
  import opened Assoc
  import opened Values
  import opened Definitions
  import opened FieldBase
  import Text

  /** What `getRelationType` reports: the relation method, the related model's basename and the relation's class basename. */
  datatype RelationInfo = RelationInfo(relationMethod: string, model: string, relationType: string)

  /**
   * The model handed to `relation`: its class; its `getRelationType`, present
   * only when the class uses the `FieldDefinition` trait; and, per relation
   * method, the qualified foreign key when the relation object that
   * `$model->{$method}()` returns has `getQualifiedForeignKeyName`.
   */
  datatype ModelRef = ModelRef(
    className: string,
    relationType: Option<string -> RelationInfo>,
    foreignKey: string -> Option<string>)

  /** Laravel's `Str::snake`, `Str::kebab` and `Str::plural`, taken as given. */
  datatype Inflector = Inflector(snake: string -> string, kebab: string -> string, plural: string -> string)

  /** The message of the `InvalidArgumentException` for a model without `getRelationType`. */
  function MissingTraitMessage(className: string): string {
    "Model " + Text.ClassBasename(className) + " must implement getRelationType (use FieldDefinition trait)"
  }

  /** `Str::lower(Str::plural(Str::kebab($model)))` */
  function DefaultEndpoint(model: string, infl: Inflector): string {
    Text.AsciiLower(infl.plural(infl.kebab(model)))
  }

  /** The data `relation` merges into `extra_data`. */
  function RelationExtra(info: RelationInfo, infl: Inflector): Entries {
    [(S("relation"), Str(info.relationMethod)), (S("related_to"), Str(info.model)),
     (S("endpoint"), Str(DefaultEndpoint(info.model, infl)))]
  }

  /** The extra-data keys `relation` writes. */
  predicate IsRelationKey(k: string) {
    k == "relation" || k == "related_to" || k == "endpoint"
  }

  /**
   * After the relation data is merged in, the three keys hold plain strings
   * (whatever they held before, an earlier `endpoint` included) and every
   * other key holds what it held.
   */
  lemma RelationExtraMerged(base: Entries, info: RelationInfo, infl: Inflector)
    ensures var merged := ReplaceRecursive(base, RelationExtra(info, infl));
      && Get(merged, "relation") == Some(Str(info.relationMethod))
      && Get(merged, "related_to") == Some(Str(info.model))
      && Get(merged, "endpoint") == Some(Str(DefaultEndpoint(info.model, infl)))
      && forall k :: !IsRelationKey(k) ==> Get(merged, k) == Get(base, k)
  {
    var extra := RelationExtra(info, infl);
    assert Keys(extra) == [S("relation"), S("related_to"), S("endpoint")];
    var tail := extra[1..];
    assert tail[1..] == [extra[2]] && tail[1..][1..] == [];
    forall k ensures Lookup(ReplaceRecursive(base, extra), S(k)) == MergedLookup(base, extra, S(k)) {
      ReplaceRecursiveLookup(base, extra, S(k));
    }
    forall k | k != "relation" ensures Lookup(extra, S(k)) == Lookup(tail, S(k)) {}
    forall k | k != "relation" && k != "related_to" ensures Lookup(tail, S(k)) == Lookup(tail[1..], S(k)) {}
    forall k | !IsRelationKey(k) ensures Lookup(tail[1..], S(k)) == None {
      assert Lookup(tail[1..], S(k)) == Lookup(tail[1..][1..], S(k));
    }
  }

  /** The name `relation` gives the field: the current name if truthy, else the snake-cased relation method. */
  function RelationFieldName(current: Option<string>, info: RelationInfo, infl: Inflector): string {
    if GivenName(current) then current.value else infl.snake(info.relationMethod)
  }

  /** The relation data was merged into the extra data, with what `RelationExtraMerged` says that means. */
  twostate predicate RelationMerged(f: BaseField, info: RelationInfo, infl: Inflector)
    reads f
  {
    && f.definition.extraData == ReplaceRecursive(old(f.definition.extraData), RelationExtra(info, infl))
    && Get(f.definition.extraData, "relation") == Some(Str(info.relationMethod))
    && Get(f.definition.extraData, "related_to") == Some(Str(info.model))
    && Get(f.definition.extraData, "endpoint") == Some(Str(DefaultEndpoint(info.model, infl)))
    && forall k :: !IsRelationKey(k) ==> Get(f.definition.extraData, k) == Get(old(f.definition.extraData), k)
  }

  /**
   * The state after `name($name)` and the merge of the relation data: nothing
   * else of the field changed.
   */
  twostate predicate RelationApplied(f: BaseField, name: string, info: RelationInfo, infl: Inflector)
    reads f
  {
    && f.definition == old(f.definition).(name := Some(name), extraData := f.definition.extraData)
    && f.validationKey == (if old(f.HasValidationKey()) then old(f.validationKey) else Some(name))
    && RelationMerged(f, info, infl)
  }

  /** Merges the relation data into the field's extra data. */
  method AddRelationExtra(f: BaseField, info: RelationInfo, infl: Inflector)
    modifies f`definition
    ensures f.definition == old(f.definition).(extraData := ReplaceRecursive(old(f.definition.extraData), RelationExtra(info, infl)))
  {
    f.definition := f.definition.(extraData := ReplaceRecursive(f.definition.extraData, RelationExtra(info, infl)));
  }

  /**
   * `relation`: fails for a model without `getRelationType`; otherwise keeps
   * a truthy name (or takes the snake-cased relation method), runs `name`
   * with it and records the relation, the related model and its endpoint.
   */
  method Relation(f: BaseField, relation: string, model: ModelRef, infl: Inflector) returns (err: Option<string>)
    requires f.kind.IsRelation()
    modifies f`definition, f`validationKey
    ensures model.relationType.None? ==>
              err == Some(MissingTraitMessage(model.className)) && unchanged(f)
    ensures model.relationType.Some? ==>
              var info := model.relationType.value(relation);
              err.None? && f.Valid() &&
              RelationApplied(f, RelationFieldName(old(f.definition.name), info, infl), info, infl)
  {
    if model.relationType.None? {
      return Some(MissingTraitMessage(model.className));
    }
    var info := model.relationType.value(relation);
    f.Name(RelationFieldName(f.definition.name, info, infl));
    RelationExtraMerged(f.definition.extraData, info, infl);
    AddRelationExtra(f, info, infl);
    err := None;
  }

  /** `endpoint`: where the front end fetches the related models from. */
  method Endpoint(f: BaseField, endpoint: string)
    modifies f`definition
    ensures ExtraWritten(f, "endpoint", Str(endpoint))
  {
    f.AddExtraEntry("endpoint", Str(endpoint));
  }
}
