/**
 * `HasOneField`: a search input that picks the one related model. Its
 * display setters are shared, word for word, with `HasManySelectField` and
 * are modelled here once.
 */
module HasOneField {
  import opened Wrappers
  import opened Assoc
  import opened Values
  import opened Definitions
  import opened FieldBase
  import opened RelationBaseField

  /** The extra data a search-select field starts with; only `multiple` differs between the two classes. */
  function SearchExtra(multiple: bool): Entries {
    [(S("multiple"), Bool(multiple)), (S("prefetch"), Bool(false)), (S("search_field"), Str("title")),
     (S("display_field"), Str("title")), (S("extra_display_field"), Bool(false)),
     (S("display_field_labels"), Bool(false))]
  }

  /**
   * The defaults of a search-select field: input `model-search`, one extra
   * rule token, not fillable, the placeholder `Lang::get('actions.search')`
   * followed by two dots, and the search extra data; then the name.
   */
  method CreateSearch(kind: Kind, typ: string, rule: string, multiple: bool, searchLabel: string, name: Option<string>)
    returns (f: BaseField)
    ensures fresh(f) && f.kind == kind && f.Valid() && NamedAs(f, name)
    ensures f.definition == Named(DefaultDefinition().(typ := Some(typ), inputType := Some("model-search"),
              fillable := false, placeholder := Some(searchLabel + ".."), extraData := SearchExtra(multiple)), name)
    ensures f.requiredRule == "nullable" && f.validationRules == [rule] && f.group == None
  {
    f := new BaseField(kind);
    f.Type(typ);
    f.InputType("model-search");
    f.AddValidation(rule);
    f.Fillable(false);
    f.Placeholder(searchLabel + "..");
    var extra := SearchExtra(multiple);
    assert Keys(extra) == [S("multiple"), S("prefetch"), S("search_field"), S("display_field"),
                           S("extra_display_field"), S("display_field_labels")];
    ReplaceIntoEmpty(extra);
    f.AddExtraData(extra);
    f.NameIfGiven(name);
  }

  /** `new HasOneField($name)`: type `HASONE`, rule `numeric`, a single choice. */
  method Create(searchLabel: string, name: Option<string>) returns (f: BaseField)
    ensures fresh(f) && f.kind == HasOne && f.Valid() && NamedAs(f, name)
    ensures f.definition == Named(DefaultDefinition().(typ := Some("HASONE"), inputType := Some("model-search"),
              fillable := false, placeholder := Some(searchLabel + ".."), extraData := SearchExtra(false)), name)
    ensures f.requiredRule == "nullable" && f.validationRules == ["numeric"] && f.group == None
  {
    f := CreateSearch(HasOne, "HASONE", "numeric", false, searchLabel, name);
  }

  /** The message of the `InvalidArgumentException` for a relation without a foreign key. */
  function NotHasOneMessage(relation: string): string {
    "Relationship " + relation + " must implement be of type HasOne"
  }

  /** The `TypeError` PHP 8 raises when `method_exists` is given null. */
  const NullObjectMessage: string := "method_exists(): Argument #1 ($object_or_class) must be of type object|string, null given"

  /**
   * `HasOneField::relation` as written. For a field without a truthy name it
   * reads `$model->{$method}` as a property, which loads the related model
   * (`relatedLoaded`), or null when there is none, instead of the relation
   * object. An Eloquent model has no `getQualifiedForeignKeyName`, so the
   * field is refused as not a `HasOne`; null makes `method_exists` throw.
   * Either way, an unnamed field is never named. A named field is handled
   * as in `Relation`.
   */
  method RelationAsWritten(f: BaseField, relation: string, model: ModelRef, infl: Inflector, relatedLoaded: bool)
    returns (err: Option<string>)
    requires f.kind == HasOne
    modifies f`definition, f`validationKey
    ensures old(f.Valid()) ==> f.Valid()
    ensures model.relationType.None? ==>
              err == Some(MissingTraitMessage(model.className)) && unchanged(f)
    ensures model.relationType.Some? && !GivenName(old(f.definition.name)) ==>
              err == Some(if relatedLoaded then NotHasOneMessage(relation) else NullObjectMessage) && unchanged(f)
    ensures model.relationType.Some? && GivenName(old(f.definition.name)) ==>
              var info := model.relationType.value(relation);
              && err.None? && f.validationKey == old(f.validationKey)
              && f.definition == old(f.definition).(extraData := f.definition.extraData)
              && RelationMerged(f, info, infl)
  {
    if model.relationType.None? {
      return Some(MissingTraitMessage(model.className));
    }
    var info := model.relationType.value(relation);
    if !GivenName(f.definition.name) {
      return Some(if relatedLoaded then NotHasOneMessage(relation) else NullObjectMessage);
    }
    RelationExtraMerged(f.definition.extraData, info, infl);
    AddRelationExtra(f, info, infl);
    err := None;
  }

  /**
   * `HasOneField::relation` as intended, calling `$model->{$method}()` for
   * the relation object: fails for a model without `getRelationType`; a
   * field without a truthy name is named after the relation's qualified
   * foreign key, and fails when the relation has none; a named field keeps
   * its name and validation key. Then the relation data is merged in.
   */
  method Relation(f: BaseField, relation: string, model: ModelRef, infl: Inflector) returns (err: Option<string>)
    requires f.kind == HasOne
    modifies f`definition, f`validationKey
    ensures old(f.Valid()) ==> f.Valid()
    ensures model.relationType.None? ==>
              err == Some(MissingTraitMessage(model.className)) && unchanged(f)
    ensures model.relationType.Some? && !GivenName(old(f.definition.name)) ==>
              var info := model.relationType.value(relation);
              match model.foreignKey(info.relationMethod)
              case None => err == Some(NotHasOneMessage(relation)) && unchanged(f)
              case Some(key) => err.None? && f.Valid() && RelationApplied(f, key, info, infl)
    ensures model.relationType.Some? && GivenName(old(f.definition.name)) ==>
              var info := model.relationType.value(relation);
              && err.None? && f.validationKey == old(f.validationKey)
              && f.definition == old(f.definition).(extraData := f.definition.extraData)
              && RelationMerged(f, info, infl)
  {
    if model.relationType.None? {
      return Some(MissingTraitMessage(model.className));
    }
    var info := model.relationType.value(relation);
    if !GivenName(f.definition.name) {
      var key := model.foreignKey(info.relationMethod);
      if key.None? {
        return Some(NotHasOneMessage(relation));
      }
      f.Name(key.value);
    }
    RelationExtraMerged(f.definition.extraData, info, infl);
    AddRelationExtra(f, info, infl);
    err := None;
  }

  /**
   * `searchField` as written: the display field is stored into a misspelt
   * `$date` that is never used, so only `search_field` changes.
   */
  method SearchFieldAsWritten(f: BaseField, fieldName: string, setDisplayField: bool)
    modifies f`definition
    ensures ExtraWritten(f, "search_field", Str(fieldName))
  {
    f.AddExtraEntry("search_field", Str(fieldName));
  }

  /** The data `searchField` is meant to merge: the search field, and the display field when asked. */
  function SearchData(fieldName: string, setDisplayField: bool): Entries {
    [(S("search_field"), Str(fieldName))] + if setDisplayField then [(S("display_field"), Str(fieldName))] else []
  }

  /**
   * `searchField` as intended: the field searched on and, unless told
   * otherwise, also the field shown; every other key stays.
   */
  method SearchField(f: BaseField, fieldName: string, setDisplayField: bool)
    modifies f`definition
    ensures f.definition == old(f.definition).(extraData := ReplaceRecursive(old(f.definition.extraData), SearchData(fieldName, setDisplayField)))
    ensures Get(f.definition.extraData, "search_field") == Some(Str(fieldName))
    ensures Get(f.definition.extraData, "display_field") ==
              if setDisplayField then Some(Str(fieldName)) else Get(old(f.definition.extraData), "display_field")
    ensures forall k :: k != "search_field" && k != "display_field" ==>
              Get(f.definition.extraData, k) == Get(old(f.definition.extraData), k)
  {
    var data := SearchData(fieldName, setDisplayField);
    assert data[1..] == if setDisplayField then [(S("display_field"), Str(fieldName))] else [];
    assert DistinctKeys(data) by {
      assert Keys(data) == if setDisplayField then [S("search_field"), S("display_field")] else [S("search_field")];
    }
    f.AddExtraData(data);
    forall k | k != "search_field" ensures Lookup(data, S(k)) == Lookup(data[1..], S(k)) {}
    if setDisplayField {
      assert data[1..][1..] == [];
      forall k | k != "search_field" && k != "display_field" ensures Lookup(data[1..], S(k)) == None {
        assert Lookup(data[1..], S(k)) == Lookup(data[1..][1..], S(k));
      }
    }
  }

  /**
   * On a fresh field, `searchField('name')` as written still shows `title`:
   * the display field keeps its default.
   */
  lemma SearchFieldAsWrittenKeepsDisplay(multiple: bool, fieldName: string)
    requires fieldName != "title"
    ensures var extra := ReplaceRecursive(SearchExtra(multiple), [(S("search_field"), Str(fieldName))]);
      Get(extra, "display_field") == Some(Str("title")) != Some(Str(fieldName))
  {
    var data := [(S("search_field"), Str(fieldName))];
    ReplaceRecursiveLookup(SearchExtra(multiple), data, S("display_field"));
    assert Lookup(data, S("display_field")) == None by {
      assert data[1..] == [];
    }
    var e := SearchExtra(multiple);
    assert Lookup(e, S("display_field")) == Lookup(e[1..], S("display_field"))
        == Lookup(e[1..][1..], S("display_field")) == Lookup(e[1..][1..][1..], S("display_field"))
        == Some(Str("title"));
  }

  /** `displayField`: the related model's field shown as the choice. */
  method DisplayField(f: BaseField, fieldName: string)
    modifies f`definition
    ensures ExtraWritten(f, "display_field", Str(fieldName))
  {
    f.AddExtraEntry("display_field", Str(fieldName));
  }

  /** `prefetch`: whether the choices are loaded before anything is typed. */
  method Prefetch(f: BaseField, shouldPrefetch: bool)
    modifies f`definition
    ensures ExtraWritten(f, "prefetch", Bool(shouldPrefetch))
  {
    f.AddExtraEntry("prefetch", Bool(shouldPrefetch));
  }

  /** `extraDisplayField`: a second field shown next to each choice. */
  method ExtraDisplayField(f: BaseField, fieldName: string)
    modifies f`definition
    ensures ExtraWritten(f, "extra_display_field", Str(fieldName))
  {
    f.AddExtraEntry("extra_display_field", Str(fieldName));
  }

  /** `displayFieldLabels`: field key to label, for the front end. */
  method DisplayFieldLabels(f: BaseField, labels: Entries)
    modifies f`definition
    ensures ExtraWritten(f, "display_field_labels", Arr(labels))
  {
    f.AddExtraEntry("display_field_labels", Arr(labels));
  }
}
