/**
 * The `FieldDefinition` trait: a model compiles its field definition once
 * (from the tagged cache when possible, otherwise by running its `define`
 * hook on a fresh builder) and installs it, merging the definition's guards
 * and rules into its own.
 */
module FieldDefinition {
  import opened Wrappers
  import opened Assoc
  import opened Values
  import opened Definitions
  import DefinitionBuilder
  import Text

  /** The cache tag every compiled definition is stored under. */
  const CacheTag: string := "bread.model_definitions"

  /** What the cache holds for a model: `['definition' => ..., 'flatDefinition' => ...]`; `None` is an empty definition. */
  datatype CachedDefinition = CachedDefinition(definition: Option<FullDefinition>, flatDefinition: FlatDefinition)

  /** A cache entry is used only when both of its parts are non-empty. */
  predicate Usable(entry: CachedDefinition) {
    entry.definition.Some? && |entry.flatDefinition| > 0
  }

  /** The cache store, with the entries under the definitions tag. */
  class DefinitionCache {
    const supportsTags: bool
    var entries: map<string, CachedDefinition>

    constructor (supportsTags: bool)
      ensures this.supportsTags == supportsTags && entries == map[]
    {
      this.supportsTags := supportsTags;
      entries := map[];
    }

    /** `Cache::tags([...])->put($key, $value, $ttl)` */
    method Put(key: string, value: CachedDefinition)
      modifies this`entries
      ensures entries == old(entries)[key := value]
    {
      entries := entries[key := value];
    }
  }

  /** The static `$isCompilingDefinition` flag, shared by every model class. */
  class Compiler {
    var isCompiling: bool

    constructor ()
      ensures !isCompiling
    {
      isCompiling := false;
    }
  }

  /** What `setFieldDefinition` installs for an empty definition. */
  function Skeleton(): FullDefinition {
    FullDefinition(ModelInfo(None, None), Guards([], []), map[], [], [])
  }

  /**
   * `setFieldGuards` on one guard list: every name not yet listed is
   * appended, in order (a strict `in_array` check before each append).
   */
  function MergedGuard(existing: seq<string>, names: seq<string>): seq<string>
    decreases |names|
  {
    if |names| == 0 then existing
    else
      var acc := MergedGuard(existing, names[..|names| - 1]);
      var n := names[|names| - 1];
      if n in acc then acc else acc + [n]
  }

  /** Merging keeps the existing names first and in order, adds exactly the new names, and never duplicates one. */
  lemma {:induction false} MergedGuardMeaning(existing: seq<string>, names: seq<string>)
    ensures existing <= MergedGuard(existing, names)
    ensures forall n :: n in MergedGuard(existing, names) <==> n in existing || n in names
    ensures Distinct(existing) ==> Distinct(MergedGuard(existing, names))
    decreases |names|
  {
    if |names| > 0 {
      var pre := names[..|names| - 1];
      MergedGuardMeaning(existing, pre);
      assert names == pre + [names[|names| - 1]];
    }
  }

  /** Merging in the same names a second time changes nothing. */
  lemma {:induction false} MergedGuardIdempotent(existing: seq<string>, names: seq<string>)
    ensures MergedGuard(MergedGuard(existing, names), names) == MergedGuard(existing, names)
  {
    var once := MergedGuard(existing, names);
    MergedGuardMeaning(existing, names);
    MergedGuardAllListed(once, names);
  }

  /** Names that are all listed already leave the list as it is. */
  lemma {:induction false} MergedGuardAllListed(existing: seq<string>, names: seq<string>)
    requires forall n :: n in names ==> n in existing
    ensures MergedGuard(existing, names) == existing
    decreases |names|
  {
    if |names| > 0 {
      var pre := names[..|names| - 1];
      assert forall n :: n in pre ==> n in names;
      MergedGuardAllListed(existing, pre);
      assert names[|names| - 1] in names;
    }
  }

  /**
   * `array_replace($definitionRules, $modelRules)`: the keys of both, with the
   * model's own rule winning where both have one.
   */
  function LayeredRules(definitionRules: map<string, string>, modelRules: map<string, string>): (r: map<string, string>)
    ensures forall k :: k in r <==> k in definitionRules || k in modelRules
    ensures forall k :: k in modelRules ==> r[k] == modelRules[k]
    ensures forall k :: k in definitionRules && k !in modelRules ==> r[k] == definitionRules[k]
  {
    definitionRules + modelRules
  }

  /** `in_array($field['type'], ['HASMANY', 'MANYTOMANY'])` */
  predicate IsRemoteRelation(d: Definition) {
    d.typ == Some("HASMANY") || d.typ == Some("MANYTOMANY")
  }

  /** `getRemoteRelationFields`: the flat entries of has-many and many-to-many fields, order and names kept. */
  function RemoteRelationFields(flat: FlatDefinition): (r: FlatDefinition)
    ensures |r| <= |flat|
    ensures forall p :: p in r <==> p in flat && IsRemoteRelation(p.1)
  {
    if |flat| == 0 then []
    else
      var rest := RemoteRelationFields(flat[1..]);
      assert forall p :: p in flat <==> p == flat[0] || p in flat[1..];
      if IsRemoteRelation(flat[0].1) then [flat[0]] + rest else rest
  }

  /** `getFieldDefaults()`: each flat field's `default` under its name. */
  function FieldDefaults(flat: FlatDefinition): (r: Entries)
    ensures |r| == |flat|
    ensures forall i :: 0 <= i < |flat| ==> r[i] == (S(flat[i].0), flat[i].1.default)
  {
    seq(|flat|, i requires 0 <= i < |flat| => (S(flat[i].0), flat[i].1.default))
  }

  /** The `TypeError` the `?array` return type of `getFieldDefaults` raises for a scalar default. */
  const DefaultReturnTypeError: string := "getFieldDefaults(): Return value must be of type ?array"

  /**
   * `getFieldDefaults($fieldName)` on an installed flat definition: all the
   * defaults when the name is falsy (null, `''` or `'0'`); otherwise that
   * field's default, or null for a name that is not defined. A default that
   * is neither an array nor null does not pass the `?array` return type.
   */
  function FieldDefault(flat: FlatDefinition, fieldName: Option<string>): (r: Result<Value>)
    ensures fieldName.None? || !Text.Truthy(fieldName.value) ==> r == Success(Arr(FieldDefaults(flat)))
    ensures fieldName.Some? && Text.Truthy(fieldName.value) && !HasKey(flat, fieldName.value) ==> r == Success(Null)
    ensures fieldName.Some? && Text.Truthy(fieldName.value) && HasKey(flat, fieldName.value) ==>
              && Lookup(flat, fieldName.value).Some?
              && var d := Lookup(flat, fieldName.value).value.default;
                 r == if d.Arr? || d.Null? then Success(d) else Failure(DefaultReturnTypeError)
  {
    if fieldName.None? || !Text.Truthy(fieldName.value) then Success(Arr(FieldDefaults(flat)))
    else
      LookupFound(flat, fieldName.value);
      match Lookup(flat, fieldName.value)
      case None => Success(Null)
      case Some(d) => if d.default.Arr? || d.default.Null? then Success(d.default) else Failure(DefaultReturnTypeError)
  }

  /**
   * The two forms agree: every defined name reads its default in the map of
   * all defaults, and a single-name call that returns gives that entry (null
   * for a name that is not defined).
   */
  lemma {:induction false} FieldDefaultsAgree(flat: FlatDefinition, fieldName: string)
    ensures Lookup(FieldDefaults(flat), S(fieldName)).Some? <==> HasKey(flat, fieldName)
    ensures Lookup(FieldDefaults(flat), S(fieldName)) ==
              match Lookup(flat, fieldName) case Some(d) => Some(d.default) case None => None
    ensures Text.Truthy(fieldName) && FieldDefault(flat, Some(fieldName)).Success? ==>
              FieldDefault(flat, Some(fieldName)).value == Lookup(FieldDefaults(flat), S(fieldName)).GetOr(Null)
    decreases |flat|
  {
    LookupFound(flat, fieldName);
    if |flat| > 0 {
      var rest := flat[1..];
      assert FieldDefaults(flat)[1..] == FieldDefaults(rest);
      assert Keys(flat) == [flat[0].0] + Keys(rest);
      FieldDefaultsAgree(rest, fieldName);
      LookupFound(rest, fieldName);
    }
  }

  /** How `compileDefinition` ended. */
  datatype CompileOutcome =
    | Skipped     // already being compiled, or already defined
    | FromCache   // a usable cache entry was installed
    | Compiled    // the `define` hook's builder was compiled and installed

  /** The parts of an Eloquent model that the trait reads and writes. */
  class DefinedModel {
    const className: string
    var fillable: seq<string>
    var hidden: seq<string>
    var rules: map<string, string>
    var definition: Option<FullDefinition>
    var flatFieldDefinition: FlatDefinition
    /** The raw attributes (`getAttributes` / `setRawAttributes`). */
    var attributes: Entries

    /** A model instance with its own guards, rules and attributes and no definition yet. */
    constructor (className: string, fillable: seq<string>, hidden: seq<string>, rules: map<string, string>, attributes: Entries)
      ensures this.className == className && this.fillable == fillable && this.hidden == hidden
      ensures this.rules == rules && definition == None && flatFieldDefinition == []
      ensures this.attributes == attributes
    {
      this.attributes := attributes;
      this.className := className;
      this.fillable := fillable;
      this.hidden := hidden;
      this.rules := rules;
      definition := None;
      flatFieldDefinition := [];
    }

    /** `isDefined`: both the definition and the flat definition are non-empty. */
    predicate IsDefined()
      reads this
    {
      definition.Some? && |flatFieldDefinition| > 0
    }

    /** `getDefinitionCacheKey`: the lower-cased class basename. */
    function CacheKey(): string {
      Text.AsciiLower(Text.ClassBasename(className))
    }

    /** `getCachedDefinition`: the entry under the model's key, when tags are supported and the entry is usable. */
    function CachedFor(cache: DefinitionCache): (r: Option<CachedDefinition>)
      reads cache
      ensures r.Some? ==> Usable(r.value) && CacheKey() in cache.entries && r.value == cache.entries[CacheKey()]
      ensures r.None? <==> !cache.supportsTags || CacheKey() !in cache.entries || !Usable(cache.entries[CacheKey()])
    {
      var key := CacheKey();
      if cache.supportsTags && key in cache.entries && Usable(cache.entries[key]) then Some(cache.entries[key])
      else None
    }

    /** What `setFieldDefinition($definition, $flat)` leaves behind. */
    twostate predicate Installed(def: Option<FullDefinition>, flat: FlatDefinition)
      reads this
    {
      var d := def.GetOr(Skeleton());
      && fillable == MergedGuard(old(fillable), d.guards.fillable)
      && hidden == MergedGuard(old(hidden), d.guards.hidden)
      && rules == LayeredRules(d.rules, old(rules))
      && flatFieldDefinition == flat
      && definition == Some(d)
    }

    /** `setFieldGuards`: merges each guard list of the definition into the model's. */
    method SetFieldGuards(guards: Guards)
      modifies this`fillable, this`hidden
      ensures fillable == MergedGuard(old(fillable), guards.fillable)
      ensures hidden == MergedGuard(old(hidden), guards.hidden)
    {
      fillable := AppendMissing(fillable, guards.fillable);
      hidden := AppendMissing(hidden, guards.hidden);
    }

    /** `setFieldRules`: the definition's rules under the model's own. */
    method SetFieldRules(definitionRules: map<string, string>)
      modifies this`rules
      ensures rules == LayeredRules(definitionRules, old(rules))
    {
      if |definitionRules| > 0 {
        rules := LayeredRules(definitionRules, rules);
      } else {
        assert LayeredRules(definitionRules, rules) == rules;
      }
    }

    /** `setFieldDefinition`: an empty definition becomes the skeleton; guards and rules are merged, then both parts stored. */
    method SetFieldDefinition(def: Option<FullDefinition>, flat: FlatDefinition)
      modifies this
      ensures Installed(def, flat) && attributes == old(attributes)
      ensures IsDefined() <==> |flat| > 0
    {
      var d := def.GetOr(Skeleton());
      SetFieldGuards(d.guards);
      SetFieldRules(d.rules);
      flatFieldDefinition := flat;
      definition := Some(d);
    }

    /** The definition state (guards, rules, both definitions) is as it was. */
    twostate predicate DefinitionKept()
      reads this
    {
      && fillable == old(fillable) && hidden == old(hidden) && rules == old(rules)
      && definition == old(definition) && flatFieldDefinition == old(flatFieldDefinition)
    }

    /**
     * What `compileDefinition()` (without `force`) leaves of the definition
     * state, given the builder's full and flat definitions and whether it is
     * cachable: nothing changes while a definition is being compiled or once
     * one is installed; a usable cache entry is installed as it is;
     * otherwise the builder's definition is cached when cachable, and
     * installed.
     */
    twostate predicate DefinitionCompiledLazily(compiler: Compiler, cache: DefinitionCache, full: FullDefinition,
                                                flat: FlatDefinition, cachable: bool)
      reads this, compiler, cache
    {
      && (old(compiler.isCompiling) || old(IsDefined()) ==> DefinitionKept() && unchanged(compiler, cache))
      && (!old(compiler.isCompiling) && !old(IsDefined()) && old(CachedFor(cache)).Some? ==>
            && unchanged(compiler, cache)
            && Installed(old(CachedFor(cache)).value.definition, old(CachedFor(cache)).value.flatDefinition)
            && IsDefined())
      && (!old(compiler.isCompiling) && !old(IsDefined()) && old(CachedFor(cache)).None? ==>
            && !compiler.isCompiling
            && cache.entries == (if cachable then old(cache.entries)[CacheKey() := CachedDefinition(Some(full), flat)]
                                 else old(cache.entries))
            && Installed(Some(full), flat))
    }

    /** `compileDefinition()` without `force`, which leaves the attributes alone. */
    twostate predicate CompiledLazily(compiler: Compiler, cache: DefinitionCache, full: FullDefinition,
                                      flat: FlatDefinition, cachable: bool)
      reads this, compiler, cache
    {
      attributes == old(attributes) && DefinitionCompiledLazily(compiler, cache, full, flat, cachable)
    }

    /**
     * `compileDefinition($force)`. Without `force`, nothing happens while a
     * definition is being compiled or once one is installed, and a usable
     * cache entry is installed as it is. Otherwise the builder the `define`
     * hook returned (`defined`) is compiled, stored in the cache when it is
     * cachable, and installed.
     */
    method CompileDefinition(force: bool, compiler: Compiler, cache: DefinitionCache, defined: DefinitionBuilder.Builder)
      returns (outcome: CompileOutcome)
      requires defined.Valid()
      modifies this, compiler, cache
      ensures attributes == old(attributes)
      ensures !force && (old(compiler.isCompiling) || old(IsDefined())) ==>
                outcome == Skipped && unchanged(this, compiler, cache)
      ensures !force && !old(compiler.isCompiling) && !old(IsDefined()) && old(CachedFor(cache)).Some? ==>
                var entry := old(CachedFor(cache)).value;
                outcome == FromCache && unchanged(compiler, cache) &&
                Installed(entry.definition, entry.flatDefinition) && IsDefined()
      ensures (force || (!old(compiler.isCompiling) && !old(IsDefined()) && old(CachedFor(cache)).None?)) ==>
                var full := old(defined.FullView());
                var flat := old(defined.definitions);
                && outcome == Compiled && !compiler.isCompiling
                && cache.entries == (if old(defined.IsCachable(cache.supportsTags))
                                     then old(cache.entries)[CacheKey() := CachedDefinition(Some(full), flat)]
                                     else old(cache.entries))
                && Installed(Some(full), flat)
      ensures !force ==> CompiledLazily(compiler, cache, old(defined.FullView()), old(defined.definitions),
                                        old(defined.IsCachable(cache.supportsTags)))
    {
      ghost var view := defined.FullView();
      if !force && (compiler.isCompiling || IsDefined()) {
        return Skipped;
      }
      if !force {
        var cached := CachedFor(cache);
        if cached.Some? {
          SetFieldDefinition(cached.value.definition, cached.value.flatDefinition);
          return FromCache;
        }
      }
      compiler.isCompiling := true;
      // The `define` hook runs here; `defined` is the builder it returned.
      compiler.isCompiling := false;
      assert defined.FieldObjects() == old(defined.FieldObjects());
      assert defined.Placements() == old(defined.Placements());
      assert defined.FullView() == view;
      var full := defined.GetFullDefinition();
      assert full == view;
      var flat := defined.definitions;
      if defined.IsCachable(cache.supportsTags) {
        cache.Put(CacheKey(), CachedDefinition(Some(full), flat));
      }
      SetFieldDefinition(Some(full), flat);
      outcome := Compiled;
    }

    /** `getFieldDefinition`: compiles first unless the model is already defined. */
    method GetFieldDefinition(compiler: Compiler, cache: DefinitionCache, defined: DefinitionBuilder.Builder)
      returns (def: Option<FullDefinition>)
      requires defined.Valid()
      modifies this, compiler, cache
      ensures def == definition && attributes == old(attributes)
      ensures old(IsDefined()) ==> unchanged(this, compiler, cache)
      ensures CompiledLazily(compiler, cache, old(defined.FullView()), old(defined.definitions),
                             old(defined.IsCachable(cache.supportsTags)))
    {
      if !IsDefined() {
        var _ := CompileDefinition(false, compiler, cache, defined);
      }
      def := definition;
    }

    /** `getFlatFieldDefinition`: compiles first when the flat definition is empty. */
    method GetFlatFieldDefinition(compiler: Compiler, cache: DefinitionCache, defined: DefinitionBuilder.Builder)
      returns (flat: FlatDefinition)
      requires defined.Valid()
      modifies this, compiler, cache
      ensures flat == flatFieldDefinition && attributes == old(attributes)
      ensures |old(flatFieldDefinition)| > 0 ==> unchanged(this, compiler, cache)
      ensures |old(flatFieldDefinition)| == 0 ==>
                CompiledLazily(compiler, cache, old(defined.FullView()), old(defined.definitions),
                               old(defined.IsCachable(cache.supportsTags)))
    {
      if |flatFieldDefinition| == 0 {
        var _ := CompileDefinition(false, compiler, cache, defined);
      }
      flat := flatFieldDefinition;
    }

    /** `getFieldDefaults($fieldName)`: compiles first when the flat definition is empty, then reads the defaults. */
    method GetFieldDefaults(fieldName: Option<string>, compiler: Compiler, cache: DefinitionCache,
                            defined: DefinitionBuilder.Builder) returns (r: Result<Value>)
      requires defined.Valid()
      modifies this, compiler, cache
      ensures r == FieldDefault(flatFieldDefinition, fieldName) && attributes == old(attributes)
      ensures |old(flatFieldDefinition)| > 0 ==> unchanged(this, compiler, cache)
      ensures |old(flatFieldDefinition)| == 0 ==>
                CompiledLazily(compiler, cache, old(defined.FullView()), old(defined.definitions),
                               old(defined.IsCachable(cache.supportsTags)))
    {
      var flat := GetFlatFieldDefinition(compiler, cache, defined);
      r := FieldDefault(flat, fieldName);
    }
  }

  /** `AppendMissing` is the loop of `setFieldGuards` over one guard type. */
  method AppendMissing(existing: seq<string>, names: seq<string>) returns (r: seq<string>)
    ensures r == MergedGuard(existing, names)
  {
    r := existing;
    for i := 0 to |names|
      invariant r == MergedGuard(existing, names[..i])
    {
      assert names[..i + 1][..i] == names[..i];
      if names[i] !in r {
        r := r + [names[i]];
      }
    }
    assert names[..|names|] == names;
  }
}
