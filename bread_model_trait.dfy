/**
 * The `BreadModelTrait`: what a model does with its attributes on the way
 * to the database. The saving hook compiles the definition when needed,
 * validates, and rewrites the attributes (JSON fields encoded, ENUM
 * arrays joined); media entries are dispatched to the media calls.
 */
module BreadModelTrait {
  import opened Wrappers
  import opened Assoc
  import opened Values
  import opened Definitions
  import opened Strings
  import FieldDefinition
  import DefinitionBuilder
  import Text

  // ----- rule selection (`validate`) -----

  /** A rule is validated when the part of its key before the first dot is an attribute key or a fillable name. */
  predicate KeepsRule(ruleKey: string, attributes: Entries, fillable: seq<string>) {
    var top := Text.TopKey(ruleKey);
    S(top) in Keys(attributes) || top in fillable
  }

  /** The rules `validate` hands to the validator. */
  function SelectedRules(rules: map<string, string>, attributes: Entries, fillable: seq<string>): (r: map<string, string>)
    ensures forall k :: k in r <==> k in rules && KeepsRule(k, attributes, fillable)
    ensures forall k :: k in r ==> r[k] == rules[k]
  {
    map k | k in rules && KeepsRule(k, attributes, fillable) :: rules[k]
  }

  /**
   * The rules a nested field contributes (`parent.k`, `parent.*.k`) are
   * validated whenever the parent attribute is present or fillable.
   */
  lemma NestedRuleSelected(rules: map<string, string>, attributes: Entries, fillable: seq<string>, parent: string, rest: string)
    requires '.' !in parent && parent + "." + rest in rules
    requires S(parent) in Keys(attributes) || parent in fillable
    ensures parent + "." + rest in SelectedRules(rules, attributes, fillable)
  {
    Text.TopKeyBelow(parent, rest);
  }

  /** A rule whose top-level key is neither an attribute nor fillable is never validated. */
  lemma UnrelatedRuleDropped(rules: map<string, string>, attributes: Entries, fillable: seq<string>, key: string)
    requires S(Text.TopKey(key)) !in Keys(attributes) && Text.TopKey(key) !in fillable
    ensures key !in SelectedRules(rules, attributes, fillable)
  {
  }

  // ----- attribute transformation -----

  /** `$val !== '' && $val !== null`: the entries of an ENUM array that are joined. */
  predicate KeptEnumValue(v: Value) {
    v != Str("") && v != Null
  }

  function KeptEnumValues(vs: seq<Value>): (r: seq<Value>)
    ensures |r| <= |vs|
    ensures forall v :: v in r <==> v in vs && KeptEnumValue(v)
  {
    if |vs| == 0 then []
    else
      var rest := KeptEnumValues(vs[1..]);
      assert forall v :: v in vs <==> v == vs[0] || v in vs[1..];
      if KeptEnumValue(vs[0]) then [vs[0]] + rest else rest
  }

  function PhpStrings(vs: seq<Value>): (ss: seq<string>)
    ensures |ss| == |vs| && forall i :: 0 <= i < |vs| ==> ss[i] == ToPhpString(vs[i])
  {
    seq(|vs|, i requires 0 <= i < |vs| => ToPhpString(vs[i]))
  }

  /** `implode(';', array_filter($value, ...))` for an ENUM array. */
  function EnumJoined(entries: Entries): string {
    Text.Join(";", PhpStrings(KeptEnumValues(Assoc.Values(entries))))
  }

  /**
   * The joined ENUM value can be exploded at `;` back into the kept values
   * when they are strings without `;`.
   */
  lemma EnumJoinedSplits(entries: Entries)
    requires |KeptEnumValues(Assoc.Values(entries))| > 0
    requires forall v :: v in Assoc.Values(entries) ==> v.Str? && ';' !in v.s
    ensures Text.Split(EnumJoined(entries), ';') == PhpStrings(KeptEnumValues(Assoc.Values(entries)))
  {
    var kept := KeptEnumValues(Assoc.Values(entries));
    var parts := PhpStrings(kept);
    forall k | 0 <= k < |parts| ensures ';' !in parts[k] {
      assert kept[k] in kept;
    }
    Text.SplitJoin(parts, ';');
  }

  /** The type the flat definition gives an attribute (`$flat[$fieldName]['type']`), if any. */
  function FieldType(flat: FlatDefinition, key: Key): Option<string> {
    match key
    case I(_) => None
    case S(n) => match Lookup(flat, n) case Some(d) => d.typ case None => None
  }

  /**
   * What `transformAttributes` stores for one attribute of the given type.
   * `asWritten` picks the JSON check: `Strings::isJson` as written, or any
   * JSON text.
   */
  function SavedValue(codec: JsonCodec, asWritten: bool, typ: Option<string>, v: Value): (r: Value)
    ensures typ != Some("JSON") && typ != Some("ENUM") ==> r == v
    ensures typ == Some("JSON") ==> if JsonDetected(codec, asWritten, v) then r == v else r == Str(codec.encode(v))
    ensures typ == Some("ENUM") ==> if v.Arr? then r == Str(EnumJoined(v.entries)) else r == v
  {
    if typ == Some("JSON") then
      if JsonDetected(codec, asWritten, v) then v else Str(codec.encode(v))
    else if typ == Some("ENUM") && v.Arr? then
      Str(EnumJoined(v.entries))
    else v
  }

  /** What `transformAttributesForValidation` gives the validator for one attribute. */
  function ValidatedValue(codec: JsonCodec, asWritten: bool, typ: Option<string>, v: Value): (r: Value)
    ensures typ != Some("JSON") || !JsonDetected(codec, asWritten, v) ==> r == v
    ensures typ == Some("JSON") && JsonDetected(codec, asWritten, v) ==> r == codec.decode(v.s)
  {
    if typ == Some("JSON") && JsonDetected(codec, asWritten, v) then codec.decode(v.s) else v
  }

  /**
   * With any JSON text recognised, validating a JSON value after it was
   * saved sees what validating it before saving sees.
   */
  lemma SavedValueValidates(codec: JsonCodec, v: Value)
    requires Lawful(codec)
    ensures ValidatedValue(codec, false, Some("JSON"), SavedValue(codec, false, Some("JSON"), v)) ==
            ValidatedValue(codec, false, Some("JSON"), v)
  {
    if !IsJsonText(codec, v) {
      EncodingIsJson(codec, v);
    }
  }

  /**
   * With `Strings::isJson` as written, a saved JSON value validates as it
   * did before saving only when it was already JSON or is truthy; a falsy
   * value (`[]`, `0`, `false`, null) validates as its encoding, a string.
   */
  lemma SavedValueValidatesAsWritten(codec: JsonCodec, v: Value)
    requires Lawful(codec)
    ensures ValidatedValue(codec, true, Some("JSON"), SavedValue(codec, true, Some("JSON"), v)) ==
            if IsJson(codec, v) || Truthy(v) then ValidatedValue(codec, true, Some("JSON"), v) else Str(codec.encode(v))
  {
    if !IsJson(codec, v) {
      EncodingIsJson(codec, v);
    }
  }

  /** With any JSON text recognised, saving an attribute twice stores what saving it once does. */
  lemma SavedValueIdempotent(codec: JsonCodec, typ: Option<string>, v: Value)
    requires Lawful(codec)
    ensures SavedValue(codec, false, typ, SavedValue(codec, false, typ, v)) == SavedValue(codec, false, typ, v)
  {
    if typ == Some("JSON") && !IsJsonText(codec, v) {
      EncodingIsJson(codec, v);
    }
  }

  /**
   * As written, a JSON field holding `[]` is stored as the string `"[]"`,
   * which then validates as that string; saved again, it is encoded a
   * second time.
   */
  lemma EmptyArraySavedAsWritten(codec: JsonCodec)
    requires Lawful(codec)
    ensures var once := SavedValue(codec, true, Some("JSON"), Arr([]));
            && once == Str(codec.encode(Arr([])))
            && ValidatedValue(codec, true, Some("JSON"), once) == once
            && SavedValue(codec, true, Some("JSON"), once) == Str(codec.encode(once))
            && SavedValue(codec, true, Some("JSON"), once) != once
  {
    var once := Str(codec.encode(Arr([])));
    EncodingIsJson(codec, Arr([]));
    assert !IsJson(codec, Arr([]));
    EncodingIsJson(codec, Str(codec.encode(Arr([]))));
    assert !IsJson(codec, once) by {
      assert codec.decode(codec.encode(Arr([]))) == Arr([]);
    }
    assert codec.decode(codec.encode(once)) == once;
  }

  /** `transformAttributes($raw)`: every attribute under its key, rewritten as its field's type says. */
  function Transformed(codec: JsonCodec, asWritten: bool, flat: FlatDefinition, raw: Entries): Entries {
    seq(|raw|, i requires 0 <= i < |raw| => (raw[i].0, SavedValue(codec, asWritten, FieldType(flat, raw[i].0), raw[i].1)))
  }

  /** `transformAttributesForValidation($raw)` */
  function ForValidation(codec: JsonCodec, asWritten: bool, flat: FlatDefinition, raw: Entries): Entries {
    seq(|raw|, i requires 0 <= i < |raw| => (raw[i].0, ValidatedValue(codec, asWritten, FieldType(flat, raw[i].0), raw[i].1)))
  }

  /**
   * Both transformations keep the attributes' keys and order; an attribute
   * the flat definition does not type JSON or ENUM keeps its value.
   */
  lemma TransformationsKeepKeys(codec: JsonCodec, asWritten: bool, flat: FlatDefinition, raw: Entries)
    ensures Keys(Transformed(codec, asWritten, flat, raw)) == Keys(raw) == Keys(ForValidation(codec, asWritten, flat, raw))
    ensures forall k :: FieldType(flat, k) != Some("JSON") && FieldType(flat, k) != Some("ENUM") ==>
              Lookup(Transformed(codec, asWritten, flat, raw), k) == Lookup(raw, k)
    ensures forall k :: FieldType(flat, k) != Some("JSON") ==> Lookup(ForValidation(codec, asWritten, flat, raw), k) == Lookup(raw, k)
  {
    var t := Transformed(codec, asWritten, flat, raw);
    var u := ForValidation(codec, asWritten, flat, raw);
    assert Keys(t) == Keys(raw);
    assert Keys(u) == Keys(raw);
    forall k | FieldType(flat, k) != Some("JSON") && FieldType(flat, k) != Some("ENUM")
      ensures Lookup(t, k) == Lookup(raw, k)
    {
      SameValuesLookup(raw, t, k);
    }
    forall k | FieldType(flat, k) != Some("JSON") ensures Lookup(u, k) == Lookup(raw, k) {
      SameValuesLookup(raw, u, k);
    }
  }

  /**
   * With any JSON text recognised, the saved attributes prepared for
   * validation read as the attributes before saving did, except for ENUM
   * fields: their joined string is never split again.
   */
  lemma SavedAttributesValidate(codec: JsonCodec, flat: FlatDefinition, raw: Entries, k: Key)
    requires Lawful(codec) && FieldType(flat, k) != Some("ENUM")
    ensures Lookup(ForValidation(codec, false, flat, Transformed(codec, false, flat, raw)), k) ==
            Lookup(ForValidation(codec, false, flat, raw), k)
  {
    var a := ForValidation(codec, false, flat, raw);
    var b := ForValidation(codec, false, flat, Transformed(codec, false, flat, raw));
    forall i | 0 <= i < |a| && a[i].0 == k
      ensures b[i].1 == a[i].1
    {
      if FieldType(flat, k) == Some("JSON") {
        SavedValueValidates(codec, raw[i].1);
      }
    }
    SameValuesLookup(a, b, k);
  }

  /** With any JSON text recognised, transforming the attributes a second time changes nothing. */
  lemma TransformedIdempotent(codec: JsonCodec, flat: FlatDefinition, raw: Entries)
    requires Lawful(codec)
    ensures Transformed(codec, false, flat, Transformed(codec, false, flat, raw)) == Transformed(codec, false, flat, raw)
  {
    var once := Transformed(codec, false, flat, raw);
    var twice := Transformed(codec, false, flat, once);
    forall i | 0 <= i < |raw| ensures twice[i] == once[i] {
      SavedValueIdempotent(codec, FieldType(flat, raw[i].0), raw[i].1);
    }
  }

  /** Two arrays with the same keys, holding the same values under `k`, read the same at `k`. */
  lemma {:induction false} SameValuesLookup(a: Entries, b: Entries, k: Key)
    requires |a| == |b| && forall i :: 0 <= i < |a| ==> b[i].0 == a[i].0
    requires forall i :: 0 <= i < |a| && a[i].0 == k ==> b[i].1 == a[i].1
    ensures Lookup(b, k) == Lookup(a, k)
  {
    if |a| > 0 {
      SameValuesLookup(a[1..], b[1..], k);
    }
  }

  /** The loop of `transformAttributes`: each attribute is overwritten in place. */
  method TransformEntries(codec: JsonCodec, asWritten: bool, flat: FlatDefinition, raw: Entries) returns (out: Entries)
    requires DistinctKeys(raw)
    ensures out == Transformed(codec, asWritten, flat, raw)
  {
    out := raw;
    for i := 0 to |raw|
      invariant |out| == |raw| && Keys(out) == Keys(raw)
      invariant forall j :: 0 <= j < i ==> out[j] == Transformed(codec, asWritten, flat, raw)[j]
      invariant forall j :: i <= j < |raw| ==> out[j] == raw[j]
    {
      var name := raw[i].0;
      var value := raw[i].1;
      var typ := FieldType(flat, name);
      var saved := value;
      if typ == Some("JSON") {
        if !JsonDetected(codec, asWritten, value) {
          saved := Str(codec.encode(value));
        }
      } else if typ == Some("ENUM") {
        if value.Arr? {
          saved := Str(EnumJoined(value.entries));
        }
      }
      PutAt(out, i, saved);
      out := Put(out, name, saved);
      assert Keys(out) == Keys(raw);
    }
    assert out == Transformed(codec, asWritten, flat, raw);
  }

  /** The loop of `transformAttributesForValidation`: JSON strings of JSON fields are decoded in place. */
  method ValidationEntries(codec: JsonCodec, asWritten: bool, flat: FlatDefinition, raw: Entries) returns (out: Entries)
    requires DistinctKeys(raw)
    ensures out == ForValidation(codec, asWritten, flat, raw)
  {
    out := raw;
    for i := 0 to |raw|
      invariant |out| == |raw| && Keys(out) == Keys(raw)
      invariant forall j :: 0 <= j < i ==> out[j] == ForValidation(codec, asWritten, flat, raw)[j]
      invariant forall j :: i <= j < |raw| ==> out[j] == raw[j]
    {
      var name := raw[i].0;
      var value := raw[i].1;
      if FieldType(flat, name) == Some("JSON") && JsonDetected(codec, asWritten, value) {
        PutAt(out, i, codec.decode(value.s));
        out := Put(out, name, codec.decode(value.s));
        assert Keys(out) == Keys(raw);
      }
    }
    assert out == ForValidation(codec, asWritten, flat, raw);
  }

  // ----- fillable filter (`prepareAttributes`) -----

  /** `prepareAttributes($attributes, $filterFillable)` without its date reformatting. */
  function Prepared(attributes: Entries, filterFillable: bool, fillable: seq<string>): (r: Entries)
    ensures !filterFillable ==> r == attributes
    ensures filterFillable ==> forall k :: Lookup(r, k) == if k.S? && k.s in fillable then Lookup(attributes, k) else None
    ensures filterFillable ==> forall k :: k in Keys(r) <==> k in Keys(attributes) && k.S? && k.s in fillable
  {
    if filterFillable then
      var keep := (k: Key) => k.S? && k.s in fillable;
      KeysFilterKeys(attributes, keep);
      forall k ensures Lookup(FilterKeys(attributes, keep), k) == if keep(k) then Lookup(attributes, k) else None {
        LookupFilterKeys(attributes, keep, k);
      }
      FilterKeys(attributes, keep)
    else attributes
  }

  // ----- media (`syncMediaFiles`) -----

  /** A call into the media library. */
  datatype MediaCall =
    | AddImage(source: Value, collection: string, format: string)
    | AddFile(source: Value, fileName: Value, collection: string, format: string)
    | RemoveMedia(id: Value)

  /** The entry asks for `add` (`isset($file['add']) && $file['add'] === true`). */
  predicate WantsAdd(file: Value) {
    Field(file, "add") == Bool(true)
  }

  /** The entry names an uploaded TUS file. */
  predicate HasTusKey(file: Value) {
    Truthy(Field(file, "tusKey"))
  }

  /**
   * The call one entry leads to, as written: a `files` entry uploaded by TUS
   * hands the media library its (absent) `base64` data with the `TUS` format.
   */
  function MediaCallAsWritten(file: Value, mediaType: string, collection: string): (call: Option<MediaCall>)
    ensures mediaType == "files" && WantsAdd(file) && HasTusKey(file) ==>
              call == Some(AddFile(Field(file, "base64"), Field(file, "name"), collection, "TUS"))
    ensures !(mediaType == "files" && WantsAdd(file) && HasTusKey(file)) ==> call == MediaCallFor(file, mediaType, collection)
  {
    if WantsAdd(file) then
      if mediaType == "images" then
        Some(if HasTusKey(file) then AddImage(Field(file, "tusKey"), collection, "TUS")
             else AddImage(Field(file, "base64"), collection, "base64"))
      else if mediaType == "files" then
        Some(if HasTusKey(file) then AddFile(Field(file, "base64"), Field(file, "name"), collection, "TUS")
             else AddFile(Field(file, "base64"), Field(file, "name"), collection, "base64"))
      else None
    else if Field(file, "remove") == Bool(true) then Some(RemoveMedia(Field(file, "id")))
    else None
  }

  /** The call one entry leads to, with a TUS upload always identified by its key. */
  function MediaCallFor(file: Value, mediaType: string, collection: string): (call: Option<MediaCall>)
    ensures WantsAdd(file) && mediaType == "images" ==>
              call == Some(if HasTusKey(file) then AddImage(Field(file, "tusKey"), collection, "TUS")
                           else AddImage(Field(file, "base64"), collection, "base64"))
    ensures WantsAdd(file) && mediaType == "files" ==>
              call == Some(if HasTusKey(file) then AddFile(Field(file, "tusKey"), Field(file, "name"), collection, "TUS")
                           else AddFile(Field(file, "base64"), Field(file, "name"), collection, "base64"))
    ensures WantsAdd(file) && mediaType != "images" && mediaType != "files" ==> call == None
    ensures !WantsAdd(file) ==> call == if Field(file, "remove") == Bool(true) then Some(RemoveMedia(Field(file, "id"))) else None
    ensures call.Some? && call.value.AddFile? && call.value.format == "TUS" ==> call.value.source == Field(file, "tusKey")
  {
    if WantsAdd(file) then
      if mediaType == "images" then
        Some(if HasTusKey(file) then AddImage(Field(file, "tusKey"), collection, "TUS")
             else AddImage(Field(file, "base64"), collection, "base64"))
      else if mediaType == "files" then
        Some(if HasTusKey(file) then AddFile(Field(file, "tusKey"), Field(file, "name"), collection, "TUS")
             else AddFile(Field(file, "base64"), Field(file, "name"), collection, "base64"))
      else None
    else if Field(file, "remove") == Bool(true) then Some(RemoveMedia(Field(file, "id")))
    else None
  }

  /** The call an entry leads to, as the source writes it or with the TUS key of a file corrected. */
  function CallFor(file: Value, mediaType: string, collection: string, asWritten: bool): Option<MediaCall> {
    if asWritten then MediaCallAsWritten(file, mediaType, collection) else MediaCallFor(file, mediaType, collection)
  }

  /** The two agree on every entry other than a TUS upload of a document. */
  lemma CallForAgrees(file: Value, mediaType: string, collection: string)
    requires !(mediaType == "files" && WantsAdd(file) && HasTusKey(file))
    ensures CallFor(file, mediaType, collection, true) == CallFor(file, mediaType, collection, false)
  {
  }

  /**
   * A TUS upload of a document: the source sends no upload data at all
   * (the entry has no `base64`) where the upload key was meant.
   */
  lemma TusFileAsWrittenLosesKey(collection: string)
    ensures var file := Arr([(S("add"), Bool(true)), (S("tusKey"), Str("upload-1"))]);
      && MediaCallAsWritten(file, "files", collection) == Some(AddFile(Null, Null, collection, "TUS"))
      && MediaCallFor(file, "files", collection) == Some(AddFile(Str("upload-1"), Null, collection, "TUS"))
  {
    var es := [(S("add"), Bool(true)), (S("tusKey"), Str("upload-1"))];
    assert es[1..][1..] == [];
    assert Lookup(es, S("add")) == Some(Bool(true));
    assert Lookup(es, S("tusKey")) == Lookup(es[1..], S("tusKey")) == Some(Str("upload-1"));
    assert Lookup(es, S("base64")) == Lookup(es[1..], S("base64")) == Lookup(es[1..][1..], S("base64")) == None;
    assert Lookup(es, S("name")) == Lookup(es[1..], S("name")) == Lookup(es[1..][1..], S("name")) == None;
  }

  function OptionToSeq<T>(o: Option<T>): seq<T> {
    if o.Some? then [o.value] else []
  }

  /** The calls the entries lead to, in list order. */
  function MediaPlan(files: seq<Value>, mediaType: string, collection: string, asWritten: bool): seq<MediaCall>
    decreases |files|
  {
    if |files| == 0 then []
    else MediaPlan(files[..|files| - 1], mediaType, collection, asWritten) +
         OptionToSeq(CallFor(files[|files| - 1], mediaType, collection, asWritten))
  }

  /** The calls for a list of entries are those for its first part followed by those for the rest. */
  lemma {:induction false} MediaPlanAppend(a: seq<Value>, b: seq<Value>, mediaType: string, collection: string, asWritten: bool)
    ensures MediaPlan(a + b, mediaType, collection, asWritten) ==
            MediaPlan(a, mediaType, collection, asWritten) + MediaPlan(b, mediaType, collection, asWritten)
    decreases |b|
  {
    if |b| == 0 {
      assert a + b == a;
    } else {
      var pre := b[..|b| - 1];
      assert (a + b)[..|a + b| - 1] == a + pre;
      assert (a + b)[|a + b| - 1] == b[|b| - 1];
      MediaPlanAppend(a, pre, mediaType, collection, asWritten);
    }
  }

  /**
   * Where the plan comes from: every removal is for an entry that asks to be
   * removed and not added (`add` wins over `remove`), and every addition is
   * for an entry that asks to be added.
   */
  lemma {:induction false} MediaPlanSources(files: seq<Value>, mediaType: string, collection: string, asWritten: bool)
    ensures forall c :: c in MediaPlan(files, mediaType, collection, asWritten) ==>
              exists i :: 0 <= i < |files| && CallFor(files[i], mediaType, collection, asWritten) == Some(c) &&
                (c.RemoveMedia? <==> !WantsAdd(files[i])) &&
                (c.RemoveMedia? ==> Field(files[i], "remove") == Bool(true) && c.id == Field(files[i], "id"))
    decreases |files|
  {
    if |files| > 0 {
      var n := |files| - 1;
      var pre := files[..n];
      MediaPlanSources(pre, mediaType, collection, asWritten);
      forall c | c in MediaPlan(files, mediaType, collection, asWritten)
        ensures exists i :: 0 <= i < |files| && CallFor(files[i], mediaType, collection, asWritten) == Some(c) &&
                  (c.RemoveMedia? <==> !WantsAdd(files[i])) &&
                  (c.RemoveMedia? ==> Field(files[i], "remove") == Bool(true) && c.id == Field(files[i], "id"))
      {
        if c in MediaPlan(pre, mediaType, collection, asWritten) {
          var i :| 0 <= i < |pre| && CallFor(pre[i], mediaType, collection, asWritten) == Some(c) &&
                   (c.RemoveMedia? <==> !WantsAdd(pre[i])) &&
                   (c.RemoveMedia? ==> Field(pre[i], "remove") == Bool(true) && c.id == Field(pre[i], "id"));
          assert pre[i] == files[i];
        } else {
          assert CallFor(files[n], mediaType, collection, asWritten) == Some(c);
        }
      }
    }
  }

  /** On entries without a TUS upload of a document, the source's plan is the corrected one. */
  lemma {:induction false} MediaPlanAsWrittenAgrees(files: seq<Value>, mediaType: string, collection: string)
    requires forall i :: 0 <= i < |files| ==> !(mediaType == "files" && WantsAdd(files[i]) && HasTusKey(files[i]))
    ensures MediaPlan(files, mediaType, collection, true) == MediaPlan(files, mediaType, collection, false)
    decreases |files|
  {
    if |files| > 0 {
      var n := |files| - 1;
      MediaPlanAsWrittenAgrees(files[..n], mediaType, collection);
      CallForAgrees(files[n], mediaType, collection);
    }
  }

  /**
   * How a media call can fail: with an `\Exception`, which the loop logs, or
   * with an `\Error` (a `TypeError`, say), which `catch (\Exception $e)`
   * lets through and which ends the loop and the request.
   */
  datatype MediaFailure = Caught(message: string) | Uncaught(message: string)

  predicate Aborts(fails: MediaCall -> Option<MediaFailure>, c: MediaCall) {
    fails(c).Some? && fails(c).value.Uncaught?
  }

  /** How many calls succeed or are logged before the first one that escapes the loop. */
  function Completed(calls: seq<MediaCall>, fails: MediaCall -> Option<MediaFailure>): (n: nat)
    ensures n <= |calls|
    ensures n < |calls| ==> Aborts(fails, calls[n])
    decreases |calls|
  {
    if |calls| == 0 then 0
    else
      var k := Completed(calls[..|calls| - 1], fails);
      if k < |calls| - 1 then k
      else if Aborts(fails, calls[|calls| - 1]) then |calls| - 1
      else |calls|
  }

  /** The calls before the `Completed` count do not escape. */
  lemma {:induction false} CompletedMeaning(calls: seq<MediaCall>, fails: MediaCall -> Option<MediaFailure>)
    ensures forall i :: 0 <= i < Completed(calls, fails) ==> !Aborts(fails, calls[i])
    decreases |calls|
  {
    if |calls| > 0 {
      var pre := calls[..|calls| - 1];
      CompletedMeaning(pre, fails);
      forall i | 0 <= i < Completed(calls, fails)
        ensures !Aborts(fails, calls[i])
      {
        if i < |pre| {
          assert calls[i] == pre[i];
        }
      }
    }
  }

  /** Once a call has escaped, later calls change nothing. */
  lemma {:induction false} CompletedStops(a: seq<MediaCall>, b: seq<MediaCall>, fails: MediaCall -> Option<MediaFailure>)
    requires Completed(a, fails) < |a|
    ensures Completed(a + b, fails) == Completed(a, fails)
    decreases |b|
  {
    if |b| > 0 {
      var pre := b[..|b| - 1];
      CompletedStops(a, pre, fails);
      assert (a + b)[..|a + b| - 1] == a + pre;
    } else {
      assert a + b == a;
    }
  }

  /** The messages logged for the calls that threw an `\Exception`, in order. */
  function FailureLog(calls: seq<MediaCall>, fails: MediaCall -> Option<MediaFailure>): seq<string>
    decreases |calls|
  {
    if |calls| == 0 then []
    else
      var f := fails(calls[|calls| - 1]);
      FailureLog(calls[..|calls| - 1], fails) + if f.Some? && f.value.Caught? then [f.value.message] else []
  }

  /**
   * What running the calls of `plan` in turn leaves: the calls made (up to
   * and including the first one that escapes), the messages logged before
   * it, and the escaping one's message.
   */
  function SyncOutcome(plan: seq<MediaCall>, fails: MediaCall -> Option<MediaFailure>): (seq<MediaCall>, seq<string>, Option<string>) {
    var n := Completed(plan, fails);
    if n == |plan| then (plan, FailureLog(plan, fails), None)
    else (plan[..n + 1], FailureLog(plan[..n], fails), Some(fails(plan[n]).value.message))
  }

  /**
   * The calls made are a prefix of the plan; the run is cut short exactly
   * when some planned call escapes, and then by the first such call, whose
   * message is reported; every call before it was made and either
   * succeeded or was logged.
   */
  lemma SyncOutcomeMeaning(plan: seq<MediaCall>, fails: MediaCall -> Option<MediaFailure>)
    ensures var o := SyncOutcome(plan, fails);
            && o.0 <= plan
            && (o.2.None? <==> forall c :: c in plan ==> !Aborts(fails, c))
            && (o.2.Some? ==> |o.0| > 0 && o.2 == Some(fails(o.0[|o.0| - 1]).value.message) && Aborts(fails, o.0[|o.0| - 1]))
            && (forall i :: 0 <= i < |o.0| && (o.2.Some? ==> i < |o.0| - 1) ==> !Aborts(fails, o.0[i]))
  {
    CompletedMeaning(plan, fails);
    var n := Completed(plan, fails);
    if n < |plan| {
      assert plan[n] in plan;
    } else {
      forall c | c in plan ensures !Aborts(fails, c) {
        var i :| 0 <= i < |plan| && plan[i] == c;
      }
    }
  }

  /**
   * The loop of `syncMediaFiles`, for the source's or the corrected call per
   * entry: the calls made are the plan up to and including the first one that
   * escapes, the log holds the messages of the logged ones before it, and
   * `aborted` is the escaping one's message.
   */
  method SyncWith(files: Entries, mediaType: string, collection: string, asWritten: bool,
                  fails: MediaCall -> Option<MediaFailure>)
    returns (calls: seq<MediaCall>, log: seq<string>, aborted: Option<string>)
    ensures (calls, log, aborted) == SyncOutcome(MediaPlan(Assoc.Values(files), mediaType, collection, asWritten), fails)
  {
    var entries := Assoc.Values(files);
    calls := [];
    log := [];
    aborted := None;
    for i := 0 to |entries|
      invariant calls == MediaPlan(entries[..i], mediaType, collection, asWritten)
      invariant Completed(calls, fails) == |calls|
      invariant log == FailureLog(calls, fails)
    {
      var call := CallFor(entries[i], mediaType, collection, asWritten);
      if call.Some? && Aborts(fails, call.value) {
        assert entries[..i + 1][..i] == entries[..i];
        SyncAborted(entries, i, mediaType, collection, asWritten, fails, calls, log, call.value);
        calls := calls + [call.value];
        aborted := Some(fails(call.value).value.message);
        return;
      }
      SyncContinues(entries, i, mediaType, collection, asWritten, fails, calls, log);
      if call.Some? {
        var failure := fails(call.value);
        calls := calls + [call.value];
        if failure.Some? {
          log := log + [failure.value.message];
        }
      }
    }
    assert entries[..|entries|] == entries;
    SyncFinished(calls, log, fails);
  }

  /** One more entry whose call, if any, does not escape: the call is made and logged if it threw. */
  lemma SyncContinues(entries: seq<Value>, i: nat, mediaType: string, collection: string, asWritten: bool,
                      fails: MediaCall -> Option<MediaFailure>, done: seq<MediaCall>, log: seq<string>)
    requires i < |entries| && done == MediaPlan(entries[..i], mediaType, collection, asWritten)
    requires Completed(done, fails) == |done| && log == FailureLog(done, fails)
    requires var c := CallFor(entries[i], mediaType, collection, asWritten); c.None? || !Aborts(fails, c.value)
    ensures var c := CallFor(entries[i], mediaType, collection, asWritten);
            var next := done + OptionToSeq(c);
            && next == MediaPlan(entries[..i + 1], mediaType, collection, asWritten)
            && Completed(next, fails) == |next|
            && FailureLog(next, fails) == log + (if c.Some? && fails(c.value).Some? then [fails(c.value).value.message] else [])
  {
    assert entries[..i + 1][..i] == entries[..i];
    var c := CallFor(entries[i], mediaType, collection, asWritten);
    if c.Some? {
      assert (done + [c.value])[..|done|] == done;
    } else {
      assert done + OptionToSeq(c) == done;
    }
  }

  /** A run in which no call escaped: every call was made and the log is complete. */
  lemma SyncFinished(plan: seq<MediaCall>, log: seq<string>, fails: MediaCall -> Option<MediaFailure>)
    requires Completed(plan, fails) == |plan| && log == FailureLog(plan, fails)
    ensures SyncOutcome(plan, fails) == (plan, log, None)
  {
  }

  /** A run stopped by the call of entry `i`: the calls so far, that call, and the log so far. */
  lemma SyncAborted(entries: seq<Value>, i: nat, mediaType: string, collection: string, asWritten: bool,
                    fails: MediaCall -> Option<MediaFailure>, done: seq<MediaCall>, log: seq<string>, call: MediaCall)
    requires i < |entries| && done == MediaPlan(entries[..i], mediaType, collection, asWritten)
    requires CallFor(entries[i], mediaType, collection, asWritten) == Some(call) && entries[..i + 1][..i] == entries[..i]
    requires Completed(done, fails) == |done| && log == FailureLog(done, fails) && Aborts(fails, call)
    ensures SyncOutcome(MediaPlan(entries, mediaType, collection, asWritten), fails) ==
            (done + [call], log, Some(fails(call).value.message))
  {
    MediaPlanSplit(entries, i, mediaType, collection, asWritten);
    AbortAt(done, call, MediaPlan(entries[i + 1..], mediaType, collection, asWritten), fails);
  }

  /** The plan is the calls of the entries before `i`, then that of entry `i`, then those after it. */
  lemma MediaPlanSplit(entries: seq<Value>, i: nat, mediaType: string, collection: string, asWritten: bool)
    requires i < |entries|
    ensures MediaPlan(entries, mediaType, collection, asWritten) ==
            MediaPlan(entries[..i + 1], mediaType, collection, asWritten) + MediaPlan(entries[i + 1..], mediaType, collection, asWritten)
  {
    assert entries == entries[..i + 1] + entries[i + 1..];
    MediaPlanAppend(entries[..i + 1], entries[i + 1..], mediaType, collection, asWritten);
  }

  /** Calls that all complete, then one that escapes: the run stops right there. */
  lemma AbortAt(done: seq<MediaCall>, call: MediaCall, rest: seq<MediaCall>, fails: MediaCall -> Option<MediaFailure>)
    requires Completed(done, fails) == |done| && Aborts(fails, call)
    ensures var plan := done + [call] + rest;
            && Completed(plan, fails) == |done| && plan[..|done| + 1] == done + [call] && plan[..|done|] == done
  {
    var head := done + [call];
    assert head[..|done|] == done;
    assert Completed(head, fails) == |done|;
    CompletedStops(head, rest, fails);
    assert (head + rest)[..|done| + 1] == head;
  }

  /**
   * `syncMediaFiles($files, $type, $collection)` with a TUS file added from
   * its key: each entry in turn makes its call; an `\Exception` is logged
   * and the loop goes on; an `\Error` ends it.
   */
  method SyncMediaFiles(files: Entries, mediaType: string, collection: string, fails: MediaCall -> Option<MediaFailure>)
    returns (calls: seq<MediaCall>, log: seq<string>, aborted: Option<string>)
    ensures (calls, log, aborted) == SyncOutcome(MediaPlan(Assoc.Values(files), mediaType, collection, false), fails)
  {
    calls, log, aborted := SyncWith(files, mediaType, collection, false, fails);
  }

  /** `syncMediaFiles` as written, with a TUS file added from its `base64` entry. */
  method SyncMediaFilesAsWritten(files: Entries, mediaType: string, collection: string, fails: MediaCall -> Option<MediaFailure>)
    returns (calls: seq<MediaCall>, log: seq<string>, aborted: Option<string>)
    ensures (calls, log, aborted) == SyncOutcome(MediaPlan(Assoc.Values(files), mediaType, collection, true), fails)
  {
    calls, log, aborted := SyncWith(files, mediaType, collection, true, fails);
  }

  /**
   * As written, a TUS upload of a document without `base64` hands null to
   * `addFile`, whose `validateAndAddMedia(string $file, ...)` refuses it with
   * a `TypeError`: an `\Error`, which `catch (\Exception $e)` lets through.
   * When the entries before it get through, the loop ends at that entry,
   * having added nothing for it and made no call for any later entry.
   */
  lemma TusFileAsWrittenStops(files: seq<Value>, i: nat, collection: string, fails: MediaCall -> Option<MediaFailure>)
    requires i < |files| && WantsAdd(files[i]) && HasTusKey(files[i]) && Field(files[i], "base64") == Null
    requires forall c :: c in MediaPlan(files[..i], "files", collection, true) ==> !Aborts(fails, c)
    requires Aborts(fails, AddFile(Null, Field(files[i], "name"), collection, "TUS"))
    ensures var call := AddFile(Null, Field(files[i], "name"), collection, "TUS");
            var o := SyncOutcome(MediaPlan(files, "files", collection, true), fails);
            && o.0 == MediaPlan(files[..i], "files", collection, true) + [call]
            && o.1 == FailureLog(MediaPlan(files[..i], "files", collection, true), fails)
            && o.2 == Some(fails(call).value.message)
  {
    var done := MediaPlan(files[..i], "files", collection, true);
    var call := AddFile(Null, Field(files[i], "name"), collection, "TUS");
    assert files[..i + 1][..i] == files[..i];
    SyncAborted(files, i, "files", collection, true, fails, done, FailureLog(done, fails), call);
  }

  // ----- the model's own steps -----

  /** What the saving hook did, in order. */
  datatype SavingStep = CompileStep | ValidateStep | TransformStep

  /** The message of the `ValidationException` `validate` throws. */
  const ValidationFailed: string := "The given data was invalid."

  /**
   * `validate`: the fillable names are read first; the attributes are put in
   * their validatable form (which may compile the definition); the model's
   * rules are filtered by their top-level key; the validator's verdict is
   * `passes`.
   */
  method Validate(m: FieldDefinition.DefinedModel, codec: JsonCodec, asWritten: bool,
                  passes: (Entries, map<string, string>) -> bool,
                  compiler: FieldDefinition.Compiler, cache: FieldDefinition.DefinitionCache,
                  defined: DefinitionBuilder.Builder) returns (err: Option<string>)
    requires defined.Valid() && DistinctKeys(m.attributes)
    modifies m, compiler, cache
    ensures m.attributes == old(m.attributes)
    ensures |old(m.flatFieldDefinition)| > 0 ==> unchanged(m, compiler, cache)
    ensures |old(m.flatFieldDefinition)| == 0 ==>
              m.CompiledLazily(compiler, cache, old(defined.FullView()), old(defined.definitions),
                               old(defined.IsCachable(cache.supportsTags)))
    ensures var input := ForValidation(codec, asWritten, m.flatFieldDefinition, old(m.attributes));
            err == if passes(input, SelectedRules(m.rules, input, old(m.fillable))) then None else Some(ValidationFailed)
  {
    var fillables := m.fillable;
    var flat := m.GetFlatFieldDefinition(compiler, cache, defined);
    var newAttributes := ValidationEntries(codec, asWritten, flat, m.attributes);
    var rules := SelectedRules(m.rules, newAttributes, fillables);
    err := if passes(newAttributes, rules) then None else Some(ValidationFailed);
  }

  /**
   * The `saving` hook: compile when forced or not yet defined, validate when
   * `validateOnSave` (a failure stops the save with the attributes as they
   * were), then store the transformed attributes. When the builder defines
   * at least one field, the compile step settles the definition: a forced
   * compile installs (and caches, when cachable) the builder's definition,
   * an unforced one does what `compileDefinition()` does, and the later
   * reads of the flat definition change nothing; the save then fails exactly
   * when validation is on and the validator rejects the attributes.
   */
  method Saving(m: FieldDefinition.DefinedModel, forceDefineOnSave: bool, validateOnSave: bool, codec: JsonCodec,
                asWritten: bool, passes: (Entries, map<string, string>) -> bool, compiler: FieldDefinition.Compiler,
                cache: FieldDefinition.DefinitionCache, defined: DefinitionBuilder.Builder)
    returns (steps: seq<SavingStep>, err: Option<string>)
    requires defined.Valid() && DistinctKeys(m.attributes)
    modifies m, compiler, cache
    ensures steps == (if forceDefineOnSave || !old(m.IsDefined()) then [CompileStep] else [])
                     + (if validateOnSave then [ValidateStep] else [])
                     + (if err.None? then [TransformStep] else [])
    ensures err.Some? ==> validateOnSave && err == Some(ValidationFailed) && m.attributes == old(m.attributes)
    ensures err.None? ==> m.attributes == Transformed(codec, asWritten, m.flatFieldDefinition, old(m.attributes))
    ensures |old(defined.definitions)| > 0 ==>
              var input := ForValidation(codec, asWritten, m.flatFieldDefinition, old(m.attributes));
              (err.Some? <==> validateOnSave && !passes(input, SelectedRules(m.rules, input, m.fillable)))
    ensures |old(defined.definitions)| > 0 && forceDefineOnSave ==>
              var full := old(defined.FullView());
              var flat := old(defined.definitions);
              && m.Installed(Some(full), flat)
              && !compiler.isCompiling
              && cache.entries == (if old(defined.IsCachable(cache.supportsTags))
                                   then old(cache.entries)[m.CacheKey() := FieldDefinition.CachedDefinition(Some(full), flat)]
                                   else old(cache.entries))
    ensures |old(defined.definitions)| > 0 && !forceDefineOnSave ==>
              m.DefinitionCompiledLazily(compiler, cache, old(defined.FullView()), old(defined.definitions),
                                         old(defined.IsCachable(cache.supportsTags)))
  {
    steps := [];
    if forceDefineOnSave || !m.IsDefined() {
      var _ := m.CompileDefinition(forceDefineOnSave, compiler, cache, defined);
      steps := steps + [CompileStep];
    }
    assert |old(defined.definitions)| > 0 ==> |m.flatFieldDefinition| > 0 || compiler.isCompiling;
    err := ValidateThenStore(m, validateOnSave, codec, asWritten, passes, compiler, cache, defined);
    steps := steps + (if validateOnSave then [ValidateStep] else []) + (if err.None? then [TransformStep] else []);
  }

  /**
   * The part of the `saving` hook after the compile step. Once the flat
   * definition is non-empty, or a compile is under way, neither step changes
   * the definition state, so the verdict is the validator's on the attributes
   * as they were.
   */
  method ValidateThenStore(m: FieldDefinition.DefinedModel, validateOnSave: bool, codec: JsonCodec, asWritten: bool,
                           passes: (Entries, map<string, string>) -> bool, compiler: FieldDefinition.Compiler,
                           cache: FieldDefinition.DefinitionCache, defined: DefinitionBuilder.Builder)
    returns (err: Option<string>)
    requires defined.Valid() && DistinctKeys(m.attributes)
    modifies m, compiler, cache
    ensures err.Some? ==> validateOnSave && err == Some(ValidationFailed) && m.attributes == old(m.attributes)
    ensures err.None? ==> m.attributes == Transformed(codec, asWritten, m.flatFieldDefinition, old(m.attributes))
    ensures |old(m.flatFieldDefinition)| > 0 || old(compiler.isCompiling) ==>
              && unchanged(compiler, cache) && m.DefinitionKept()
              && var input := ForValidation(codec, asWritten, m.flatFieldDefinition, old(m.attributes));
                 (err.Some? <==> validateOnSave && !passes(input, SelectedRules(m.rules, input, m.fillable)))
  {
    if validateOnSave {
      err := Validate(m, codec, asWritten, passes, compiler, cache, defined);
      if err.Some? {
        return;
      }
    }
    label validated:
    err := None;
    var flat := m.GetFlatFieldDefinition(compiler, cache, defined);
    assert |old@validated(m.flatFieldDefinition)| > 0 || old@validated(compiler.isCompiling) ==>
             unchanged@validated(compiler, cache) && m.DefinitionKept@validated();
    var transformed := TransformEntries(codec, asWritten, flat, m.attributes);
    m.attributes := transformed;
  }

  /**
   * `prepareAttributes`: compiles when the model is not defined, then keeps
   * only the fillable attributes (read after compiling) when asked to.
   */
  method PrepareAttributes(m: FieldDefinition.DefinedModel, attributes: Entries, filterFillable: bool,
                           compiler: FieldDefinition.Compiler, cache: FieldDefinition.DefinitionCache,
                           defined: DefinitionBuilder.Builder) returns (r: Entries)
    requires defined.Valid()
    modifies m, compiler, cache
    ensures r == Prepared(attributes, filterFillable, m.fillable)
    ensures old(m.IsDefined()) ==> unchanged(m, compiler, cache)
    ensures m.CompiledLazily(compiler, cache, old(defined.FullView()), old(defined.definitions),
                             old(defined.IsCachable(cache.supportsTags)))
  {
    if !m.IsDefined() {
      var _ := m.CompileDefinition(false, compiler, cache, defined);
    }
    r := Prepared(attributes, filterFillable, m.fillable);
  }

  /** `BreadModel`'s constructor: compile at once when `$defineOnConstruct` is set and nothing is installed. */
  method Construct(m: FieldDefinition.DefinedModel, defineOnConstruct: bool, compiler: FieldDefinition.Compiler,
                   cache: FieldDefinition.DefinitionCache, defined: DefinitionBuilder.Builder)
    requires defined.Valid()
    modifies m, compiler, cache
    ensures !(defineOnConstruct && old(m.definition).None?) ==> unchanged(m, compiler, cache)
    ensures defineOnConstruct && old(m.definition).None? ==>
              m.CompiledLazily(compiler, cache, old(defined.FullView()), old(defined.definitions),
                               old(defined.IsCachable(cache.supportsTags)))
    ensures m.attributes == old(m.attributes)
  {
    if defineOnConstruct && m.definition.None? {
      var _ := m.CompileDefinition(false, compiler, cache, defined);
    }
  }
}
