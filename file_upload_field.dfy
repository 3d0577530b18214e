/**
 * `FileUploadField`: an upload of documents stored as media of the model.
 * `ImageUploadField` has the same setters, modelled here once.
 */
module FileUploadField {
  import opened Wrappers
  import opened Assoc
  import opened Values
  import opened Definitions
  import opened FieldBase

  /** The mime types a new file upload accepts (the source lists the `docx` type twice). */
  const FileMimeTypes: seq<string> := [
    "image/jpeg",
    "image/png",
    "application/msword",
    "application/vnd.openxmlformats-officedocument.wordprocessingml.document",
    "application/vnd.openxmlformats-officedocument.wordprocessingml.document",
    "application/vnd.ms-excel",
    "application/vnd.openxmlformats-officedocument.spreadsheetml.sheet",
    "application/vnd.ms-powerpoint",
    "application/vnd.openxmlformats-officedocument.presentationml.presentation",
    "application/vnd.oasis.opendocument.text",
    "application/vnd.oasis.opendocument.presentation",
    "application/vnd.oasis.opendocument.spreadsheet",
    "application/vnd.apple.keynote",
    "application/x-iwork-pages-sffpages",
    "application/x-iwork-keynote-sffkey",
    "application/vnd.apple.pages",
    "application/x-iwork-numbers-sffnumbers",
    "application/vnd.apple.numbers",
    "text/plain",
    "text/csv",
    "application/pdf",
    "application/zip"]

  /** The extra data an upload field's defaults add: the media kind, TUS switched off, the allowed mime types. */
  function UploadExtra(mediaType: string, mimeTypes: seq<string>): Entries {
    [(S("media_type"), Str(mediaType)), (S("tus"), Bool(false)), (S("tus_endpoint"), Str("")),
     (S("mime_types"), StrList(mimeTypes))]
  }

  /**
   * The constructor and defaults of an upload field: type `MEDIA`, not
   * fillable, rule `array`, default `[]`, the upload extra data, and finally
   * the media collection, named after the field (null without a name).
   */
  method CreateUpload(kind: Kind, inputType: string, mediaType: string, mimeTypes: seq<string>, name: Option<string>)
    returns (f: BaseField)
    ensures fresh(f) && f.kind == kind && f.Valid() && NamedAs(f, name)
    ensures f.definition == Named(DefaultDefinition().(typ := Some("MEDIA"), inputType := Some(inputType),
              fillable := false, default := Arr([]),
              extraData := UploadExtra(mediaType, mimeTypes) + [(S("collection"), OptStr(name))]), name)
    ensures f.requiredRule == "nullable" && f.validationRules == ["array"] && f.group == None
  {
    f := new BaseField(kind);
    f.Type("MEDIA");
    f.InputType(inputType);
    f.Fillable(false);
    f.AddValidation("array");
    f.DefaultValue(Arr([]));
    var extra := UploadExtra(mediaType, mimeTypes);
    assert Keys(extra) == [S("media_type"), S("tus"), S("tus_endpoint"), S("mime_types")];
    ReplaceIntoEmpty(extra);
    f.AddExtraData(extra);
    f.NameIfGiven(name);
    ReplaceAddNew(extra, S("collection"), OptStr(name));
    f.AddExtraEntry("collection", OptStr(name));
  }

  /** `new FileUploadField($name)`: input `file-upload`, media type `files`, the document mime types. */
  method Create(name: Option<string>) returns (f: BaseField)
    ensures fresh(f) && f.kind == FileUpload && f.Valid() && NamedAs(f, name)
    ensures f.definition == Named(DefaultDefinition().(typ := Some("MEDIA"), inputType := Some("file-upload"),
              fillable := false, default := Arr([]),
              extraData := UploadExtra("files", FileMimeTypes) + [(S("collection"), OptStr(name))]), name)
    ensures f.requiredRule == "nullable" && f.validationRules == ["array"] && f.group == None
  {
    f := CreateUpload(FileUpload, "file-upload", "files", FileMimeTypes, name);
  }

  /** `multiple`: whether several files may be uploaded. */
  method Multiple(f: BaseField, multiple: bool)
    modifies f`definition
    ensures ExtraWritten(f, "multiple", Bool(multiple))
  {
    f.AddExtraEntry("multiple", Bool(multiple));
  }

  /** `collection`: the media collection the uploads go to. */
  method Collection(f: BaseField, collectionName: string)
    modifies f`definition
    ensures ExtraWritten(f, "collection", Str(collectionName))
  {
    f.AddExtraEntry("collection", Str(collectionName));
  }

  /**
   * `allowedMimeTypes` as written: the list is merged into the default list
   * position by position, so defaults beyond its length stay allowed.
   */
  method AllowedMimeTypesAsWritten(f: BaseField, mimeTypes: seq<string>)
    modifies f`definition
    ensures ExtraWritten(f, "mime_types", StrList(mimeTypes))
  {
    f.AddExtraEntry("mime_types", StrList(mimeTypes));
  }

  /** `allowedMimeTypes` as intended: exactly the given mime types are allowed. */
  method AllowedMimeTypes(f: BaseField, mimeTypes: seq<string>)
    modifies f`definition
    ensures f.definition == old(f.definition).(extraData := Set(old(f.definition.extraData), "mime_types", StrList(mimeTypes)))
    ensures Get(f.definition.extraData, "mime_types") == Some(StrList(mimeTypes))
    ensures forall k :: k != "mime_types" ==> Get(f.definition.extraData, k) == Get(old(f.definition.extraData), k)
  {
    f.ReplaceExtraEntry("mime_types", StrList(mimeTypes));
    forall k | k != "mime_types"
      ensures Get(f.definition.extraData, k) == Get(old(f.definition.extraData), k)
    {
      LookupPut(old(f.definition.extraData), S("mime_types"), StrList(mimeTypes), S(k));
    }
  }

  /**
   * Under the merging setter, every type of the current list past the end
   * of the given list stays allowed, at its old position.
   */
  lemma AllowedMimeTypesAsWrittenKeepsTail(current: seq<string>, mimeTypes: seq<string>, i: int)
    requires |mimeTypes| <= i < |current|
    ensures var merged := Merged(Some(StrList(current)), StrList(mimeTypes));
            merged.Arr? && Lookup(merged.entries, I(i)) == Some(Str(current[i]))
  {
    var olds := seq(|current|, j requires 0 <= j < |current| => Str(current[j]));
    var news := seq(|mimeTypes|, j requires 0 <= j < |mimeTypes| => Str(mimeTypes[j]));
    assert StrList(current) == List(olds);
    assert StrList(mimeTypes) == List(news);
    var base := List(olds).entries;
    var repl := List(news).entries;
    if |news| > 0 {
      ListLookup(news, 0);
    }
    assert forall j :: 0 <= j < |repl| ==> repl[j].0 == I(j);
    assert I(i) !in Keys(repl);
    LookupFound(repl, I(i));
    ListLookup(olds, i);
    ReplaceRecursiveLookup(base, repl, I(i));
  }

  /**
   * Restricting a new file upload to PDF documents with the merging setter
   * still allows PNG images: the merged list keeps the default at position 1.
   */
  lemma AllowedMimeTypesAsWrittenKeepsDefaults()
    ensures var merged := Merged(Some(StrList(FileMimeTypes)), StrList(["application/pdf"]));
      merged.Arr? && Lookup(merged.entries, I(1)) == Some(Str("image/png")) &&
      merged != StrList(["application/pdf"])
  {
    var defaults := seq(|FileMimeTypes|, i requires 0 <= i < |FileMimeTypes| => Str(FileMimeTypes[i]));
    var pdf := seq(|["application/pdf"]|, i requires 0 <= i < 1 => Str(["application/pdf"][i]));
    assert StrList(FileMimeTypes) == List(defaults);
    assert StrList(["application/pdf"]) == List(pdf);
    var base := List(defaults).entries;
    var repl := List(pdf).entries;
    assert repl == [(I(0), Str("application/pdf"))];
    assert Lookup(repl, I(1)) == None by {
      assert repl[1..] == [];
    }
    ListLookup(pdf, 0);
    ListLookup(defaults, 1);
    ReplaceRecursiveLookup(base, repl, I(1));
    var merged := Merged(Some(List(defaults)), List(pdf));
    assert merged == Arr(ReplaceRecursive(base, repl));
    assert Lookup(merged.entries, I(1)) == Some(Str("image/png"));
  }

  /** `enableTUS`: uploads go through the resumable TUS endpoint given. */
  method EnableTUS(f: BaseField, tusEndpoint: string)
    modifies f`definition
    ensures f.definition == old(f.definition).(extraData := ReplaceRecursive(old(f.definition.extraData),
              [(S("tus"), Bool(true)), (S("tus_endpoint"), Str(tusEndpoint))]))
    ensures Get(f.definition.extraData, "tus") == Some(Bool(true))
    ensures Get(f.definition.extraData, "tus_endpoint") == Some(Str(tusEndpoint))
  {
    var data := [(S("tus"), Bool(true)), (S("tus_endpoint"), Str(tusEndpoint))];
    assert Keys(data) == [S("tus"), S("tus_endpoint")];
    f.AddExtraData(data);
    assert MergedLookup(old(f.definition.extraData), data, S("tus")) == Some(Bool(true));
    assert Lookup(data, S("tus_endpoint")) == Some(Str(tusEndpoint)) by {
      assert data[1..] == [(S("tus_endpoint"), Str(tusEndpoint))];
    }
  }
}
