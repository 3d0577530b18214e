/**
 * `ImageUploadField`: an upload of images stored as media of the model. Its
 * `multiple`, `collection`, `allowedMimeTypes` and `enableTUS` are the same
 * code as `FileUploadField`'s and are modelled there.
 */
module ImageUploadField {
  import opened Wrappers
  import opened Values
  import opened Definitions
  import opened FieldBase
  import FileUploadField

  /** The mime types a new image upload accepts. */
  const ImageMimeTypes: seq<string> := ["image/jpeg", "image/png"]

  /** `new ImageUploadField($name)`: input `image-upload`, media type `images`, JPEG and PNG only. */
  method Create(name: Option<string>) returns (f: BaseField)
    ensures fresh(f) && f.kind == ImageUpload && f.Valid() && NamedAs(f, name)
    ensures f.definition == Named(DefaultDefinition().(typ := Some("MEDIA"), inputType := Some("image-upload"),
              fillable := false, default := Arr([]),
              extraData := FileUploadField.UploadExtra("images", ImageMimeTypes) + [(S("collection"), OptStr(name))]), name)
    ensures f.requiredRule == "nullable" && f.validationRules == ["array"] && f.group == None
  {
    f := FileUploadField.CreateUpload(ImageUpload, "image-upload", "images", ImageMimeTypes, name);
  }
}
