/** `upload_image` of image_upload/views.py: a staff upload through the
    web form stores the file under `{publisher}_{range}_{name}_initial{ext}`
    in the upload directory and saves the image row. */
module UploadViews {
  import opened Wrappers
  import opened Naming
  import opened Paths
  import opened EntryModels
  import opened Store
  import opened Filenames
  import opened Renaming

  /** The name `upload_image` asks the storage for: the camelCase tokens of
      the form's publisher, range and name, "_initial", and the extension of
      the uploaded file's own name. */
  function UploadFilename(form: Image, uploadName: string): string {
    InitialFilename(form.publisher, form.range, Some(form.name), SplitExt(uploadName).1)
  }

  /** The name has four '_'-separated fields ending in "initial", keeps the
      uploaded extension character for character, has no directory part,
      starts with "unknown" when there is no publisher, and is in the new
      format, so the batch renaming tools skip it. */
  lemma UploadFilenameShape(form: Image, uploadName: string)
    ensures var f := UploadFilename(form, uploadName);
            var base := Stem(form.publisher, form.range, Some(form.name)) + "_initial";
            SplitExt(f) == (base, SplitExt(uploadName).1) &&
            SplitOn(base, '_') == [ToCamelCase(form.publisher), ToCamelCase(form.range),
                                   ToCamelCase(Some(form.name)), "initial"] &&
            IsNewFormat(f)
  {
    InitialFilenameParts(form.publisher, form.range, Some(form.name), SplitExt(uploadName).1);
  }

  /** The name is a plain file name, so it lands in the upload
      directory. */
  lemma UploadFilenamePlain(form: Image, uploadName: string)
    ensures '/' !in UploadFilename(form, uploadName) && UploadFilename(form, uploadName) != []
  {
    InitialFilenamePlain(form.publisher, form.range, Some(form.name), SplitExt(uploadName).1);
  }

  /** A missing publisher or range contributes the field "unknown". */
  lemma UploadUnknownFields(form: Image, uploadName: string)
    ensures var parts := SplitOn(SplitExt(UploadFilename(form, uploadName)).0, '_');
            |parts| == 4 &&
            (form.publisher.None? ==> parts[0] == "unknown") &&
            (form.range.None? ==> parts[1] == "unknown")
  {
    UploadFilenameShape(form, uploadName);
    if form.publisher.None? {
      CamelUnknown(form.publisher);
    }
    if form.range.None? {
      CamelUnknown(form.range);
    }
  }

  /** The `max_length` of the image column: `FileField`'s default, as the
      `ImageField` of image_upload/models.py sets none. */
  const MaxFileLength := 100

  /** The storage keeps the asked name only when the path is free and fits
      the column (`Storage.get_available_name`). */
  predicate Available(files: Files, name: string) {
    UploadDir + name !in files && |UploadDir + name| <= MaxFileLength
  }

  /** Where the storage puts a file asked for under `name`: there, when the
      name is available; otherwise the free name its renaming rule picks
      (the root cut to fit and a random suffix added), passed in as
      `alternative`. */
  function StoredName(files: Files, name: string, alternative: string): (r: string)
    ensures r == UploadDir + name <==> Available(files, name) || alternative == UploadDir + name
    ensures |UploadDir + name| > MaxFileLength ==> r == alternative
  {
    if Available(files, name) then UploadDir + name else alternative
  }

  /** `image.image.save(name, content, save=False)` followed by
      `image.save()` for a new image row `form`, uploaded at `now`. */
  method StoreUpload(db: Database, form: Image, name: string, content: Blob, alternative: string, now: Timestamp)
    returns (id: Id, stored: string)
    requires !Available(db.files, name) ==> alternative !in db.files
    modifies db
    ensures id == Fresh(old(db.images).Keys) && id !in old(db.images)
    ensures stored == StoredName(old(db.files), name, alternative) && stored !in old(db.files)
    ensures db.files == old(db.files)[stored := content]
    ensures db.images == old(db.images)[id := form.(file := stored, uploadDate := now)]
    ensures db.entries == old(db.entries) && db.tags == old(db.tags) && db.tagTypes == old(db.tagTypes)
  {
    stored := StoredName(db.files, name, alternative);
    db.files := db.files[stored := content];
    id := Fresh(db.images.Keys);
    db.images := db.images[id := form.(file := stored, uploadDate := now)];
  }

  /** The unsaved row `form.save(commit=False)` builds from the cleaned
      fields of `ImageUploadForm`, which has no field for the entry or the
      primary flag: the row belongs to no entry and is not primary. */
  function FormImage(name: string, publisher: Option<string>, range: Option<string>, now: Timestamp): Image {
    Image(None, [], name, publisher, range, false, now)
  }

  /** `upload_image` on a valid POST: the form's name, publisher and range,
      and the uploaded file's name and content. */
  method UploadImage(db: Database, name: string, publisher: Option<string>, range: Option<string>,
                     uploadName: string, content: Blob, alternative: string, now: Timestamp)
    returns (id: Id, filename: string)
    requires !Available(db.files, UploadFilename(FormImage(name, publisher, range, now), uploadName)) ==>
             alternative !in db.files
    modifies db
    ensures filename == UploadFilename(FormImage(name, publisher, range, now), uploadName)
    ensures id == Fresh(old(db.images).Keys) && id !in old(db.images)
    ensures var stored := StoredName(old(db.files), filename, alternative);
            db.files == old(db.files)[stored := content] &&
            db.images == old(db.images)[id := Image(None, stored, name, publisher, range, false, now)]
    ensures db.images[id].entry.None? && !db.images[id].isPrimary
    ensures db.entries == old(db.entries) && db.tags == old(db.tags) && db.tagTypes == old(db.tagTypes)
  {
    var form := FormImage(name, publisher, range, now);
    filename := UploadFilename(form, uploadName);
    var stored;
    id, stored := StoreUpload(db, form, filename, content, alternative, now);
  }

  /** An upload stored under the name it asked for is a record the batch
      renaming tools do not select. A name that is taken or too long for
      the column is stored under the alternative instead. */
  lemma UploadNotRenamed(form: Image, uploadName: string, files: Files, alternative: string, now: Timestamp)
    requires Available(files, UploadFilename(form, uploadName))
    ensures var stored := StoredName(files, UploadFilename(form, uploadName), alternative);
            !NeedsRename(form.(file := stored, uploadDate := now)) && StartsWithDir(stored)
  {
    var f := UploadFilename(form, uploadName);
    UploadFilenamePlain(form, uploadName);
    UploadFilenameShape(form, uploadName);
    BasenameInUploadDir(f);
    assert (UploadDir + f)[|UploadDir|..] == f;
  }
}
