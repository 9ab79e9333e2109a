# stl-collection in Dafny

stl-collection is a Django application for cataloguing miniature (STL)
models. An *entry* has a name, an optional publisher and range, and a set
of *tags*. Each entry has *images*, whose files sit in the
`uploaded_images/` storage directory. Tags belong to *tag types*; a tag
type may name a *reference tag type*, and a tag of it may then reference a
tag of that type.

This project models the rule-bearing core of the application and proves
properties of it. The database is a class `Store.Database` whose fields
are maps: entries, images, tags and tag types by id, plus the storage as a
map from stored file name to content. The environment's failures are
given as fixed sets of paths and ids where a rename, a removal or a save
raises.

- **Naming** (`Naming`, `Filenames`, `Paths`). The `to_camel_case` helper
  appears five times in the source with the same body. It is modelled once
  as `Naming.ToCamelCase` and compared with an independent one-pass
  scanner. The module also states the two filename patterns
  `{publisher}_{range}_{name}_initial{ext}` and
  `{publisher}_{range}_{name}_{8 hex}{ext}`, and the `_initial`
  new-format check.
- **Uploads** (`UploadViews`, `ApiViews`).
  - The staff upload form and the Basic-authenticated JSON API.
  - Header parsing, `is_primary`, and the upload preconditions.
  - The duplicate check and entry creation with get-or-create of tags and
    tag types.
- **Rename protocols** (`Renaming`, `RenameScript`, `RenameCommand`).
  - The shared one-image protocol: it refuses a taken target, moves the
    file, saves the record, and on a failed save moves the file back best
    effort.
  - The stand-alone script: dry-run selection, confirmation, counting.
  - The management command: analysis, `--dry-run`, `--force`, counting.
- **Collection views** (`CollectionViews`). The gallery filters; the edit,
  which copies metadata into every image and then renames every existing
  file; the delete, which ignores removal errors.
- **Tag rules** (`TagModels`, `TagForms`, `TagViews`, `TagAssign`).
  - `Tag.clean` and the no-self-reference constraint; colours.
  - The forms' choice restrictions and validator.
  - The tag-list filters, reference-tag lookup, sort-order update,
    delete guard and visibility toggles.
  - Bulk and quick tag assignment with the one-level reference cascade and
    its counters; the missing-tag-type filter.
- **Display image** (`EntryModels`): the primary image, else the earliest
  upload.

Inputs the application draws from its environment are parameters: the
eight-hex `uuid4` suffixes, the typed confirmation, the upload time, the
result of base64 decoding, and whether `authenticate` accepts a staff user.

Where a tool renames a file, it moves it inside the directory of its
current path but records `uploaded_images/` plus the new name. The two
agree for the records the application itself creates, which all live in
`uploaded_images/`. `Renaming.RenamedRecordNamesFile` carries that
precondition.

Two facts about the camelCase rule in the code:
- the token is not idempotent: applying the rule to its own output
  lower-cases the later words (`Naming.CamelNotIdempotent`);
- each later word goes through `capitalize`, which upper-cases its first
  character and lower-cases the rest, so a later word "iPhone" becomes
  "Iphone" (`Naming.ScanWords`).

The duplicate check of the JSON API takes its matching rule as a
parameter `ApiViews.DuplicateTest`. `AsWritten` is the filter the code
runs: `iexact` against the stripped request values, so an empty value
matches only a stored ''. `Corrected` also lets an empty value match a
stored NULL, which is what entry creation stores for an empty publisher
or range. `FindDuplicate`, `CheckDuplicate` and `CreateEntry` hold for
either rule; the lemmas beside them say where the two rules part (see
"## Findings").

## Model

| member | source | states |
|---|---|---|
| Ascii.ParseDigitGroups | tags/views.py:30 | `int()` of digits, with single underscores allowed between them, is the value of the digits once the underscores are dropped |
| Ascii.UnderscoreIgnored | tags/forms.py:32 | `int()` ignores a single underscore between two digit strings: the text parses as the digits joined |
| Ascii.ParseNatToString | tags/views.py:45 | `int()` of the decimal text of a natural number gives the number back |
| Ascii.IsSubstringAt | collection/views.py:37-45 | `needle in haystack` holds exactly when the needle occurs at some position of the haystack |
| Naming.Words | rename_files_to_new_format.py:30-32 | splitting on runs of non-alphanumerics and dropping empty strings yields only non-empty words of ASCII letters and digits |
| Naming.WordsEmptyIff | image_upload/api_views.py:21-28 | the word list is empty exactly when the text has no ASCII letter or digit |
| Naming.WordsStrip | image_upload/views.py:15 | `strip()` before the split does not change the words |
| Naming.CamelUnknown | image_upload/api_views.py:21-28 | None, the empty string and text without a letter or digit give "unknown" |
| Naming.CamelIsToken | collection/views.py:16-30 | the token is never empty and holds only ASCII letters and digits, so no '_', '.' or '/' |
| Naming.CamelKeepsAlnums | image_upload/views.py:10-24 | with some letter or digit present, the token has exactly as many characters as the input has letters and digits, equal to them in order up to case |
| Naming.CamelMatchesScan | rename_files_to_new_format.py:25-39 | the token equals an independent single-pass scan: the first run lower-cased, each later run with its first character upper-cased and the rest lower-cased; "unknown" without letters or digits |
| Naming.ScanWords | image_upload/management/commands/rename_to_new_format.py:130-139 | the scanner produces the first word lower-cased followed by `capitalize` of every later word |
| Naming.ScanKeepsAlnums | image_upload/management/commands/rename_to_new_format.py:125-139 | the scanner keeps exactly the letters and digits of its input, in order up to case |
| Naming.TokenIsOneWord | image_upload/management/commands/rename_to_new_format.py:130-132 | a token of letters and digits survives `strip` and splits into itself alone |
| Naming.CamelNotIdempotent | image_upload/management/commands/rename_to_new_format.py:136-138 | for text with two words whose second starts with a letter, applying the rule to its own output changes it |
| Paths.SplitExt | image_upload/views.py:39 | `os.path.splitext` splits the path into two parts that concatenate back to it, the second empty or a dot and non-separator characters |
| Paths.Basename | rename_files_to_new_format.py:71 | `os.path.basename` holds no '/' |
| Paths.ReplaceBasenameParts | rename_files_to_new_format.py:80 | joining a plain name to the directory of a path gives a path whose base name is that name and whose directory is unchanged |
| Paths.SplitExtOfPlain | rename_files_to_new_format.py:61 | a base followed by an extension splits back into exactly that base and extension |
| Paths.SplitOnCons | image_upload/views.py:47 | splitting on '_' separates at every '_' of a joined name |
| Filenames.KeptExtension | rename_files_to_new_format.py:44-47 | the extension kept is that of the stored name, or ".jpg" for a record without a file, and is a valid extension |
| Filenames.InitialFilenameParts | rename_files_to_new_format.py:41-56 | the `_initial` name splits into base and the given extension, and its base splits on '_' into the three tokens and "initial" |
| Filenames.SuffixedFilenameParts | collection/views.py:117-122 | the suffixed name splits into base and the given extension, its base into the three tokens and the suffix, and it is not in the new format |
| Filenames.GeneratedIsNewFormat | rename_files_to_new_format.py:55-62 | a generated name is in the new format and keeps the stored extension |
| Filenames.GeneratedUnknownFields | rename_files_to_new_format.py:50-55 | a generated name has four '_' fields, the first "unknown" without publisher and the second "unknown" without range |
| Filenames.GeneratedIsPlain | rename_files_to_new_format.py:55 | a generated name is non-empty and has no directory part |
| EntryModels.EarliestIndex | image_upload/models.py:36 | the index chosen holds an upload date no later than any other |
| EntryModels.Primaries | image_upload/models.py:33 | holds exactly the primary images |
| EntryModels.DisplayImageChoice | image_upload/models.py:29-36 | there is a display image exactly when there is an image; it is one of them; it is primary and the earliest primary when some image is primary, else the earliest upload |
| Store.Move | rename_files_to_new_format.py:92 | `os.rename` puts the content of the source at the destination, drops the source and keeps every other file |
| Store.RenameFile | rename_files_to_new_format.py:92 | a rename succeeds exactly when the source exists and the OS does not refuse it |
| Store.RemoveFile | collection/views.py:157-158 | a removal succeeds exactly when the file exists and the OS does not refuse it |
| Store.MoveBack | rename_files_to_new_format.py:104-107 | moving a file to a free name and back restores the storage |
| Store.MoveToFreeName | rename_files_to_new_format.py:87-92 | a move to a free name keeps the number of files and their contents |
| Store.Fresh | image_upload/views.py:54 | a new row's id is unused and larger than every existing id |
| Store.Database.Rename | rename_files_to_new_format.py:92 | the storage becomes the moved storage exactly when the rename succeeds; nothing else changes |
| Store.Database.Remove | collection/views.py:157-158 | the file is gone exactly when the removal succeeds; nothing else changes |
| Store.Database.SaveImage | rename_files_to_new_format.py:95-96 | the record is written exactly when its save does not fail; nothing else changes |
| Store.Database.SetEntryTags | tag_assign/views.py:169-178 | the entry's tag set becomes the given set; nothing else changes |
| Renaming.RenameOutcome | rename_files_to_new_format.py:84-110 | success means the source existed, the target was free, the file moved and only the record changed; failure leaves every record and, except when the move back is refused, the storage unchanged |
| Renaming.RollbackRestores | image_upload/management/commands/rename_to_new_format.py:223-236 | when the save fails and the move back is allowed, the storage ends exactly as it started |
| Renaming.RenameKeepsFiles | rename_files_to_new_format.py:84-110 | no run loses a file: as many files, same contents |
| Renaming.RenamedRecordNamesFile | rename_files_to_new_format.py:92-99 | for a record in the upload directory, success points the record at the moved file, which holds the old content and is in the new format |
| Renaming.RenameKeepsOthers | rename_files_to_new_format.py:92 | every file other than the one moved stays |
| Renaming.RenamedIsStored | image_upload/management/commands/rename_to_new_format.py:211-221 | after success the target holds the file and its base name is in the new format |
| Renaming.RenamedIsDone | rename_files_to_new_format.py:74-76 | a renamed record is skipped by a later run |
| Renaming.Batch | rename_files_to_new_format.py:155-162 | successes plus errors equal the number of planned images, and one target is recorded per success |
| Renaming.BatchKeepsFiles | image_upload/management/commands/rename_to_new_format.py:93-97 | a batch changes only the records of planned images and keeps the number and contents of files |
| Renaming.BatchKeepsOthers | rename_files_to_new_format.py:158-162 | a batch leaves records outside the plan unchanged |
| Renaming.BatchTargetsStored | rename_files_to_new_format.py:158-162 | every successful target still holds its file at the end, under a base name in the new format |
| Renaming.BatchTargetsDistinct | rename_files_to_new_format.py:87-89 | no two successful renames of a batch share a target path; so among images with equal metadata whose files share a directory and an extension, and which thus want the same path, at most one is renamed |
| Renaming.BatchWithoutErrors | rename_files_to_new_format.py:158-162 | after a batch without errors each planned record is its renamed original |
| Renaming.ConfirmsOnlyY | image_upload/management/commands/rename_to_new_format.py:77-81 | only the answers "y" and "Y" confirm |
| Renaming.RenameInDatabase | image_upload/management/commands/rename_to_new_format.py:192-236 | the database's storage and records become those of one run of the protocol, and the result is its success |
| Renaming.RenameAll | image_upload/management/commands/rename_to_new_format.py:90-97 | storage, records and counters are those of the batch over the plan, and the counters add up to the plan's length |
| RenameScript.RenameFileModes | rename_files_to_new_format.py:64-112 | a dry run changes nothing and answers whether the image needs renaming; a real run of such an image is the protocol, of any other a refusal without change |
| RenameScript.Selected | rename_files_to_new_format.py:129-133 | the selection is no longer than the image list |
| RenameScript.SelectedMembers | rename_files_to_new_format.py:129-133 | the selection holds exactly the images with a file not in the new format |
| RenameScript.SelectedFacts | rename_files_to_new_format.py:129-133 | the selection holds each image at most once and only images that need renaming |
| RenameScript.SecondRunFindsNothing | rename_files_to_new_format.py:129-140 | after a run without errors a second run selects nothing |
| RenameScript.NothingSelected | rename_files_to_new_format.py:138-140 | when no image needs renaming the selection is empty |
| RenameScript.RenameFileAndUpdateDbIn | rename_files_to_new_format.py:64-112 | the database changes as the function's step says and the result is its success flag |
| RenameScript.DryRun | rename_files_to_new_format.py:129-133 | the dry-run loop changes nothing and returns the selection |
| RenameScript.RenameSelected | rename_files_to_new_format.py:155-162 | storage, records and counters are those of the batch, and successes plus errors equal the selection's size |
| RenameScript.RunScript | rename_files_to_new_format.py:114-162 | nothing selected ends without change, an unconfirmed run is cancelled without change, a confirmed run ends in the batch's state with its counters |
| RenameCommand.AnalyzeIff | image_upload/management/commands/rename_to_new_format.py:164-190 | `analyze_file` accepts exactly images with a file not in the new format that exists on disk |
| RenameCommand.Analyzed | image_upload/management/commands/rename_to_new_format.py:51-55 | the selection is no longer than the image list |
| RenameCommand.AnalyzedMembers | image_upload/management/commands/rename_to_new_format.py:51-55 | the selection holds exactly the images `analyze_file` accepts |
| RenameCommand.AnalyzedFacts | image_upload/management/commands/rename_to_new_format.py:51-55 | each image at most once, each needing renaming with its file on disk |
| RenameCommand.AnalyzedWithinSelected | image_upload/management/commands/rename_to_new_format.py:164-190 | the command selects what the script selects, less images whose file is missing |
| RenameCommand.Handle | image_upload/management/commands/rename_to_new_format.py:33-123 | nothing selected, `--dry-run`, or a refused confirmation without `--force` change nothing; otherwise the batch's state and counters result |
| UploadViews.UploadFilenameShape | image_upload/views.py:39-47 | the name splits into the three tokens and "initial", keeps the uploaded extension character for character, and is in the new format |
| UploadViews.UploadFilenamePlain | image_upload/views.py:47 | the name is non-empty and has no directory part |
| UploadViews.UploadUnknownFields | image_upload/views.py:42-43 | a missing publisher or range gives the field "unknown" |
| UploadViews.StoredName | image_upload/models.py:47 | the asked path is kept exactly when it is free and fits the image column's 100 characters, the default `max_length` of a file field; a longer path always gives way to the storage's alternative |
| UploadViews.StoreUpload | image_upload/views.py:51-54 | the file is stored under the asked name when that path is free and fits the column, otherwise under the storage's free alternative; the record gets a fresh id and the stored name |
| UploadViews.UploadImage | image_upload/views.py:27-60 | the upload stores the content under the `_initial` name, or under the storage's alternative when that path is taken or too long, and adds one image row with a fresh id naming it, carrying the form's name, publisher and range, belonging to no entry and not primary, as `ImageUploadForm` has no field for either; other tables are unchanged |
| UploadViews.UploadNotRenamed | image_upload/views.py:47-54 | an upload whose `_initial` path is free and fits the column is stored under it and is not selected by the batch tools |
| ApiViews.BasicCredentials | image_upload/api_views.py:40-58 | user-id and password of section 2 of RFC 7617 are split back at the first ':', so a password may contain ':' |
| ApiViews.BasicAuthOutcome | image_upload/api_views.py:35-65 | a missing "Basic " prefix, an undecodable value or one without ':' give exactly their 401s; a granted user has no ':' |
| ApiViews.IsPrimaryIff | image_upload/api_views.py:287 | the flag is set exactly by "true" in any mix of cases and cleared when absent |
| ApiViews.UploadTargetOutcome | image_upload/api_views.py:286-306 | missing id, then missing file, then unknown entry are refused in that order; success names an existing entry parsed from the id |
| ApiViews.ApiUploadNameShape | image_upload/api_views.py:311-319 | the name's base splits into the three tokens and the suffix, it keeps the uploaded extension, and it is not in the new format |
| ApiViews.ApiUploadSelected | image_upload/api_views.py:319-333 | an API upload stored under its name is one the batch tools rename |
| ApiViews.ApiUploadImage | image_upload/api_views.py:275-340 | a refused request changes nothing and reports its error; an accepted one stores the file, under the generated name or, when that path is taken or too long, the storage's alternative, and one image row copying the entry's metadata and the primary flag |
| ApiViews.OrNone | image_upload/api_views.py:208-210 | `value or None` is None exactly for the empty string and the value otherwise |
| ApiViews.DuplicateMissedAsWritten | image_upload/api_views.py:191-211 | as written, an entry created without a publisher or without a range is not matched by the request that created it |
| ApiViews.MatchesAgree | image_upload/api_views.py:105-109 | with publisher and range given, the corrected and the written duplicate tests agree |
| ApiViews.CreatedIsFound | image_upload/api_views.py:191-211 | with the corrected test, a created entry is matched by the request that created it |
| ApiViews.RepeatFoundWhenCorrected | image_upload/api_views.py:191-211 | with the corrected test, after an entry is created the same request finds a duplicate |
| ApiViews.RepeatMissedAsWritten | image_upload/api_views.py:191-211 | as written, when a request without a publisher or range found no duplicate and created an entry, repeating it still finds none |
| ApiViews.FindDuplicate | image_upload/api_views.py:104-109 | under the given test (the code's `iexact` filter, or the corrected one), None exactly when no entry matches; otherwise a matching entry with the latest upload date |
| ApiViews.CheckDuplicate | image_upload/api_views.py:88-122 | under the given test, 400 exactly for a blank name, "does not exist" exactly when nothing matches, otherwise the id and name of the matching entry with the latest upload date, as `.first()` returns it |
| ApiViews.RowNamed | image_upload/api_views.py:226-246 | the lookup of `get_or_create` by name finds a row of that name, or None when no row has it; used for tags and tag types alike |
| ApiViews.GetOrCreateTypeFacts | image_upload/api_views.py:226-236 | the result is a type of the configured name; nothing existing changes and an existing one is reused |
| ApiViews.GetOrCreateTagFacts | image_upload/api_views.py:243-246 | the result is a tag of that name; nothing existing changes and an existing one is reused |
| ApiViews.StripAll | image_upload/api_views.py:241 | strips every name and keeps their number |
| ApiViews.Nonblank | image_upload/api_views.py:242 | keeps only non-empty names |
| ApiViews.AddNamesFacts | image_upload/api_views.py:240-247 | one tag is collected per non-blank name, named by it, and existing rows stay |
| ApiViews.AddConfigsKeeps | image_upload/api_views.py:224-236 | existing rows stay and every configured tag type exists afterwards |
| ApiViews.AddConfigsNames | image_upload/api_views.py:221-247 | the collected tags are, in order, one per requested name, named by it |
| ApiViews.AddConfigsUnique | image_upload/api_views.py:226-246 | creation never makes a second tag or tag type of one name |
| ApiViews.OtherKeysIgnored | image_upload/api_views.py:214-239 | names under any key other than the four configured types change nothing |
| ApiViews.RepeatsShareTag | image_upload/api_views.py:247-257 | `tags_assigned` counts repeated names, and equal names get the same tag |
| ApiViews.TagSet | image_upload/api_views.py:250-251 | the entry receives exactly the collected tags |
| ApiViews.CreateEntry | image_upload/api_views.py:158-264 | under the given duplicate test: invalid JSON, a blank name (400) and a duplicate (409, naming the latest matching entry) change nothing; creation adds one entry with a fresh id, the get-or-created tags, and `tags_assigned` equal to the number of requested names |
| ApiViews.CreateTwice | image_upload/api_views.py:191-211 | after a request creates an entry, the same request again is refused with 409 under the corrected test, and creates a second, distinct entry under the test as written when the publisher or range is empty |
| ApiViews.CreateWithTags | image_upload/api_views.py:204-258 | the new entry gets the collected tags and the count is the number of requested names |
| ApiViews.AddAllTags | image_upload/api_views.py:221-247 | the tag tables and collected list are those of the get-or-create fold |
| ApiViews.AddConfig | image_upload/api_views.py:225-247 | one tag type's turn gets or creates the type, then folds get-or-create over its stripped names under that type; entries, images and files are untouched |
| ApiViews.AddNamesIn | image_upload/api_views.py:240-247 | the loop over one type's names is the get-or-create fold over them |
| CollectionViews.Searched | collection/views.py:37-45 | with a search text, an entry stays exactly when its name, publisher, range or one of its tags' names contains it ignoring ASCII case; an empty text keeps every entry |
| CollectionViews.Published | collection/views.py:47-50 | with a publisher text, an entry stays exactly when its publisher contains it ignoring ASCII case; an empty text keeps every entry |
| CollectionViews.Ranged | collection/views.py:52-55 | with a range text, an entry stays exactly when its range contains it ignoring ASCII case; an empty text keeps every entry |
| CollectionViews.KeepTaggedIsAll | collection/views.py:58-62 | chained tag filters keep an entry exactly when it carries every selected tag |
| CollectionViews.GalleryListsMatches | collection/views.py:33-62 | an entry is listed exactly when it passes the search over name, publisher, range and tag names, the publisher and range substrings, and all selected tags |
| CollectionViews.MoreTagsFewerEntries | collection/views.py:58-62 | selecting one more tag never lists more entries |
| CollectionViews.Propagate | collection/views.py:104-108 | keeps the image rows |
| CollectionViews.RenameOnEditOutcome | collection/views.py:112-131 | an existing file the OS lets move is renamed to its fresh name, whatever the metadata; its record follows unless the save raises; a missing file or a failed rename changes nothing |
| CollectionViews.EditNameFacts | collection/views.py:113-123 | the fresh name keeps the old extension, lands in the upload directory, and is not an `_initial` name |
| CollectionViews.EditLoopOnlyRenames | collection/views.py:111-131 | the loop changes only the stored file names of the images it visits |
| CollectionViews.RenameOnEditAborted | collection/views.py:126-131 | after a save has raised, a pass changes nothing |
| CollectionViews.RenameOnEditOnlyFile | collection/views.py:126-129 | one pass changes at most the file of the image it handles |
| CollectionViews.AbortedLoopStays | collection/views.py:111-131 | after a save has raised, the rest of the loop changes nothing |
| CollectionViews.EditPropagates | collection/views.py:104-131 | every image of the entry carries its new name, publisher and range whether or not its file exists; other entries' images are untouched |
| CollectionViews.RenameOnEditIn | collection/views.py:112-131 | the database changes as one pass says |
| CollectionViews.EditEntry | collection/views.py:91-134 | the entry is updated, the images are propagated, and the storage and records are those of the rename loop |
| CollectionViews.RemoveAllRemoves | collection/views.py:154-160 | the removal loop deletes exactly the named files the OS lets it remove and keeps every other file |
| CollectionViews.FilesOf | collection/views.py:154-158 | lists the stored file of each image in order |
| CollectionViews.DeleteEntry | collection/views.py:145-166 | files are removed as the loop allows, and the entry and its images are deleted regardless |
| CollectionViews.DeleteOutcome | collection/views.py:153-163 | the entry's images are gone, other rows are unchanged, and only files of the entry's images can be missing |
| TagModels.CleanAccepts | tags/models.py:53-79 | `clean` accepts exactly a tag without a reference, or one referencing another tag whose type is its type's reference type |
| TagModels.CleanPrecedence | tags/models.py:58-79 | each error is raised exactly when the earlier checks pass and its own fails: self-reference, missing type, type without references, wrong type |
| TagModels.UnsavedNeverSelfReference | tags/models.py:58 | the self-reference check fires only for saved tags |
| TagModels.TypeCheckExcludesSelf | tags/models.py:24-29 | under the no-self-reference constraint, a tag referencing itself already fails the type check |
| TagModels.LStrip | tags/models.py:91 | `lstrip('#')` drops a prefix of '#' only |
| TagModels.HexDigitValue | tags/models.py:92-94 | a hex digit is worth less than 16 |
| TagModels.Channel | tags/models.py:92-94 | two hex digits make a channel of at most 255 |
| TagModels.HexPair | tags/models.py:92-94 | `int(s, 16)` of two hex digits is their channel value |
| TagModels.ChannelAt | tags/models.py:91-94 | each two-digit slice of a `#rrggbb` colour parses to its channel |
| TagModels.Brightness | tags/models.py:97 | the weighted brightness, times 1000, lies between 0 and 255000 |
| TagModels.TextOnHex | tags/models.py:90-100 | on a `#rrggbb` colour the text is black exactly when 299r+587g+114b exceeds 128000 |
| TagModels.TextOnParsed | tags/models.py:97-100 | the text colour follows the integer comparison of the weighted sum with 128000 |
| TagModels.DefaultTextIsWhite | tags/models.py:7 | the default colour '#6c757d' gives white text |
| TagModels.TextFollowsColor | tags/models.py:81-100 | the text colour is computed from `get_color`; without a type the colour is the default and the text white |
| TagForms.SubmittedType | tags/forms.py:31-33 | a submitted type is found exactly when the value parses to the id of an existing type |
| TagForms.FormCleanIsCleanWithoutSelf | tags/forms.py:46-68 | the form validator accepts and rejects as `Tag.clean` on an unsaved tag; the model's check differs only by the self-reference |
| TagForms.EditChoicesAreAccepted | tags/forms.py:24-28 | when editing, a tag is offered exactly when `Tag.clean` would accept it as the reference |
| TagForms.SubmittedChoicesAreAccepted | tags/forms.py:29-41 | on submission the choices are exactly the references the form validator accepts, empty for an unparsable or unknown type |
| TagForms.NoTypeNoChoices | tags/forms.py:42-44 | with no type on the instance or in the data, there is no choice |
| TagForms.TagForm.constructor | tags/forms.py:15-44 | type choices are the active types; reference choices follow the edit, submission and empty cases |
| TagForms.ReferenceTypeChoicesAccepted | tags/forms.py:115-119 | a type is offered exactly when it exists and, when editing, is not the instance |
| TagForms.TagTypeForm.constructor | tags/forms.py:104-119 | the reference-type choices exclude the edited instance |
| TagViews.TypeFilterCases | tags/views.py:23-39 | "none" keeps untyped tags, an integer keeps that type's tags, anything else keeps all |
| TagViews.ReferenceFilterCases | tags/views.py:42-51 | "none" keeps tags without reference, an integer keeps tags referencing it, anything else keeps all |
| TagViews.FiltersCombine | tags/views.py:23-51 | both filters together keep exactly the tags that pass each |
| TagViews.ListedReferenceTagsAgree | tags/views.py:33-37 | the reference tags offered for a type filter are those `get_reference_tags` lists |
| TagViews.ReferenceTagsAccepted | tags/views.py:196-214 | an existing type gets an answer; `has_reference` is whether it has a reference type; the list is empty without one, else exactly the tags the form validator accepts as references |
| TagViews.OrderKeepsRows | tags/views.py:225-230 | the order update keeps every row and changes only sort orders |
| TagViews.OrderSucceeds | tags/views.py:220-234 | the update succeeds exactly when no applying item asks an existing type for an order the column cannot hold: a negative one, or one above the column's largest integer |
| TagViews.OrderApplied | tags/views.py:225-230 | after success each type has its last requested order, or its old one when not listed |
| TagViews.OrderKeepsValid | tags/views.py:225-230 | the update keeps the tag types' database constraints |
| TagViews.ApplyOrderStops | tags/views.py:233-234 | a failing item ends the update, keeping earlier writes |
| TagViews.UpdateTagtypeOrder | tags/views.py:218-234 | the database's tag types and the reply are those of the order fold; other tables are unchanged |
| TagViews.DeleteKeepsIntegrity | tags/views.py:183-187 | deleting an unused type removes it, keeps constraints, sets referencing types' reference to null, and leaves every tag's links valid |
| TagViews.DeleteTagType | tags/views.py:176-189 | 404 exactly for an unknown type; refused with the count exactly when tags use it; otherwise the type is deleted |
| TagViews.ToggleGalleryVisibility | tags/views.py:238-250 | an existing type gets the posted value, defaulting to true; an unknown id fails without change |
| TagViews.ToggleUploadVisibility | tags/views.py:254-266 | an existing type gets the posted value, defaulting to false; an unknown id fails without change |
| TagViews.ToggleDefaults | tags/views.py:243-259 | absent values give true for gallery and false for upload; a posted value is taken as is |
| TagAssign.Rows | tag_assign/views.py:160-161 | the rows found are distinct and are exactly the existing ids that were requested |
| TagAssign.RefsMember | tag_assign/views.py:173-174 | a tag is a reference of the selection exactly when it is a reference of one selected tag |
| TagAssign.RefCountBound | tag_assign/views.py:172-175 | the counter is at least the number of distinct references, and equal when the reference sets are disjoint |
| TagAssign.BulkAssign | tag_assign/views.py:149-190 | empty id lists fail without change; otherwise every found entry gets the action's tag set, others are unchanged, and the counters are entries × tags and entries × Σ references for "add" |
| TagAssign.AddTags | tag_assign/views.py:168-175 | adds every selected tag and its references and counts them |
| TagAssign.AddTag | tag_assign/views.py:169-175 | adds one tag and its references and counts the references |
| TagAssign.AddReferences | tag_assign/views.py:173-175 | adds each reference and counts each, already present or not |
| TagAssign.RemoveTags | tag_assign/views.py:177-179 | removes the selected tags and counts them |
| TagAssign.AddCascadesOneLevel | tag_assign/views.py:173-175 | after "add" a tag is present exactly when it was, is selected, or is a direct reference of a selected tag |
| TagAssign.RemoveKeepsReferences | tag_assign/views.py:176-179 | after "remove" a tag is present exactly when it was and is not selected; references stay |
| TagAssign.AddIdempotent | tag_assign/views.py:166-175 | adding twice is adding once |
| TagAssign.AddThenRemove | tag_assign/views.py:166-179 | add then remove restores the set exactly when the entry had none of the selected tags and already held every reference tag that is not itself selected |
| TagAssign.QuickAssign | tag_assign/views.py:197-243 | missing ids, unknown rows and unknown actions fail without change; otherwise the entry's set, the flags and `tag_count` follow toggle, add or remove |
| TagAssign.ToggleTwice | tag_assign/views.py:213-223 | toggle flips the tag's presence; toggling twice restores the set exactly when every reference tag other than the tag itself was already present, so always when it has none |
| TagAssign.QuickAgreesWithBulk | tag_assign/views.py:224-233 | quick add and remove give the bulk operation's set for one tag |
| TagAssign.AddingTypeClearsMissing | tag_assign/views.py:49-57 | after adding a tag of the type, an entry is no longer listed as missing it |
| TagAssign.RemovingTypeListsMissing | tag_assign/views.py:49-57 | after removing its only tags of the type, an entry is listed as missing it |

## Left out

- HTTP and framework plumbing are not modelled: request and response objects, templates, messages, redirects, pagination, the login and staff decorators, CSRF. Each view is modelled from its parsed inputs to its outcome and state change. Defaults the views apply while parsing are part of that boundary: `action` defaults to "add" in `bulk_assign_tags` (tag_assign/views.py:155) and to "toggle" in `quick_assign_tag` (tag_assign/views.py:203), and `TagAssign.BulkAssign` and `TagAssign.QuickAssign` take the resulting string. A `tags` value of the gallery that is not a number makes `entries.filter(tags=tag)` raise and the request fail with a server error (collection/views.py:58-61); the gallery model takes tag ids as integers, so that failure is not modelled.
- `base64.b64decode` and `authenticate` are foreign calls and become parameters. The `uuid4` suffixes, the typed `input()` answer and the upload time are parameters too.
- `Store.Fresh`: the database's next id is modelled as one above every existing id; real databases may use other unused ids.
- Django storage's renaming inside `image.image.save`, for a path that is taken or longer than the column's 100 characters, is a parameter: the free name it would choose. The model decides when it applies (`UploadViews.StoredName`) but not the name it picks.
- `transaction.atomic` and concurrent requests are not modelled; each request runs alone.
- `iexact` is modelled as ASCII case-insensitive equality, where NULL matches nothing; databases differ on other alphabets.
- Strings are sequences of characters with ASCII case rules only; `re.split`, `lower` and `capitalize` are modelled on ASCII letters and digits, which is what the camelCase rule keeps.
- JSON values of unexpected types are not modelled. String ids, non-boolean toggle values and non-list id fields, which Django or the database would coerce or reject, are outside the model.
- TagAssign.BulkAssign: the order in which the queries return entries and tags is taken as the order of first request; the resulting sets and counters do not depend on it.
- TagAssign.QuickAssign: `tag_count` is the size of the entry's tag set after the operation; a database error in a many-to-many write is not modelled.
- TagViews.UpdateTagtypeOrder: an id given as a JSON string is not modelled; ids and sort orders are integers or absent. The largest sort order the column holds depends on the database (2^31 - 1 on PostgreSQL, 2^63 - 1 on SQLite) and is the parameter `maxOrder`.
- ParseInt: Python's `int()` also accepts non-ASCII decimal digits, such as Arabic-Indic or full-width digits; the model accepts only ASCII digits, with signs, surrounding whitespace and single underscores between digits. This applies to every caller: the entry id of the image upload, the `tag_type` and `reference_tag` filters of the tag list and of tag assignment, the submitted `tag_type` of the tag form, and the missing-tag-type filter.
- UploadViews.StoredName: Django storage also passes the name through `get_valid_name`, which turns spaces into '_' and removes characters other than letters, digits, '-', '_' and '.'. The model stores the generated name as it is. The camelCase tokens that make up the name already consist of letters and digits, so only an uploaded extension with other characters would differ.
- TagViews.UpdateTagtypeOrder, TagViews.ToggleGalleryVisibility and TagViews.ToggleUploadVisibility: a body that is not valid JSON makes `json.loads` raise; the view catches it and answers `success: False` with nothing written. The model starts from the parsed body, so this path is not modelled. `ApiViews.CreateEntry` does model its `InvalidJson` answer.
- The `show_in_gallery` and `set_at_upload` fields of a tag type, which the two visibility toggles write, are not declared in tags/models.py as it stands. `show_in_gallery` is added by tags/migrations/0004_tagtype_show_in_gallery.py; both are listed in `TagTypeForm` (tags/forms.py:73) and read by the views. The model takes both as fields of the tag type.
- Messages and log lines written by the views and the rename tools are not modelled.
- `tagtype_list`, `create_tag`, `edit_tag`, `delete_tag`, `create_tagtype`, `edit_tagtype`, `api_health` and `api_get_tags` only render or save forms; their validation is `Tag.clean` and the form rules, which are modelled.
- The plural `reference_tags` of tag assignment and the singular `reference_tag` of the tag model are both fields of the tag datatype, as the two schemas the source uses.
- The record path written by the rename tools is `uploaded_images/` plus the new name, while the file moves within its current directory; the model keeps both, and the lemma about the record's file assumes the record lies in `uploaded_images/`.

## Findings

| source | as written | input that shows it | evidently intended | confidence | as-written member | corrected member |
|---|---|---|---|---|---|---|
| image_upload/api_views.py:191-211 | the duplicate filter compares an empty publisher or range with '' via `iexact`, but creation stores None for them | two `create-entry` requests with name "X" and no publisher: the first stores publisher NULL, and the second's `publisher__iexact=''` does not match NULL, so a second entry "X" is created | an empty publisher or range matches a missing one, so the second request gets 409 | not executed | ApiViews.RepeatMissedAsWritten | ApiViews.RepeatFoundWhenCorrected |
