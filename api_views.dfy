/** The bulk-import endpoints of image_upload/api_views.py: the Basic
    authentication wrapper, the `is_primary` flag and the checks and
    filename of `api_upload_image`, the duplicate test shared by
    `api_check_duplicate` and `api_create_entry`, and the tag creation of
    `api_create_entry`. */
module ApiViews {
  import opened Wrappers
  import opened Ascii
  import opened Naming
  import opened Paths
  import opened EntryModels
  import opened TagModels
  import opened Store
  import opened Filenames
  import opened Renaming
  import opened UploadViews

  // ------------------------------------------------------ basic authentication

  /** How `require_basic_auth` answers; every refusal is a 401 response. */
  datatype AuthResult =
    | Authorized(username: string)
    | AuthenticationRequired
    | InvalidCredentials
    | AuthenticationFailed

  /** `require_basic_auth` on the Authorization header `header` ("" when
      absent). `decode` stands for `b64decode(...).decode('utf-8')`, None
      when either raises; `staff(username, password)` for `authenticate`
      returning an active staff user. */
  function RequireBasicAuth(header: string, decode: string -> Option<string>,
                            staff: (string, string) -> bool): AuthResult
  {
    if !StartsWith(header, "Basic ") then AuthenticationRequired
    else
      match decode(header[6..])
      case None => AuthenticationFailed
      case Some(d) =>
        var i := Find(d, ':');
        if i < 0 then AuthenticationFailed
        else if staff(d[..i], d[i + 1..]) then Authorized(d[..i])
        else InvalidCredentials
  }

  /** The credentials of section 2 of RFC 7617 come back out: a user-id
      without ':' joined to any password by ':' is split at that colon, so
      the password may itself hold colons. */
  lemma BasicCredentials(header: string, decode: string -> Option<string>,
                         staff: (string, string) -> bool, user: string, password: string)
    requires StartsWith(header, "Basic ") && ':' !in user
    requires decode(header[6..]) == Some(user + ":" + password)
    ensures RequireBasicAuth(header, decode, staff) ==
            if staff(user, password) then Authorized(user) else InvalidCredentials
  {
    var d := user + ":" + password;
    assert d[|user|] == ':';
    assert Find(d, ':') == |user|;
    assert d[..|user|] == user && d[|user| + 1..] == password;
  }

  /** Which 401 a request gets: no "Basic " prefix, then an undecodable
      value or one without ':', then credentials that do not name a staff
      user. A granted request names a user without ':'. */
  lemma BasicAuthOutcome(header: string, decode: string -> Option<string>, staff: (string, string) -> bool)
    ensures var r := RequireBasicAuth(header, decode, staff);
            (r == AuthenticationRequired <==> !StartsWith(header, "Basic ")) &&
            (r == AuthenticationFailed <==>
               StartsWith(header, "Basic ") &&
               (decode(header[6..]).None? || ':' !in decode(header[6..]).value)) &&
            (r.Authorized? ==>
               (':' !in r.username &&
                decode(header[6..]) == Some(r.username + ":" + decode(header[6..]).value[|r.username| + 1..])))
  {
    if StartsWith(header, "Basic ") && decode(header[6..]).Some? {
      var d := decode(header[6..]).value;
      var i := Find(d, ':');
      if i >= 0 {
        assert ':' in d;
        assert d == d[..i] + ":" + d[i + 1..];
      } else {
        assert ':' !in d;
      }
    }
  }

  // ----------------------------------------------------------- image upload

  /** `request.POST.get('is_primary', 'false').lower() == 'true'`. */
  function IsPrimary(posted: Option<string>): bool {
    LowerStr(posted.GetOr("false")) == "true"
  }

  /** The flag is set exactly by the four letters "true" in any mix of
      cases; an absent field clears it. */
  lemma IsPrimaryIff(posted: Option<string>)
    ensures IsPrimary(posted) <==>
              posted.Some? && |posted.value| == 4 &&
              Lower(posted.value[0]) == 't' && Lower(posted.value[1]) == 'r' &&
              Lower(posted.value[2]) == 'u' && Lower(posted.value[3]) == 'e'
  {
    assert LowerStr("false") == "false";
    if posted.Some? && |posted.value| == 4 {
      var l := LowerStr(posted.value);
      if Lower(posted.value[0]) == 't' && Lower(posted.value[1]) == 'r' &&
         Lower(posted.value[2]) == 'u' && Lower(posted.value[3]) == 'e' {
        assert l == "true";
      }
    }
  }

  /** The uploaded file of the multipart body. */
  datatype Uploaded = Uploaded(name: string, content: Blob)

  /** The error responses of `api_upload_image`: two 400s, a 404, and the
      500 of the ValueError the id lookup raises for text that is not a
      number. */
  datatype UploadError = EntryIdRequired | ImageRequired | EntryNotFound(entryId: string) | BadEntryId

  /** The checks before anything is stored, in the order they are made. */
  function UploadTarget(entries: map<Id, Entry>, entryId: Option<string>, upload: Option<Uploaded>): Result<Id, UploadError> {
    if entryId.None? || entryId.value == [] then Failure(EntryIdRequired)
    else if upload.None? then Failure(ImageRequired)
    else
      match ParseInt(entryId.value)
      case None => Failure(BadEntryId)
      case Some(n) => if n >= 1 && n in entries then Success(n) else Failure(EntryNotFound(entryId.value))
  }

  /** An upload reaches an entry exactly when an id and a file are posted
      and the id is the decimal text of an existing entry; each error is
      given only when the checks before it passed. */
  lemma UploadTargetOutcome(entries: map<Id, Entry>, entryId: Option<string>, upload: Option<Uploaded>)
    ensures var r := UploadTarget(entries, entryId, upload);
            (r == Failure(EntryIdRequired) <==> entryId.None? || entryId.value == []) &&
            (r == Failure(ImageRequired) <==> entryId.Some? && entryId.value != [] && upload.None?) &&
            (r.Success? <==>
               (entryId.Some? && upload.Some? &&
                exists n: Id :: n in entries && ParseInt(entryId.value) == Some(n))) &&
            (r.Success? ==> r.value in entries && ParseInt(entryId.value) == Some(r.value as int))
  {
    var r := UploadTarget(entries, entryId, upload);
    if r.Success? {
      assert r.value in entries && ParseInt(entryId.value) == Some(r.value as int);
    }
    if entryId.Some? && upload.Some? && exists n: Id :: n in entries && ParseInt(entryId.value) == Some(n) {
      var n: Id :| n in entries && ParseInt(entryId.value) == Some(n);
      assert Strip(entryId.value) != [];
    }
  }

  /** The stored filename of an API upload: the entry's tokens, the fresh
      suffix and the uploaded extension. */
  function ApiUploadName(e: Entry, uploadName: string, suffix: string): string {
    SuffixedFilename(e.publisher, e.range, Some(e.name), suffix, SplitExt(uploadName).1)
  }

  /** The name splits into the three tokens and the suffix, keeps the
      uploaded extension, and is not in the `_initial` format: stored under
      it, the image is one the batch renaming tools select. */
  lemma ApiUploadNameShape(e: Entry, uploadName: string, suffix: string)
    requires IsHexSuffix(suffix)
    ensures var f := ApiUploadName(e, uploadName, suffix);
            var base := Stem(e.publisher, e.range, Some(e.name)) + "_" + suffix;
            SplitExt(f) == (base, SplitExt(uploadName).1) &&
            SplitOn(base, '_') == [ToCamelCase(e.publisher), ToCamelCase(e.range), ToCamelCase(Some(e.name)), suffix] &&
            !IsNewFormat(f)
  {
    SuffixedFilenameParts(e.publisher, e.range, Some(e.name), suffix, SplitExt(uploadName).1);
  }

  lemma ApiUploadSelected(e: Entry, uploadName: string, suffix: string, img: Image)
    requires IsHexSuffix(suffix) && img.file == UploadDir + ApiUploadName(e, uploadName, suffix)
    ensures NeedsRename(img)
  {
    ApiUploadNameShape(e, uploadName, suffix);
    ApiUploadNamePlain(e, uploadName, suffix);
    BasenameInUploadDir(ApiUploadName(e, uploadName, suffix));
  }

  lemma ApiUploadNamePlain(e: Entry, uploadName: string, suffix: string)
    requires IsHexSuffix(suffix)
    ensures '/' !in ApiUploadName(e, uploadName, suffix)
  {
    var ext := SplitExt(uploadName).1;
    StemIsPlain(e.publisher, e.range, Some(e.name), suffix);
    ExtensionHasNoSeparator(ext);
    assert ApiUploadName(e, uploadName, suffix) == (Stem(e.publisher, e.range, Some(e.name)) + "_" + suffix) + ext;
  }

  /** The image row `api_upload_image` saves for entry `eid`. */
  function ApiImage(eid: Id, e: Entry, isPrimary: Option<string>, now: Timestamp): Image {
    Image(Some(eid), [], e.name, e.publisher, e.range, IsPrimary(isPrimary), now)
  }

  /** `api_upload_image` after authentication: on success the image id,
      the filename and the primary flag of the 201 response. `suffix` is the
      drawn `uuid4().hex[:8]` and `alternative` the free name the storage
      would choose if the filename were taken or too long. */
  method ApiUploadImage(db: Database, entryId: Option<string>, isPrimary: Option<string>,
                        upload: Option<Uploaded>, suffix: string, alternative: string, now: Timestamp)
    returns (r: Result<(Id, string, bool), UploadError>)
    requires UploadTarget(db.entries, entryId, upload).Success? &&
             !Available(db.files, ApiUploadName(db.entries[UploadTarget(db.entries, entryId, upload).value], upload.value.name, suffix))
             ==> alternative !in db.files
    modifies db
    ensures UploadTarget(old(db.entries), entryId, upload).Failure? ==>
              r == Failure(UploadTarget(old(db.entries), entryId, upload).error) &&
              db.files == old(db.files) && db.images == old(db.images)
    ensures UploadTarget(old(db.entries), entryId, upload).Success? ==>
              var eid := UploadTarget(old(db.entries), entryId, upload).value;
              var name := ApiUploadName(old(db.entries)[eid], upload.value.name, suffix);
              var id := Fresh(old(db.images).Keys);
              var stored := StoredName(old(db.files), name, alternative);
              r == Success((id, name, IsPrimary(isPrimary))) &&
              db.files == old(db.files)[stored := upload.value.content] &&
              db.images == old(db.images)[id := ApiImage(eid, old(db.entries)[eid], isPrimary, now).(file := stored)]
    ensures db.entries == old(db.entries) && db.tags == old(db.tags) && db.tagTypes == old(db.tagTypes)
  {
    var primary := IsPrimary(isPrimary);
    var target := UploadTarget(db.entries, entryId, upload);
    if target.Failure? {
      return Failure(target.error);
    }
    var eid := target.value;
    var e := db.entries[eid];
    var name := ApiUploadName(e, upload.value.name, suffix);
    var id, stored := StoreUpload(db, ApiImage(eid, e, isPrimary, now), name, upload.value.content, alternative, now);
    r := Success((id, name, primary));
  }

  // ---------------------------------------------------------------- duplicates

  /** A text parameter of the query string or the JSON body: '' when
      absent, then stripped. */
  function Param(v: Option<string>): string {
    Strip(v.GetOr(""))
  }

  /** `field__iexact=value` under SQLite: NULL matches nothing, any other
      value matches when equal up to ASCII case. */
  predicate IExact(field: Option<string>, value: string) {
    field.Some? && LowerStr(field.value) == LowerStr(value)
  }

  /** `value or None`: how `api_create_entry` stores an optional field. */
  function OrNone(value: string): (r: Option<string>)
    ensures r.None? <==> value == []
    ensures r.Some? ==> r.value == value
  {
    if value == [] then None else Some(value)
  }

  /** The entry `api_create_entry` creates, before its tags are added. */
  function NewEntry(name: string, publisher: string, range: string, folder: string, now: Timestamp): Entry {
    Entry(name, OrNone(publisher), OrNone(range), OrNone(folder), None, {}, now)
  }

  /** The duplicate filter as written: an empty publisher or range is
      compared with '' by `iexact`. */
  predicate MatchesAsWritten(e: Entry, name: string, publisher: string, range: string) {
    IExact(Some(e.name), name) && IExact(e.publisher, publisher) && IExact(e.range, range)
  }

  /** An empty request value stands for a missing field, which the entry
      stores as NULL (or '' when saved through a form). */
  predicate SameOptional(field: Option<string>, value: string) {
    if value == [] then field.None? || field == Some([]) else IExact(field, value)
  }

  /** The corrected duplicate test: an empty publisher or range matches a
      missing one. */
  predicate Matches(e: Entry, name: string, publisher: string, range: string) {
    IExact(Some(e.name), name) && SameOptional(e.publisher, publisher) && SameOptional(e.range, range)
  }

  /** Which duplicate test `api_check_duplicate` and `api_create_entry`
      run: the filter as written, or the corrected one. */
  datatype DuplicateTest = AsWritten | Corrected

  predicate Passes(test: DuplicateTest, e: Entry, name: string, publisher: string, range: string) {
    match test
    case AsWritten => MatchesAsWritten(e, name, publisher, range)
    case Corrected => Matches(e, name, publisher, range)
  }

  /** As written, an entry created without a publisher or without a range
      is never found again by the request that created it. */
  lemma DuplicateMissedAsWritten(name: string, publisher: string, range: string, folder: string, now: Timestamp, tags: set<Id>)
    requires publisher == [] || range == []
    ensures !MatchesAsWritten(NewEntry(name, publisher, range, folder, now).(tags := tags), name, publisher, range)
  {
  }

  /** With both publisher and range given, the two tests agree. */
  lemma MatchesAgree(e: Entry, name: string, publisher: string, range: string)
    requires publisher != [] && range != []
    ensures Matches(e, name, publisher, range) <==> MatchesAsWritten(e, name, publisher, range)
  {
  }

  /** Whatever its fields, a created entry is found by the same request,
      so the request cannot create it twice. */
  lemma CreatedIsFound(name: string, publisher: string, range: string, folder: string, now: Timestamp, tags: set<Id>)
    ensures Matches(NewEntry(name, publisher, range, folder, now).(tags := tags), name, publisher, range)
  {
  }

  lemma {:induction false} LatestExists(entries: map<Id, Entry>, ids: set<Id>)
    requires ids != {} && ids <= entries.Keys
    ensures exists k :: k in ids && forall j :: j in ids ==> entries[j].uploadDate <= entries[k].uploadDate
    decreases |ids|
  {
    var x :| x in ids;
    if ids != {x} {
      LatestExists(entries, ids - {x});
      var m :| m in ids - {x} && forall j :: j in ids - {x} ==> entries[j].uploadDate <= entries[m].uploadDate;
      assert forall j :: j in ids ==> j == x || j in ids - {x};
      if entries[x].uploadDate > entries[m].uploadDate {
        assert forall j :: j in ids ==> entries[j].uploadDate <= entries[x].uploadDate;
      } else {
        assert forall j :: j in ids ==> entries[j].uploadDate <= entries[m].uploadDate;
      }
    }
  }

  /** No entry passes the duplicate test. */
  predicate NoDuplicate(test: DuplicateTest, entries: map<Id, Entry>, name: string, publisher: string, range: string) {
    forall id :: id in entries ==> !Passes(test, entries[id], name, publisher, range)
  }

  /** `k` passes the duplicate test and no entry that passes it was
      uploaded later. */
  predicate LatestMatch(test: DuplicateTest, entries: map<Id, Entry>, k: Id, name: string, publisher: string, range: string) {
    k in entries && Passes(test, entries[k], name, publisher, range) &&
    forall id :: id in entries && Passes(test, entries[id], name, publisher, range) ==>
                 entries[id].uploadDate <= entries[k].uploadDate
  }

  /** Repeating a request that created an entry: the corrected test finds
      the entry it created. */
  lemma RepeatFoundWhenCorrected(entries: map<Id, Entry>, eid: Id, name: string, publisher: string, range: string,
                                 folder: string, now: Timestamp, tags: set<Id>)
    ensures !NoDuplicate(Corrected, entries[eid := NewEntry(name, publisher, range, folder, now).(tags := tags)],
                         name, publisher, range)
  {
    var after := entries[eid := NewEntry(name, publisher, range, folder, now).(tags := tags)];
    CreatedIsFound(name, publisher, range, folder, now, tags);
    assert eid in after && Passes(Corrected, after[eid], name, publisher, range);
  }

  /** Repeating a request that created an entry without a publisher or
      without a range: the test as written still finds nothing, so a
      second entry is created. */
  lemma RepeatMissedAsWritten(entries: map<Id, Entry>, eid: Id, name: string, publisher: string, range: string,
                              folder: string, now: Timestamp, tags: set<Id>)
    requires NoDuplicate(AsWritten, entries, name, publisher, range)
    requires publisher == [] || range == []
    ensures NoDuplicate(AsWritten, entries[eid := NewEntry(name, publisher, range, folder, now).(tags := tags)],
                        name, publisher, range)
  {
    var after := entries[eid := NewEntry(name, publisher, range, folder, now).(tags := tags)];
    forall id | id in after
      ensures !Passes(AsWritten, after[id], name, publisher, range)
    {
      if id == eid {
        DuplicateMissedAsWritten(name, publisher, range, folder, now, tags);
      }
    }
  }

  /** `Entry.objects.filter(...).first()` under the entries' ordering by
      latest upload first. */
  method FindDuplicate(test: DuplicateTest, entries: map<Id, Entry>, name: string, publisher: string, range: string)
    returns (r: Option<Id>)
    ensures r.None? <==> NoDuplicate(test, entries, name, publisher, range)
    ensures r.Some? ==> LatestMatch(test, entries, r.value, name, publisher, range)
  {
    var found := set id | id in entries && Passes(test, entries[id], name, publisher, range);
    if found == {} {
      assert forall id :: id in entries && Passes(test, entries[id], name, publisher, range) ==> id in found;
      return None;
    }
    LatestExists(entries, found);
    var k :| k in found && forall j :: j in found ==> entries[j].uploadDate <= entries[k].uploadDate;
    r := Some(k);
  }

  /** The answers of `api_check_duplicate`. */
  datatype DuplicateAnswer = NameParamRequired | Exists(entryId: Id, entryName: string) | DoesNotExist

  method CheckDuplicate(test: DuplicateTest, entries: map<Id, Entry>, name: Option<string>, publisher: Option<string>,
                        range: Option<string>)
    returns (r: DuplicateAnswer)
    ensures r.NameParamRequired? <==> Param(name) == []
    ensures r.DoesNotExist? <==>
              Param(name) != [] &&
              NoDuplicate(test, entries, Param(name), Param(publisher), Param(range))
    ensures r.Exists? ==> LatestMatch(test, entries, r.entryId, Param(name), Param(publisher), Param(range)) &&
                          r.entryName == entries[r.entryId].name
  {
    var n := Param(name);
    if n == [] {
      r := NameParamRequired;
    } else {
      var found := FindDuplicate(test, entries, n, Param(publisher), Param(range));
      match found
      case None => r := DoesNotExist;
      case Some(k) => r := Exists(k, entries[k].name);
    }
  }

  // -------------------------------------------------------------- tag creation

  /** A tag type `api_create_entry` reads tag names for, with the colour and
      sort order it is created with. */
  datatype TypeConfig = TypeConfig(name: string, color: string, sortOrder: int)

  const TypeConfigs: seq<TypeConfig> := [
    TypeConfig("Publisher", "#3498db", 10),
    TypeConfig("Faction Tag", "#e74c3c", 20),
    TypeConfig("Army Role", "#2ecc71", 30),
    TypeConfig("GW Alternative", "#f39c12", 40)]

  /** The tag and tag-type tables. */
  datatype Catalog = Catalog(tags: map<Id, Tag>, types: map<Id, TagType>)

  /** The unique constraints on `Tag.name` and `TagType.name`. */
  predicate UniqueNames(c: Catalog) {
    (forall a, b :: a in c.tags && b in c.tags && c.tags[a].name == c.tags[b].name ==> a == b) &&
    (forall a, b :: a in c.types && b in c.types && c.types[a].name == c.types[b].name ==> a == b)
  }

  /** `d` holds every row of `c` unchanged. */
  predicate Extends(c: Catalog, d: Catalog) {
    (forall k :: k in c.tags ==> k in d.tags && d.tags[k] == c.tags[k]) &&
    (forall k :: k in c.types ==> k in d.types && d.types[k] == c.types[k])
  }

  /** The row `get(name=n)` finds among `rows`, whose names `nameOf`
      reads: with unique names the only one; the smallest id stands in
      should the constraint not hold. */
  function RowNamed<T>(rows: map<Id, T>, nameOf: T -> string, n: string): (r: Option<Id>)
    ensures r.Some? ==> r.value in rows && nameOf(rows[r.value]) == n
    ensures r.None? ==> forall k :: k in rows ==> nameOf(rows[k]) != n
  {
    var named := set k | k in rows && nameOf(rows[k]) == n;
    if named == {} then
      assert forall k :: k in rows && nameOf(rows[k]) == n ==> k in named;
      None
    else
      MinExists(named);
      var k :| k in named && forall j :: j in named ==> k <= j;
      Some(k)
  }

  /** The tag type `api_create_entry` creates for `cfg`. */
  function NewType(cfg: TypeConfig): TagType {
    TagType(cfg.name, cfg.name + " tags", cfg.color, None, cfg.sortOrder, true, true, true)
  }

  /** `TagType.objects.get_or_create(name=..., defaults=...)`. */
  function GetOrCreateType(c: Catalog, cfg: TypeConfig): (r: (Catalog, Id))
    ensures r.0.tags == c.tags
  {
    match RowNamed(c.types, (t: TagType) => t.name, cfg.name)
    case Some(id) => (c, id)
    case None =>
      var id := Fresh(c.types.Keys);
      (c.(types := c.types[id := NewType(cfg)]), id)
  }

  /** The type named by the configuration exists afterwards; it is the
      existing one, untouched, or a new row with the configured defaults. */
  lemma GetOrCreateTypeFacts(c: Catalog, cfg: TypeConfig)
    ensures var r := GetOrCreateType(c, cfg);
            Extends(c, r.0) && r.1 in r.0.types && r.0.types[r.1].name == cfg.name &&
            r.0.types.Keys == c.types.Keys + {r.1} &&
            (r.1 !in c.types ==> r.0.types[r.1] == NewType(cfg))
  {
  }

  /** `Tag.objects.get_or_create(name=..., defaults={'tag_type': ...})`. */
  function GetOrCreateTag(c: Catalog, name: string, ty: Id): (r: (Catalog, Id))
    ensures r.0.types == c.types
  {
    match RowNamed(c.tags, (t: Tag) => t.name, name)
    case Some(id) => (c, id)
    case None =>
      var id := Fresh(c.tags.Keys);
      (c.(tags := c.tags[id := Tag(name, Some(ty), None, {})]), id)
  }

  /** The tag of that name exists afterwards: an existing tag is returned
      as it is, whatever its type; a new one gets type `ty`. */
  lemma GetOrCreateTagFacts(c: Catalog, name: string, ty: Id)
    ensures var r := GetOrCreateTag(c, name, ty);
            Extends(c, r.0) && r.1 in r.0.tags && r.0.tags[r.1].name == name &&
            r.0.tags.Keys == c.tags.Keys + {r.1} &&
            (r.1 !in c.tags ==> r.0.tags[r.1] == Tag(name, Some(ty), None, {}))
  {
  }

  /** `tags_data.get(key, [])`. */
  function NamesUnder(data: map<string, seq<string>>, key: string): seq<string> {
    if key in data then data[key] else []
  }

  /** Every name stripped. */
  function StripAll(names: seq<string>): (r: seq<string>)
    ensures |r| == |names|
  {
    seq(|names|, i requires 0 <= i < |names| => Strip(names[i]))
  }

  /** The names of `names` that are not empty, in order, repeats kept. */
  function Nonblank(names: seq<string>): (r: seq<string>)
    ensures forall i :: 0 <= i < |r| ==> r[i] != []
    decreases |names|
  {
    if names == [] then []
    else
      var n := |names| - 1;
      Nonblank(names[..n]) + (if names[n] == [] then [] else [names[n]])
  }

  /** The names `api_create_entry` looks up, under the first `k` keys. */
  function RequestedNames(data: map<string, seq<string>>, k: nat): seq<string>
    requires k <= |TypeConfigs|
  {
    if k == 0 then []
    else RequestedNames(data, k - 1) + Nonblank(StripAll(NamesUnder(data, TypeConfigs[k - 1].name)))
  }

  /** The inner loop over the stripped names: get or create a tag of type
      `ty` for each that is not empty, collecting the tags in order. */
  function AddNames(c: Catalog, names: seq<string>, ty: Id): (r: (Catalog, seq<Id>))
    ensures r.0.types == c.types
    decreases |names|
  {
    if names == [] then (c, [])
    else
      var n := |names| - 1;
      var before := AddNames(c, names[..n], ty);
      var name := names[n];
      if name == [] then before
      else
        var step := GetOrCreateTag(before.0, name, ty);
        (step.0, before.1 + [step.1])
  }

  /** The inner loop keeps every row, collects one tag per non-blank name
      (named by it, in order), and gives every tag it creates type `ty`. */
  lemma {:induction false} AddNamesFacts(c: Catalog, names: seq<string>, ty: Id)
    ensures var r := AddNames(c, names, ty);
            Extends(c, r.0) &&
            |r.1| == |Nonblank(names)| &&
            (forall i :: 0 <= i < |r.1| ==> r.1[i] in r.0.tags && r.0.tags[r.1[i]].name == Nonblank(names)[i]) &&
            (forall k :: k in r.0.tags && k !in c.tags ==> r.0.tags[k].tagType == Some(ty))
    decreases |names|
  {
    if names != [] {
      var n := |names| - 1;
      AddNamesFacts(c, names[..n], ty);
      var before := AddNames(c, names[..n], ty);
      var name := names[n];
      if name != [] {
        GetOrCreateTagFacts(before.0, name, ty);
      }
    }
  }

  /** The outer loop over the first `k` tag types. */
  function AddConfigs(c: Catalog, data: map<string, seq<string>>, k: nat): (r: (Catalog, seq<Id>))
    requires k <= |TypeConfigs|
    decreases k
  {
    if k == 0 then (c, [])
    else
      var before := AddConfigs(c, data, k - 1);
      var ty := GetOrCreateType(before.0, TypeConfigs[k - 1]);
      var added := AddNames(ty.0, StripAll(NamesUnder(data, TypeConfigs[k - 1].name)), ty.1);
      (added.0, before.1 + added.1)
  }

  /** The outer loop keeps every row and makes sure each configured tag
      type exists. */
  lemma {:induction false} AddConfigsKeeps(c: Catalog, data: map<string, seq<string>>, k: nat)
    requires k <= |TypeConfigs|
    ensures var r := AddConfigs(c, data, k);
            Extends(c, r.0) &&
            (forall j :: 0 <= j < k ==> exists t :: t in r.0.types && r.0.types[t].name == TypeConfigs[j].name)
    decreases k
  {
    if k > 0 {
      AddConfigsKeeps(c, data, k - 1);
      var before := AddConfigs(c, data, k - 1);
      GetOrCreateTypeFacts(before.0, TypeConfigs[k - 1]);
      var ty := GetOrCreateType(before.0, TypeConfigs[k - 1]);
      var more := StripAll(NamesUnder(data, TypeConfigs[k - 1].name));
      AddNamesFacts(ty.0, more, ty.1);
      var added := AddNames(ty.0, more, ty.1);
      forall j | 0 <= j < k
        ensures exists t :: t in added.0.types && added.0.types[t].name == TypeConfigs[j].name
      {
        if j < k - 1 {
          var t :| t in before.0.types && before.0.types[t].name == TypeConfigs[j].name;
          assert t in ty.0.types && ty.0.types[t] == before.0.types[t];
          assert t in added.0.types && added.0.types[t] == ty.0.types[t];
        } else {
          assert ty.1 in added.0.types;
        }
      }
    }
  }

  /** The outer loop collects one tag per requested name, named by it, in
      order. */
  lemma {:induction false} AddConfigsNames(c: Catalog, data: map<string, seq<string>>, k: nat)
    requires k <= |TypeConfigs|
    ensures var r := AddConfigs(c, data, k);
            |r.1| == |RequestedNames(data, k)| &&
            (forall i :: 0 <= i < |r.1| ==> r.1[i] in r.0.tags && r.0.tags[r.1[i]].name == RequestedNames(data, k)[i])
    decreases k
  {
    if k > 0 {
      AddConfigsNames(c, data, k - 1);
      var before := AddConfigs(c, data, k - 1);
      GetOrCreateTypeFacts(before.0, TypeConfigs[k - 1]);
      var ty := GetOrCreateType(before.0, TypeConfigs[k - 1]);
      var more := StripAll(NamesUnder(data, TypeConfigs[k - 1].name));
      AddNamesFacts(ty.0, more, ty.1);
      var added := AddNames(ty.0, more, ty.1);
      var ids := before.1 + added.1;
      var names := RequestedNames(data, k);
      assert names == RequestedNames(data, k - 1) + Nonblank(more);
      forall i | 0 <= i < |ids|
        ensures ids[i] in added.0.tags && added.0.tags[ids[i]].name == names[i]
      {
        if i < |before.1| {
          assert ids[i] == before.1[i] && names[i] == RequestedNames(data, k - 1)[i];
          assert before.1[i] in ty.0.tags;
        } else {
          assert ids[i] == added.1[i - |before.1|] && names[i] == Nonblank(more)[i - |before.1|];
        }
      }
    }
  }

  /** Creating rows by get-or-create keeps names unique. */
  lemma GetOrCreateTagUnique(c: Catalog, name: string, ty: Id)
    requires UniqueNames(c)
    ensures UniqueNames(GetOrCreateTag(c, name, ty).0)
  {
  }

  lemma GetOrCreateTypeUnique(c: Catalog, cfg: TypeConfig)
    requires UniqueNames(c)
    ensures UniqueNames(GetOrCreateType(c, cfg).0)
  {
  }

  lemma {:induction false} AddNamesUnique(c: Catalog, names: seq<string>, ty: Id)
    requires UniqueNames(c)
    ensures UniqueNames(AddNames(c, names, ty).0)
    decreases |names|
  {
    if names != [] {
      var n := |names| - 1;
      AddNamesUnique(c, names[..n], ty);
      if names[n] != [] {
        GetOrCreateTagUnique(AddNames(c, names[..n], ty).0, names[n], ty);
      }
    }
  }

  /** `api_create_entry` never makes a second tag or tag type of a name. */
  lemma {:induction false} AddConfigsUnique(c: Catalog, data: map<string, seq<string>>, k: nat)
    requires UniqueNames(c) && k <= |TypeConfigs|
    ensures UniqueNames(AddConfigs(c, data, k).0)
    decreases k
  {
    if k > 0 {
      AddConfigsUnique(c, data, k - 1);
      var before := AddConfigs(c, data, k - 1);
      GetOrCreateTypeUnique(before.0, TypeConfigs[k - 1]);
      var ty := GetOrCreateType(before.0, TypeConfigs[k - 1]);
      AddNamesUnique(ty.0, StripAll(NamesUnder(data, TypeConfigs[k - 1].name)), ty.1);
    }
  }

  /** Only the four fixed keys are read: a name under any other key of the
      request's tags changes nothing. */
  lemma {:induction false} OtherKeysIgnored(data: map<string, seq<string>>, key: string, names: seq<string>, k: nat)
    requires k <= |TypeConfigs|
    requires forall j :: 0 <= j < |TypeConfigs| ==> TypeConfigs[j].name != key
    ensures RequestedNames(data[key := names], k) == RequestedNames(data, k)
  {
    if k > 0 {
      OtherKeysIgnored(data, key, names, k - 1);
      assert NamesUnder(data[key := names], TypeConfigs[k - 1].name) == NamesUnder(data, TypeConfigs[k - 1].name);
    }
  }

  /** `tags_assigned` counts every requested name, repeats included, while
      a repeated name adds one tag: equal names get the same tag. */
  lemma RepeatsShareTag(c: Catalog, data: map<string, seq<string>>)
    requires UniqueNames(c)
    ensures var r := AddConfigs(c, data, |TypeConfigs|);
            var names := RequestedNames(data, |TypeConfigs|);
            |r.1| == |names| &&
            forall i, j :: 0 <= i < |names| && 0 <= j < |names| && names[i] == names[j] ==> r.1[i] == r.1[j]
  {
    AddConfigsNames(c, data, |TypeConfigs|);
    AddConfigsUnique(c, data, |TypeConfigs|);
  }

  /** The outcomes of `api_create_entry`. */
  datatype CreateResponse =
    | Created(entryId: Id, entryName: string, tagsAssigned: nat)
    | NameRequired
    | AlreadyExists(entryId: Id)
    | InvalidJson

  /** The JSON body; an absent key is None. */
  datatype CreateRequest = CreateRequest(
    name: Option<string>,
    publisher: Option<string>,
    range: Option<string>,
    folderLocation: Option<string>,
    tags: map<string, seq<string>>)

  /** The tags an entry gets: those the loop collected. */
  function TagSet(ids: seq<Id>): (r: set<Id>)
    ensures forall id :: id in r <==> id in ids
  {
    set i | 0 <= i < |ids| :: ids[i]
  }

  /** `api_create_entry` after authentication, on the body `body` (None
      when it is not JSON), at time `now`. */
  method CreateEntry(db: Database, test: DuplicateTest, body: Option<CreateRequest>, now: Timestamp) returns (r: CreateResponse)
    modifies db
    ensures db.files == old(db.files) && db.images == old(db.images)
    ensures r == InvalidJson <==> body.None?
    ensures body.Some? ==>
              var q := body.value;
              var name, publisher, range := Param(q.name), Param(q.publisher), Param(q.range);
              (r == NameRequired <==> name == []) &&
              (r.AlreadyExists? <==> name != [] && !NoDuplicate(test, old(db.entries), name, publisher, range)) &&
              (r.AlreadyExists? ==> LatestMatch(test, old(db.entries), r.entryId, name, publisher, range))
    ensures !r.Created? ==>
              db.entries == old(db.entries) && db.tags == old(db.tags) && db.tagTypes == old(db.tagTypes)
    ensures r.Created? ==>
              body.Some? &&
              var q := body.value;
              var added := AddConfigs(Catalog(old(db.tags), old(db.tagTypes)), q.tags, |TypeConfigs|);
              var entry := NewEntry(Param(q.name), Param(q.publisher), Param(q.range), Param(q.folderLocation), now);
              r.entryId == Fresh(old(db.entries).Keys) && r.entryName == Param(q.name) &&
              r.tagsAssigned == |RequestedNames(q.tags, |TypeConfigs|)| &&
              db.tags == added.0.tags && db.tagTypes == added.0.types &&
              db.entries == old(db.entries)[r.entryId := entry.(tags := TagSet(added.1))]
  {
    if body.None? {
      return InvalidJson;
    }
    var q := body.value;
    var name, publisher, range := Param(q.name), Param(q.publisher), Param(q.range);
    if name == [] {
      return NameRequired;
    }
    var existing := FindDuplicate(test, db.entries, name, publisher, range);
    if existing.Some? {
      return AlreadyExists(existing.value);
    }
    var eid := Fresh(db.entries.Keys);
    var entry := NewEntry(name, publisher, range, Param(q.folderLocation), now);
    var count := CreateWithTags(db, eid, entry, q.tags);
    r := Created(eid, name, count);
  }

  /** The same request twice in a row. With the corrected test the second
      is refused as a duplicate; with the test as written, a request
      without a publisher or without a range creates a second entry. */
  method CreateTwice(db: Database, test: DuplicateTest, q: CreateRequest, now: Timestamp, later: Timestamp)
    returns (first: CreateResponse, second: CreateResponse)
    modifies db
    ensures first.Created? && test == Corrected ==> second.AlreadyExists? && second.entryId in db.entries
    ensures first.Created? && test == AsWritten && (Param(q.publisher) == [] || Param(q.range) == []) ==>
              second.Created? && second.entryId != first.entryId &&
              first.entryId in db.entries && second.entryId in db.entries
  {
    ghost var start := db.entries;
    first := CreateEntry(db, test, Some(q), now);
    ghost var mid := db.entries;
    second := CreateEntry(db, test, Some(q), later);
    if first.Created? {
      var name, publisher, range := Param(q.name), Param(q.publisher), Param(q.range);
      var eid := first.entryId;
      var entry := NewEntry(name, publisher, range, Param(q.folderLocation), now);
      assert mid == start[eid := entry.(tags := mid[eid].tags)];
      if test == Corrected {
        RepeatFoundWhenCorrected(start, eid, name, publisher, range, Param(q.folderLocation), now, mid[eid].tags);
      } else if publisher == [] || range == [] {
        assert NoDuplicate(AsWritten, start, name, publisher, range);
        RepeatMissedAsWritten(start, eid, name, publisher, range, Param(q.folderLocation), now, mid[eid].tags);
      }
    }
  }

  /** Saving the new entry and assigning it the tags of the request. The
      row is inserted before the tags are added to it; as nothing reads it
      in between, a single update of the table states the outcome. */
  method CreateWithTags(db: Database, eid: Id, entry: Entry, data: map<string, seq<string>>) returns (count: nat)
    modifies db
    ensures var added := AddConfigs(Catalog(old(db.tags), old(db.tagTypes)), data, |TypeConfigs|);
            count == |RequestedNames(data, |TypeConfigs|)| &&
            db.tags == added.0.tags && db.tagTypes == added.0.types &&
            db.entries == old(db.entries)[eid := entry.(tags := TagSet(added.1))]
    ensures db.files == old(db.files) && db.images == old(db.images)
  {
    ghost var c0 := Catalog(db.tags, db.tagTypes);
    var all := AddAllTags(db, data);
    assert |all| == |RequestedNames(data, |TypeConfigs|)| by {
      AddConfigsNames(c0, data, |TypeConfigs|);
    }
    db.entries := db.entries[eid := entry.(tags := TagSet(all))];
    count := |all|;
  }

  /** The loop over the four tag types and their names. */
  method AddAllTags(db: Database, data: map<string, seq<string>>) returns (all: seq<Id>)
    modifies db
    ensures db.entries == old(db.entries) && db.files == old(db.files) && db.images == old(db.images)
    ensures (Catalog(db.tags, db.tagTypes), all) == AddConfigs(Catalog(old(db.tags), old(db.tagTypes)), data, |TypeConfigs|)
  {
    ghost var c0 := Catalog(db.tags, db.tagTypes);
    all := [];
    var k := 0;
    while k < |TypeConfigs|
      invariant 0 <= k <= |TypeConfigs|
      invariant db.entries == old(db.entries) && db.files == old(db.files) && db.images == old(db.images)
      invariant (Catalog(db.tags, db.tagTypes), all) == AddConfigs(c0, data, k)
    {
      var ids := AddConfig(db, data, TypeConfigs[k]);
      ConfigsStep(c0, data, k, all, ids, Catalog(db.tags, db.tagTypes));
      all := all + ids;
      k := k + 1;
    }
  }

  /** One turn of the outer loop: get or create the tag type, then its
      tags. */
  method AddConfig(db: Database, data: map<string, seq<string>>, cfg: TypeConfig) returns (ids: seq<Id>)
    modifies db
    ensures db.entries == old(db.entries) && db.files == old(db.files) && db.images == old(db.images)
    ensures var typed := GetOrCreateType(Catalog(old(db.tags), old(db.tagTypes)), cfg);
            (Catalog(db.tags, db.tagTypes), ids) == AddNames(typed.0, StripAll(NamesUnder(data, cfg.name)), typed.1)
  {
    var typed := GetOrCreateType(Catalog(db.tags, db.tagTypes), cfg);
    db.tagTypes := typed.0.types;
    ids := AddNamesIn(db, StripAll(NamesUnder(data, cfg.name)), typed.1);
  }

  lemma ConfigsStep(c0: Catalog, data: map<string, seq<string>>, k: nat, before: seq<Id>, ids: seq<Id>, after: Catalog)
    requires k < |TypeConfigs|
    requires before == AddConfigs(c0, data, k).1
    requires var typed := GetOrCreateType(AddConfigs(c0, data, k).0, TypeConfigs[k]);
             (after, ids) == AddNames(typed.0, StripAll(NamesUnder(data, TypeConfigs[k].name)), typed.1)
    ensures (after, before + ids) == AddConfigs(c0, data, k + 1)
  {
  }

  /** The loop over the (stripped) names under one key. */
  method AddNamesIn(db: Database, names: seq<string>, ty: Id) returns (ids: seq<Id>)
    modifies db
    ensures (Catalog(db.tags, db.tagTypes), ids) == AddNames(Catalog(old(db.tags), old(db.tagTypes)), names, ty)
    ensures db.entries == old(db.entries) && db.files == old(db.files) && db.images == old(db.images)
  {
    var c := Catalog(db.tags, db.tagTypes);
    ghost var start := c;
    ids := [];
    var j := 0;
    while j < |names|
      invariant 0 <= j <= |names|
      invariant (c, ids) == AddNames(start, names[..j], ty)
      invariant db.tags == c.tags && db.tagTypes == c.types
      invariant db.entries == old(db.entries) && db.files == old(db.files) && db.images == old(db.images)
    {
      NamesStep(start, names, ty, j);
      var tagName := names[j];
      if tagName != [] {
        var tagged := GetOrCreateTag(c, tagName, ty);
        c := tagged.0;
        ids := ids + [tagged.1];
        db.tags := c.tags;
      }
      j := j + 1;
    }
    assert names[..|names|] == names;
  }

  lemma NamesStep(c: Catalog, names: seq<string>, ty: Id, j: nat)
    requires j < |names|
    ensures var before := AddNames(c, names[..j], ty);
            AddNames(c, names[..j + 1], ty) ==
              if names[j] == [] then before
              else (GetOrCreateTag(before.0, names[j], ty).0, before.1 + [GetOrCreateTag(before.0, names[j], ty).1])
  {
    assert names[..j + 1][..j] == names[..j];
  }
}
