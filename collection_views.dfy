/** The views of collection/views.py that hold rules: the gallery's
    search and filters, the edit of an entry (copy the new metadata into
    every image, then give every image file on disk a fresh suffixed name),
    and the delete of an entry (remove its files, ignoring errors, then the
    rows). */
module CollectionViews {
  import opened Wrappers
  import opened Ascii
  import opened Paths
  import opened EntryModels
  import opened TagModels
  import opened Store
  import opened Filenames
  import opened Renaming

  // ---------------------------------------------------------------- gallery

  /** The GET parameters of the gallery; "" is an absent parameter and the
      tag list holds the selected tag ids. */
  datatype GalleryQuery = GalleryQuery(search: string, publisher: string, range: string, tags: seq<Id>)

  /** The search: name, publisher, range or the name of one of its tags
      contains the text, ignoring ASCII case. */
  predicate SearchMatch(e: Entry, tags: map<Id, Tag>, text: string) {
    IContains(Some(e.name), text) || IContains(e.publisher, text) || IContains(e.range, text) ||
    exists t :: t in e.tags && t in tags && IContains(Some(tags[t].name), text)
  }

  /** `for tag in tag_filter: entries = entries.filter(tags=tag)`. */
  function KeepTagged(ids: set<Id>, entries: map<Id, Entry>, ts: seq<Id>): set<Id>
    requires ids <= entries.Keys
    decreases |ts|
  {
    if ts == [] then ids
    else KeepTagged(set id | id in ids && ts[0] in entries[id].tags :: id, entries, ts[1..])
  }

  /** The search filter, applied only when the text is not empty. */
  function Searched(ids: set<Id>, entries: map<Id, Entry>, tags: map<Id, Tag>, text: string): (r: set<Id>)
    requires ids <= entries.Keys
    ensures forall id :: id in r <==> id in ids && (text == [] || SearchMatch(entries[id], tags, text))
  {
    if text != [] then set id | id in ids && SearchMatch(entries[id], tags, text) else ids
  }

  /** `publisher__icontains`, applied only when the text is not empty. */
  function Published(ids: set<Id>, entries: map<Id, Entry>, text: string): (r: set<Id>)
    requires ids <= entries.Keys
    ensures forall id :: id in r <==> id in ids && (text == [] || IContains(entries[id].publisher, text))
  {
    if text != [] then set id | id in ids && IContains(entries[id].publisher, text) else ids
  }

  /** `range__icontains`, applied only when the text is not empty. */
  function Ranged(ids: set<Id>, entries: map<Id, Entry>, text: string): (r: set<Id>)
    requires ids <= entries.Keys
    ensures forall id :: id in r <==> id in ids && (text == [] || IContains(entries[id].range, text))
  {
    if text != [] then set id | id in ids && IContains(entries[id].range, text) else ids
  }

  /** The entries `gallery` lists for the query `q`, before pagination. */
  function Gallery(entries: map<Id, Entry>, tags: map<Id, Tag>, q: GalleryQuery): set<Id> {
    var ranged := Ranged(Published(Searched(entries.Keys, entries, tags, q.search), entries, q.publisher), entries, q.range);
    if q.tags != [] then KeepTagged(ranged, entries, q.tags) else ranged
  }

  /** Chained tag filters are a conjunction: an entry stays exactly when it
      carries every selected tag. */
  lemma {:induction false} KeepTaggedIsAll(ids: set<Id>, entries: map<Id, Entry>, ts: seq<Id>)
    requires ids <= entries.Keys
    ensures forall id :: id in KeepTagged(ids, entries, ts) <==>
              id in ids && forall k :: 0 <= k < |ts| ==> ts[k] in entries[id].tags
    decreases |ts|
  {
    if ts != [] {
      var next := set id | id in ids && ts[0] in entries[id].tags :: id;
      KeepTaggedIsAll(next, entries, ts[1..]);
      forall id | id in ids
        ensures (forall k :: 0 <= k < |ts| ==> ts[k] in entries[id].tags) <==>
                ts[0] in entries[id].tags && forall k :: 0 <= k < |ts[1..]| ==> ts[1..][k] in entries[id].tags
      {
        if ts[0] in entries[id].tags && forall k :: 0 <= k < |ts[1..]| ==> ts[1..][k] in entries[id].tags {
          forall k | 0 <= k < |ts| ensures ts[k] in entries[id].tags {
            if k > 0 {
              assert ts[k] == ts[1..][k - 1];
            }
          }
        }
      }
    }
  }

  /** An entry is listed exactly when it passes every filter given: the
      search over its name, publisher, range and tag names, the publisher
      and range substrings, and all selected tags. */
  lemma GalleryListsMatches(entries: map<Id, Entry>, tags: map<Id, Tag>, q: GalleryQuery)
    ensures forall id :: id in Gallery(entries, tags, q) <==>
              id in entries &&
              (q.search == [] || SearchMatch(entries[id], tags, q.search)) &&
              (q.publisher == [] || IContains(entries[id].publisher, q.publisher)) &&
              (q.range == [] || IContains(entries[id].range, q.range)) &&
              forall k :: 0 <= k < |q.tags| ==> q.tags[k] in entries[id].tags
  {
    var ranged := Ranged(Published(Searched(entries.Keys, entries, tags, q.search), entries, q.publisher), entries, q.range);
    KeepTaggedIsAll(ranged, entries, q.tags);
  }

  /** Selecting one more tag never lists more entries. */
  lemma MoreTagsFewerEntries(entries: map<Id, Entry>, tags: map<Id, Tag>, q: GalleryQuery, t: Id)
    ensures Gallery(entries, tags, q.(tags := q.tags + [t])) <= Gallery(entries, tags, q)
  {
    var q' := q.(tags := q.tags + [t]);
    GalleryListsMatches(entries, tags, q);
    GalleryListsMatches(entries, tags, q');
    forall id | id in Gallery(entries, tags, q')
      ensures id in Gallery(entries, tags, q)
    {
      forall k | 0 <= k < |q.tags| ensures q.tags[k] in entries[id].tags {
        assert q'.tags[k] == q.tags[k];
      }
    }
  }

  // ------------------------------------------------------------------- edit

  /** The cleaned fields of `EntryEditForm`. */
  datatype EntryFields = EntryFields(
    name: string,
    publisher: Option<string>,
    range: Option<string>,
    folderLocation: Option<string>,
    notes: Option<string>)

  /** `form.save()` on the entry. */
  function Edited(e: Entry, f: EntryFields): Entry {
    e.(name := f.name, publisher := f.publisher, range := f.range,
       folderLocation := f.folderLocation, notes := f.notes)
  }

  /** `entry.images.update(name=..., publisher=..., range=...)`. */
  function Propagate(images: map<Id, Image>, eid: Id, e: Entry): (r: map<Id, Image>)
    ensures r.Keys == images.Keys
  {
    map id | id in images ::
      if images[id].entry == Some(eid) then images[id].(name := e.name, publisher := e.publisher, range := e.range)
      else images[id]
  }

  /** The new name of an image file on edit: the entry's tokens, the fresh
      suffix and the extension of the old path. */
  function EditName(e: Entry, suffix: string, file: string): string {
    SuffixedFilename(e.publisher, e.range, Some(e.name), suffix, SplitExt(file).1)
  }

  /** The storage and image rows during the edit loop; `aborted` records
      that an `image.save()` raised, which ends the request. */
  datatype Edit = Edit(files: Files, images: map<Id, Image>, aborted: bool)

  /** One pass of the loop body for image `id`: an OSError of the rename is
      swallowed; an error of the save propagates. */
  function RenameOnEdit(s: Edit, id: Id, e: Entry, suffix: string, faults: Faults): (r: Edit)
    requires id in s.images
    ensures r.images.Keys == s.images.Keys
  {
    if s.aborted then s
    else
      var img := s.images[id];
      if img.file != [] && img.file in s.files then
        var newName := EditName(e, suffix, img.file);
        match RenameFile(s.files, img.file, ReplaceBasename(img.file, newName), faults)
        case None => s
        case Some(moved) =>
          if id !in faults.saveFails then Edit(moved, s.images[id := img.(file := UploadDir + newName)], false)
          else Edit(moved, s.images, true)
      else s
  }

  function EditLoop(s: Edit, order: seq<Id>, suffixes: seq<string>, e: Entry, faults: Faults): (r: Edit)
    requires |suffixes| == |order| && Planned(s.images, order)
    ensures r.images.Keys == s.images.Keys
    decreases |order|
  {
    if order == [] then s
    else
      var n := |order| - 1;
      var before := EditLoop(s, order[..n], suffixes[..n], e, faults);
      RenameOnEdit(before, order[n], e, suffixes[n], faults)
  }

  /** One pass: a file that exists and that the OS lets move is renamed to
      its fresh name, whatever the metadata was; its record follows unless
      the save raises. When the file is missing or the rename fails,
      nothing changes. */
  lemma RenameOnEditOutcome(s: Edit, id: Id, e: Entry, suffix: string, faults: Faults)
    requires id in s.images && !s.aborted
    ensures var img := s.images[id];
            var r := RenameOnEdit(s, id, e, suffix, faults);
            var newName := EditName(e, suffix, img.file);
            (img.file != [] && img.file in s.files && img.file !in faults.renameFails ==>
               r.files == Move(s.files, img.file, ReplaceBasename(img.file, newName)) &&
               r.aborted == (id in faults.saveFails) &&
               r.images == (if r.aborted then s.images else s.images[id := img.(file := UploadDir + newName)])) &&
            (img.file == [] || img.file !in s.files || img.file in faults.renameFails ==> r == s)
  {
  }

  /** The fresh name keeps the extension of the old file, lands in the
      upload directory under its own base name, and is never taken for an
      `_initial` name, so the record still needs renaming by the batch
      tools. */
  lemma EditNameFacts(e: Entry, suffix: string, img: Image)
    requires IsHexSuffix(suffix)
    ensures var newName := EditName(e, suffix, img.file);
            Basename(UploadDir + newName) == newName &&
            SplitExt(newName).1 == SplitExt(img.file).1 &&
            NeedsRename(img.(file := UploadDir + newName))
  {
    var newName := EditName(e, suffix, img.file);
    SuffixedFilenameParts(e.publisher, e.range, Some(e.name), suffix, SplitExt(img.file).1);
    SuffixedIsPlain(e, suffix, img.file);
    BasenameInUploadDir(newName);
  }

  lemma SuffixedIsPlain(e: Entry, suffix: string, file: string)
    requires IsHexSuffix(suffix)
    ensures '/' !in EditName(e, suffix, file)
  {
    var ext := SplitExt(file).1;
    StemIsPlain(e.publisher, e.range, Some(e.name), suffix);
    ExtensionHasNoSeparator(ext);
    assert EditName(e, suffix, file) == (Stem(e.publisher, e.range, Some(e.name)) + "_" + suffix) + ext;
  }

  /** The loop changes nothing but the stored file names of the images it
      visits: every other field of every row, and every row it does not
      visit, is as before. */
  lemma {:induction false} EditLoopOnlyRenames(s: Edit, order: seq<Id>, suffixes: seq<string>, e: Entry, faults: Faults)
    requires |suffixes| == |order| && Planned(s.images, order)
    ensures var r := EditLoop(s, order, suffixes, e, faults);
            (forall id :: id in s.images ==> r.images[id] == s.images[id].(file := r.images[id].file)) &&
            (forall id :: id in s.images && id !in order ==> r.images[id] == s.images[id])
    decreases |order|
  {
    if order != [] {
      var n := |order| - 1;
      assert Planned(s.images, order[..n]);
      EditLoopOnlyRenames(s, order[..n], suffixes[..n], e, faults);
      var before := EditLoop(s, order[..n], suffixes[..n], e, faults);
      RenameOnEditOnlyFile(before, order[n], e, suffixes[n], faults);
      assert forall id :: id in order[..n] ==> id in order;
    }
  }

  lemma EditLoopLast(s: Edit, order: seq<Id>, suffixes: seq<string>, e: Entry, faults: Faults)
    requires |suffixes| == |order| && Planned(s.images, order) && order != []
    ensures Planned(s.images, order[..|order| - 1])
    ensures EditLoop(s, order, suffixes, e, faults) ==
            RenameOnEdit(EditLoop(s, order[..|order| - 1], suffixes[..|order| - 1], e, faults), order[|order| - 1], e, suffixes[|order| - 1], faults)
  {
  }

  /** Once a save has raised, a pass changes nothing. */
  lemma RenameOnEditAborted(s: Edit, id: Id, e: Entry, suffix: string, faults: Faults)
    requires id in s.images && s.aborted
    ensures RenameOnEdit(s, id, e, suffix, faults) == s
  {
  }

  /** One pass changes at most the file of the image it handles. */
  lemma RenameOnEditOnlyFile(s: Edit, id: Id, e: Entry, suffix: string, faults: Faults)
    requires id in s.images
    ensures var r := RenameOnEdit(s, id, e, suffix, faults);
            (forall k :: k in s.images ==> r.images[k] == s.images[k].(file := r.images[k].file)) &&
            (forall k :: k in s.images && k != id ==> r.images[k] == s.images[k])
  {
  }


  /** After an edit, every image of the entry carries the entry's new name,
      publisher and range, whether or not its file exists or was renamed;
      images of other entries are untouched. */
  lemma EditPropagates(files: Files, images: map<Id, Image>, eid: Id, e: Entry,
                       order: seq<Id>, suffixes: seq<string>, faults: Faults)
    requires |suffixes| == |order| && Planned(images, order)
    requires forall id :: id in order ==> id in images && images[id].entry == Some(eid)
    ensures var r := EditLoop(Edit(files, Propagate(images, eid, e), false), order, suffixes, e, faults);
            (forall id :: id in images && images[id].entry == Some(eid) ==>
               r.images[id].name == e.name && r.images[id].publisher == e.publisher &&
               r.images[id].range == e.range && r.images[id].entry == Some(eid)) &&
            (forall id :: id in images && images[id].entry != Some(eid) ==> r.images[id] == images[id])
  {
    var p := Propagate(images, eid, e);
    assert Planned(p, order);
    EditLoopOnlyRenames(Edit(files, p, false), order, suffixes, e, faults);
  }

  /** `edit_image` on a valid POST for the entry `eid`, whose images are
      listed in `order`; `suffixes` are the `uuid4().hex[:8]` values drawn
      for them in turn. */
  method EditEntry(db: Database, eid: Id, f: EntryFields, order: seq<Id>, suffixes: seq<string>)
    requires eid in db.entries
    requires forall id :: id in order <==> id in db.images && db.images[id].entry == Some(eid)
    requires forall i, j :: 0 <= i < j < |order| ==> order[i] != order[j]
    requires |suffixes| == |order| && forall i :: 0 <= i < |suffixes| ==> IsHexSuffix(suffixes[i])
    modifies db
    ensures var e := Edited(old(db.entries)[eid], f);
            db.entries == old(db.entries)[eid := e] &&
            var r := EditLoop(Edit(old(db.files), Propagate(old(db.images), eid, e), false), order, suffixes, e, db.faults);
            db.files == r.files && db.images == r.images
    ensures db.tags == old(db.tags) && db.tagTypes == old(db.tagTypes)
  {
    var e := Edited(db.entries[eid], f);
    db.entries := db.entries[eid := e];
    db.images := Propagate(db.images, eid, e);
    ghost var start := Edit(db.files, db.images, false);
    assert Planned(start.images, order);
    ghost var s := start;
    var aborted := false;
    var i := 0;
    while i < |order| && !aborted
      invariant 0 <= i <= |order|
      invariant s == EditLoop(start, order[..i], suffixes[..i], e, db.faults)
      invariant s == Edit(db.files, db.images, aborted)
      invariant db.entries == old(db.entries)[eid := e]
      invariant db.tags == old(db.tags) && db.tagTypes == old(db.tagTypes)
    {
      EditStep(start, order, suffixes, e, db.faults, i);
      aborted := RenameOnEditIn(db, order[i], e, suffixes[i]);
      s := EditLoop(start, order[..i + 1], suffixes[..i + 1], e, db.faults);
      i := i + 1;
    }
    AbortedLoopStays(start, order, suffixes, e, db.faults, i);
    assert order[..|order|] == order && suffixes[..|suffixes|] == suffixes;
  }

  lemma EditStep(s: Edit, order: seq<Id>, suffixes: seq<string>, e: Entry, faults: Faults, i: nat)
    requires |suffixes| == |order| && Planned(s.images, order) && i < |order|
    ensures Planned(s.images, order[..i]) && Planned(s.images, order[..i + 1])
    ensures order[i] in EditLoop(s, order[..i], suffixes[..i], e, faults).images
    ensures EditLoop(s, order[..i + 1], suffixes[..i + 1], e, faults) ==
            RenameOnEdit(EditLoop(s, order[..i], suffixes[..i], e, faults), order[i], e, suffixes[i], faults)
  {
    assert order[..i + 1][..i] == order[..i] && suffixes[..i + 1][..i] == suffixes[..i];
  }

  /** The loop body of `edit_image` for image `id`: returns whether the
      save raised. */
  method RenameOnEditIn(db: Database, id: Id, e: Entry, suffix: string) returns (aborted: bool)
    requires id in db.images
    modifies db
    ensures Edit(db.files, db.images, aborted) ==
            RenameOnEdit(Edit(old(db.files), old(db.images), false), id, e, suffix, db.faults)
    ensures db.entries == old(db.entries) && db.tags == old(db.tags) && db.tagTypes == old(db.tagTypes)
  {
    RenameOnEditOutcome(Edit(db.files, db.images, false), id, e, suffix, db.faults);
    aborted := false;
    var img := db.images[id];
    if img.file != [] && img.file in db.files {
      var newName := EditName(e, suffix, img.file);
      var moved := db.Rename(img.file, ReplaceBasename(img.file, newName));
      if moved {
        var saved := db.SaveImage(id, img.(file := UploadDir + newName));
        aborted := !saved;
      }
    }
  }

  /** Once a save has raised, the rest of the loop does nothing. */
  lemma {:induction false} AbortedLoopStays(s: Edit, order: seq<Id>, suffixes: seq<string>, e: Entry, faults: Faults, i: nat)
    requires |suffixes| == |order| && Planned(s.images, order) && i <= |order|
    requires i < |order| ==> EditLoop(s, order[..i], suffixes[..i], e, faults).aborted
    ensures EditLoop(s, order, suffixes, e, faults) == EditLoop(s, order[..i], suffixes[..i], e, faults)
    decreases |order|
  {
    if i < |order| {
      var n := |order| - 1;
      assert Planned(s.images, order[..n]);
      assert order[..n][..i] == order[..i] && suffixes[..n][..i] == suffixes[..i];
      var prefix := EditLoop(s, order[..i], suffixes[..i], e, faults);
      var before := EditLoop(s, order[..n], suffixes[..n], e, faults);
      if i < n {
        AbortedLoopStays(s, order[..n], suffixes[..n], e, faults, i);
      } else {
        assert order[..n] == order[..i] && suffixes[..n] == suffixes[..i];
      }
      assert before == prefix;
      EditLoopLast(s, order, suffixes, e, faults);
      RenameOnEditAborted(before, order[n], e, suffixes[n], faults);
    } else {
      assert order[..i] == order && suffixes[..i] == suffixes;
    }
  }


  // ----------------------------------------------------------------- delete

  /** The file-removal loop of `delete_image` over the stored names
      `paths`: remove each that is a file, ignoring every error. */
  function RemoveAll(files: Files, paths: seq<string>, faults: Faults): Files
    decreases |paths|
  {
    if paths == [] then files
    else
      var n := |paths| - 1;
      var before := RemoveAll(files, paths[..n], faults);
      var p := paths[n];
      if p != [] && p in before then
        match RemoveFile(before, p, faults)
        case Some(after) => after
        case None => before
      else before
  }

  /** The removal loop deletes exactly the named files the OS lets it
      remove (an image without a file names nothing), and keeps every other
      file. */
  lemma {:induction false} RemoveAllRemoves(files: Files, paths: seq<string>, faults: Faults)
    ensures RemoveAll(files, paths, faults) ==
              map p | p in files && (p == [] || p !in paths || p in faults.removeFails) :: files[p]
    decreases |paths|
  {
    if paths != [] {
      var n := |paths| - 1;
      RemoveAllRemoves(files, paths[..n], faults);
      var before := RemoveAll(files, paths[..n], faults);
      var q := paths[n];
      assert forall p :: p in paths <==> p in paths[..n] || p == q by {
        assert paths == paths[..n] + [q];
      }
      var want := map p | p in files && (p == [] || p !in paths || p in faults.removeFails) :: files[p];
      if q != [] && q in before && q !in faults.removeFails {
        assert RemoveAll(files, paths, faults) == before - {q};
        assert (before - {q}).Keys == want.Keys;
      } else {
        assert RemoveAll(files, paths, faults) == before;
        assert before.Keys == want.Keys;
      }
    }
  }

  /** The files of the images listed in `order`. */
  function FilesOf(images: map<Id, Image>, order: seq<Id>): (paths: seq<string>)
    requires Planned(images, order)
    ensures |paths| == |order| && forall i :: 0 <= i < |order| ==> paths[i] == images[order[i]].file
  {
    seq(|order|, i requires 0 <= i < |order| => images[order[i]].file)
  }

  /** `entry.delete()`: the entry row and, by cascade, its image rows. */
  function WithoutEntry(images: map<Id, Image>, eid: Id): map<Id, Image> {
    map id | id in images && images[id].entry != Some(eid) :: images[id]
  }

  /** `delete_image` on a POST for the entry `eid`, whose images are listed
      in `order`. */
  method DeleteEntry(db: Database, eid: Id, order: seq<Id>)
    requires eid in db.entries
    requires forall id :: id in order <==> id in db.images && db.images[id].entry == Some(eid)
    modifies db
    ensures Planned(old(db.images), order)
    ensures db.files == RemoveAll(old(db.files), FilesOf(old(db.images), order), db.faults)
    ensures db.entries == old(db.entries) - {eid}
    ensures db.images == WithoutEntry(old(db.images), eid)
    ensures db.tags == old(db.tags) && db.tagTypes == old(db.tagTypes)
  {
    assert Planned(db.images, order);
    ghost var paths := FilesOf(db.images, order);
    ghost var files0 := db.files;
    var i := 0;
    while i < |order|
      invariant 0 <= i <= |order|
      invariant db.files == RemoveAll(files0, paths[..i], db.faults)
      invariant db.entries == old(db.entries) && db.images == old(db.images)
      invariant db.tags == old(db.tags) && db.tagTypes == old(db.tagTypes)
    {
      assert paths[..i + 1][..i] == paths[..i];
      var img := db.images[order[i]];
      if img.file != [] && img.file in db.files {
        var _ := db.Remove(img.file);
      }
      i := i + 1;
    }
    assert paths[..|order|] == paths;
    db.entries := db.entries - {eid};
    db.images := WithoutEntry(db.images, eid);
  }

  /** After a delete, the entry and all its images are gone whatever the
      removals did, no other row changed, and the only files missing are
      files of the entry's images. */
  lemma DeleteOutcome(files: Files, images: map<Id, Image>, eid: Id, order: seq<Id>, faults: Faults)
    requires forall id :: id in order <==> id in images && images[id].entry == Some(eid)
    ensures Planned(images, order)
    ensures forall id :: id in WithoutEntry(images, eid) <==> id in images && images[id].entry != Some(eid)
    ensures forall id :: id in WithoutEntry(images, eid) ==> WithoutEntry(images, eid)[id] == images[id]
    ensures var r := RemoveAll(files, FilesOf(images, order), faults);
            (forall p :: p in files && p !in r ==> exists id :: id in order && images[id].file == p) &&
            (forall p :: p in r ==> p in files && r[p] == files[p]) &&
            (forall id :: (id in order && images[id].file != [] && images[id].file in files &&
                           images[id].file !in faults.removeFails) ==> images[id].file !in r)
  {
    assert Planned(images, order);
    var paths := FilesOf(images, order);
    RemoveAllRemoves(files, paths, faults);
    forall p | p in files && p !in RemoveAll(files, paths, faults)
      ensures exists id :: id in order && images[id].file == p
    {
      var k :| 0 <= k < |paths| && paths[k] == p;
      assert order[k] in order;
    }
    forall id | id in order && images[id].file != [] && images[id].file in files && images[id].file !in faults.removeFails
      ensures images[id].file !in RemoveAll(files, paths, faults)
    {
      var k :| 0 <= k < |order| && order[k] == id;
      assert paths[k] == images[id].file;
    }
  }
}
