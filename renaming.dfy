/** The rename protocol the two batch tools share, word for word, in the
    try block of `rename_file_and_update_db` (rename_files_to_new_format.py)
    and `Command.rename_file` (the rename_to_new_format management command):
    refuse an existing target, move the file, point the record at
    "uploaded_images/" + the new name, and if saving the record fails, move
    the file back when that is still possible. Also the counting loop both
    tools run over the images they selected. */
module Renaming {
  import opened Wrappers
  import opened Ascii
  import opened Paths
  import opened EntryModels
  import opened Store
  import opened Filenames

  datatype Step = Step(ok: bool, files: Files, images: map<Id, Image>)

  /** Where the file of `img` is moved: the generated name in the
      directory of its current path. */
  function Target(img: Image): string {
    ReplaceBasename(img.file, GenerateNewFilename(img))
  }

  /** The record after a successful rename. */
  function Renamed(img: Image): Image {
    img.(file := UploadDir + GenerateNewFilename(img))
  }

  /** One run of the protocol on the image row `id`. */
  function RenameToNewFormat(files: Files, images: map<Id, Image>, id: Id, faults: Faults): Step
    requires id in images
  {
    var img := images[id];
    var src := img.file;
    var dst := Target(img);
    if dst in files then Step(false, files, images)
    else match RenameFile(files, src, dst, faults)
      case None => Step(false, files, images)
      case Some(moved) =>
        if id !in faults.saveFails then Step(true, moved, images[id := Renamed(img)])
        else if dst in moved && src !in moved then
          match RenameFile(moved, dst, src, faults)
          case Some(restored) => Step(false, restored, images)
          case None => Step(false, moved, images)
        else Step(false, moved, images)
  }

  /** What one run does: on success the file has moved to the free target
      and only the record `id` changed; on failure no record changed and the
      storage is as before, except when the save failed after the move and
      the move back was refused, which leaves the file at the target. */
  lemma RenameOutcome(files: Files, images: map<Id, Image>, id: Id, faults: Faults)
    requires id in images
    ensures var r := RenameToNewFormat(files, images, id, faults);
            var img := images[id];
            (r.ok ==> img.file in files && Target(img) !in files &&
                      r.files == Move(files, img.file, Target(img)) &&
                      r.images == images[id := Renamed(img)]) &&
            (!r.ok ==> r.images == images &&
                       (r.files == files ||
                        (img.file in files && Target(img) !in files && id in faults.saveFails &&
                         Target(img) in faults.renameFails &&
                         r.files == Move(files, img.file, Target(img)))))
  {
    var img := images[id];
    var src, dst := img.file, Target(img);
    if dst !in files && src in files && src !in faults.renameFails && id in faults.saveFails {
      if dst !in faults.renameFails {
        MoveBack(files, src, dst);
      }
    }
  }

  /** A failed save is rolled back: when the move back is allowed, the
      storage ends exactly as it started. */
  lemma RollbackRestores(files: Files, images: map<Id, Image>, id: Id, faults: Faults)
    requires id in images && id in faults.saveFails && Target(images[id]) !in faults.renameFails
    ensures RenameToNewFormat(files, images, id, faults) == Step(false, files, images)
  {
    RenameOutcome(files, images, id, faults);
  }

  /** No run loses a file: the storage holds as many files as before, with
      the same contents. */
  lemma RenameKeepsFiles(files: Files, images: map<Id, Image>, id: Id, faults: Faults)
    requires id in images
    ensures var r := RenameToNewFormat(files, images, id, faults);
            |r.files.Keys| == |files.Keys| && r.files.Values == files.Values
  {
    RenameOutcome(files, images, id, faults);
    var img := images[id];
    if img.file in files && Target(img) !in files {
      MoveToFreeName(files, img.file, Target(img));
    }
  }

  /** The base name of a stored name in the upload directory is what
      follows the directory, so its directory is the upload directory. */
  lemma StoredHead(file: string)
    requires StartsWithDir(file)
    ensures Head(file) == UploadDir
    ensures forall n :: ReplaceBasename(file, n) == UploadDir + n
  {
    var i := |UploadDir| - 1;
    assert file[i] == '/';
    forall k | i < k < |file| ensures file[k] != '/' {
      assert file[k] == file[|UploadDir|..][k - |UploadDir|];
    }
    assert RFind(file, '/') == i;
  }

  /** For a record in the upload directory, a successful run points the
      record at the moved file, keeps it in the upload directory, and puts
      it in the new format. */
  lemma RenamedRecordNamesFile(files: Files, images: map<Id, Image>, id: Id, faults: Faults)
    requires id in images && StartsWithDir(images[id].file)
    requires RenameToNewFormat(files, images, id, faults).ok
    ensures var r := RenameToNewFormat(files, images, id, faults);
            var f := r.images[id].file;
            f == Target(images[id]) && f in r.files && r.files[f] == files[images[id].file] &&
            StartsWithDir(f) && IsNewFormat(Basename(f))
  {
    var img := images[id];
    var n := GenerateNewFilename(img);
    RenameOutcome(files, images, id, faults);
    StoredHead(img.file);
    GeneratedIsPlain(img);
    GeneratedIsNewFormat(img);
    ReplaceBasenameParts(img.file, n);
    assert (UploadDir + n)[|UploadDir|..] == n;
    assert (UploadDir + n)[..|UploadDir|] == UploadDir;
  }

  /** The state after running the protocol on each of `plan` in turn,
      with the counters of the loop and the targets of the successful
      renames. */
  datatype Tally = Tally(files: Files, images: map<Id, Image>, successes: nat, errors: nat, targets: seq<string>)

  predicate Planned(images: map<Id, Image>, plan: seq<Id>) {
    forall i :: 0 <= i < |plan| ==> plan[i] in images
  }

  function Batch(files: Files, images: map<Id, Image>, plan: seq<Id>, faults: Faults): (t: Tally)
    requires Planned(images, plan)
    ensures t.images.Keys == images.Keys
    ensures t.successes + t.errors == |plan|
    ensures |t.targets| == t.successes
    decreases |plan|
  {
    if plan == [] then Tally(files, images, 0, 0, [])
    else
      var before := Batch(files, images, plan[..|plan| - 1], faults);
      var id := plan[|plan| - 1];
      var step := RenameToNewFormat(before.files, before.images, id, faults);
      if step.ok then
        Tally(step.files, step.images, before.successes + 1, before.errors, before.targets + [Target(before.images[id])])
      else
        Tally(step.files, step.images, before.successes, before.errors + 1, before.targets)
  }

  /** Only the records of planned images change, and the storage keeps its
      size and contents. */
  lemma {:induction false} BatchKeepsFiles(files: Files, images: map<Id, Image>, plan: seq<Id>, faults: Faults)
    requires Planned(images, plan)
    ensures var t := Batch(files, images, plan, faults);
            |t.files.Keys| == |files.Keys| && t.files.Values == files.Values &&
            forall id :: id in images && id !in plan ==> t.images[id] == images[id]
    decreases |plan|
  {
    if plan != [] {
      var init := plan[..|plan| - 1];
      assert Planned(images, init);
      BatchKeepsFiles(files, images, init, faults);
      var before := Batch(files, images, init, faults);
      var id := plan[|plan| - 1];
      RenameKeepsFiles(before.files, before.images, id, faults);
      RenameOutcome(before.files, before.images, id, faults);
    }
  }

  /** Only the records of planned images change. */
  lemma {:induction false} BatchKeepsOthers(files: Files, images: map<Id, Image>, plan: seq<Id>, faults: Faults)
    requires Planned(images, plan)
    ensures var t := Batch(files, images, plan, faults);
            forall id :: id in images && id !in plan ==> t.images[id] == images[id]
    decreases |plan|
  {
    if plan != [] {
      var init := plan[..|plan| - 1];
      assert Planned(images, init);
      BatchKeepsOthers(files, images, init, faults);
      var before := Batch(files, images, init, faults);
      RenameOutcome(before.files, before.images, plan[|plan| - 1], faults);
    }
  }

  /** What makes an image worth renaming: it has a file whose base name is
      not yet in the new format. */
  predicate NeedsRename(img: Image) {
    img.file != [] && !IsNewFormat(Basename(img.file))
  }

  /** Every target of a successful rename still holds its file at the end
      of the batch, under a base name in the new format. */
  lemma {:induction false} BatchTargetsStored(files: Files, images: map<Id, Image>, plan: seq<Id>, faults: Faults)
    requires Planned(images, plan)
    requires forall i, j :: 0 <= i < j < |plan| ==> plan[i] != plan[j]
    requires forall i :: 0 <= i < |plan| ==> NeedsRename(images[plan[i]])
    ensures var t := Batch(files, images, plan, faults);
            forall i :: 0 <= i < |t.targets| ==> t.targets[i] in t.files && IsNewFormat(Basename(t.targets[i]))
    decreases |plan|
  {
    if plan != [] {
      var init := plan[..|plan| - 1];
      var id := plan[|plan| - 1];
      assert Planned(images, init);
      var before := Batch(files, images, init, faults);
      var step := RenameToNewFormat(before.files, before.images, id, faults);
      var t := Batch(files, images, plan, faults);
      var img := images[id];
      BatchLast(files, images, plan, faults);
      assert before.images[id] == img by {
        BatchKeepsOthers(files, images, init, faults);
        assert id !in init;
      }
      BatchTargetsStored(files, images, init, faults);
      assert forall i :: 0 <= i < |before.targets| ==>
        before.targets[i] in before.files && IsNewFormat(Basename(before.targets[i]));
      forall i | 0 <= i < |t.targets|
        ensures t.targets[i] in t.files && IsNewFormat(Basename(t.targets[i]))
      {
        if i < |before.targets| {
          assert t.targets[i] == before.targets[i];
          RenameKeepsOthers(before.files, before.images, id, faults, before.targets[i]);
        } else {
          assert t.targets[i] == Target(img);
          RenamedIsStored(before.files, before.images, id, faults);
        }
      }
    }
  }

  /** A run leaves every file other than the one it moves where it was. */
  lemma RenameKeepsOthers(files: Files, images: map<Id, Image>, id: Id, faults: Faults, p: string)
    requires id in images && p in files && p != images[id].file
    ensures p in RenameToNewFormat(files, images, id, faults).files
  {
    RenameOutcome(files, images, id, faults);
  }

  /** A successful run leaves the file at its target, whose base name is in
      the new format. */
  lemma RenamedIsStored(files: Files, images: map<Id, Image>, id: Id, faults: Faults)
    requires id in images && RenameToNewFormat(files, images, id, faults).ok
    ensures var img := images[id];
            Target(img) in RenameToNewFormat(files, images, id, faults).files && IsNewFormat(Basename(Target(img)))
  {
    var img := images[id];
    RenameOutcome(files, images, id, faults);
    GeneratedIsPlain(img);
    GeneratedIsNewFormat(img);
    ReplaceBasenameParts(img.file, GenerateNewFilename(img));
  }

  /** No two successful renames of a batch share a target path. Images
      with the same metadata whose files share a directory and an extension
      want the same path, so at most one of them is renamed; with other
      extensions or directories each may be. */
  lemma {:induction false} BatchTargetsDistinct(files: Files, images: map<Id, Image>, plan: seq<Id>, faults: Faults)
    requires Planned(images, plan)
    requires forall i, j :: 0 <= i < j < |plan| ==> plan[i] != plan[j]
    requires forall i :: 0 <= i < |plan| ==> NeedsRename(images[plan[i]])
    ensures Distinct(Batch(files, images, plan, faults).targets)
    decreases |plan|
  {
    if plan != [] {
      var init := plan[..|plan| - 1];
      var id := plan[|plan| - 1];
      assert Planned(images, init);
      BatchTargetsDistinct(files, images, init, faults);
      BatchTargetsInFiles(files, images, init, faults);
      var before := Batch(files, images, init, faults);
      assert forall i :: 0 <= i < |Batch(files, images, init, faults).targets| ==> Batch(files, images, init, faults).targets[i] in Batch(files, images, init, faults).files;
      assert forall i :: 0 <= i < |before.targets| ==> before.targets[i] in before.files;
      var step := RenameToNewFormat(before.files, before.images, id, faults);
      if step.ok {
        var tg := Target(before.images[id]);
        assert tg !in before.files by {
          RenameOutcome(before.files, before.images, id, faults);
        }
        AppendDistinct(before.targets, before.files.Keys, tg);
      }
    }
  }

  /** The storage part of `BatchTargetsStored`. */
  lemma BatchTargetsInFiles(files: Files, images: map<Id, Image>, plan: seq<Id>, faults: Faults)
    requires Planned(images, plan)
    requires forall i, j :: 0 <= i < j < |plan| ==> plan[i] != plan[j]
    requires forall i :: 0 <= i < |plan| ==> NeedsRename(images[plan[i]])
    ensures var t := Batch(files, images, plan, faults);
            forall i :: 0 <= i < |t.targets| ==> t.targets[i] in t.files
  {
    BatchTargetsStored(files, images, plan, faults);
  }

  /** The last run of a batch decides its storage and whether a target is
      added. */
  lemma BatchLast(files: Files, images: map<Id, Image>, plan: seq<Id>, faults: Faults)
    requires Planned(images, plan) && plan != []
    ensures var before := Batch(files, images, plan[..|plan| - 1], faults);
            var step := RenameToNewFormat(before.files, before.images, plan[|plan| - 1], faults);
            var t := Batch(files, images, plan, faults);
            t.files == step.files &&
            t.targets == before.targets + (if step.ok then [Target(before.images[plan[|plan| - 1]])] else [])
  {
  }

  predicate Distinct(s: seq<string>) {
    forall i, j :: 0 <= i < j < |s| ==> s[i] != s[j]
  }

  /** Appending a name outside a set that holds all the others keeps the
      names distinct. */
  lemma AppendDistinct(s: seq<string>, names: set<string>, n: string)
    requires Distinct(s) && (forall i :: 0 <= i < |s| ==> s[i] in names) && n !in names
    ensures Distinct(s + [n])
  {
  }

  /** After a batch without errors, every planned image carries the
      renamed record of its original. */
  lemma {:induction false} BatchWithoutErrors(files: Files, images: map<Id, Image>, plan: seq<Id>, faults: Faults)
    requires Planned(images, plan)
    requires forall i, j :: 0 <= i < j < |plan| ==> plan[i] != plan[j]
    requires Batch(files, images, plan, faults).errors == 0
    ensures forall i :: 0 <= i < |plan| ==> Batch(files, images, plan, faults).images[plan[i]] == Renamed(images[plan[i]])
    decreases |plan|
  {
    if plan != [] {
      var init := plan[..|plan| - 1];
      var id := plan[|plan| - 1];
      assert Planned(images, init);
      var before := Batch(files, images, init, faults);
      var step := RenameToNewFormat(before.files, before.images, id, faults);
      var t := Batch(files, images, plan, faults);
      assert step.ok && before.errors == 0 && t.images == step.images;
      BatchWithoutErrors(files, images, init, faults);
      assert t.images == before.images[id := Renamed(before.images[id])] by {
        RenameOutcome(before.files, before.images, id, faults);
      }
      assert before.images[id] == images[id] by {
        BatchKeepsOthers(files, images, init, faults);
        assert id !in init;
      }
      forall i | 0 <= i < |plan|
        ensures t.images[plan[i]] == Renamed(images[plan[i]])
      {
        if i < |plan| - 1 {
          assert plan[i] == init[i] && plan[i] != id;
        }
      }
    }
  }

  /** A plain name stored in the upload directory keeps it as its base
      name. */
  lemma BasenameInUploadDir(n: string)
    requires '/' !in n
    ensures Basename(UploadDir + n) == n
  {
    ReplaceBasenameParts(UploadDir, n);
    assert Head(UploadDir) == UploadDir by {
      assert RFind(UploadDir, '/') == |UploadDir| - 1;
    }
    assert ReplaceBasename(UploadDir, n) == UploadDir + n;
  }

  /** A renamed record no longer needs renaming. */
  lemma RenamedIsDone(img: Image)
    ensures !NeedsRename(Renamed(img))
  {
    GeneratedIsPlain(img);
    GeneratedIsNewFormat(img);
    BasenameInUploadDir(GenerateNewFilename(img));
  }

  /** The confirmation `answer.lower() == 'y'`. */
  predicate Confirms(answer: string) {
    LowerStr(answer) == "y"
  }

  /** Only the answers "y" and "Y" confirm. */
  lemma ConfirmsOnlyY(answer: string)
    ensures Confirms(answer) <==> answer == "y" || answer == "Y"
  {
    if Confirms(answer) {
      assert |answer| == 1 && Lower(answer[0]) == 'y';
    }
  }

  /** The batch over one more planned image is one more run of the
      protocol. */
  lemma BatchStep(files: Files, images: map<Id, Image>, plan: seq<Id>, i: nat, faults: Faults)
    requires Planned(images, plan) && i < |plan|
    ensures Planned(images, plan[..i]) && Planned(images, plan[..i + 1])
    ensures var before := Batch(files, images, plan[..i], faults);
            var step := RenameToNewFormat(before.files, before.images, plan[i], faults);
            var after := Batch(files, images, plan[..i + 1], faults);
            after.files == step.files && after.images == step.images &&
            after.successes == before.successes + (if step.ok then 1 else 0) &&
            after.errors == before.errors + (if step.ok then 0 else 1)
  {
    assert plan[..i + 1][..i] == plan[..i];
  }

  /** One run of the protocol on the database. */
  method RenameInDatabase(db: Database, id: Id) returns (ok: bool)
    requires id in db.images
    modifies db
    ensures var r := RenameToNewFormat(old(db.files), old(db.images), id, db.faults);
            ok == r.ok && db.files == r.files && db.images == r.images
    ensures db.entries == old(db.entries) && db.tags == old(db.tags) && db.tagTypes == old(db.tagTypes)
  {
    var img := db.images[id];
    var src := img.file;
    var dst := Target(img);
    if dst in db.files {
      return false;
    }
    var moved := db.Rename(src, dst);
    if !moved {
      return false;
    }
    ok := db.SaveImage(id, Renamed(img));
    if !ok && dst in db.files && src !in db.files {
      var _ := db.Rename(dst, src);
    }
  }

  /** The database and the counters hold the tally `t`. */
  ghost predicate Tallied(db: Database, t: Tally, successes: nat, errors: nat)
    reads db
  {
    db.files == t.files && db.images == t.images && successes == t.successes && errors == t.errors
  }

  /** The loop `for image in files_to_rename: if rename(image): success += 1
      else: error += 1`, with `rename` the protocol. */
  method RenameAll(db: Database, plan: seq<Id>) returns (successes: nat, errors: nat)
    requires Planned(db.images, plan)
    modifies db
    ensures Tallied(db, Batch(old(db.files), old(db.images), plan, db.faults), successes, errors)
    ensures successes + errors == |plan|
    ensures db.entries == old(db.entries) && db.tags == old(db.tags) && db.tagTypes == old(db.tagTypes)
  {
    ghost var files0, images0 := db.files, db.images;
    ghost var t := Batch(files0, images0, [], db.faults);
    successes, errors := 0, 0;
    var i := 0;
    while i < |plan|
      invariant 0 <= i <= |plan|
      invariant t == Batch(files0, images0, plan[..i], db.faults)
      invariant Tallied(db, t, successes, errors)
      invariant db.entries == old(db.entries) && db.tags == old(db.tags) && db.tagTypes == old(db.tagTypes)
    {
      BatchStep(files0, images0, plan, i, db.faults);
      var ok := RenameInDatabase(db, plan[i]);
      if ok {
        successes := successes + 1;
      } else {
        errors := errors + 1;
      }
      t := Batch(files0, images0, plan[..i + 1], db.faults);
      i := i + 1;
    }
    assert plan[..|plan|] == plan;
  }
}
