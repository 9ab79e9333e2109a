/** The stand-alone script rename_files_to_new_format.py: a dry run over
    all images selects those whose file name is not yet in the
    `_initial` format; after a confirmation they are renamed one by one and
    counted. */
module RenameScript {
  import opened Wrappers
  import opened Paths
  import opened EntryModels
  import opened Store
  import opened Filenames
  import opened Renaming

  /** `rename_file_and_update_db(image_obj, dry_run)`: skip a record
      without a file or already in the new format, report success without
      touching anything on a dry run, and run the protocol otherwise. */
  function RenameFileAndUpdateDb(files: Files, images: map<Id, Image>, id: Id, dryRun: bool, faults: Faults): Step
    requires id in images
  {
    var img := images[id];
    if img.file == [] then Step(false, files, images)
    else if IsNewFormat(Basename(img.file)) then Step(false, files, images)
    else if dryRun then Step(true, files, images)
    else RenameToNewFormat(files, images, id, faults)
  }

  /** A dry run changes nothing and reports exactly whether the image needs
      renaming; a real run of an image that needs it is the protocol, and
      one of an image that does not is refused without change. */
  lemma RenameFileModes(files: Files, images: map<Id, Image>, id: Id, faults: Faults)
    requires id in images
    ensures RenameFileAndUpdateDb(files, images, id, true, faults) == Step(NeedsRename(images[id]), files, images)
    ensures NeedsRename(images[id]) ==>
              RenameFileAndUpdateDb(files, images, id, false, faults) == RenameToNewFormat(files, images, id, faults)
    ensures !NeedsRename(images[id]) ==>
              RenameFileAndUpdateDb(files, images, id, false, faults) == Step(false, files, images)
  {
  }

  /** `files_to_rename`: the images of `order` that the dry run accepts,
      in order. */
  function Selected(images: map<Id, Image>, order: seq<Id>): (plan: seq<Id>)
    requires Planned(images, order)
    ensures |plan| <= |order|
    decreases |order|
  {
    if order == [] then []
    else
      var init := Selected(images, order[..|order| - 1]);
      var id := order[|order| - 1];
      if NeedsRename(images[id]) then init + [id] else init
  }

  /** The selection holds exactly the images that need renaming. */
  lemma {:induction false} SelectedMembers(images: map<Id, Image>, order: seq<Id>)
    requires Planned(images, order)
    ensures var plan := Selected(images, order);
            Planned(images, plan) &&
            (forall id :: id in plan <==> id in order && NeedsRename(images[id]))
    decreases |order|
  {
    if order != [] {
      var init := order[..|order| - 1];
      var id := order[|order| - 1];
      assert Planned(images, init);
      SelectedMembers(images, init);
      var plan := Selected(images, order);
      forall i | 0 <= i < |plan|
        ensures plan[i] in images
      {
        assert plan[i] in plan;
      }
      forall x
        ensures x in plan <==> x in order && NeedsRename(images[x])
      {
        assert x in order <==> x in init || x == id by {
          assert order == init + [id];
        }
      }
    }
  }

  /** The selection holds each image at most once, and only images that
      need renaming. */
  lemma {:induction false} SelectedFacts(images: map<Id, Image>, order: seq<Id>)
    requires Planned(images, order)
    requires forall i, j :: 0 <= i < j < |order| ==> order[i] != order[j]
    ensures var plan := Selected(images, order);
            Planned(images, plan) &&
            (forall i, j :: 0 <= i < j < |plan| ==> plan[i] != plan[j]) &&
            (forall i :: 0 <= i < |plan| ==> NeedsRename(images[plan[i]]))
    decreases |order|
  {
    SelectedMembers(images, order);
    var plan := Selected(images, order);
    if order != [] {
      var init := order[..|order| - 1];
      var id := order[|order| - 1];
      assert Planned(images, init);
      SelectedFacts(images, init);
      SelectedMembers(images, init);
      var prev := Selected(images, init);
      assert id !in prev by {
        assert id !in init;
      }
      forall i, j | 0 <= i < j < |plan|
        ensures plan[i] != plan[j]
      {
        if j == |prev| {
          assert plan[i] == prev[i];
        }
      }
    }
    forall i | 0 <= i < |plan|
      ensures NeedsRename(images[plan[i]])
    {
      assert plan[i] in plan;
    }
  }

  /** After a run without errors, running the script again selects
      nothing. */
  lemma SecondRunFindsNothing(files: Files, images: map<Id, Image>, order: seq<Id>, faults: Faults)
    requires Planned(images, order)
    requires forall i, j :: 0 <= i < j < |order| ==> order[i] != order[j]
    requires Planned(images, Selected(images, order))
    requires Batch(files, images, Selected(images, order), faults).errors == 0
    ensures Planned(Batch(files, images, Selected(images, order), faults).images, order)
    ensures Selected(Batch(files, images, Selected(images, order), faults).images, order) == []
  {
    var plan := Selected(images, order);
    SelectedFacts(images, order);
    SelectedMembers(images, order);
    BatchWithoutErrors(files, images, plan, faults);
    BatchKeepsFiles(files, images, plan, faults);
    var after := Batch(files, images, plan, faults).images;
    forall id | id in order
      ensures !NeedsRename(after[id])
    {
      if id in plan {
        var i :| 0 <= i < |plan| && plan[i] == id;
        RenamedIsDone(images[id]);
      }
    }
    NothingSelected(after, order);
  }

  lemma {:induction false} NothingSelected(images: map<Id, Image>, order: seq<Id>)
    requires Planned(images, order)
    requires forall id :: id in order ==> !NeedsRename(images[id])
    ensures Selected(images, order) == []
    decreases |order|
  {
    if order != [] {
      var init := order[..|order| - 1];
      assert Planned(images, init);
      NothingSelected(images, init);
    }
  }

  datatype Summary = AllInFormat | Cancelled(planned: nat) | Finished(successes: nat, errors: nat)

  /** `rename_file_and_update_db` on the database. */
  method RenameFileAndUpdateDbIn(db: Database, id: Id, dryRun: bool) returns (ok: bool)
    requires id in db.images
    modifies db
    ensures var r := RenameFileAndUpdateDb(old(db.files), old(db.images), id, dryRun, db.faults);
            ok == r.ok && db.files == r.files && db.images == r.images
    ensures db.entries == old(db.entries) && db.tags == old(db.tags) && db.tagTypes == old(db.tagTypes)
  {
    var img := db.images[id];
    if img.file == [] {
      return false;
    }
    if IsNewFormat(Basename(img.file)) {
      return false;
    }
    if dryRun {
      return true;
    }
    ok := RenameInDatabase(db, id);
  }

  /** `main()`, with the images in upload order given as `order` and the
      typed confirmation as `answer`. */
  method RunScript(db: Database, order: seq<Id>, answer: string) returns (summary: Summary)
    requires Planned(db.images, order)
    requires forall i, j :: 0 <= i < j < |order| ==> order[i] != order[j]
    modifies db
    ensures db.entries == old(db.entries) && db.tags == old(db.tags) && db.tagTypes == old(db.tagTypes)
    ensures var plan := Selected(old(db.images), order);
            (plan == [] ==> summary == AllInFormat) &&
            (plan != [] && !Confirms(answer) ==> summary == Cancelled(|plan|)) &&
            (plan == [] || !Confirms(answer) ==> db.files == old(db.files) && db.images == old(db.images))
    ensures var plan := Selected(old(db.images), order);
            plan != [] && Confirms(answer) ==>
              Planned(old(db.images), plan) &&
              var t := Batch(old(db.files), old(db.images), plan, db.faults);
              summary == Finished(t.successes, t.errors) && db.files == t.files && db.images == t.images
  {
    var plan := DryRun(db, order);
    if plan == [] {
      return AllInFormat;
    }
    if !Confirms(answer) {
      return Cancelled(|plan|);
    }
    SelectedFacts(db.images, order);
    var successes, errors := RenameSelected(db, plan);
    summary := Finished(successes, errors);
  }

  /** The dry-run loop of `main()`: every image is offered to
      `rename_file_and_update_db` with `dry_run=True`, and those it accepts
      are collected. */
  method DryRun(db: Database, order: seq<Id>) returns (plan: seq<Id>)
    requires Planned(db.images, order)
    modifies db
    ensures db.files == old(db.files) && db.images == old(db.images)
    ensures plan == Selected(db.images, order)
    ensures db.entries == old(db.entries) && db.tags == old(db.tags) && db.tagTypes == old(db.tagTypes)
  {
    plan := [];
    var i := 0;
    while i < |order|
      invariant 0 <= i <= |order|
      invariant Planned(db.images, order[..i])
      invariant plan == Selected(db.images, order[..i])
      invariant db.files == old(db.files) && db.images == old(db.images)
      invariant db.entries == old(db.entries) && db.tags == old(db.tags) && db.tagTypes == old(db.tagTypes)
    {
      assert order[..i + 1][..i] == order[..i];
      RenameFileModes(db.files, db.images, order[i], db.faults);
      var selected := RenameFileAndUpdateDbIn(db, order[i], true);
      if selected {
        plan := plan + [order[i]];
      }
      i := i + 1;
    }
    assert order[..|order|] == order;
  }

  /** The counting loop of `main()` over the selected images. */
  method RenameSelected(db: Database, plan: seq<Id>) returns (successes: nat, errors: nat)
    requires Planned(db.images, plan)
    requires forall i, j :: 0 <= i < j < |plan| ==> plan[i] != plan[j]
    requires forall i :: 0 <= i < |plan| ==> NeedsRename(db.images[plan[i]])
    modifies db
    ensures Tallied(db, Batch(old(db.files), old(db.images), plan, db.faults), successes, errors)
    ensures successes + errors == |plan|
    ensures db.entries == old(db.entries) && db.tags == old(db.tags) && db.tagTypes == old(db.tagTypes)
  {
    ghost var files0, images0 := db.files, db.images;
    ghost var t := Batch(files0, images0, [], db.faults);
    successes, errors := 0, 0;
    var i := 0;
    while i < |plan|
      invariant 0 <= i <= |plan|
      invariant t == Batch(files0, images0, plan[..i], db.faults)
      invariant Tallied(db, t, successes, errors)
      invariant db.entries == old(db.entries) && db.tags == old(db.tags) && db.tagTypes == old(db.tagTypes)
    {
      BatchStep(files0, images0, plan, i, db.faults);
      Untouched(files0, images0, plan, i, db.faults);
      RenameFileModes(db.files, db.images, plan[i], db.faults);
      var ok := RenameFileAndUpdateDbIn(db, plan[i], false);
      if ok {
        successes := successes + 1;
      } else {
        errors := errors + 1;
      }
      t := Batch(files0, images0, plan[..i + 1], db.faults);
      i := i + 1;
    }
    assert plan[..|plan|] == plan;
  }

  /** An image not yet reached by the loop still has its original record. */
  lemma Untouched(files: Files, images: map<Id, Image>, plan: seq<Id>, i: nat, faults: Faults)
    requires Planned(images, plan) && i < |plan|
    requires forall a, b :: 0 <= a < b < |plan| ==> plan[a] != plan[b]
    ensures Planned(images, plan[..i])
    ensures Batch(files, images, plan[..i], faults).images[plan[i]] == images[plan[i]]
  {
    assert Planned(images, plan[..i]);
    BatchKeepsFiles(files, images, plan[..i], faults);
    assert plan[i] !in plan[..i];
  }
}
