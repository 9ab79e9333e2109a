/** The management command `rename_to_new_format`: `analyze_file` selects
    the images that have a file on disk not yet in the `_initial` format;
    `--dry-run` stops after the analysis, `--force` skips the confirmation,
    and `rename_file` runs the shared protocol on each selected image. */
module RenameCommand {
  import opened Wrappers
  import opened Paths
  import opened EntryModels
  import opened Store
  import opened Filenames
  import opened Renaming
  import RenameScript

  /** `Command.analyze_file(image_obj)`. */
  predicate Analyze(files: Files, img: Image) {
    if img.file == [] then false
    else if IsNewFormat(Basename(img.file)) then false
    else img.file in files
  }

  /** `files_to_rename` of `handle`. */
  function Analyzed(files: Files, images: map<Id, Image>, order: seq<Id>): (plan: seq<Id>)
    requires Planned(images, order)
    ensures |plan| <= |order|
    decreases |order|
  {
    if order == [] then []
    else
      var init := Analyzed(files, images, order[..|order| - 1]);
      var id := order[|order| - 1];
      if Analyze(files, images[id]) then init + [id] else init
  }

  /** `analyze_file` accepts exactly the images that need renaming and
      whose file exists. */
  lemma AnalyzeIff(files: Files, img: Image)
    ensures Analyze(files, img) <==> NeedsRename(img) && img.file in files
  {
  }

  /** The selection holds exactly the images `analyze_file` accepts. */
  lemma {:induction false} AnalyzedMembers(files: Files, images: map<Id, Image>, order: seq<Id>)
    requires Planned(images, order)
    ensures var plan := Analyzed(files, images, order);
            Planned(images, plan) &&
            (forall id :: id in plan <==> id in order && Analyze(files, images[id]))
    decreases |order|
  {
    if order != [] {
      var init := order[..|order| - 1];
      assert Planned(images, init);
      AnalyzedMembers(files, images, init);
      assert order == init + [order[|order| - 1]];
    }
  }

  /** The selection holds each image at most once, and only images that
      need renaming and whose file exists. */
  lemma {:induction false} AnalyzedFacts(files: Files, images: map<Id, Image>, order: seq<Id>)
    requires Planned(images, order)
    requires forall i, j :: 0 <= i < j < |order| ==> order[i] != order[j]
    ensures var plan := Analyzed(files, images, order);
            Planned(images, plan) &&
            (forall i, j :: 0 <= i < j < |plan| ==> plan[i] != plan[j]) &&
            (forall i :: 0 <= i < |plan| ==> NeedsRename(images[plan[i]]) && images[plan[i]].file in files)
    decreases |order|
  {
    AnalyzedMembers(files, images, order);
    forall i | 0 <= i < |Analyzed(files, images, order)|
      ensures NeedsRename(images[Analyzed(files, images, order)[i]]) && images[Analyzed(files, images, order)[i]].file in files
    {
      AnalyzeIff(files, images[Analyzed(files, images, order)[i]]);
    }
    if order != [] {
      var init := order[..|order| - 1];
      var id := order[|order| - 1];
      assert Planned(images, init);
      AnalyzedFacts(files, images, init);
      AnalyzedMembers(files, images, init);
      assert id !in init;
    }
  }

  /** The command selects what the script selects, less the images whose
      file is missing. */
  lemma AnalyzedWithinSelected(files: Files, images: map<Id, Image>, order: seq<Id>)
    requires Planned(images, order)
    ensures forall id :: id in Analyzed(files, images, order) <==>
              id in RenameScript.Selected(images, order) && id in images && images[id].file in files
  {
    AnalyzedMembers(files, images, order);
    RenameScript.SelectedMembers(images, order);
    forall id | id in order
      ensures Analyze(files, images[id]) <==> NeedsRename(images[id]) && images[id].file in files
    {
      AnalyzeIff(files, images[id]);
    }
  }

  datatype Outcome = AllInFormat | DryRunOnly(planned: nat) | Cancelled(planned: nat) | Finished(successes: nat, errors: nat)

  /** `handle(dry_run, force)`, with the images in upload order given as
      `order` and the typed confirmation as `answer` (read only without
      `--force`). */
  method Handle(db: Database, order: seq<Id>, dryRun: bool, force: bool, answer: string) returns (outcome: Outcome)
    requires Planned(db.images, order)
    requires forall i, j :: 0 <= i < j < |order| ==> order[i] != order[j]
    modifies db
    ensures db.entries == old(db.entries) && db.tags == old(db.tags) && db.tagTypes == old(db.tagTypes)
    ensures var plan := Analyzed(old(db.files), old(db.images), order);
            (plan == [] ==> outcome == AllInFormat) &&
            (plan != [] && dryRun ==> outcome == DryRunOnly(|plan|)) &&
            (plan != [] && !dryRun && !force && !Confirms(answer) ==> outcome == Cancelled(|plan|)) &&
            (plan == [] || dryRun || (!force && !Confirms(answer)) ==>
               db.files == old(db.files) && db.images == old(db.images))
    ensures var plan := Analyzed(old(db.files), old(db.images), order);
            plan != [] && !dryRun && (force || Confirms(answer)) ==>
              Planned(old(db.images), plan) &&
              var t := Batch(old(db.files), old(db.images), plan, db.faults);
              outcome == Finished(t.successes, t.errors) && db.files == t.files && db.images == t.images
  {
    var plan: seq<Id> := [];
    var i := 0;
    while i < |order|
      invariant 0 <= i <= |order|
      invariant Planned(db.images, order[..i])
      invariant plan == Analyzed(db.files, db.images, order[..i])
    {
      assert order[..i + 1][..i] == order[..i];
      if Analyze(db.files, db.images[order[i]]) {
        plan := plan + [order[i]];
      }
      i := i + 1;
    }
    assert order[..|order|] == order;
    if plan == [] {
      return AllInFormat;
    }
    if dryRun {
      return DryRunOnly(|plan|);
    }
    if !force && !Confirms(answer) {
      return Cancelled(|plan|);
    }
    AnalyzedFacts(db.files, db.images, order);
    var successes, errors := RenameAll(db, plan);
    outcome := Finished(successes, errors);
  }
}
