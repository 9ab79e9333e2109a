/** The two catalogue records of image_upload/models.py: an `Entry` (one
    catalogued item, with its tags) and an `Image` (one uploaded picture of
    it, carrying copies of the entry's name, publisher and range from which
    its filename is generated), and the entry's display-image rule. */
module EntryModels {
  import opened Wrappers

  /** Database primary keys: Django's auto-incremented ids start at 1, so
      a present key is always truthy. */
  type Id = x: int | x >= 1 witness 1

  /** Upload timestamps, compared by value. */
  type Timestamp = int

  datatype Entry = Entry(
    name: string,
    publisher: Option<string>,
    range: Option<string>,
    folderLocation: Option<string>,
    notes: Option<string>,
    tags: set<Id>,
    uploadDate: Timestamp)

  /** `file` is the stored name of the image file relative to the media
      root; the empty name is a record without a file. */
  datatype Image = Image(
    entry: Option<Id>,
    file: string,
    name: string,
    publisher: Option<string>,
    range: Option<string>,
    isPrimary: bool,
    uploadDate: Timestamp)

  /** Position of the earliest upload in `imgs`; among equal dates, the
      first one listed. */
  function EarliestIndex(imgs: seq<Image>): (i: nat)
    requires imgs != []
    ensures i < |imgs|
    ensures forall k :: 0 <= k < |imgs| ==> imgs[i].uploadDate <= imgs[k].uploadDate
  {
    if |imgs| == 1 then 0
    else
      var j := EarliestIndex(imgs[1..]);
      if imgs[0].uploadDate <= imgs[1 + j].uploadDate then 0 else 1 + j
  }

  /** `images.filter(is_primary=True)`, keeping the listed order. */
  function Primaries(imgs: seq<Image>): (ps: seq<Image>)
    ensures forall x :: x in ps <==> x in imgs && x.isPrimary
  {
    if imgs == [] then []
    else if imgs[0].isPrimary then [imgs[0]] + Primaries(imgs[1..])
    else Primaries(imgs[1..])
  }

  /** `Entry.get_display_image()` over the entry's images: the earliest
      primary image under the model ordering (`-is_primary`, `upload_date`)
      when there is one, otherwise the earliest upload, otherwise None. */
  function DisplayImage(imgs: seq<Image>): Option<Image> {
    var ps := Primaries(imgs);
    if ps != [] then Some(ps[EarliestIndex(ps)])
    else if imgs != [] then Some(imgs[EarliestIndex(imgs)])
    else None
  }

  /** The display image exists exactly when the entry has an image, is one
      of the entry's images, is primary whenever some image is, and is the
      earliest upload among the images it was chosen from. */
  lemma DisplayImageChoice(imgs: seq<Image>)
    ensures DisplayImage(imgs).None? <==> imgs == []
    ensures DisplayImage(imgs).Some? ==> DisplayImage(imgs).value in imgs
    ensures (exists k :: 0 <= k < |imgs| && imgs[k].isPrimary) ==>
              DisplayImage(imgs).value.isPrimary &&
              forall k :: 0 <= k < |imgs| && imgs[k].isPrimary ==>
                DisplayImage(imgs).value.uploadDate <= imgs[k].uploadDate
    ensures (forall k :: 0 <= k < |imgs| ==> !imgs[k].isPrimary) && imgs != [] ==>
              forall k :: 0 <= k < |imgs| ==> DisplayImage(imgs).value.uploadDate <= imgs[k].uploadDate
  {
    var ps := Primaries(imgs);
    if exists k :: 0 <= k < |imgs| && imgs[k].isPrimary {
      var k :| 0 <= k < |imgs| && imgs[k].isPrimary;
      assert imgs[k] in ps;
      var i := EarliestIndex(ps);
      forall k | 0 <= k < |imgs| && imgs[k].isPrimary
        ensures ps[i].uploadDate <= imgs[k].uploadDate
      {
        assert imgs[k] in ps;
        var m :| 0 <= m < |ps| && ps[m] == imgs[k];
      }
    }
  }
}
