/** The state the catalogue's code changes: the database tables and the
    media storage. Files are keyed by their stored name relative to the
    media root (what `image.image.name` holds); `image.image.path` is that
    name under the root, so existence, base name and directory carry over. */
module Store {
  import opened Wrappers
  import opened EntryModels
  import opened TagModels

  type Blob = seq<bv8>
  type Files = map<string, Blob>

  /** The `upload_to` directory of `Image.image`. */
  const UploadDir := "uploaded_images/"

  /** The operating system and database refusals the model cannot derive:
      renames whose source the OS refuses to move, removals it refuses, and
      image rows whose save raises. */
  datatype Faults = Faults(renameFails: set<string>, removeFails: set<string>, saveFails: set<Id>)

  /** POSIX `rename(src, dst)` of an existing file: `dst` is replaced. */
  function Move(files: Files, src: string, dst: string): (r: Files)
    requires src in files
    ensures dst in r && r[dst] == files[src]
    ensures src != dst ==> src !in r
    ensures forall p :: p != src && p != dst ==> (p in r <==> p in files)
    ensures forall p :: p in r && p != dst ==> p in files && r[p] == files[p]
  {
    (files - {src})[dst := files[src]]
  }

  /** `os.rename(src, dst)`: None stands for the OSError raised when the
      source is missing or the operating system refuses. */
  function RenameFile(files: Files, src: string, dst: string, faults: Faults): (r: Option<Files>)
    ensures r.Some? <==> src in files && src !in faults.renameFails
  {
    if src !in files || src in faults.renameFails then None else Some(Move(files, src, dst))
  }

  /** `os.remove(p)`: None stands for the OSError raised when the file is
      missing or the operating system refuses. */
  function RemoveFile(files: Files, p: string, faults: Faults): (r: Option<Files>)
    ensures r.Some? <==> p in files && p !in faults.removeFails
  {
    if p !in files || p in faults.removeFails then None else Some(files - {p})
  }

  /** Moving a file to a free name and back restores the storage. */
  lemma MoveBack(files: Files, src: string, dst: string)
    requires src in files && dst !in files
    ensures Move(Move(files, src, dst), dst, src) == files
  {
    var back := Move(Move(files, src, dst), dst, src);
    assert back.Keys == files.Keys;
  }

  /** Moving a file to a free name loses nothing: as many files as before,
      holding the same contents. */
  lemma MoveToFreeName(files: Files, src: string, dst: string)
    requires src in files && dst !in files
    ensures |Move(files, src, dst).Keys| == |files.Keys|
    ensures Move(files, src, dst).Values == files.Values
  {
    var r := Move(files, src, dst);
    assert r.Keys == files.Keys - {src} + {dst};
    assert |files.Keys - {src}| == |files.Keys| - 1;
    forall v | v in files.Values ensures v in r.Values {
      var p :| p in files && files[p] == v;
      if p == src {
        assert r[dst] == v;
      } else {
        assert r[p] == v;
      }
    }
  }

  /** A finite set of ids has a largest element. */
  lemma {:induction false} MaxExists(s: set<Id>)
    requires s != {}
    ensures exists m :: m in s && forall k :: k in s ==> k <= m
    decreases |s|
  {
    var x :| x in s;
    var rest := s - {x};
    var top := x;
    if rest != {} {
      MaxExists(rest);
      var m :| m in rest && forall k :: k in rest ==> k <= m;
      top := if x > m then x else m;
    }
    forall k | k in s
      ensures k <= top
    {
      if k != x {
        assert k in rest;
      }
    }
    assert top in s && forall k :: k in s ==> k <= top;
  }


  /** A finite set of ids has a smallest element. */
  lemma {:induction false} MinExists(s: set<Id>)
    requires s != {}
    ensures exists m :: m in s && forall k :: k in s ==> m <= k
    decreases |s|
  {
    var x :| x in s;
    var rest := s - {x};
    var low := x;
    if rest != {} {
      MinExists(rest);
      var m :| m in rest && forall k :: k in rest ==> m <= k;
      low := if x < m then x else m;
    }
    forall k | k in s
      ensures low <= k
    {
      if k != x {
        assert k in rest;
      }
    }
    assert low in s && forall k :: k in s ==> low <= k;
  }


  /** The primary key the database gives the next row of a table whose
      keys are `keys`: one more than the largest. */
  function Fresh(keys: set<Id>): (r: Id)
    ensures r !in keys && forall k :: k in keys ==> k < r
  {
    if keys == {} then 1
    else
      MaxExists(keys);
      var m :| m in keys && forall k :: k in keys ==> k <= m;
      m + 1
  }

  predicate StartsWithDir(file: string) {
    |file| > |UploadDir| && file[..|UploadDir|] == UploadDir && '/' !in file[|UploadDir|..]
  }

  class Database {
    var files: Files
    var entries: map<Id, Entry>
    var images: map<Id, Image>
    var tags: map<Id, Tag>
    var tagTypes: map<Id, TagType>
    const faults: Faults

    constructor (files: Files, entries: map<Id, Entry>, images: map<Id, Image>,
                 tags: map<Id, Tag>, tagTypes: map<Id, TagType>, faults: Faults)
      ensures this.files == files && this.entries == entries && this.images == images
      ensures this.tags == tags && this.tagTypes == tagTypes && this.faults == faults
    {
      this.files := files;
      this.entries := entries;
      this.images := images;
      this.tags := tags;
      this.tagTypes := tagTypes;
      this.faults := faults;
    }

    /** `os.rename(src, dst)`. */
    method Rename(src: string, dst: string) returns (ok: bool)
      modifies this
      ensures ok == RenameFile(old(files), src, dst, faults).Some?
      ensures files == if ok then Move(old(files), src, dst) else old(files)
      ensures entries == old(entries) && images == old(images)
      ensures tags == old(tags) && tagTypes == old(tagTypes)
    {
      var r := RenameFile(files, src, dst, faults);
      ok := r.Some?;
      if ok {
        files := r.value;
      }
    }

    /** `os.remove(p)`. */
    method Remove(p: string) returns (ok: bool)
      modifies this
      ensures ok == RemoveFile(old(files), p, faults).Some?
      ensures files == if ok then old(files) - {p} else old(files)
      ensures entries == old(entries) && images == old(images)
      ensures tags == old(tags) && tagTypes == old(tagTypes)
    {
      var r := RemoveFile(files, p, faults);
      ok := r.Some?;
      if ok {
        files := r.value;
      }
    }

    /** Writes the tag set of the entry `e`: the rows of the many-to-many
        table behind `entry.tags`. */
    method SetEntryTags(e: Id, tagSet: set<Id>)
      requires e in entries
      modifies this
      ensures entries == old(entries)[e := old(entries)[e].(tags := tagSet)]
      ensures files == old(files) && images == old(images)
      ensures tags == old(tags) && tagTypes == old(tagTypes)
    {
      entries := entries[e := entries[e].(tags := tagSet)];
    }

    /** `image.save()` of the image row `id` with the values `img`. */
    method SaveImage(id: Id, img: Image) returns (ok: bool)
      modifies this
      ensures ok == (id !in faults.saveFails)
      ensures images == if ok then old(images)[id := img] else old(images)
      ensures files == old(files) && entries == old(entries)
      ensures tags == old(tags) && tagTypes == old(tagTypes)
    {
      ok := id !in faults.saveFails;
      if ok {
        images := images[id := img];
      }
    }
  }
}
