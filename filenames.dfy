/** The two filename patterns built from camelCase tokens, and the
    `_initial` test the batch renaming tools skip on:
    `{publisher}_{range}_{name}_initial{ext}` for a first upload and the
    batch renames, `{publisher}_{range}_{name}_{8 hex digits}{ext}` for API
    uploads and renames on edit. */
module Filenames {
  import opened Wrappers
  import opened Ascii
  import opened Naming
  import opened Paths
  import opened EntryModels

  /** The three camelCase fields both patterns start with. */
  function Stem(publisher: Option<string>, range: Option<string>, name: Option<string>): string {
    ToCamelCase(publisher) + "_" + ToCamelCase(range) + "_" + ToCamelCase(name)
  }

  /** `f"{publisher}_{range_name}_{name}_initial{ext}"`. */
  function InitialFilename(publisher: Option<string>, range: Option<string>, name: Option<string>, ext: string): string {
    Stem(publisher, range, name) + "_initial" + ext
  }

  /** `f"{publisher}_{range_name}_{name}_{unique_id}{ext}"`. */
  function SuffixedFilename(publisher: Option<string>, range: Option<string>, name: Option<string>,
                            suffix: string, ext: string): string {
    Stem(publisher, range, name) + "_" + suffix + ext
  }

  /** `uuid.uuid4().hex[:8]`: eight lower-case hexadecimal digits. */
  predicate IsHexSuffix(s: string) {
    |s| == 8 && forall i :: 0 <= i < 8 ==> IsDigit(s[i]) || 'a' <= s[i] <= 'f'
  }

  /** `is_new_format(filename)`. */
  predicate IsNewFormat(filename: string) {
    EndsWith(SplitExt(filename).0, "_initial")
  }

  /** The extension `generate_new_filename` keeps: that of the stored name,
      or ".jpg" for a record without a file. */
  function KeptExtension(file: string): (ext: string)
    ensures IsExtension(ext)
  {
    if file != [] then SplitExt(file).1 else ".jpg"
  }

  /** `generate_new_filename(image_obj)` of both batch renaming tools. */
  function GenerateNewFilename(img: Image): string {
    InitialFilename(img.publisher, img.range, Some(img.name), KeptExtension(img.file))
  }

  lemma ExtensionHasNoSeparator(ext: string)
    requires IsExtension(ext)
    ensures '/' !in ext
  {
    if '/' in ext {
      var k :| 0 <= k < |ext| && ext[k] == '/';
    }
  }

  lemma StemParts(publisher: Option<string>, range: Option<string>, name: Option<string>, last: string)
    requires '_' !in last
    ensures SplitOn(Stem(publisher, range, name) + "_" + last, '_') ==
              [ToCamelCase(publisher), ToCamelCase(range), ToCamelCase(name), last]
  {
    CamelIsToken(publisher);
    CamelIsToken(range);
    CamelIsToken(name);
    SplitFour(ToCamelCase(publisher), ToCamelCase(range), ToCamelCase(name), last);
  }

  lemma SplitFour(a: string, b: string, c: string, d: string)
    requires '_' !in a && '_' !in b && '_' !in c && '_' !in d
    ensures SplitOn(a + "_" + b + "_" + c + "_" + d, '_') == [a, b, c, d]
  {
    var cd := c + ['_'] + d;
    var bcd := b + ['_'] + cd;
    SplitTwo(c, d);
    SplitOnCons(b, '_', cd);
    JoinFour(a, b, c, d);
    SplitOnCons(a, '_', bcd);
  }

  lemma SplitTwo(c: string, d: string)
    requires '_' !in c && '_' !in d
    ensures SplitOn(c + ['_'] + d, '_') == [c, d]
  {
    SplitOnCons(c, '_', d);
    SplitOnNone(d, '_');
  }

  lemma JoinFour(a: string, b: string, c: string, d: string)
    ensures a + "_" + b + "_" + c + "_" + d == a + ['_'] + (b + ['_'] + (c + ['_'] + d))
  {
  }

  lemma StemIsPlain(publisher: Option<string>, range: Option<string>, name: Option<string>, last: string)
    requires last != [] && AllAlnum(last)
    ensures var base := Stem(publisher, range, name) + "_" + last;
            base != [] && base[0] != '.' && '/' !in base && '.' !in base
  {
    var p, r, n := ToCamelCase(publisher), ToCamelCase(range), ToCamelCase(name);
    CamelIsToken(publisher);
    CamelIsToken(range);
    CamelIsToken(name);
    var base := Stem(publisher, range, name) + "_" + last;
    assert base == p + "_" + r + "_" + n + "_" + last;
    assert base[0] == p[0];
    assert IsAlnum(p[0]);
  }

  /** The marker word of a first-upload name is a plain token. */
  lemma InitialIsToken()
    ensures "initial" != [] && AllAlnum("initial") && "_initial" == "_" + "initial"
  {
    forall i | 0 <= i < 7 ensures IsLower("initial"[i]) { }
  }

  /** A first-upload name splits back into its base and the verbatim
      extension; its base is the three tokens and "initial" joined by '_',
      so `is_new_format` holds of it. */
  lemma InitialFilenameParts(publisher: Option<string>, range: Option<string>, name: Option<string>, ext: string)
    requires IsExtension(ext)
    ensures var f := InitialFilename(publisher, range, name, ext);
            var base := Stem(publisher, range, name) + "_initial";
            SplitExt(f) == (base, ext) &&
            SplitOn(base, '_') == [ToCamelCase(publisher), ToCamelCase(range), ToCamelCase(name), "initial"] &&
            IsNewFormat(f)
  {
    var base := Stem(publisher, range, name) + "_initial";
    InitialIsToken();
    assert base == Stem(publisher, range, name) + "_" + "initial";
    StemIsPlain(publisher, range, name, "initial");
    ExtensionHasNoSeparator(ext);
    SplitExtOfPlain(base, ext);
    StemParts(publisher, range, name, "initial");
    assert base[|base| - 8..] == "_initial";
  }

  /** A suffixed name splits back into its base and the verbatim extension;
      its base is the three tokens and the suffix joined by '_', and it is
      never taken for an `_initial` name. */
  lemma SuffixedFilenameParts(publisher: Option<string>, range: Option<string>, name: Option<string>,
                              suffix: string, ext: string)
    requires IsHexSuffix(suffix) && IsExtension(ext)
    ensures var f := SuffixedFilename(publisher, range, name, suffix, ext);
            var base := Stem(publisher, range, name) + "_" + suffix;
            SplitExt(f) == (base, ext) &&
            SplitOn(base, '_') == [ToCamelCase(publisher), ToCamelCase(range), ToCamelCase(name), suffix] &&
            !IsNewFormat(f)
  {
    var base := Stem(publisher, range, name) + "_" + suffix;
    assert AllAlnum(suffix);
    StemIsPlain(publisher, range, name, suffix);
    ExtensionHasNoSeparator(ext);
    SplitExtOfPlain(base, ext);
    StemParts(publisher, range, name, suffix);
    assert base[|base| - 8..] == suffix;
    assert suffix[0] != '_';
  }

  /** What the batch tools generate is always in the new format, so a
      renamed record is skipped on the next run; the extension is the stored
      one (".jpg" without a file). */
  lemma GeneratedIsNewFormat(img: Image)
    ensures IsNewFormat(GenerateNewFilename(img))
    ensures SplitExt(GenerateNewFilename(img)).1 == KeptExtension(img.file)
  {
    InitialFilenameParts(img.publisher, img.range, Some(img.name), KeptExtension(img.file));
  }

  /** A missing publisher or range contributes the field "unknown". */
  lemma GeneratedUnknownFields(img: Image)
    ensures var parts := SplitOn(SplitExt(GenerateNewFilename(img)).0, '_');
            |parts| == 4 &&
            (img.publisher.None? ==> parts[0] == "unknown") &&
            (img.range.None? ==> parts[1] == "unknown")
  {
    var parts := SplitOn(SplitExt(GenerateNewFilename(img)).0, '_');
    assert parts == [ToCamelCase(img.publisher), ToCamelCase(img.range), ToCamelCase(Some(img.name)), "initial"] by {
      InitialFilenameParts(img.publisher, img.range, Some(img.name), KeptExtension(img.file));
    }
    if img.publisher.None? {
      CamelUnknown(img.publisher);
    }
    if img.range.None? {
      CamelUnknown(img.range);
    }
  }

  /** A first-upload name is a plain file name: not empty, and no
      directory separator. */
  lemma InitialFilenamePlain(publisher: Option<string>, range: Option<string>, name: Option<string>, ext: string)
    requires IsExtension(ext)
    ensures InitialFilename(publisher, range, name, ext) != [] && '/' !in InitialFilename(publisher, range, name, ext)
  {
    var base := Stem(publisher, range, name) + "_" + "initial";
    assert InitialFilename(publisher, range, name, ext) == base + ext by {
      InitialIsToken();
    }
    assert base != [] && '/' !in base by {
      InitialIsToken();
      StemIsPlain(publisher, range, name, "initial");
    }
    ExtensionHasNoSeparator(ext);
  }

  /** A generated name is a plain file name. */
  lemma GeneratedIsPlain(img: Image)
    ensures GenerateNewFilename(img) != [] && '/' !in GenerateNewFilename(img)
  {
    InitialFilenamePlain(img.publisher, img.range, Some(img.name), KeptExtension(img.file));
  }
}
