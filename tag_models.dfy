/** The tag records of tags/models.py: tag types (with an optional
    reference type and the database's no-self-reference constraint), tags
    (with their optional reference tag), `Tag.clean`, and the colours a tag
    is displayed with. */
module TagModels {
  import opened Wrappers
  import opened Ascii
  import opened EntryModels

  datatype TagType = TagType(
    name: string,
    description: string,
    color: string,
    referenceTagtype: Option<Id>,
    sortOrder: int,
    isActive: bool,
    showInGallery: bool,
    setAtUpload: bool)

  /** A tag carries both reference schemas found in the repository: the
      single `reference_tag` of tags/models.py and tags/forms.py, and the
      set `reference_tags` that tag_assign/views.py follows. */
  datatype Tag = Tag(
    name: string,
    tagType: Option<Id>,
    referenceTag: Option<Id>,
    referenceTags: set<Id>)

  const DefaultColor := "#6c757d"

  /** The check constraint `tagtype_no_self_reference`. */
  predicate NoSelfReference(id: Id, tt: TagType) {
    tt.referenceTagtype != Some(id)
  }

  /** What the database accepts for a stored tag type: the named check
      constraint and the non-negativity check of its PositiveIntegerField. */
  predicate RowAccepted(id: Id, tt: TagType) {
    NoSelfReference(id, tt) && tt.sortOrder >= 0
  }

  predicate TypesValid(types: map<Id, TagType>) {
    forall id :: id in types ==> RowAccepted(id, types[id])
  }

  /** Every `reference_tagtype` names an existing tag type. */
  predicate ReferencesResolve(types: map<Id, TagType>) {
    forall id :: id in types && types[id].referenceTagtype.Some? ==> types[id].referenceTagtype.value in types
  }

  /** Every foreign key of a tag names an existing row. */
  predicate TagLinked(t: Tag, tags: map<Id, Tag>, types: map<Id, TagType>) {
    (t.tagType.Some? ==> t.tagType.value in types) &&
    (t.referenceTag.Some? ==> t.referenceTag.value in tags)
  }

  datatype CleanError = SelfReference | MissingTagType | ReferencesNotAllowed | WrongReferenceType

  /** `Tag.clean()` for the tag `t` whose primary key is `pk` (None while it
      is unsaved): None when it passes, otherwise the first check that
      raises. */
  function Clean(pk: Option<Id>, t: Tag, tags: map<Id, Tag>, types: map<Id, TagType>): Option<CleanError>
    requires TagLinked(t, tags, types)
  {
    if t.referenceTag.Some? && pk.Some? && t.referenceTag.value == pk.value then Some(SelfReference)
    else if t.referenceTag.None? then None
    else if t.tagType.None? then Some(MissingTagType)
    else if types[t.tagType.value].referenceTagtype.None? then Some(ReferencesNotAllowed)
    else if tags[t.referenceTag.value].tagType != types[t.tagType.value].referenceTagtype then Some(WrongReferenceType)
    else None
  }

  /** The reference a tag may carry, stated directly: none at all, or a tag
      other than itself whose type is the reference type of its own type. */
  ghost predicate ReferenceAllowed(pk: Option<Id>, t: Tag, tags: map<Id, Tag>, types: map<Id, TagType>)
    requires TagLinked(t, tags, types)
  {
    match t.referenceTag
    case None => true
    case Some(ref) =>
      pk != Some(ref) &&
      exists ty :: ty in types && t.tagType == Some(ty) && types[ty].referenceTagtype.Some? &&
                   tags[ref].tagType == types[ty].referenceTagtype
  }

  /** `clean` accepts exactly the allowed references. */
  lemma CleanAccepts(pk: Option<Id>, t: Tag, tags: map<Id, Tag>, types: map<Id, TagType>)
    requires TagLinked(t, tags, types)
    ensures Clean(pk, t, tags, types).None? <==> ReferenceAllowed(pk, t, tags, types)
  {
    if t.referenceTag.Some? && t.tagType.Some? {
      var ty := t.tagType.value;
      assert t.tagType == Some(ty);
    }
  }

  /** Each error is raised exactly when every earlier check passed and its
      own check fails: self-reference, then missing type, then a type
      without a reference type, then a mismatched type. */
  lemma CleanPrecedence(pk: Option<Id>, t: Tag, tags: map<Id, Tag>, types: map<Id, TagType>)
    requires TagLinked(t, tags, types)
    ensures Clean(pk, t, tags, types) == Some(SelfReference) <==>
              t.referenceTag.Some? && pk == t.referenceTag
    ensures Clean(pk, t, tags, types) == Some(MissingTagType) <==>
              t.referenceTag.Some? && pk != t.referenceTag && t.tagType.None?
    ensures Clean(pk, t, tags, types) == Some(ReferencesNotAllowed) <==>
              t.referenceTag.Some? && pk != t.referenceTag && t.tagType.Some? &&
              types[t.tagType.value].referenceTagtype.None?
    ensures Clean(pk, t, tags, types) == Some(WrongReferenceType) <==>
              t.referenceTag.Some? && pk != t.referenceTag && t.tagType.Some? &&
              types[t.tagType.value].referenceTagtype.Some? &&
              tags[t.referenceTag.value].tagType != types[t.tagType.value].referenceTagtype
  {
  }

  /** The self-reference check fires only for a saved tag. */
  lemma UnsavedNeverSelfReference(t: Tag, tags: map<Id, Tag>, types: map<Id, TagType>)
    requires TagLinked(t, tags, types)
    ensures Clean(None, t, tags, types) != Some(SelfReference)
  {
  }

  /** Under the tag types' no-self-reference constraint, the type check
      alone already rejects a saved tag that references itself: its type
      would have to be its own reference type. */
  lemma TypeCheckExcludesSelf(pk: Id, t: Tag, tags: map<Id, Tag>, types: map<Id, TagType>)
    requires TypesValid(types) && TagLinked(t, tags, types)
    requires t.referenceTag == Some(pk) && tags[pk].tagType == t.tagType
    ensures Clean(None, t, tags, types).Some?
    ensures Clean(Some(pk), t, tags, types) == Some(SelfReference)
  {
    if t.tagType.Some? {
      var ty := t.tagType.value;
      assert RowAccepted(ty, types[ty]);
    }
  }

  /** `Tag.get_color()`. */
  function Color(t: Tag, types: map<Id, TagType>): string
    requires t.tagType.Some? ==> t.tagType.value in types
  {
    if t.tagType.Some? then types[t.tagType.value].color else DefaultColor
  }

  predicate IsHexDigit(c: char) { IsDigit(c) || 'a' <= c <= 'f' || 'A' <= c <= 'F' }

  function HexDigitValue(c: char): (v: nat)
    requires IsHexDigit(c)
    ensures v < 16
  {
    if IsDigit(c) then DigitValue(c)
    else if 'a' <= c <= 'f' then c as int - 'a' as int + 10
    else c as int - 'A' as int + 10
  }

  predicate AllHex(s: string) { forall i :: 0 <= i < |s| ==> IsHexDigit(s[i]) }

  function HexDigitsValue(s: string): nat
    requires AllHex(s)
  {
    if s == [] then 0 else 16 * HexDigitsValue(s[..|s| - 1]) + HexDigitValue(s[|s| - 1])
  }

  /** Python's `int(s, 16)` on text of at most two characters, where neither
      an underscore between digits nor a `0x` prefix can occur in a valid
      literal: surrounding whitespace and one sign are allowed, anything
      else raises ValueError (None here). */
  function ParseHex(s: string): Option<int>
    requires |s| <= 2
  {
    var t := Strip(s);
    if t == [] then None
    else
      var sign := if t[0] == '-' then -1 else 1;
      var digits := if t[0] == '-' || t[0] == '+' then t[1..] else t;
      if digits != [] && AllHex(digits) then Some(sign * HexDigitsValue(digits)) else None
  }

  /** `s.lstrip(c)`. */
  function LStrip(s: string, c: char): (r: string)
    ensures |r| <= |s| && r == s[|s| - |r|..]
    ensures r == [] || r[0] != c
  {
    if s != [] && s[0] == c then LStrip(s[1..], c) else s
  }

  /** Python's `s[lo:hi]` for 0 <= lo <= hi: clipped to the string. */
  function Slice(s: string, lo: nat, hi: nat): (r: string)
    requires lo <= hi
    ensures |r| <= hi - lo
  {
    if hi <= |s| then s[lo..hi] else if lo <= |s| then s[lo..] else []
  }

  /** Weighted brightness times 1000: `brightness > 128` in the source is
      `Weighted(r, g, b) > 128000` on these integers. */
  function Weighted(r: int, g: int, b: int): int {
    r * 299 + g * 587 + b * 114
  }

  /** The text colour `get_text_color` picks for a background colour; None
      stands for the ValueError `int(..., 16)` raises on a colour that is
      not hexadecimal. */
  function TextOn(color: string): Option<string> {
    var hex := LStrip(color, '#');
    var r := ParseHex(Slice(hex, 0, 2));
    var g := ParseHex(Slice(hex, 2, 4));
    var b := ParseHex(Slice(hex, 4, 6));
    if r.None? || g.None? || b.None? then None
    else if Weighted(r.value, g.value, b.value) > 128000 then Some("black")
    else Some("white")
  }

  /** `Tag.get_text_color()`. */
  function TextColor(t: Tag, types: map<Id, TagType>): Option<string>
    requires t.tagType.Some? ==> t.tagType.value in types
  {
    if t.tagType.None? then Some("white") else TextOn(types[t.tagType.value].color)
  }

  /** A colour written `#rrggbb`. */
  predicate IsHexColor(c: string) {
    |c| == 7 && c[0] == '#' && AllHex(c[1..])
  }

  /** The channel a pair of hexadecimal digits denotes. */
  function Channel(hi: char, lo: char): (v: nat)
    requires IsHexDigit(hi) && IsHexDigit(lo)
    ensures v <= 255
  {
    16 * HexDigitValue(hi) + HexDigitValue(lo)
  }

  lemma HexPair(s: string)
    requires |s| == 2 && AllHex(s)
    ensures ParseHex(s) == Some(Channel(s[0], s[1]))
  {
    assert !IsSpace(s[0]) && !IsSpace(s[1]);
    assert TrimStart(s) == s;
    assert TrimEnd(s) == s;
    assert Strip(s) == s;
    assert s[..1] == [s[0]] && [s[0]][..0] == [];
    assert HexDigitsValue([s[0]]) == HexDigitValue(s[0]);
    assert HexDigitsValue(s) == 16 * HexDigitsValue([s[0]]) + HexDigitValue(s[1]);
  }

  /** The six digits of a `#rrggbb` colour once its '#' is stripped. */
  lemma StripHash(c: string)
    requires IsHexColor(c)
    ensures LStrip(c, '#') == c[1..] && |c[1..]| == 6
  {
    assert c[1..][0] == c[1];
    assert IsHexDigit(c[1..][0]);
  }

  /** The weighted brightness of a `#rrggbb` colour, times 1000: it lies
      between 0 and 255 times 1000. */
  function Brightness(c: string): (w: int)
    requires IsHexColor(c)
    ensures 0 <= w <= 255000
  {
    assert IsHexDigit(c[1..][0]) && IsHexDigit(c[1..][1]) && IsHexDigit(c[1..][2]);
    assert IsHexDigit(c[1..][3]) && IsHexDigit(c[1..][4]) && IsHexDigit(c[1..][5]);
    Weighted(Channel(c[1], c[2]), Channel(c[3], c[4]), Channel(c[5], c[6]))
  }

  /** For a `#rrggbb` colour the text is black exactly when the weighted
      brightness of the three channels exceeds 128. */
  lemma TextOnHex(c: string)
    requires IsHexColor(c)
    ensures TextOn(c) == Some(if Brightness(c) > 128000 then "black" else "white")
  {
    var hex := LStrip(c, '#');
    var r, g, b := Channel(c[1], c[2]), Channel(c[3], c[4]), Channel(c[5], c[6]);
    assert Some(r) == ParseHex(Slice(hex, 0, 2)) by { ChannelAt(c, 1); }
    assert Some(g) == ParseHex(Slice(hex, 2, 4)) by { ChannelAt(c, 3); }
    assert Some(b) == ParseHex(Slice(hex, 4, 6)) by { ChannelAt(c, 5); }
    TextOnParsed(c, r, g, b);
  }

  lemma TextOnParsed(c: string, r: int, g: int, b: int)
    requires Some(r) == ParseHex(Slice(LStrip(c, '#'), 0, 2))
    requires Some(g) == ParseHex(Slice(LStrip(c, '#'), 2, 4))
    requires Some(b) == ParseHex(Slice(LStrip(c, '#'), 4, 6))
    ensures TextOn(c) == Some(if Weighted(r, g, b) > 128000 then "black" else "white")
  {
  }

  /** The channel the two digits from position `i` of a `#rrggbb` colour
      parse to. */
  lemma ChannelAt(c: string, i: nat)
    requires IsHexColor(c) && i in {1, 3, 5}
    ensures ParseHex(Slice(LStrip(c, '#'), i - 1, i + 1)) == Some(Channel(c[i], c[i + 1]))
  {
    StripHash(c);
    var hex := c[1..];
    assert Slice(hex, i - 1, i + 1) == [c[i], c[i + 1]];
    HexPair([c[i], c[i + 1]]);
  }

  /** The default grey takes white text. */
  lemma DefaultTextIsWhite()
    ensures TextOn(DefaultColor) == Some("white")
  {
    var c := DefaultColor;
    assert IsHexColor(c) by {
      assert c[1..] == "6c757d";
    }
    assert Brightness(c) == 115221 by {
      assert Channel(c[1], c[2]) == 108;
      assert Channel(c[3], c[4]) == 117;
      assert Channel(c[5], c[6]) == 125;
    }
    TextOnHex(c);
  }

  /** The text colour is always the one chosen for the colour the tag is
      displayed with: for a tag without a type, white on the default grey. */
  lemma TextFollowsColor(t: Tag, types: map<Id, TagType>)
    requires t.tagType.Some? ==> t.tagType.value in types
    ensures TextColor(t, types) == TextOn(Color(t, types))
    ensures t.tagType.None? ==> Color(t, types) == DefaultColor && TextColor(t, types) == Some("white")
  {
    DefaultTextIsWhite();
  }
}
