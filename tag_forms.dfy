/** The tag forms of tags/forms.py: the choices `TagForm` offers for a
    tag's type and its reference tag, the form's `clean_reference_tag`
    validator, and the reference-type choices of `TagTypeForm`. */
module TagForms {
  import opened Wrappers
  import opened Ascii
  import opened EntryModels
  import opened TagModels

  /** `Tag.objects.filter(tag_type=ty)`. */
  function TagsOfType(tags: map<Id, Tag>, ty: Id): set<Id> {
    set id | id in tags && tags[id].tagType == Some(ty)
  }

  /** `TagType.objects.filter(is_active=True)`. */
  function ActiveTypes(types: map<Id, TagType>): set<Id> {
    set id | id in types && types[id].isActive
  }

  /** The tag type a submitted `tag_type` value names: None when `int()`
      rejects it or no such type exists (`TagType.DoesNotExist`). */
  function SubmittedType(value: string, types: map<Id, TagType>): (r: Option<Id>)
    ensures r.Some? <==> exists n: Id :: ParseInt(value) == Some(n) && n in types
    ensures r.Some? ==> ParseInt(value) == Some(r.value as int) && r.value in types
  {
    match ParseInt(value)
    case None => None
    case Some(n) =>
      if n >= 1 && (n as Id) in types then Some(n as Id)
      else
        assert forall m: Id :: ParseInt(value) == Some(m) ==> m == n;
        None
  }

  /** The reference-tag choices `TagForm.__init__` sets up for the
      instance with primary key `pk` (None for a new tag) and stored type
      `instanceType`, given the submitted `tag_type` value (None when the
      form is not bound or the field is absent). */
  function ReferenceChoices(pk: Option<Id>, instanceType: Option<Id>, submitted: Option<string>,
                            tags: map<Id, Tag>, types: map<Id, TagType>): set<Id>
    requires instanceType.Some? ==> instanceType.value in types
  {
    if pk.Some? && instanceType.Some? && types[instanceType.value].referenceTagtype.Some? then
      TagsOfType(tags, types[instanceType.value].referenceTagtype.value) - {pk.value}
    else if submitted.Some? && submitted.value != "" then
      match SubmittedType(submitted.value, types)
      case None => {}
      case Some(ty) =>
        if types[ty].referenceTagtype.Some? then TagsOfType(tags, types[ty].referenceTagtype.value) else {}
    else {}
  }

  /** `TagForm.clean_reference_tag` for the cleaned reference tag and tag
      type: None when it returns, otherwise the check that raises. */
  function FormClean(referenceTag: Option<Id>, tagType: Option<Id>,
                     tags: map<Id, Tag>, types: map<Id, TagType>): Option<CleanError>
    requires referenceTag.Some? ==> referenceTag.value in tags
    requires tagType.Some? ==> tagType.value in types
  {
    if referenceTag.None? then None
    else if tagType.None? then Some(MissingTagType)
    else if types[tagType.value].referenceTagtype.None? then Some(ReferencesNotAllowed)
    else if tags[referenceTag.value].tagType != types[tagType.value].referenceTagtype then Some(WrongReferenceType)
    else None
  }

  /** The form's validator is the model's `clean` without its self-reference
      check: on an unsaved tag they agree error for error, and on a saved
      one the model additionally refuses exactly the tag itself. */
  lemma FormCleanIsCleanWithoutSelf(pk: Option<Id>, t: Tag, tags: map<Id, Tag>, types: map<Id, TagType>)
    requires TagLinked(t, tags, types)
    ensures FormClean(t.referenceTag, t.tagType, tags, types) == Clean(None, t, tags, types)
    ensures Clean(pk, t, tags, types).None? <==>
              FormClean(t.referenceTag, t.tagType, tags, types).None? && (pk.None? || t.referenceTag != pk)
  {
  }

  /** When an existing tag whose type allows references is edited, the
      choices are exactly the reference tags `Tag.clean` accepts for it. */
  lemma EditChoicesAreAccepted(pk: Id, instance: Tag, submitted: Option<string>, r: Id,
                               tags: map<Id, Tag>, types: map<Id, TagType>)
    requires instance.tagType.Some? && instance.tagType.value in types
    requires types[instance.tagType.value].referenceTagtype.Some?
    ensures r in ReferenceChoices(Some(pk), instance.tagType, submitted, tags, types) <==>
              r in tags && Clean(Some(pk), instance.(referenceTag := Some(r)), tags, types).None?
  {
    if r in tags {
      var t := instance.(referenceTag := Some(r));
      assert TagLinked(t, tags, types);
      assert r in TagsOfType(tags, types[instance.tagType.value].referenceTagtype.value) <==>
               tags[r].tagType == types[instance.tagType.value].referenceTagtype;
    }
  }

  /** On a submission that does not take the editing branch, the choices
      are exactly the reference tags the form's validator accepts for the
      submitted type; a value that names no type offers none. */
  lemma SubmittedChoicesAreAccepted(pk: Option<Id>, instanceType: Option<Id>, value: string, r: Id,
                                    tags: map<Id, Tag>, types: map<Id, TagType>)
    requires instanceType.Some? ==> instanceType.value in types
    requires !(pk.Some? && instanceType.Some? && types[instanceType.value].referenceTagtype.Some?)
    ensures SubmittedType(value, types).None? ==> ReferenceChoices(pk, instanceType, Some(value), tags, types) == {}
    ensures SubmittedType(value, types).Some? ==>
              (r in ReferenceChoices(pk, instanceType, Some(value), tags, types) <==>
               r in tags && FormClean(Some(r), SubmittedType(value, types), tags, types).None?)
  {
    if value == "" {
      assert ParseInt(value).None?;
    }
  }

  /** With neither an editable instance nor a submitted type, no reference
      tag is offered. */
  lemma NoTypeNoChoices(pk: Option<Id>, instanceType: Option<Id>, submitted: Option<string>,
                        tags: map<Id, Tag>, types: map<Id, TagType>)
    requires instanceType.Some? ==> instanceType.value in types
    requires !(pk.Some? && instanceType.Some? && types[instanceType.value].referenceTagtype.Some?)
    requires submitted.None? || submitted == Some("")
    ensures ReferenceChoices(pk, instanceType, submitted, tags, types) == {}
  {
  }

  /** The choice fields of a `TagForm` once `__init__` has run. */
  class TagForm {
    var tagTypeChoices: set<Id>
    var referenceChoices: set<Id>

    constructor (pk: Option<Id>, instance: Tag, submitted: Option<string>,
                 tags: map<Id, Tag>, types: map<Id, TagType>)
      requires instance.tagType.Some? ==> instance.tagType.value in types
      ensures tagTypeChoices == ActiveTypes(types)
      ensures referenceChoices == ReferenceChoices(pk, instance.tagType, submitted, tags, types)
    {
      tagTypeChoices := ActiveTypes(types);
      referenceChoices := ReferenceChoices(pk, instance.tagType, submitted, tags, types);
    }
  }

  /** The `reference_tagtype` choices of `TagTypeForm` for the type with
      primary key `pk` (None for a new type). */
  function ReferenceTypeChoices(pk: Option<Id>, types: map<Id, TagType>): set<Id> {
    if pk.Some? then types.Keys - {pk.value} else types.Keys
  }

  /** The form offers exactly the reference types the database's
      no-self-reference constraint accepts for the edited row: every type
      but itself, and every type for a new one. */
  lemma ReferenceTypeChoicesAccepted(pk: Option<Id>, tt: TagType, r: Id, types: map<Id, TagType>)
    ensures r in ReferenceTypeChoices(pk, types) <==>
              r in types && (pk.None? || NoSelfReference(pk.value, tt.(referenceTagtype := Some(r))))
  {
  }

  /** The choice field of a `TagTypeForm` once `__init__` has run. */
  class TagTypeForm {
    var referenceTypeChoices: set<Id>

    constructor (pk: Option<Id>, types: map<Id, TagType>)
      ensures referenceTypeChoices == ReferenceTypeChoices(pk, types)
    {
      referenceTypeChoices := ReferenceTypeChoices(pk, types);
    }
  }
}
