/** The staff views of tags/views.py that carry rules: the tag list's
    filters, the reference-tag lookup, the drag-and-drop sort-order update,
    the delete guard of a tag type and the two visibility toggles. */
module TagViews {
  import opened Wrappers
  import opened Ascii
  import opened EntryModels
  import opened TagModels
  import opened TagForms
  import opened Store

  /** A query-string parameter is used only when present and non-empty. */
  predicate Given(v: Option<string>) { v.Some? && v.value != "" }

  /** Whether `tag_list`'s `tag_type` filter keeps the tag `t`. */
  predicate TypeFilterKeeps(f: Option<string>, t: Tag) {
    if !Given(f) then true
    else if f.value == "none" then t.tagType.None?
    else
      match ParseInt(f.value)
      case Some(n) => t.tagType.Some? && t.tagType.value == n
      case None => true
  }

  /** Whether `tag_list`'s `reference_tag` filter keeps the tag `t`. */
  predicate ReferenceFilterKeeps(f: Option<string>, t: Tag) {
    if Given(f) && f.value != "none" then
      match ParseInt(f.value)
      case Some(n) => t.referenceTag.Some? && t.referenceTag.value == n
      case None => true
    else if f == Some("none") then t.referenceTag.None?
    else true
  }

  /** The tags `tag_list` shows for the two filter parameters. */
  function TagList(tags: map<Id, Tag>, typeFilter: Option<string>, referenceFilter: Option<string>): set<Id> {
    set id | id in tags && TypeFilterKeeps(typeFilter, tags[id]) && ReferenceFilterKeeps(referenceFilter, tags[id])
  }

  /** The type filter: "none" lists the untyped tags, a number the tags of
      that type, and any other value is ignored. */
  lemma TypeFilterCases(tags: map<Id, Tag>, s: string, id: Id)
    requires id in tags
    ensures s == "none" ==> (id in TagList(tags, Some(s), None) <==> tags[id].tagType.None?)
    ensures s != "none" && ParseInt(s).Some? ==>
              (id in TagList(tags, Some(s), None) <==> tags[id].tagType.Some? && tags[id].tagType.value == ParseInt(s).value)
    ensures s != "none" && ParseInt(s).None? ==> id in TagList(tags, Some(s), None)
  {
    if s == "" {
      assert ParseInt(s).None?;
    }
  }

  /** The reference filter: "none" lists the tags without a reference, a
      number the tags referencing that tag, and any other value is
      ignored. */
  lemma ReferenceFilterCases(tags: map<Id, Tag>, s: string, id: Id)
    requires id in tags
    ensures s == "none" ==> (id in TagList(tags, None, Some(s)) <==> tags[id].referenceTag.None?)
    ensures s != "none" && ParseInt(s).Some? ==>
              (id in TagList(tags, None, Some(s)) <==>
               tags[id].referenceTag.Some? && tags[id].referenceTag.value == ParseInt(s).value)
    ensures s != "none" && ParseInt(s).None? ==> id in TagList(tags, None, Some(s))
  {
    if s == "" {
      assert ParseInt(s).None?;
    }
  }

  /** Applying both filters lists the tags each of them lists alone. */
  lemma FiltersCombine(tags: map<Id, Tag>, typeFilter: Option<string>, referenceFilter: Option<string>)
    ensures TagList(tags, typeFilter, referenceFilter) ==
              TagList(tags, typeFilter, None) * TagList(tags, None, referenceFilter)
  {
  }

  /** The response of `get_reference_tags` for an existing tag type. */
  datatype ReferenceTags = ReferenceTags(hasReference: bool, referenceTypeName: Option<string>, tags: set<Id>)

  /** `get_reference_tags(tagtype_id)`; None is the 404 for an unknown
      tag type. */
  function GetReferenceTags(tags: map<Id, Tag>, types: map<Id, TagType>, id: Id): Option<ReferenceTags>
    requires ReferencesResolve(types)
  {
    if id !in types then None
    else
      match types[id].referenceTagtype
      case None => Some(ReferenceTags(false, None, {}))
      case Some(ref) => Some(ReferenceTags(true, Some(types[ref].name), TagsOfType(tags, ref)))
  }

  /** The lookup lists exactly the reference tags the tag form accepts for
      a tag of that type, and reports `has_reference` false, with nothing
      listed, exactly when the type takes no references. */
  lemma ReferenceTagsAccepted(tags: map<Id, Tag>, types: map<Id, TagType>, id: Id, r: Id)
    requires ReferencesResolve(types) && id in types
    ensures GetReferenceTags(tags, types, id).Some?
    ensures GetReferenceTags(tags, types, id).value.hasReference <==> types[id].referenceTagtype.Some?
    ensures !GetReferenceTags(tags, types, id).value.hasReference ==> GetReferenceTags(tags, types, id).value.tags == {}
    ensures r in GetReferenceTags(tags, types, id).value.tags <==>
              r in tags && FormClean(Some(r), Some(id), tags, types).None?
  {
  }

  /** The reference tags `tag_list` offers in its dropdown once the type
      filter names an existing tag type. */
  function ListedReferenceTags(tags: map<Id, Tag>, types: map<Id, TagType>, typeFilter: Option<string>): set<Id> {
    if !Given(typeFilter) || typeFilter.value == "none" then {}
    else
      match SubmittedType(typeFilter.value, types)
      case None => {}
      case Some(ty) =>
        if types[ty].referenceTagtype.Some? then TagsOfType(tags, types[ty].referenceTagtype.value) else {}
  }

  /** The list view's dropdown offers the same tags as the lookup endpoint
      for the filtered type. */
  lemma ListedReferenceTagsAgree(tags: map<Id, Tag>, types: map<Id, TagType>, s: string)
    requires ReferencesResolve(types) && s != "none"
    requires SubmittedType(s, types).Some?
    ensures ListedReferenceTags(tags, types, Some(s)) ==
              GetReferenceTags(tags, types, SubmittedType(s, types).value).value.tags
  {
  }

  /** One element of the posted `order` list: its `id` and `sort_order`
      (None when the key is absent or null). */
  datatype OrderItem = OrderItem(id: Option<int>, sortOrder: Option<int>)

  /** `if tagtype_id and sort_order is not None`: a zero id is falsy, a
      zero sort order is not. */
  predicate Applies(item: OrderItem) {
    item.id.Some? && item.id.value != 0 && item.sortOrder.Some?
  }

  /** Whether the item writes an existing row. */
  predicate Writes(item: OrderItem, types: map<Id, TagType>) {
    Applies(item) && item.id.value >= 1 && (item.id.value as Id) in types
  }

  /** Whether the `sort_order` column holds `v`: it is non-negative, and
      at most `maxOrder`, the largest integer of the database's column type
      (2^31 - 1 on PostgreSQL, 2^63 - 1 on SQLite). */
  predicate Storable(v: int, maxOrder: nat) {
    0 <= v <= maxOrder
  }

  /** One `filter(id=...).update(sort_order=...)`: None when the database
      refuses the value, negative for the non-negative column or beyond the
      column's range; an id with no row updates nothing. */
  function ApplyItem(types: map<Id, TagType>, item: OrderItem, maxOrder: nat): Option<map<Id, TagType>> {
    if !Writes(item, types) then Some(types)
    else if !Storable(item.sortOrder.value, maxOrder) then None
    else
      var id := item.id.value as Id;
      Some(types[id := types[id].(sortOrder := item.sortOrder.value)])
  }

  /** The tag types after the loop over `order`, and whether it ran to its
      end: an update that raises ends the loop, and the updates before it
      stay, as nothing wraps them in a transaction. */
  function ApplyOrder(types: map<Id, TagType>, order: seq<OrderItem>, maxOrder: nat): (map<Id, TagType>, bool) {
    if order == [] then (types, true)
    else
      var before := ApplyOrder(types, order[..|order| - 1], maxOrder);
      if !before.1 then before
      else
        match ApplyItem(before.0, order[|order| - 1], maxOrder)
        case None => (before.0, false)
        case Some(t) => (t, true)
  }

  /** The sort order the last applicable item for `id` asks for. */
  function Requested(order: seq<OrderItem>, id: Id): Option<int> {
    if order == [] then None
    else
      var item := order[|order| - 1];
      if Applies(item) && item.id.value == id as int then item.sortOrder
      else Requested(order[..|order| - 1], id)
  }

  /** The update keeps the same tag types, changing nothing but their sort
      orders. */
  lemma {:induction false} OrderKeepsRows(types: map<Id, TagType>, order: seq<OrderItem>, maxOrder: nat)
    ensures ApplyOrder(types, order, maxOrder).0.Keys == types.Keys
    ensures forall id :: id in types ==> ApplyOrder(types, order, maxOrder).0[id] == types[id].(sortOrder := ApplyOrder(types, order, maxOrder).0[id].sortOrder)
  {
    if order != [] {
      OrderKeepsRows(types, order[..|order| - 1], maxOrder);
    }
  }

  /** The update runs to its end exactly when no applicable item asks an
      existing tag type for a sort order the column cannot hold. */
  lemma {:induction false} OrderSucceeds(types: map<Id, TagType>, order: seq<OrderItem>, maxOrder: nat)
    ensures ApplyOrder(types, order, maxOrder).1 <==>
              forall k :: 0 <= k < |order| && Writes(order[k], types) ==> Storable(order[k].sortOrder.value, maxOrder)
  {
    if order != [] {
      var init := order[..|order| - 1];
      OrderSucceeds(types, init, maxOrder);
      OrderKeepsRows(types, init, maxOrder);
      assert forall k :: 0 <= k < |init| ==> init[k] == order[k];
    }
  }

  /** When the update succeeds, each listed tag type takes the sort order
      of the last applicable item naming it, and every other keeps its
      own. */
  lemma {:induction false} OrderApplied(types: map<Id, TagType>, order: seq<OrderItem>, maxOrder: nat, id: Id)
    requires ApplyOrder(types, order, maxOrder).1 && id in types
    ensures id in ApplyOrder(types, order, maxOrder).0 && ApplyOrder(types, order, maxOrder).0[id].sortOrder ==
              if Requested(order, id).Some? then Requested(order, id).value else types[id].sortOrder
  {
    if order != [] {
      var init := order[..|order| - 1];
      OrderApplied(types, init, maxOrder, id);
      OrderKeepsRows(types, init, maxOrder);
    }
  }

  /** The update never breaks the database's constraints on tag types. */
  lemma {:induction false} OrderKeepsValid(types: map<Id, TagType>, order: seq<OrderItem>, maxOrder: nat)
    requires TypesValid(types)
    ensures TypesValid(ApplyOrder(types, order, maxOrder).0)
  {
    if order != [] {
      OrderKeepsValid(types, order[..|order| - 1], maxOrder);
    }
  }

  /** `update_tagtype_order` over the parsed `order` list: its `success`. */
  method UpdateTagtypeOrder(db: Database, order: seq<OrderItem>, maxOrder: nat) returns (success: bool)
    modifies db
    ensures (db.tagTypes, success) == ApplyOrder(old(db.tagTypes), order, maxOrder)
    ensures db.files == old(db.files) && db.entries == old(db.entries)
    ensures db.images == old(db.images) && db.tags == old(db.tags)
  {
    var i := 0;
    while i < |order|
      invariant 0 <= i <= |order|
      invariant ApplyOrder(old(db.tagTypes), order[..i], maxOrder) == (db.tagTypes, true)
      invariant db.files == old(db.files) && db.entries == old(db.entries)
      invariant db.images == old(db.images) && db.tags == old(db.tags)
    {
      var item := order[i];
      assert order[..i + 1][..i] == order[..i];
      if Writes(item, db.tagTypes) {
        if !Storable(item.sortOrder.value, maxOrder) {
          ApplyOrderStops(old(db.tagTypes), order, maxOrder, i + 1);
          return false;
        }
        var id := item.id.value as Id;
        db.tagTypes := db.tagTypes[id := db.tagTypes[id].(sortOrder := item.sortOrder.value)];
      }
      i := i + 1;
    }
    assert order[..i] == order;
    success := true;
  }

  /** Once the update has failed, the later items change nothing. */
  lemma {:induction false} ApplyOrderStops(types: map<Id, TagType>, order: seq<OrderItem>, maxOrder: nat, i: nat)
    requires i <= |order| && !ApplyOrder(types, order[..i], maxOrder).1
    ensures ApplyOrder(types, order, maxOrder) == ApplyOrder(types, order[..i], maxOrder)
    decreases |order| - i
  {
    if i < |order| {
      assert order[..i + 1][..i] == order[..i];
      ApplyOrderStops(types, order, maxOrder, i + 1);
    } else {
      assert order[..i] == order;
    }
  }

  /** The outcome of `delete_tagtype` on a POST. */
  datatype DeleteOutcome = TypeNotFound | InUse(count: nat) | TypeDeleted

  /** The tags whose type is `id` (`tagtype.tags`). */
  function TagsUsing(tags: map<Id, Tag>, id: Id): set<Id> {
    set t | t in tags && tags[t].tagType == Some(id)
  }

  /** The tag types once `id` is deleted: the types that referenced it
      lose their reference (`on_delete=SET_NULL`). */
  function WithoutType(types: map<Id, TagType>, id: Id): map<Id, TagType> {
    map k | k in types && k != id ::
      if types[k].referenceTagtype == Some(id) then types[k].(referenceTagtype := None) else types[k]
  }

  /** Deleting an unused tag type keeps every constraint of the tag
      tables: the types stay valid, their references and the tags' types
      still name existing rows, and only the deleted type is gone. */
  lemma DeleteKeepsIntegrity(tags: map<Id, Tag>, types: map<Id, TagType>, id: Id)
    requires TypesValid(types) && ReferencesResolve(types)
    requires forall t :: t in tags ==> TagLinked(tags[t], tags, types)
    requires TagsUsing(tags, id) == {}
    ensures WithoutType(types, id).Keys == types.Keys - {id}
    ensures TypesValid(WithoutType(types, id)) && ReferencesResolve(WithoutType(types, id))
    ensures forall t :: t in tags ==> TagLinked(tags[t], tags, WithoutType(types, id))
  {
    var after := WithoutType(types, id);
    assert after.Keys == types.Keys - {id};
    forall t | t in tags
      ensures TagLinked(tags[t], tags, after)
    {
      assert t !in TagsUsing(tags, id);
    }
  }

  /** `delete_tagtype` on a POST: a type some tag still uses is kept. */
  method DeleteTagType(db: Database, id: Id) returns (r: DeleteOutcome)
    modifies db
    ensures r == TypeNotFound <==> id !in old(db.tagTypes)
    ensures r.InUse? <==> id in old(db.tagTypes) && TagsUsing(old(db.tags), id) != {}
    ensures r.InUse? ==> r.count == |TagsUsing(old(db.tags), id)|
    ensures db.tagTypes == if r == TypeDeleted then WithoutType(old(db.tagTypes), id) else old(db.tagTypes)
    ensures db.files == old(db.files) && db.entries == old(db.entries)
    ensures db.images == old(db.images) && db.tags == old(db.tags)
  {
    if id !in db.tagTypes {
      return TypeNotFound;
    }
    var using := TagsUsing(db.tags, id);
    if using != {} {
      return InUse(|using|);
    }
    db.tagTypes := WithoutType(db.tagTypes, id);
    r := TypeDeleted;
  }

  /** The flag a toggle stores: the posted value, or the default when the
      key is absent. */
  function Posted(value: Option<bool>, default: bool): bool {
    if value.Some? then value.value else default
  }

  /** `toggle_gallery_visibility`: `show_in_gallery` defaults to shown.
      An unknown id raises inside the view's `try`, so it reports failure
      and changes nothing. */
  method ToggleGalleryVisibility(db: Database, id: Id, value: Option<bool>) returns (success: bool)
    modifies db
    ensures success <==> id in old(db.tagTypes)
    ensures db.tagTypes == if success then old(db.tagTypes)[id := old(db.tagTypes)[id].(showInGallery := Posted(value, true))]
                           else old(db.tagTypes)
    ensures db.files == old(db.files) && db.entries == old(db.entries)
    ensures db.images == old(db.images) && db.tags == old(db.tags)
  {
    if id !in db.tagTypes {
      return false;
    }
    db.tagTypes := db.tagTypes[id := db.tagTypes[id].(showInGallery := Posted(value, true))];
    success := true;
  }

  /** `toggle_upload_visibility`: `set_at_upload` defaults to hidden. */
  method ToggleUploadVisibility(db: Database, id: Id, value: Option<bool>) returns (success: bool)
    modifies db
    ensures success <==> id in old(db.tagTypes)
    ensures db.tagTypes == if success then old(db.tagTypes)[id := old(db.tagTypes)[id].(setAtUpload := Posted(value, false))]
                           else old(db.tagTypes)
    ensures db.files == old(db.files) && db.entries == old(db.entries)
    ensures db.images == old(db.images) && db.tags == old(db.tags)
  {
    if id !in db.tagTypes {
      return false;
    }
    db.tagTypes := db.tagTypes[id := db.tagTypes[id].(setAtUpload := Posted(value, false))];
    success := true;
  }

  /** An absent key shows the type in the gallery but keeps it off the
      upload form; a posted value is stored as given. */
  lemma ToggleDefaults(value: Option<bool>)
    ensures Posted(None, true) && !Posted(None, false)
    ensures value.Some? ==> Posted(value, true) == value.value == Posted(value, false)
  {
  }
}
