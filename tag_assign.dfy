/** The tag-assignment views of tag_assign/views.py: the bulk add/remove
    over selected entries with its one-level reference-tag cascade and
    counters, the quick single-tag toggle, and the "missing tag type"
    filter of the assignment page. Tags follow the plural
    `reference_tags` schema this app uses. */
module TagAssign {
  import opened Wrappers
  import opened Ascii
  import opened EntryModels
  import opened TagModels
  import opened Store

  /** The rows `filter(id__in=ids)` yields: each existing listed key
      once, here in the order first listed (the database's own order is
      unspecified, and nothing below depends on it). */
  function Rows(keys: set<Id>, ids: seq<int>): (r: seq<Id>)
    ensures Distinct(r)
    ensures forall x :: x in r <==> x in keys && x as int in ids
  {
    if ids == [] then []
    else
      var r := Rows(keys, ids[..|ids| - 1]);
      var last := ids[|ids| - 1];
      assert forall k :: k in ids <==> k in ids[..|ids| - 1] || k == last;
      if last >= 1 && (last as Id) in keys && (last as Id) !in r then r + [last as Id] else r
  }

  predicate Distinct(s: seq<Id>) {
    forall i, j :: 0 <= i < j < |s| ==> s[i] != s[j]
  }

  /** The reference tags of the tags `ts`: one step of the cascade. */
  function Refs(tags: map<Id, Tag>, ts: seq<Id>): set<Id>
    requires forall t :: t in ts ==> t in tags
  {
    if ts == [] then {} else Refs(tags, ts[..|ts| - 1]) + tags[ts[|ts| - 1]].referenceTags
  }

  /** A tag is in the cascade exactly when one of the tags references it. */
  lemma {:induction false} RefsMember(tags: map<Id, Tag>, ts: seq<Id>, x: Id)
    requires forall t :: t in ts ==> t in tags
    ensures x in Refs(tags, ts) <==> exists i :: 0 <= i < |ts| && x in tags[ts[i]].referenceTags
  {
    if ts != [] {
      var init := ts[..|ts| - 1];
      RefsMember(tags, init, x);
      assert forall i :: 0 <= i < |init| ==> init[i] == ts[i];
    }
  }

  /** The number of (tag, reference tag) pairs over `ts`: the total of
      `len(tag.reference_tags.all())`. */
  function RefCount(tags: map<Id, Tag>, ts: seq<Id>): nat
    requires forall t :: t in ts ==> t in tags
  {
    if ts == [] then 0 else RefCount(tags, ts[..|ts| - 1]) + |tags[ts[|ts| - 1]].referenceTags|
  }

  /** `auto_assigned_count` for one entry counts references already
      present, and a reference shared by two tags twice: it bounds the
      number of distinct reference tags from above, and reaches it exactly
      when no two of the tags share a reference. */
  lemma {:induction false} RefCountBound(tags: map<Id, Tag>, ts: seq<Id>)
    requires forall t :: t in ts ==> t in tags
    ensures |Refs(tags, ts)| <= RefCount(tags, ts)
    ensures (forall i, j :: 0 <= i < j < |ts| ==> tags[ts[i]].referenceTags !! tags[ts[j]].referenceTags) ==>
              |Refs(tags, ts)| == RefCount(tags, ts)
  {
    if ts != [] {
      var init := ts[..|ts| - 1];
      var last := tags[ts[|ts| - 1]].referenceTags;
      RefCountBound(tags, init);
      assert |Refs(tags, ts)| == |Refs(tags, init)| + |last - Refs(tags, init)|;
      SubsetSize(last - Refs(tags, init), last);
      if forall i, j :: 0 <= i < j < |ts| ==> tags[ts[i]].referenceTags !! tags[ts[j]].referenceTags {
        assert forall i :: 0 <= i < |init| ==> init[i] == ts[i];
        forall x | x in last
          ensures x !in Refs(tags, init)
        {
          RefsMember(tags, init, x);
          forall i | 0 <= i < |init|
            ensures x !in tags[init[i]].referenceTags
          {
            assert tags[ts[i]].referenceTags !! last;
          }
        }
        assert last - Refs(tags, init) == last;
      }
    }
  }

  lemma {:induction false} SubsetSize(a: set<Id>, b: set<Id>)
    requires a <= b
    ensures |a| <= |b|
  {
    assert b == a + (b - a);
  }

  function Members(s: seq<Id>): set<Id> {
    set x | x in s
  }

  /** The tag set an entry is left with by one bulk action. */
  function BulkTags(current: set<Id>, tags: map<Id, Tag>, ts: seq<Id>, action: string): set<Id>
    requires forall t :: t in ts ==> t in tags
  {
    if action == "add" then current + Members(ts) + Refs(tags, ts)
    else if action == "remove" then current - Members(ts)
    else current
  }

  /** The entries after a bulk action on the entries `es`. */
  function Bulk(entries: map<Id, Entry>, es: seq<Id>, tags: map<Id, Tag>, ts: seq<Id>, action: string): map<Id, Entry>
    requires forall t :: t in ts ==> t in tags
  {
    map e | e in entries ::
      if e in es then entries[e].(tags := BulkTags(entries[e].tags, tags, ts, action)) else entries[e]
  }

  /** `affected_count` per entry: one per tag, for both actions. */
  function PerEntry(action: string, tagCount: nat): nat {
    if action == "add" || action == "remove" then tagCount else 0
  }

  datatype BulkReply = BulkFailed | BulkDone(affected: nat, autoAssigned: nat)

  /** `bulk_assign_tags` on the parsed `entry_ids`, `tag_ids` and `action`. */
  method BulkAssign(db: Database, entryIds: seq<int>, tagIds: seq<int>, action: string) returns (r: BulkReply)
    modifies db
    ensures db.files == old(db.files) && db.images == old(db.images)
    ensures db.tags == old(db.tags) && db.tagTypes == old(db.tagTypes)
    ensures entryIds == [] || tagIds == [] ==> r == BulkFailed && db.entries == old(db.entries)
    ensures entryIds != [] && tagIds != [] ==>
              var es := Rows(old(db.entries).Keys, entryIds);
              var ts := Rows(db.tags.Keys, tagIds);
              db.entries == Bulk(old(db.entries), es, db.tags, ts, action) &&
              r == BulkDone(|es| * PerEntry(action, |ts|), |es| * (if action == "add" then RefCount(db.tags, ts) else 0))
  {
    if entryIds == [] || tagIds == [] {
      return BulkFailed;
    }
    var es := Rows(db.entries.Keys, entryIds);
    var ts := Rows(db.tags.Keys, tagIds);
    var affected, autoAssigned := 0, 0;
    for i := 0 to |es|
      invariant db.files == old(db.files) && db.images == old(db.images)
      invariant db.tags == old(db.tags) && db.tagTypes == old(db.tagTypes)
      invariant db.entries == Bulk(old(db.entries), es[..i], db.tags, ts, action)
      invariant affected == i * PerEntry(action, |ts|)
      invariant autoAssigned == i * (if action == "add" then RefCount(db.tags, ts) else 0)
    {
      var e := es[i];
      BulkStep(old(db.entries), es, i, db.tags, ts, action);
      MulStep(i, PerEntry(action, |ts|));
      MulStep(i, if action == "add" then RefCount(db.tags, ts) else 0);
      if action == "add" {
        var a, b := AddTags(db, e, ts);
        affected, autoAssigned := affected + a, autoAssigned + b;
      } else if action == "remove" {
        var a := RemoveTags(db, e, ts);
        affected := affected + a;
      }
    }
    assert es[..|es|] == es;
    r := BulkDone(affected, autoAssigned);
  }

  lemma MulStep(i: nat, k: nat)
    ensures (i + 1) * k == i * k + k
  {
  }

  /** One entry of the outer loop: it alone takes its new tag set. */
  lemma BulkStep(entries: map<Id, Entry>, es: seq<Id>, i: nat, tags: map<Id, Tag>, ts: seq<Id>, action: string)
    requires forall t :: t in ts ==> t in tags
    requires i < |es| && Distinct(es) && es[i] in entries
    ensures Bulk(entries, es[..i + 1], tags, ts, action) ==
              Bulk(entries, es[..i], tags, ts, action)[es[i] := entries[es[i]].(tags := BulkTags(entries[es[i]].tags, tags, ts, action))]
  {
    assert forall e :: e in es[..i + 1] <==> e in es[..i] || e == es[i];
    assert es[i] !in es[..i];
  }

  /** The inner loop of the 'add' action for one entry: each tag, then
      each of its reference tags. */
  method AddTags(db: Database, e: Id, ts: seq<Id>) returns (affected: nat, autoAssigned: nat)
    requires e in db.entries && forall t :: t in ts ==> t in db.tags
    modifies db
    ensures db.files == old(db.files) && db.images == old(db.images)
    ensures db.tags == old(db.tags) && db.tagTypes == old(db.tagTypes)
    ensures affected == |ts| && autoAssigned == RefCount(db.tags, ts)
    ensures db.entries == old(db.entries)[e := old(db.entries)[e].(tags := BulkTags(old(db.entries)[e].tags, db.tags, ts, "add"))]
  {
    affected, autoAssigned := 0, 0;
    ghost var start := db.entries[e];
    assert BulkTags(start.tags, db.tags, ts[..0], "add") == start.tags;
    assert db.entries == old(db.entries)[e := start.(tags := start.tags)];
    for i := 0 to |ts|
      invariant db.files == old(db.files) && db.images == old(db.images)
      invariant db.tags == old(db.tags) && db.tagTypes == old(db.tagTypes)
      invariant e in db.entries && db.entries == old(db.entries)[e := start.(tags := BulkTags(start.tags, db.tags, ts[..i], "add"))]
      invariant affected == i && autoAssigned == RefCount(db.tags, ts[..i])
    {
      var t := ts[i];
      AddStep(db.tags, start.tags, ts, i);
      var n := AddTag(db, e, t);
      affected, autoAssigned := affected + 1, autoAssigned + n;
    }
    assert ts[..|ts|] == ts;
  }

  /** One tag of the 'add' loop: the entry gains the tag and its reference
      tags, and the auto-assigned count grows by their number. */
  lemma AddStep(tags: map<Id, Tag>, current: set<Id>, ts: seq<Id>, i: nat)
    requires i < |ts| && forall t :: t in ts ==> t in tags
    ensures BulkTags(current, tags, ts[..i], "add") + {ts[i]} + tags[ts[i]].referenceTags ==
              BulkTags(current, tags, ts[..i + 1], "add")
    ensures RefCount(tags, ts[..i + 1]) == RefCount(tags, ts[..i]) + |tags[ts[i]].referenceTags|
  {
    assert ts[..i + 1][..i] == ts[..i];
  }

  /** `entry.tags.add(tag)` followed by the loop over the tag's
      reference tags: how many it auto-assigned. */
  method AddTag(db: Database, e: Id, t: Id) returns (n: nat)
    requires e in db.entries && t in db.tags
    modifies db
    ensures db.files == old(db.files) && db.images == old(db.images)
    ensures db.tags == old(db.tags) && db.tagTypes == old(db.tagTypes)
    ensures db.entries == old(db.entries)[e := old(db.entries)[e].(tags := old(db.entries)[e].tags + {t} + old(db.tags)[t].referenceTags)]
    ensures n == |old(db.tags)[t].referenceTags|
  {
    db.SetEntryTags(e, db.entries[e].tags + {t});
    ghost var m := db.entries;
    n := AddReferences(db, e, db.tags[t].referenceTags);
    Reupdate(old(db.entries), m, e, db.entries[e]);
  }

  /** `entry.tags.add(ref_tag)` for each reference tag, counting each. */
  method AddReferences(db: Database, e: Id, refs: set<Id>) returns (n: nat)
    requires e in db.entries
    modifies db
    ensures db.files == old(db.files) && db.images == old(db.images)
    ensures db.tags == old(db.tags) && db.tagTypes == old(db.tagTypes)
    ensures db.entries == old(db.entries)[e := old(db.entries)[e].(tags := old(db.entries)[e].tags + refs)]
    ensures n == |refs|
  {
    n := 0;
    var rest := refs;
    ghost var start := db.entries[e];
    assert start.tags + (refs - rest) == start.tags;
    assert db.entries == old(db.entries)[e := start.(tags := start.tags)];
    while rest != {}
      invariant rest <= refs && n + |rest| == |refs|
      invariant db.files == old(db.files) && db.images == old(db.images)
      invariant db.tags == old(db.tags) && db.tagTypes == old(db.tagTypes)
      invariant e in db.entries && db.entries == old(db.entries)[e := start.(tags := start.tags + (refs - rest))]
      decreases |rest|
    {
      var r :| r in rest;
      ghost var m := db.entries;
      db.SetEntryTags(e, db.entries[e].tags + {r});
      Reupdate(old(db.entries), m, e, db.entries[e]);
      assert start.tags + (refs - rest) + {r} == start.tags + (refs - (rest - {r}));
      n, rest := n + 1, rest - {r};
    }
    assert refs - rest == refs;
  }

  /** The inner loop of the 'remove' action for one entry. */
  method RemoveTags(db: Database, e: Id, ts: seq<Id>) returns (affected: nat)
    requires e in db.entries && forall t :: t in ts ==> t in db.tags
    modifies db
    ensures db.files == old(db.files) && db.images == old(db.images)
    ensures db.tags == old(db.tags) && db.tagTypes == old(db.tagTypes)
    ensures affected == |ts|
    ensures db.entries == old(db.entries)[e := old(db.entries)[e].(tags := BulkTags(old(db.entries)[e].tags, db.tags, ts, "remove"))]
  {
    affected := 0;
    ghost var start := db.entries[e];
    assert start.tags - Members(ts[..0]) == start.tags;
    assert db.entries == old(db.entries)[e := start.(tags := start.tags)];
    for i := 0 to |ts|
      invariant db.files == old(db.files) && db.images == old(db.images)
      invariant db.tags == old(db.tags) && db.tagTypes == old(db.tagTypes)
      invariant e in db.entries && db.entries == old(db.entries)[e := start.(tags := start.tags - Members(ts[..i]))]
      invariant affected == i
    {
      ghost var m := db.entries;
      db.SetEntryTags(e, db.entries[e].tags - {ts[i]});
      Reupdate(old(db.entries), m, e, db.entries[e]);
      RemoveStep(ts, i);
      assert start.tags - Members(ts[..i]) - {ts[i]} == start.tags - Members(ts[..i + 1]);
      affected := affected + 1;
    }
    assert ts[..|ts|] == ts;
  }

  lemma RemoveStep(ts: seq<Id>, i: nat)
    requires i < |ts|
    ensures Members(ts[..i + 1]) == Members(ts[..i]) + {ts[i]}
  {
    assert ts[..i + 1] == ts[..i] + [ts[i]];
  }

  /** The 'add' cascade is one level deep: an entry it selects gains every
      selected tag and every direct reference tag of one, keeps what it
      had, and gains nothing else, so a reference of a reference tag is
      not added. */
  lemma {:induction false} AddCascadesOneLevel(current: set<Id>, tags: map<Id, Tag>, ts: seq<Id>, x: Id)
    requires forall t :: t in ts ==> t in tags
    ensures current <= BulkTags(current, tags, ts, "add")
    ensures x in BulkTags(current, tags, ts, "add") <==>
              x in current || x in ts || exists i :: 0 <= i < |ts| && x in tags[ts[i]].referenceTags
  {
    RefsMember(tags, ts, x);
  }

  /** 'remove' drops the selected tags and nothing else: reference tags
      that came with them stay. */
  lemma RemoveKeepsReferences(current: set<Id>, tags: map<Id, Tag>, ts: seq<Id>, x: Id)
    requires forall t :: t in ts ==> t in tags
    ensures x in BulkTags(current, tags, ts, "remove") <==> x in current && x !in ts
  {
  }

  /** Adding again changes nothing. */
  lemma AddIdempotent(current: set<Id>, tags: map<Id, Tag>, ts: seq<Id>)
    requires forall t :: t in ts ==> t in tags
    ensures BulkTags(BulkTags(current, tags, ts, "add"), tags, ts, "add") == BulkTags(current, tags, ts, "add")
  {
  }

  /** Removing what was just added restores the entry exactly when it had
      none of the selected tags and already held every reference tag the
      cascade brought that is not itself selected. */
  lemma AddThenRemove(current: set<Id>, tags: map<Id, Tag>, ts: seq<Id>)
    requires forall t :: t in ts ==> t in tags
    ensures BulkTags(BulkTags(current, tags, ts, "add"), tags, ts, "remove") == current <==>
              current !! Members(ts) && Refs(tags, ts) - Members(ts) <= current
  {
    var after := BulkTags(BulkTags(current, tags, ts, "add"), tags, ts, "remove");
    assert after == (current + Refs(tags, ts)) - Members(ts);
    if after == current {
      forall x | x in current
        ensures x !in Members(ts)
      {
        assert x in after;
      }
    }
  }

  datatype QuickReply = QuickFailed | QuickDone(tagAssigned: bool, autoAssigned: bool, tagCount: nat)

  /** The tag set a quick action leaves and the reply's `assigned` and
      `auto_assigned`; None for an action other than 'toggle', 'add' and
      'remove', where `assigned` is never bound and the view fails. */
  function Quick(current: set<Id>, t: Id, refs: set<Id>, action: string): Option<(set<Id>, bool, bool)> {
    if action == "toggle" then
      if t in current then Some((current - {t}, false, false))
      else Some((current + {t} + refs, true, refs != {}))
    else if action == "add" then Some((current + {t} + refs, true, refs != {}))
    else if action == "remove" then Some((current - {t}, false, false))
    else None
  }

  /** The entry and tag a quick action names: a missing or zero id fails
      the view's check, and an unknown one raises the 404 that its
      `except` turns into a failure. */
  function QuickTarget(entries: map<Id, Entry>, tags: map<Id, Tag>, entryId: Option<int>, tagId: Option<int>): Option<(Id, Id)> {
    if entryId.None? || entryId.value == 0 || tagId.None? || tagId.value == 0 then None
    else if entryId.value < 1 || (entryId.value as Id) !in entries then None
    else if tagId.value < 1 || (tagId.value as Id) !in tags then None
    else Some((entryId.value as Id, tagId.value as Id))
  }

  /** `quick_tag_assign` on the parsed `entry_id`, `tag_id` and `action`. */
  method QuickAssign(db: Database, entryId: Option<int>, tagId: Option<int>, action: string) returns (r: QuickReply)
    modifies db
    ensures db.files == old(db.files) && db.images == old(db.images)
    ensures db.tags == old(db.tags) && db.tagTypes == old(db.tagTypes)
    ensures var target := QuickTarget(old(db.entries), db.tags, entryId, tagId);
            if target.None? then r == QuickFailed && db.entries == old(db.entries)
            else
              var e := target.value.0;
              var t := target.value.1;
              var outcome := Quick(old(db.entries)[e].tags, t, db.tags[t].referenceTags, action);
              if outcome.None? then r == QuickFailed && db.entries == old(db.entries)
              else
                db.entries == old(db.entries)[e := old(db.entries)[e].(tags := outcome.value.0)] &&
                r == QuickDone(outcome.value.1, outcome.value.2, |outcome.value.0|)
  {
    var target := QuickTarget(db.entries, db.tags, entryId, tagId);
    if target.None? {
      return QuickFailed;
    }
    var e, t := target.value.0, target.value.1;
    var refs := db.tags[t].referenceTags;
    var tagAssigned, autoAssigned := false, false;
    if action == "toggle" {
      if t in db.entries[e].tags {
        db.SetEntryTags(e, db.entries[e].tags - {t});
      } else {
        db.SetEntryTags(e, db.entries[e].tags + {t} + refs);
        tagAssigned, autoAssigned := true, refs != {};
      }
    } else if action == "add" {
      db.SetEntryTags(e, db.entries[e].tags + {t} + refs);
      tagAssigned, autoAssigned := true, refs != {};
    } else if action == "remove" {
      db.SetEntryTags(e, db.entries[e].tags - {t});
    } else {
      return QuickFailed;
    }
    r := QuickDone(tagAssigned, autoAssigned, |db.entries[e].tags|);
  }

  /** Toggling flips whether the entry has the tag. Toggling twice
      restores the entry exactly when it already held every reference tag
      other than the tag itself, so always when the tag has none. */
  lemma ToggleTwice(current: set<Id>, t: Id, refs: set<Id>)
    ensures t in Quick(current, t, refs, "toggle").value.0 <==> t !in current
    ensures Quick(Quick(current, t, refs, "toggle").value.0, t, refs, "toggle").value.0 == current <==>
              refs <= current + {t}
  {
    var once := Quick(current, t, refs, "toggle").value.0;
    var twice := Quick(once, t, refs, "toggle").value.0;
    if t in current {
      assert twice == current + refs;
    } else {
      assert twice == current + refs - {t};
      if twice == current {
        forall x | x in refs && x != t
          ensures x in current
        {
          assert x in twice;
        }
      }
    }
  }

  /** The quick 'add' and 'remove' do to one entry what the bulk actions
      do with that single tag selected. */
  lemma QuickAgreesWithBulk(current: set<Id>, tags: map<Id, Tag>, t: Id)
    requires t in tags
    ensures Quick(current, t, tags[t].referenceTags, "add").value.0 == BulkTags(current, tags, [t], "add")
    ensures Quick(current, t, tags[t].referenceTags, "remove").value.0 == BulkTags(current, tags, [t], "remove")
  {
    assert [t][..0] == [];
    assert Refs(tags, [t]) == tags[t].referenceTags;
    assert Members([t]) == {t};
  }

  /** Whether one of the entry's tags has the type `n`. */
  predicate HasTagOfType(e: Entry, tags: map<Id, Tag>, n: int) {
    exists t :: t in e.tags && t in tags && tags[t].tagType.Some? && tags[t].tagType.value == n
  }

  /** The "missing tag type" filter of `assign_tags`: with a number, the
      entries none of whose tags has that type; an empty or unparsable
      value is ignored. */
  function MissingTypeFilter(entries: map<Id, Entry>, tags: map<Id, Tag>, f: string): set<Id> {
    if f == "" then entries.Keys
    else
      match ParseInt(f)
      case None => entries.Keys
      case Some(n) => set e | e in entries && !HasTagOfType(entries[e], tags, n)
  }

  /** Adding a tag of type `n` to an entry takes it off the list of
      entries missing that type. */
  lemma AddingTypeClearsMissing(entries: map<Id, Entry>, es: seq<Id>, tags: map<Id, Tag>, ts: seq<Id>,
                                f: string, n: int, e: Id, i: nat)
    requires forall t :: t in ts ==> t in tags
    requires ParseInt(f) == Some(n) && e in es && i < |ts| && tags[ts[i]].tagType == Some(n)
    ensures e !in MissingTypeFilter(Bulk(entries, es, tags, ts, "add"), tags, f)
  {
    var after := Bulk(entries, es, tags, ts, "add");
    if e in after {
      assert ts[i] in after[e].tags;
    }
  }

  /** Removing every tag of type `n` an entry has puts it on the list of
      entries missing that type. */
  lemma RemovingTypeListsMissing(entries: map<Id, Entry>, es: seq<Id>, tags: map<Id, Tag>, ts: seq<Id>,
                                 f: string, n: int, e: Id)
    requires forall t :: t in ts ==> t in tags
    requires ParseInt(f) == Some(n) && e in es && e in entries
    requires forall t :: t in entries[e].tags && t in tags && tags[t].tagType == Some(n) ==> t in ts
    ensures e in MissingTypeFilter(Bulk(entries, es, tags, ts, "remove"), tags, f)
  {
    var after := Bulk(entries, es, tags, ts, "remove");
    assert f != "";
    assert !HasTagOfType(after[e], tags, n);
  }

  /** Writing a key again over a map that differs from `base` only at
      that key. */
  lemma Reupdate(base: map<Id, Entry>, m: map<Id, Entry>, k: Id, v: Entry)
    requires k in m && m == base[k := m[k]]
    ensures m[k := v] == base[k := v]
  {
  }
}
