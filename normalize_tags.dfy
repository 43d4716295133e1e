/** The `normalize_tags` management command: find the tags whose name is not in
    normal form, then (unless it is a dry run) either merge each into the tag that
    already carries the normalised name, moving the video and bookmark links over,
    or rename it in place. */
module NormalizeTagsCommand {
  import opened Wrappers
  import opened Seqs
  import opened UsersModels
  import opened OperationsModels
  import opened Store
  import opened OperationsUtils

  /** The command's test `tag.name != normalized`, stated without running the
      rewrite (`NormalizeFixedIff` shows the two agree). */
  predicate IsNormal(name: string) { IsNormalTagName(name) }

  /** The (tag, normalised name) pairs of the tags of `order` whose name is not
      normal, in the order of `order`. */
  function TagsToFix(order: seq<Id>, tags: map<Id, string>): (r: seq<(Id, string)>)
    requires forall t :: t in order ==> t in tags
    ensures |r| <= |order|
    ensures forall k :: 0 <= k < |r| ==>
      r[k].0 in order && !IsNormal(tags[r[k].0]) && r[k].1 == NormalizeTagName(tags[r[k].0])
  {
    if order == [] then []
    else
      var p := TagsToFix(order[..|order| - 1], tags);
      var t := order[|order| - 1];
      assert forall k :: 0 <= k < |p| ==> p[k].0 in order by {
        forall k | 0 <= k < |p| ensures p[k].0 in order {
          var j :| 0 <= j < |order| - 1 && order[..|order| - 1][j] == p[k].0;
          assert order[j] == p[k].0;
        }
      }
      if !IsNormal(tags[t]) then p + [(t, NormalizeTagName(tags[t]))] else p
  }

  lemma TagsToFixStep(order: seq<Id>, i: nat, tags: map<Id, string>)
    requires i < |order| && forall t :: t in order ==> t in tags
    ensures forall t :: t in order[..i + 1] ==> t in tags
    ensures TagsToFix(order[..i + 1], tags) ==
      TagsToFix(order[..i], tags)
      + (if !IsNormal(tags[order[i]]) then [(order[i], NormalizeTagName(tags[order[i]]))] else [])
  {
    assert order[..i + 1][..i] == order[..i];
  }

  lemma TagsToFixLast(order: seq<Id>, tags: map<Id, string>)
    requires order != [] && forall t :: t in order ==> t in tags
    ensures forall t :: t in order[..|order| - 1] ==> t in tags
    ensures var t := order[|order| - 1];
      TagsToFix(order, tags) == TagsToFix(order[..|order| - 1], tags)
        + (if !IsNormal(tags[t]) then [(t, NormalizeTagName(tags[t]))] else [])
  {
  }

  /** Every tag of `order` whose name is not normal is listed. */
  lemma {:induction false} TagsToFixComplete(order: seq<Id>, tags: map<Id, string>)
    requires forall t :: t in order ==> t in tags
    ensures forall t :: t in order && !IsNormal(tags[t]) ==>
      exists k :: 0 <= k < |TagsToFix(order, tags)| && TagsToFix(order, tags)[k].0 == t
  {
    if order != [] {
      var init := order[..|order| - 1];
      var t := order[|order| - 1];
      TagsToFixLast(order, tags);
      TagsToFixComplete(init, tags);
      var p := TagsToFix(init, tags);
      var r := TagsToFix(order, tags);
      forall u | u in order && !IsNormal(tags[u])
        ensures exists k :: 0 <= k < |r| && r[k].0 == u
      {
        if u != t {
          var j :| 0 <= j < |order| && order[j] == u;
          assert j < |order| - 1 && init[j] == u;
          var k :| 0 <= k < |p| && p[k].0 == u;
          assert r[k] == p[k];
        } else {
          assert r[|r| - 1].0 == t;
        }
      }
    }
  }

  /** A duplicate-free `order` lists each tag at most once. */
  lemma {:induction false} TagsToFixDistinct(order: seq<Id>, tags: map<Id, string>)
    requires forall t :: t in order ==> t in tags
    requires NoDup(order)
    ensures forall a, b :: 0 <= a < b < |TagsToFix(order, tags)| ==>
      TagsToFix(order, tags)[a].0 != TagsToFix(order, tags)[b].0
  {
    if order != [] {
      var init := order[..|order| - 1];
      var t := order[|order| - 1];
      TagsToFixLast(order, tags);
      assert NoDup(init);
      TagsToFixDistinct(init, tags);
      var p := TagsToFix(init, tags);
      var r := TagsToFix(order, tags);
      assert t !in init;
      forall a, b | 0 <= a < b < |r| ensures r[a].0 != r[b].0 {
        if b < |p| {
          assert r[a] == p[a] && r[b] == p[b];
        } else {
          assert r[b].0 == t && r[a] == p[a];
          assert p[a].0 in init;
        }
      }
    }
  }

  /** A tag set after `video.tags.remove(from)` and `video.tags.add(to)`, done only
      for the rows linked to `from`. */
  function Swap(ids: set<Id>, from: Id, to: Id): (r: set<Id>)
    ensures from != to ==> from !in r
    ensures from in ids ==> to in r
    ensures ids - {from} <= r <= ids + {to}
    ensures from !in ids ==> r == ids
  {
    if from in ids then ids - {from} + {to} else ids
  }

  /** The video table after every video linked to `from` is linked to `to` instead. */
  function RelinkVideos(videos: map<Id, Video>, from: Id, to: Id): (r: map<Id, Video>)
    ensures r.Keys == videos.Keys
    ensures forall v :: v in r ==> r[v] == videos[v].(tags := Swap(videos[v].tags, from, to))
  {
    map v | v in videos :: videos[v].(tags := Swap(videos[v].tags, from, to))
  }

  /** The bookmark table after every bookmark linked to `from` is linked to `to` instead. */
  function RelinkBookmarks(bookmarks: map<Id, Bookmark>, from: Id, to: Id): (r: map<Id, Bookmark>)
    ensures r.Keys == bookmarks.Keys
    ensures forall b :: b in r ==> r[b] == bookmarks[b].(tags := Swap(bookmarks[b].tags, from, to))
  {
    map b | b in bookmarks :: bookmarks[b].(tags := Swap(bookmarks[b].tags, from, to))
  }

  lemma RelinkKeepsTagLinks(videos: map<Id, Video>, bookmarks: map<Id, Bookmark>, tags: map<Id, string>,
                            tag: Id, existing: Id)
    requires TagLinks(videos, bookmarks, tags) && existing in tags && tag != existing
    ensures TagLinks(RelinkVideos(videos, tag, existing), RelinkBookmarks(bookmarks, tag, existing), tags - {tag})
  {
  }

  lemma RelinkKeepsBookmarks(bookmarks: map<Id, Bookmark>, users: map<Id, User>, channels: map<Id, Channel>,
                             videos: map<Id, Video>, tag: Id, existing: Id)
    requires BookmarkLinks(bookmarks, users, channels, videos) && BookmarksUnique(bookmarks)
    ensures BookmarkLinks(RelinkBookmarks(bookmarks, tag, existing), users, channels, RelinkVideos(videos, tag, existing))
    ensures BookmarksUnique(RelinkBookmarks(bookmarks, tag, existing))
  {
    var r := RelinkBookmarks(bookmarks, tag, existing);
    forall a, b | a in r && b in r && SameSlot(r[a], r[b]) ensures a == b {
      assert SameSlot(bookmarks[a], bookmarks[b]);
    }
  }

  /** Relinking a tag to itself changes nothing, so a rename and a merge can be
      stated alike. */
  lemma RelinkSelf(videos: map<Id, Video>, bookmarks: map<Id, Bookmark>, tag: Id)
    ensures RelinkVideos(videos, tag, tag) == videos
    ensures RelinkBookmarks(bookmarks, tag, tag) == bookmarks
  {
    forall v | v in videos ensures Swap(videos[v].tags, tag, tag) == videos[v].tags {
    }
    forall b | b in bookmarks ensures Swap(bookmarks[b].tags, tag, tag) == bookmarks[b].tags {
    }
  }

  /** Merge `tag` into `existing`: move its links over, then delete it. */
  method MergeTag(db: Db, tag: Id, existing: Id)
    requires db.Valid() && tag in db.tags && existing in db.tags && tag != existing
    modifies db`tags, db`videos, db`bookmarks
    ensures db.Valid()
    ensures db.tags == old(db.tags) - {tag}
    ensures db.videos == RelinkVideos(old(db.videos), tag, existing)
    ensures db.bookmarks == RelinkBookmarks(old(db.bookmarks), tag, existing)
  {
    RelinkKeepsTagLinks(db.videos, db.bookmarks, db.tags, tag, existing);
    RelinkKeepsBookmarks(db.bookmarks, db.users, db.channels, db.videos, tag, existing);
    db.videos := RelinkVideos(db.videos, tag, existing);
    db.bookmarks := RelinkBookmarks(db.bookmarks, tag, existing);
    db.tags := db.tags - {tag};
  }

  /** Rename `tag` in place; `save` leaves a normal name as it is. */
  method RenameTag(db: Db, tag: Id, normalized: string)
    requires db.Valid() && tag in db.tags && IsNormal(normalized)
    requires forall e :: e in db.tags && e != tag ==> db.tags[e] != normalized
    modifies db`tags
    ensures db.Valid()
    ensures db.tags == old(db.tags)[tag := normalized]
  {
    var t := new Tag(normalized);
    t.Save();
    NormalizeMatchesSave(normalized);
    NormalFormFixed(normalized);
    assert t.name == normalized;
    RenameKeepsTags(db.tags, db.videos, db.bookmarks, db.nextId, tag, normalized);
    db.tags := db.tags[tag := t.name];
  }

  /** Renaming one tag to a name no other tag has keeps the keys, the links and the
      unique names. */
  lemma {:induction false} RenameKeepsTags(tags: map<Id, string>, videos: map<Id, Video>, bookmarks: map<Id, Bookmark>,
                                           n: nat, tag: Id, name: string)
    requires tag in tags && NamesUnique(tags) && KeysBelow(tags, n) && TagLinks(videos, bookmarks, tags)
    requires forall e :: e in tags && e != tag ==> tags[e] != name
    ensures tags[tag := name].Keys == tags.Keys
    ensures NamesUnique(tags[tag := name]) && KeysBelow(tags[tag := name], n)
    ensures TagLinks(videos, bookmarks, tags[tag := name])
  {
    var after := tags[tag := name];
    assert after.Keys == tags.Keys;
    forall a, b | a in after && b in after && after[a] == after[b] ensures a == b {
      if a != tag && b != tag {
        assert tags[a] == tags[b];
      }
    }
  }

  /** Pending at step `j`: listed at position `j` or later. */
  predicate Pending(toFix: seq<(Id, string)>, j: nat, t: Id)
  {
    exists k :: j <= k < |toFix| && toFix[k].0 == t
  }

  /** The scan: every tag in `order` whose name the rewrite would change, with the
      name it would get. */
  method ScanTags(db: Db, order: seq<Id>) returns (toFix: seq<(Id, string)>)
    requires forall t :: t in order ==> t in db.tags
    ensures toFix == TagsToFix(order, db.tags)
  {
    toFix := [];
    var i := 0;
    while i < |order|
      invariant 0 <= i <= |order|
      invariant toFix == TagsToFix(order[..i], db.tags)
    {
      TagsToFixStep(order, i, db.tags);
      var name := db.tags[order[i]];
      var normalized := NormalizeTagName(name);
      NormalizeFixedIff(name);
      if name != normalized {
        toFix := toFix + [(order[i], normalized)];
      }
      i := i + 1;
    }
    assert order[..i] == order;
  }

  /** The tag that carries `name` once `tag` is fixed: the other tag that already
      has that name (the query `filter(name=normalized).exclude(id=tag.id)`), or
      else `tag` itself, renamed. */
  ghost function Survivor(tags: map<Id, string>, tag: Id, name: string): (s: Id)
    ensures s == tag <==> forall e :: e in tags && e != tag ==> tags[e] != name
    ensures s != tag ==> s in tags && tags[s] == name
  {
    if exists e :: e in tags && e != tag && tags[e] == name then
      var e :| e in tags && e != tag && tags[e] == name; e
    else tag
  }

  /** The tag table once `tag` is fixed: renamed in place, or deleted after a merge. */
  ghost function FixedTags(tags: map<Id, string>, tag: Id, name: string): map<Id, string>
  {
    if Survivor(tags, tag, name) == tag then tags[tag := name] else tags - {tag}
  }

  /** Fixing one tag removes no other tag and renames no other tag. */
  lemma FixedTagsShape(tags: map<Id, string>, tag: Id, name: string)
    requires tag in tags
    ensures FixedTags(tags, tag, name).Keys <= tags.Keys
    ensures tag in FixedTags(tags, tag, name) ==> FixedTags(tags, tag, name)[tag] == name
    ensures forall t :: t in tags && t != tag ==> t in FixedTags(tags, tag, name) && FixedTags(tags, tag, name)[t] == tags[t]
  {
  }

  /** The normalised names of the tags of `ids`. */
  function NormalNames(tags: map<Id, string>, ids: set<Id>): set<string>
  {
    set t | t in ids && t in tags :: NormalizeTagName(tags[t])
  }

  /** The names of the tags of `ids`. */
  function NamesIn(tags: map<Id, string>, ids: set<Id>): set<string>
  {
    set t | t in ids && t in tags :: tags[t]
  }

  /** Fixing one tag keeps the normalised names of every tag set, once the set's
      link to `tag` has moved to the survivor. */
  lemma {:induction false} FixKeepsNormalNames(tags: map<Id, string>, ids: set<Id>, tag: Id, name: string)
    requires tag in tags && name == NormalizeTagName(tags[tag])
    ensures NormalNames(FixedTags(tags, tag, name), Swap(ids, tag, Survivor(tags, tag, name)))
         == NormalNames(tags, ids)
  {
    NormalizeIdempotent(tags[tag]);
    var s := Survivor(tags, tag, name);
    if s == tag {
      RenameKeepsNormalNames(tags, ids, tag, name);
    } else {
      MergeKeepsNormalNames(tags, ids, tag, s, name);
    }
  }

  /** The rename case of `FixKeepsNormalNames`. */
  lemma {:induction false} RenameKeepsNormalNames(tags: map<Id, string>, ids: set<Id>, tag: Id, name: string)
    requires tag in tags && name == NormalizeTagName(tags[tag]) && NormalizeTagName(name) == name
    ensures NormalNames(tags[tag := name], Swap(ids, tag, tag)) == NormalNames(tags, ids)
  {
    var after := tags[tag := name];
    assert Swap(ids, tag, tag) == ids;
    forall t | t in ids && t in tags ensures t in after && NormalizeTagName(after[t]) == NormalizeTagName(tags[t]) {
    }
    assert after.Keys == tags.Keys;
  }

  /** The merge case of `FixKeepsNormalNames`: `s` already carries the name. */
  lemma {:induction false} MergeKeepsNormalNames(tags: map<Id, string>, ids: set<Id>, tag: Id, s: Id, name: string)
    requires tag in tags && s in tags && s != tag && tags[s] == name
    requires name == NormalizeTagName(tags[tag]) && NormalizeTagName(name) == name
    ensures NormalNames(tags - {tag}, Swap(ids, tag, s)) == NormalNames(tags, ids)
  {
    var after := tags - {tag};
    var moved := Swap(ids, tag, s);
    forall x | x in NormalNames(after, moved) ensures x in NormalNames(tags, ids) {
      var t :| t in moved && t in after && NormalizeTagName(after[t]) == x;
      if t == s && tag in ids {
        assert NormalizeTagName(tags[tag]) in NormalNames(tags, ids);
      } else {
        assert t in ids && t in tags && after[t] == tags[t];
      }
    }
    forall x | x in NormalNames(tags, ids) ensures x in NormalNames(after, moved) {
      var t :| t in ids && t in tags && NormalizeTagName(tags[t]) == x;
      if t == tag {
        assert s in moved && s in after && NormalizeTagName(after[s]) == x;
      } else {
        assert t in moved && t in after && after[t] == tags[t];
      }
    }
  }

  /** Every video and bookmark of `(videos0, bookmarks0)` is still there with its
      other fields as they were, and its tags, read in `tags`, have the normalised
      names its tags had in `tags0`. */
  ghost predicate LinksFollow(tags0: map<Id, string>, videos0: map<Id, Video>, bookmarks0: map<Id, Bookmark>,
                              tags: map<Id, string>, videos: map<Id, Video>, bookmarks: map<Id, Bookmark>)
  {
    videos.Keys == videos0.Keys && bookmarks.Keys == bookmarks0.Keys
    && (forall v :: v in videos0 ==>
          videos[v] == videos0[v].(tags := videos[v].tags)
          && NormalNames(tags, videos[v].tags) == NormalNames(tags0, videos0[v].tags))
    && (forall b :: b in bookmarks0 ==>
          bookmarks[b] == bookmarks0[b].(tags := bookmarks[b].tags)
          && NormalNames(tags, bookmarks[b].tags) == NormalNames(tags0, bookmarks0[b].tags))
  }

  /** Fixing one tag, with the links moved to the survivor, keeps `LinksFollow`. */
  lemma {:induction false} FixKeepsLinks(tags0: map<Id, string>, videos0: map<Id, Video>, bookmarks0: map<Id, Bookmark>,
                                         tags: map<Id, string>, videos: map<Id, Video>, bookmarks: map<Id, Bookmark>,
                                         tag: Id, name: string)
    requires LinksFollow(tags0, videos0, bookmarks0, tags, videos, bookmarks)
    requires tag in tags && name == NormalizeTagName(tags[tag])
    ensures var s := Survivor(tags, tag, name);
      LinksFollow(tags0, videos0, bookmarks0, FixedTags(tags, tag, name),
                  RelinkVideos(videos, tag, s), RelinkBookmarks(bookmarks, tag, s))
  {
    var s := Survivor(tags, tag, name);
    forall v | v in videos
      ensures NormalNames(FixedTags(tags, tag, name), Swap(videos[v].tags, tag, s)) == NormalNames(tags, videos[v].tags)
    {
      FixKeepsNormalNames(tags, videos[v].tags, tag, name);
    }
    forall b | b in bookmarks
      ensures NormalNames(FixedTags(tags, tag, name), Swap(bookmarks[b].tags, tag, s)) == NormalNames(tags, bookmarks[b].tags)
    {
      FixKeepsNormalNames(tags, bookmarks[b].tags, tag, name);
    }
  }

  /** Once every name is normal, the names of a tag set are its normalised names. */
  lemma {:induction false} NamesOfNormalTags(tags: map<Id, string>, ids: set<Id>)
    requires forall t :: t in tags ==> IsNormal(tags[t])
    ensures NamesIn(tags, ids) == NormalNames(tags, ids)
  {
    forall t | t in tags ensures NormalizeTagName(tags[t]) == tags[t] {
      NormalFormFixed(tags[t]);
    }
  }

  /** What `handle` promises of the links, from `LinksFollow` once every name is
      normal: each video and bookmark is tagged with exactly the normalised names of
      its old tags. */
  lemma {:induction false} FollowedNames(tags0: map<Id, string>, videos0: map<Id, Video>, bookmarks0: map<Id, Bookmark>,
                                         tags: map<Id, string>, videos: map<Id, Video>, bookmarks: map<Id, Bookmark>)
    requires LinksFollow(tags0, videos0, bookmarks0, tags, videos, bookmarks)
    requires forall t :: t in tags ==> IsNormal(tags[t])
    ensures forall v :: v in videos0 ==>
      videos[v] == videos0[v].(tags := videos[v].tags)
      && NamesIn(tags, videos[v].tags) == NormalNames(tags0, videos0[v].tags)
    ensures forall b :: b in bookmarks0 ==>
      bookmarks[b] == bookmarks0[b].(tags := bookmarks[b].tags)
      && NamesIn(tags, bookmarks[b].tags) == NormalNames(tags0, bookmarks0[b].tags)
  {
    forall v | v in videos0 ensures NamesIn(tags, videos[v].tags) == NormalNames(tags, videos[v].tags) {
      NamesOfNormalTags(tags, videos[v].tags);
    }
    forall b | b in bookmarks0 ensures NamesIn(tags, bookmarks[b].tags) == NormalNames(tags, bookmarks[b].tags) {
      NamesOfNormalTags(tags, bookmarks[b].tags);
    }
  }

  /** One item of the fix list: merge it into the tag that already carries the
      normalised name, or rename it. The new state is the survivor's: the tag table
      as `FixedTags` gives it, and every link to `tag` moved to the survivor (which
      leaves the links alone on a rename). */
  method FixOne(db: Db, tag: Id, normalized: string)
    requires db.Valid() && tag in db.tags && normalized == NormalizeTagName(db.tags[tag])
    modifies db`tags, db`videos, db`bookmarks
    ensures db.Valid()
    ensures var s := Survivor(old(db.tags), tag, normalized);
      db.tags == FixedTags(old(db.tags), tag, normalized)
      && db.videos == RelinkVideos(old(db.videos), tag, s)
      && db.bookmarks == RelinkBookmarks(old(db.bookmarks), tag, s)
    ensures db.tags.Keys <= old(db.tags.Keys)
    ensures tag in db.tags ==> db.tags[tag] == normalized
    ensures forall t :: t in old(db.tags) && t != tag ==> t in db.tags && db.tags[t] == old(db.tags)[t]
  {
    FixedTagsShape(db.tags, tag, normalized);
    if exists e :: e in db.tags && e != tag && db.tags[e] == normalized {
      var e :| e in db.tags && e != tag && db.tags[e] == normalized;
      assert Survivor(db.tags, tag, normalized) == e;
      MergeTag(db, tag, e);
    } else {
      RelinkSelf(db.videos, db.bookmarks, tag);
      RenameTag(db, tag, normalized);
    }
  }

  /** The loop of `handle` after `j` items of `toFix`: no tag was added, the items
      still to come are untouched, and every tag not still to come has a normal
      name. */
  ghost predicate Progress(tags0: map<Id, string>, tags: map<Id, string>, toFix: seq<(Id, string)>, j: nat)
  {
    tags.Keys <= tags0.Keys
    && (forall k :: j <= k < |toFix| ==> toFix[k].0 in tags && tags[toFix[k].0] == tags0[toFix[k].0])
    && (forall t :: t in tags && !Pending(toFix, j, t) ==> IsNormal(tags[t]))
  }

  /** The tag rows after some items of the fix list: a tag whose name was normal
      keeps its id and name, and every remaining tag has its old name or its
      normalised one. */
  ghost predicate RowsKept(tags0: map<Id, string>, tags: map<Id, string>)
  {
    (forall t :: t in tags0 && IsNormal(tags0[t]) ==> t in tags && tags[t] == tags0[t])
    && (forall t :: t in tags ==> t in tags0 && (tags[t] == tags0[t] || tags[t] == NormalizeTagName(tags0[t])))
  }

  /** Fixing one tag whose name was not normal, leaving every other tag as it was,
      keeps `RowsKept`. */
  lemma {:induction false} RowsKeptStep(tags0: map<Id, string>, before: map<Id, string>, after: map<Id, string>, tag: Id)
    requires RowsKept(tags0, before) && tag in tags0 && !IsNormal(tags0[tag])
    requires after.Keys <= before.Keys
    requires tag in after ==> after[tag] == NormalizeTagName(tags0[tag])
    requires forall t :: t in before && t != tag ==> t in after && after[t] == before[t]
    ensures RowsKept(tags0, after)
  {
    forall t | t in tags0 && IsNormal(tags0[t]) ensures t in after && after[t] == tags0[t] {
      assert t != tag && t in before;
    }
    forall t | t in after ensures t in tags0 && (after[t] == tags0[t] || after[t] == NormalizeTagName(tags0[t])) {
      assert t in before;
    }
  }

  /** Once every name is normal, `RowsKept` says each remaining tag carries the
      normalised form of its old name. */
  lemma {:induction false} RowsKeptEnd(tags0: map<Id, string>, tags: map<Id, string>)
    requires RowsKept(tags0, tags) && forall t :: t in tags ==> IsNormal(tags[t])
    ensures forall t :: t in tags ==> t in tags0 && tags[t] == NormalizeTagName(tags0[t])
  {
    forall t | t in tags ensures t in tags0 && tags[t] == NormalizeTagName(tags0[t]) {
      if tags[t] == tags0[t] {
        NormalFormFixed(tags0[t]);
      }
    }
  }

  /** The loop of `handle` after `j` items of the fix list, against the tables it
      started from. */
  ghost predicate FixDone(tags0: map<Id, string>, videos0: map<Id, Video>, bookmarks0: map<Id, Bookmark>,
                          tags: map<Id, string>, videos: map<Id, Video>, bookmarks: map<Id, Bookmark>,
                          toFix: seq<(Id, string)>, j: nat)
  {
    Progress(tags0, tags, toFix, j)
    && LinksFollow(tags0, videos0, bookmarks0, tags, videos, bookmarks)
    && RowsKept(tags0, tags)
  }

  /** Nothing fixed yet. */
  lemma FixStart(tags0: map<Id, string>, videos0: map<Id, Video>, bookmarks0: map<Id, Bookmark>,
                 toFix: seq<(Id, string)>)
    requires forall k :: 0 <= k < |toFix| ==> toFix[k].0 in tags0
    requires forall t :: t in tags0 && !IsNormal(tags0[t]) ==> exists k :: 0 <= k < |toFix| && toFix[k].0 == t
    ensures FixDone(tags0, videos0, bookmarks0, tags0, videos0, bookmarks0, toFix, 0)
  {
  }

  /** The whole list fixed: what `handle` promises of the tables. */
  lemma {:induction false} FixEnd(tags0: map<Id, string>, videos0: map<Id, Video>, bookmarks0: map<Id, Bookmark>,
                                  tags: map<Id, string>, videos: map<Id, Video>, bookmarks: map<Id, Bookmark>,
                                  toFix: seq<(Id, string)>)
    requires FixDone(tags0, videos0, bookmarks0, tags, videos, bookmarks, toFix, |toFix|)
    ensures forall t :: t in tags ==> IsNormal(tags[t])
    ensures tags.Keys <= tags0.Keys
    ensures forall t :: t in tags0 && IsNormal(tags0[t]) ==> t in tags && tags[t] == tags0[t]
    ensures forall t :: t in tags ==> tags[t] == NormalizeTagName(tags0[t])
    ensures videos.Keys == videos0.Keys && bookmarks.Keys == bookmarks0.Keys
    ensures forall v :: v in videos0 ==>
      videos[v] == videos0[v].(tags := videos[v].tags)
      && NamesIn(tags, videos[v].tags) == NormalNames(tags0, videos0[v].tags)
    ensures forall b :: b in bookmarks0 ==>
      bookmarks[b] == bookmarks0[b].(tags := bookmarks[b].tags)
      && NamesIn(tags, bookmarks[b].tags) == NormalNames(tags0, bookmarks0[b].tags)
  {
    forall t | t in tags ensures IsNormal(tags[t]) {
      assert !Pending(toFix, |toFix|, t);
    }
    FollowedNames(tags0, videos0, bookmarks0, tags, videos, bookmarks);
    RowsKeptEnd(tags0, tags);
  }

  /** Item `j` of a fix list drawn from `tags0`, each tag listed once. */
  method FixStep(db: Db, toFix: seq<(Id, string)>, j: nat, ghost tags0: map<Id, string>,
                 ghost videos0: map<Id, Video>, ghost bookmarks0: map<Id, Bookmark>)
    requires j < |toFix| && db.Valid()
    requires forall k :: 0 <= k < |toFix| ==>
      toFix[k].0 in tags0 && !IsNormal(tags0[toFix[k].0]) && toFix[k].1 == NormalizeTagName(tags0[toFix[k].0])
    requires forall a, b :: 0 <= a < b < |toFix| ==> toFix[a].0 != toFix[b].0
    requires FixDone(tags0, videos0, bookmarks0, db.tags, db.videos, db.bookmarks, toFix, j)
    modifies db`tags, db`videos, db`bookmarks
    ensures db.Valid()
    ensures FixDone(tags0, videos0, bookmarks0, db.tags, db.videos, db.bookmarks, toFix, j + 1)
  {
    var (tag, normalized) := toFix[j];
    ghost var before := db.tags;
    FixKeepsLinks(tags0, videos0, bookmarks0, db.tags, db.videos, db.bookmarks, tag, normalized);
    FixOne(db, tag, normalized);
    ProgressStep(tags0, before, db.tags, toFix, j);
    RowsKeptStep(tags0, before, db.tags, tag);
  }

  /** Fixing item `j` alone, leaving every other tag as it was, advances `Progress`. */
  lemma {:induction false} ProgressStep(tags0: map<Id, string>, before: map<Id, string>, after: map<Id, string>,
                                        toFix: seq<(Id, string)>, j: nat)
    requires j < |toFix| && Progress(tags0, before, toFix, j)
    requires forall k :: 0 <= k < |toFix| ==>
      toFix[k].0 in tags0 && toFix[k].1 == NormalizeTagName(tags0[toFix[k].0])
    requires forall a, b :: 0 <= a < b < |toFix| ==> toFix[a].0 != toFix[b].0
    requires after.Keys <= before.Keys
    requires toFix[j].0 in after ==> after[toFix[j].0] == toFix[j].1
    requires forall t :: t in before && t != toFix[j].0 ==> t in after && after[t] == before[t]
    ensures Progress(tags0, after, toFix, j + 1)
  {
    var tag := toFix[j].0;
    forall k | j + 1 <= k < |toFix| ensures toFix[k].0 in after && after[toFix[k].0] == tags0[toFix[k].0] {
      assert toFix[k].0 != tag;
    }
    forall t | t in after && !Pending(toFix, j + 1, t) ensures IsNormal(after[t]) {
      if t == tag {
        assert after[t] == NormalizeTagName(tags0[tag]);
      } else {
        assert !Pending(toFix, j, t) by {
          assert toFix[j].0 != t;
        }
      }
    }
  }

  /** `handle`: returns the list of tags it found; with that list empty or on a dry
      run nothing changes. Otherwise afterwards every tag name is normal, a tag
      whose name was normal keeps its id and name, every remaining tag carries the
      normalised form of its old name, tag names are still unique, every link
      still points at an existing tag, and every video and bookmark is tagged with
      exactly the normalised names of its old tags. */
  method Handle(db: Db, dryRun: bool, order: seq<Id>) returns (toFix: seq<(Id, string)>)
    requires db.Valid()
    requires NoDup(order) && forall t :: t in order <==> t in db.tags
    modifies db`tags, db`videos, db`bookmarks
    ensures db.Valid()
    ensures toFix == TagsToFix(order, old(db.tags))
    ensures toFix == [] || dryRun ==>
      db.tags == old(db.tags) && db.videos == old(db.videos) && db.bookmarks == old(db.bookmarks)
    ensures !dryRun ==> forall t :: t in db.tags ==> IsNormal(db.tags[t])
    ensures db.tags.Keys <= old(db.tags.Keys)
    ensures forall t :: t in old(db.tags) && IsNormal(old(db.tags)[t]) ==> t in db.tags && db.tags[t] == old(db.tags)[t]
    ensures !dryRun ==> forall t :: t in db.tags ==> db.tags[t] == NormalizeTagName(old(db.tags)[t])
    ensures db.videos.Keys == old(db.videos).Keys && db.bookmarks.Keys == old(db.bookmarks).Keys
    ensures !dryRun ==> forall v :: v in old(db.videos) ==>
      db.videos[v] == old(db.videos)[v].(tags := db.videos[v].tags)
      && NamesIn(db.tags, db.videos[v].tags) == NormalNames(old(db.tags), old(db.videos)[v].tags)
    ensures !dryRun ==> forall b :: b in old(db.bookmarks) ==>
      db.bookmarks[b] == old(db.bookmarks)[b].(tags := db.bookmarks[b].tags)
      && NamesIn(db.tags, db.bookmarks[b].tags) == NormalNames(old(db.tags), old(db.bookmarks)[b].tags)
  {
    toFix := ScanTags(db, order);
    TagsToFixComplete(order, db.tags);
    TagsToFixDistinct(order, db.tags);
    FixStart(db.tags, db.videos, db.bookmarks, toFix);
    if dryRun {
      return;
    }
    if toFix == [] {
      FixEnd(db.tags, db.videos, db.bookmarks, db.tags, db.videos, db.bookmarks, toFix);
      return;
    }
    for j := 0 to |toFix|
      invariant db.Valid()
      invariant FixDone(old(db.tags), old(db.videos), old(db.bookmarks), db.tags, db.videos, db.bookmarks, toFix, j)
    {
      FixStep(db, toFix, j, old(db.tags), old(db.videos), old(db.bookmarks));
    }
    FixEnd(old(db.tags), old(db.videos), old(db.bookmarks), db.tags, db.videos, db.bookmarks, toFix);
  }
}
